# HtmlPrinter model

A Dafny model of `HtmlPrinter`, the class in the Open Build Service API
documentation tool that turns a parsed documentation tree (sections,
requests, parameters, text, host/result/body nodes, XML result/body nodes, a
table-of-contents node and a version node) into a static `index.html`, and
that copies the XML example and schema files the documentation refers to
into the output directory.

The model keeps the source's shape:

- `HtmlPrinter` (printer.dfy) is a class whose fields are the Ruby instance
  variables: `outputDir`, the markup stream `html`, the two registries
  `xmlExamples` / `xmlSchemas`, the index file and a `log` of file effects.
  Each `print_*` method appends to `html`; `PrintXmlLinks` registers names;
  `Prepare` and `Finish` record their effects. Every method's `ensures`
  ties the new state to a specification function of the old state.
- The specification functions and the lemmas about them live in
  `Rendering` (render.dfy, one function per `print_*` rule and the walk over
  children), `XmlLinks` (xml_links.dfy, file names, registries and the
  paragraph of links), `TableOfContents` (contents.dfy, `create_contents_list`),
  `Finish` (finish.dfy, the effects of `do_prepare` and `do_finish`) and
  `Html` (html.dfy, the markup stream and its nesting discipline). `Anchors`
  (anchors.dfy) connects the table of contents with the printed requests.
- `create_contents_list` is both a recursive function (`ContentsList`) and a
  loop-based method (`HtmlPrinter.CreateContentsList`) proved equal to it.

Abstractions:

- The markup writer `Builder::XmlMarkup` is modelled as a sequence of
  `Markup` events: start tag with attributes, end tag, escaped content, and
  verbatim text (`p << x`). Its indentation and serialisation are not modelled.
- The escaping helper `h` is not defined in this file; it is a function value
  `esc` given to the printer's constructor, and every property holds for any
  `esc`.
- The file system is a `set<string>` of paths that exist; `File.exist?`
  is membership. Directory creation, opening and closing the index, the
  "Written" notice, the "is missing" warnings and the copies are `Effect`
  values appended to `log`.
- The node classes of the `rest` library are not part of this model; the
  attributes the printer reads are fields of the `Node` datatype
  (nodes.dfy). The library's `print_children` and node dispatch are
  modelled by `HtmlPrinter.PrintChildren` and `HtmlPrinter.Visit`.
- `contents.root` is the document root, which contains the contents node
  itself; since a datatype cannot contain itself, the root is passed to the
  printing methods as `doc`.
- The registries `@xml_examples` and `@xml_schemas`, Ruby `Hash`es used as
  sets, are sequences without duplicates in registration order; registering
  a known name leaves the sequence unchanged.

Two behaviours of the printer worth stating on their own: sections whose
level is below `min_level` stay in the table of contents and contribute
their children's entries unwrapped (docs/api/rest_htmlprinter.rb:155-163);
and each line of a text node is followed by a verbatim newline
(docs/api/rest_htmlprinter.rb:85).

## Model

| member | source | states |
|---|---|---|
| Printer.HtmlPrinter.constructor | docs/api/rest_htmlprinter.rb:9-14 | output directory "html", both registries empty |
| Printer.HtmlPrinter.Prepare | docs/api/rest_htmlprinter.rb:16-22 | the directory is created only when it does not exist, then `<dir>/index.html` is opened and the stream starts empty |
| Printer.HtmlPrinter.Finish | docs/api/rest_htmlprinter.rb:24-43 | the log grows by exactly `FinishEffects`: notice, one check per registered example then per schema in registration order, close |
| Printer.HtmlPrinter.Visit | docs/api/rest_htmlprinter.rb:45-170 | printing any node appends exactly its `Render` markup and registers its XML file names in document order; registries stay duplicate-free |
| Printer.HtmlPrinter.PrintChildren | docs/api/rest_htmlprinter.rb:50 | children are printed in order: the stream grows by the concatenation of their markup |
| Printer.HtmlPrinter.PrintSection | docs/api/rest_htmlprinter.rb:45-51 | an `h<level>` heading with the title only for a non-root section, then the children |
| Printer.HtmlPrinter.PrintRequest | docs/api/rest_htmlprinter.rb:53-80 | a request div holding the anchor named by the id around the bold title, the Arguments block, then the children |
| Printer.HtmlPrinter.PrintText | docs/api/rest_htmlprinter.rb:82-88 | one paragraph, every line followed by a newline |
| Printer.HtmlPrinter.PrintParameter | docs/api/rest_htmlprinter.rb:90-91 | a standalone parameter changes nothing |
| Printer.HtmlPrinter.PrintHost | docs/api/rest_htmlprinter.rb:93-95 | one paragraph "Host: name" |
| Printer.HtmlPrinter.PrintResult | docs/api/rest_htmlprinter.rb:97-99 | one paragraph "Result: name" |
| Printer.HtmlPrinter.PrintBody | docs/api/rest_htmlprinter.rb:101-103 | one paragraph "Body: name" |
| Printer.HtmlPrinter.PrintXmlResult | docs/api/rest_htmlprinter.rb:105-107 | the links paragraph titled "Result" and registration of both names |
| Printer.HtmlPrinter.PrintXmlBody | docs/api/rest_htmlprinter.rb:109-111 | the links paragraph titled "Body" and registration of both names |
| Printer.HtmlPrinter.PrintXmlLinks | docs/api/rest_htmlprinter.rb:113-136 | registers the example and schema names and appends the links paragraph |
| Printer.HtmlPrinter.PrintContents | docs/api/rest_htmlprinter.rb:138-142 | a paragraph holding the document's table of contents from level 1, verbatim |
| Printer.HtmlPrinter.CreateContentsList | docs/api/rest_htmlprinter.rb:144-166 | the loop over the children and the level rules compute exactly `ContentsList` |
| Printer.HtmlPrinter.PrintVersion | docs/api/rest_htmlprinter.rb:168-170 | one paragraph "Version: v" |
| XmlLinks.NamesFor | docs/api/rest_htmlprinter.rb:113-117 | example is `<name>.xml`; schema is the given one when non-nil and non-empty, else `<name>.xsd`; the two differ unless the caller named the example as schema |
| XmlLinks.Register | docs/api/rest_htmlprinter.rb:118-119 | the registry gains exactly the name, keeps its order and stays duplicate-free; a known name changes nothing |
| XmlLinks.LinksParagraphShape | docs/api/rest_htmlprinter.rb:120-135 | the paragraph starts with `title: `; Example link first iff the example exists; a space and a Schema link last iff the schema exists; the bare name iff neither exists |
| XmlLinks.LinkBodyShape | docs/api/rest_htmlprinter.rb:123-134 | the links part of the paragraph: opens with the Example link iff the example exists, closes with a space and the Schema link iff the schema exists, and is exactly the bare name iff neither exists |
| Rendering.LinksWellNested | docs/api/rest_htmlprinter.rb:120-135 | the links paragraph closes every element it opens |
| Rendering.ParameterItemsInOrder | docs/api/rest_htmlprinter.rb:69-76 | one list item per parameter, in parameter order |
| Rendering.TextLinesInOrder | docs/api/rest_htmlprinter.rb:82-88 | each line appears in order followed by a newline |
| Rendering.RenderWellNested | docs/api/rest_htmlprinter.rb:45-170 | the markup of every node, whatever the tree, closes each element it opens, innermost first |
| Rendering.RequestWellNested | docs/api/rest_htmlprinter.rb:53-80 | a request block (div, anchored title paragraph, optional argument list, children) is well nested whenever the children's markup is |
| TableOfContents.ContentsEmptyIff | docs/api/rest_htmlprinter.rb:144-166 | the list is empty iff no request lies below the section through sections |
| TableOfContents.ChildEntriesEmptyIff | docs/api/rest_htmlprinter.rb:146-153 | the accumulated entries are empty iff no child is a request or a section with requests below it |
| TableOfContents.ContentsLevels | docs/api/rest_htmlprinter.rb:154-164 | with requests below: title item only above `min_level`, `<ul>` wrapping only at or above it, children's entries unchanged below it |
| TableOfContents.RelevantEntries | docs/api/rest_htmlprinter.rb:146-153 | dropping every child that is neither a request nor a section with requests leaves the entries unchanged |
| TableOfContents.EmptySectionOmitted | docs/api/rest_htmlprinter.rb:146-153 | a section without requests contributes nothing, wherever it stands among its siblings |
| Anchors.ListedHasEntry | docs/api/rest_htmlprinter.rb:144-166 | every request below a section through sections has its `<li><a href="#id">` entry in that section's list |
| Anchors.ListedHasAnchor | docs/api/rest_htmlprinter.rb:45-80 | every request below a section through sections is printed with the anchor named by its id |
| Anchors.ContentsLinksResolve | docs/api/rest_htmlprinter.rb:57-151 | each request the document's table of contents reaches has an entry linking to `#id`, and the printed document holds that anchor |
| Finish.MissingOnce | docs/api/rest_htmlprinter.rb:27-40 | over a duplicate-free registry, exactly one warning per missing registered file and none for any other file |
| Finish.CopiedOnce | docs/api/rest_htmlprinter.rb:27-40 | over a duplicate-free registry, exactly one copy per present registered file and none for any other file |
| Finish.CheckFilesKinds | docs/api/rest_htmlprinter.rb:27-40 | a registry loop only warns with its own kind about missing files and only copies present files into the output directory |
| Finish.FinishWarnsOnce | docs/api/rest_htmlprinter.rb:24-43 | with duplicate-free registries, each registered example or schema that is missing is warned about exactly once, and no other file is warned about |
| Finish.FinishCopiesPresent | docs/api/rest_htmlprinter.rb:27-40 | a file is copied iff it is registered as an example or schema and exists; a copied file is never also warned about |

## Left out

- The rest of the repository (the token trigger service, the workflow YAML
  loader and the web UI feature tests): not part of the documentation printer.
- Real I/O: `Dir.mkdir`, `File.new`, `File.copy`, closing the index and the
  text written to standard output and standard error are recorded as `Effect`
  values; their failures (fatal in the source) are not modelled.
- The exact text of the messages ("Written <path>.", "XML Example '<file>' is
  missing.", "XML Schema '<file>' is missing."): an effect records its kind
  and file, not the string.
- `Builder::XmlMarkup` indentation and character escaping, and the body of the
  `h` helper, which is not part of this model.
- The request host paragraph under `if false`: it never runs.
- The file system is one snapshot per call; a file appearing or disappearing
  between `print_xml_links` and `do_finish` is expressed only by passing a
  different set to `Finish`.
- Printing before `do_prepare` (where the Ruby stream is still `nil`) is not
  rejected; `Prepare` resets the stream.
- Printer.HtmlPrinter.Finish: finishing before `do_prepare` makes the source
  fail on the `nil` index (`@index.path`); the method requires a prepared
  index and does not model that failure.
- Printer.HtmlPrinter.Finish: the order of the "is missing" warnings and of
  the copies within each registry loop follows registration order, which is
  an assumption of the model: the source iterates `Hash#each`, whose order
  the Ruby versions it targets (those with `File.copy` and `File.exists?`)
  do not specify. `FinishWarnsOnce`, `FinishCopiesPresent`, `MissingOnce` and
  `CopiedOnce` count effects by multiset or membership and do not depend on
  that order.
