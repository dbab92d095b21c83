/**
 * `HtmlPrinter`: the printer object. Its `print_*` methods append to the
 * markup stream `html`, `print_xml_links` records file names in the two
 * registries, and `do_prepare` / `do_finish` perform the file effects,
 * recorded in `log`. `files` is the set of paths that exist.
 */
module Printer {
  import opened Wrappers
  import opened RestNodes
  import opened Html
  import opened XmlLinks
  import opened TableOfContents
  import opened Rendering
  import opened Finish
  import opened SeqSteps

  class HtmlPrinter {
    var outputDir: string
    var html: seq<Markup>
    var xmlExamples: seq<string>
    var xmlSchemas: seq<string>
    var index: Option<string>   // path of the index file once prepared
    var log: seq<Effect>
    const esc: string -> string  // the escaping helper `h`

    /** The registries are Hash keys: no name twice. */
    ghost predicate Valid()
      reads this`xmlExamples, this`xmlSchemas
    {
      NoDup(xmlExamples) && NoDup(xmlSchemas)
    }

    /** `initialize`. */
    constructor (esc: string -> string)
      ensures Valid()
      ensures outputDir == "html" && html == [] && xmlExamples == [] && xmlSchemas == []
      ensures index == None && log == [] && this.esc == esc
    {
      this.esc := esc;
      outputDir := "html";
      html := [];
      xmlExamples := [];
      xmlSchemas := [];
      index := None;
      log := [];
    }

    /** `do_prepare`: make the directory if needed, open the index, start a fresh stream. */
    method Prepare(files: set<string>)
      modifies this`log, this`index, this`html
      ensures log == old(log) + PrepareEffects(outputDir, files)
      ensures index == Some(IndexPath(outputDir)) && html == []
    {
      if outputDir !in files {
        log := log + [MadeDir(outputDir)];
      }
      index := Some(outputDir + "/index.html");
      log := log + [OpenedIndex(outputDir + "/index.html")];
      html := [];
    }

    /** `do_finish`: announce the index, check both registries, close the index. */
    method Finish(files: set<string>)
      requires index.Some?
      modifies this`log
      ensures log == old(log) + FinishEffects(index.value, xmlExamples, xmlSchemas, files, outputDir)
    {
      ghost var start := log;
      log := log + [Announced(index.value)];
      ghost var pre := log;
      var i := 0;
      while i < |xmlExamples|
        invariant 0 <= i <= |xmlExamples|
        invariant log == pre + CheckFiles(Example, xmlExamples[..i], files, outputDir)
      {
        var f := xmlExamples[i];
        CheckFilesStep(Example, xmlExamples, i, files, outputDir);
        Assoc(pre, CheckFiles(Example, xmlExamples[..i], files, outputDir), [Check(Example, f, files, outputDir)]);
        if !(f in files) {
          log := log + [Missing(Example, f)];
        } else {
          log := log + [Copied(f, outputDir)];
        }
        i := i + 1;
      }
      assert xmlExamples[..i] == xmlExamples;
      ghost var mid := log;
      i := 0;
      while i < |xmlSchemas|
        invariant 0 <= i <= |xmlSchemas|
        invariant log == mid + CheckFiles(Schema, xmlSchemas[..i], files, outputDir)
      {
        var f := xmlSchemas[i];
        CheckFilesStep(Schema, xmlSchemas, i, files, outputDir);
        Assoc(mid, CheckFiles(Schema, xmlSchemas[..i], files, outputDir), [Check(Schema, f, files, outputDir)]);
        if !(f in files) {
          log := log + [Missing(Schema, f)];
        } else {
          log := log + [Copied(f, outputDir)];
        }
        i := i + 1;
      }
      assert xmlSchemas[..i] == xmlSchemas;
      log := log + [ClosedIndex(index.value)];
      Framed(start, Announced(index.value), CheckFiles(Example, xmlExamples, files, outputDir),
             CheckFiles(Schema, xmlSchemas, files, outputDir), ClosedIndex(index.value));
    }

    /**
     * The node's own `print` in the `rest` library: dispatch on the kind of
     * node to the matching `print_*` method.
     */
    method Visit(doc: Node, n: Node, files: set<string>)
      requires Valid() && doc.Section?
      modifies this`html, this`xmlExamples, this`xmlSchemas
      ensures Valid()
      ensures html == old(html) + Render(Env(doc, files, esc), n)
      ensures xmlExamples == RegisterAll(old(xmlExamples), Examples(XmlFiles(n)))
      ensures xmlSchemas == RegisterAll(old(xmlSchemas), Schemas(XmlFiles(n)))
      decreases n, 2
    {
      match n
      case Section(_, _, _, _) => PrintSection(doc, n, files);
      case Request(_, _, _, _) => PrintRequest(doc, n, files);
      case Text(_) => PrintText(n);
      case Parameter(_) => PrintParameter(n);
      case Host(_) => PrintHost(n);
      case Result(_) => PrintResult(n);
      case Body(_) => PrintBody(n);
      case XmlResult(_, _) => RegisterOne(xmlExamples, xmlSchemas, n); PrintXmlResult(n, files);
      case XmlBody(_, _) => RegisterOne(xmlExamples, xmlSchemas, n); PrintXmlBody(n, files);
      case Contents => PrintContents(doc);
      case Version(_) => PrintVersion(n);
    }

    /** `print_children`: visit the children of a section or request in order. */
    method PrintChildren(doc: Node, ns: seq<Node>, files: set<string>)
      requires Valid() && doc.Section?
      modifies this`html, this`xmlExamples, this`xmlSchemas
      ensures Valid()
      ensures html == old(html) + RenderAll(Env(doc, files, esc), ns)
      ensures xmlExamples == RegisterAll(old(xmlExamples), Examples(XmlFilesAll(ns)))
      ensures xmlSchemas == RegisterAll(old(xmlSchemas), Schemas(XmlFilesAll(ns)))
      decreases ns, 0
    {
      var env := Env(doc, files, esc);
      ghost var h0, e0, s0 := html, xmlExamples, xmlSchemas;
      var i := 0;
      while i < |ns|
        invariant 0 <= i <= |ns| && Valid()
        invariant html == h0 + RenderAll(env, ns[..i])
        invariant xmlExamples == RegisterAll(e0, Examples(XmlFilesAll(ns[..i])))
        invariant xmlSchemas == RegisterAll(s0, Schemas(XmlFilesAll(ns[..i])))
      {
        ghost var h, e, s := html, xmlExamples, xmlSchemas;
        Visit(doc, ns[i], files);
        Advance(env, ns, i, h0, e0, s0, h, e, s, html, xmlExamples, xmlSchemas);
        i := i + 1;
      }
      assert ns[..i] == ns;
    }

    /** `print_section`: a heading unless the section is the root, then the children. */
    method PrintSection(doc: Node, s: Node, files: set<string>)
      requires Valid() && doc.Section? && s.Section?
      modifies this`html, this`xmlExamples, this`xmlSchemas
      ensures Valid()
      ensures html == old(html) + (SectionHeading(s) + RenderAll(Env(doc, files, esc), s.children))
      ensures !s.isRoot ==> html[|old(html)|..|old(html)| + 3] == Element(HeadingTag(s.level), [], s.title)
      ensures xmlExamples == RegisterAll(old(xmlExamples), Examples(XmlFilesAll(s.children)))
      ensures xmlSchemas == RegisterAll(old(xmlSchemas), Schemas(XmlFilesAll(s.children)))
      decreases s, 1
    {
      ghost var h0, head := html, SectionHeading(s);
      if !s.isRoot {
        html := html + Element(HeadingTag(s.level), [], s.title);
      }
      assert html == h0 + head;
      PrintChildren(doc, s.children, files);
      ghost var rest := RenderAll(Env(doc, files, esc), s.children);
      MiddleSlice(h0, head, rest);
      Assoc(h0, head, rest);
    }

    /**
     * `print_request`: a request block with the anchored title, the
     * "Arguments:" list when there are parameters, then the children.
     */
    method PrintRequest(doc: Node, r: Node, files: set<string>)
      requires Valid() && doc.Section? && r.Request?
      modifies this`html, this`xmlExamples, this`xmlSchemas
      ensures Valid()
      ensures html == old(html) + Wrap("div", [Attr("class", "request")],
        RequestTitle(r.id, r.title) + Arguments(r.parameters) + RenderAll(Env(doc, files, esc), r.children))
      ensures xmlExamples == RegisterAll(old(xmlExamples), Examples(XmlFilesAll(r.children)))
      ensures xmlSchemas == RegisterAll(old(xmlSchemas), Schemas(XmlFilesAll(r.children)))
      decreases r, 1
    {
      ghost var h0 := html;
      html := html + [StartTag("div", [Attr("class", "request")])];
      html := html + RequestTitle(r.id, r.title);
      ghost var h1 := html;
      var ps := r.parameters;
      if |ps| > 0 {
        html := html + Element("p", [], "Arguments:");
        html := html + [StartTag("ul", [])];
        ghost var before := html;
        var i := 0;
        while i < |ps|
          invariant 0 <= i <= |ps|
          invariant html == before + ParameterItems(ps[..i])
          modifies this`html
        {
          assert ps[..i + 1][..i] == ps[..i];
          Assoc(before, ParameterItems(ps[..i]), Element("li", [], ps[i]));
          html := html + Element("li", [], ps[i]);
          i := i + 1;
        }
        assert ps[..i] == ps;
        html := html + [EndTag("ul")];
        Spliced(h1, Element("p", [], "Arguments:"), StartTag("ul", []), ParameterItems(ps), EndTag("ul"));
      }
      ghost var h2 := html;
      assert h2 == h1 + Arguments(ps);
      ghost var kids := RenderAll(Env(doc, files, esc), r.children);
      PrintChildren(doc, r.children, files);
      assert html == h2 + kids;
      html := html + [EndTag("div")];
      Nested(h0, StartTag("div", [Attr("class", "request")]), RequestTitle(r.id, r.title), Arguments(ps), kids, EndTag("div"));
    }

    /** `print_text`: one paragraph, each line followed by a line break. */
    method PrintText(t: Node)
      requires t.Text?
      modifies this`html
      ensures html == old(html) + Wrap("p", [], TextLines(t.lines))
    {
      html := html + [StartTag("p", [])];
      var before := html;
      var i := 0;
      while i < |t.lines|
        invariant 0 <= i <= |t.lines|
        invariant html == before + TextLines(t.lines[..i])
        modifies this`html
      {
        assert t.lines[..i + 1][..i] == t.lines[..i];
        Assoc(before, TextLines(t.lines[..i]), [Verbatim(t.lines[i]), Verbatim("\n")]);
        html := html + [Verbatim(t.lines[i]), Verbatim("\n")];
        i := i + 1;
      }
      assert t.lines[..i] == t.lines;
      html := html + [EndTag("p")];
    }

    /** `print_parameter`: parameters are printed by their request only. */
    method PrintParameter(p: Node)
      requires p.Parameter?
      ensures unchanged(this)
    {
    }

    /** `print_host`. */
    method PrintHost(n: Node)
      requires n.Host?
      modifies this`html
      ensures html == old(html) + Element("p", [], "Host: " + n.name)
    {
      html := html + Element("p", [], "Host: " + n.name);
    }

    /** `print_result`. */
    method PrintResult(n: Node)
      requires n.Result?
      modifies this`html
      ensures html == old(html) + Element("p", [], "Result: " + n.name)
    {
      html := html + Element("p", [], "Result: " + n.name);
    }

    /** `print_body`. */
    method PrintBody(n: Node)
      requires n.Body?
      modifies this`html
      ensures html == old(html) + Element("p", [], "Body: " + n.name)
    {
      html := html + Element("p", [], "Body: " + n.name);
    }

    /** `print_version`. */
    method PrintVersion(n: Node)
      requires n.Version?
      modifies this`html
      ensures html == old(html) + Element("p", [], "Version: " + n.version)
    {
      html := html + Element("p", [], "Version: " + n.version);
    }

    /** `print_xmlresult`. */
    method PrintXmlResult(n: Node, files: set<string>)
      requires Valid() && n.XmlResult?
      modifies this`html, this`xmlExamples, this`xmlSchemas
      ensures Valid()
      ensures html == old(html) + LinksParagraph("Result", n.name, n.schema, files)
      ensures xmlExamples == Register(old(xmlExamples), NamesFor(n.name, n.schema).example)
      ensures xmlSchemas == Register(old(xmlSchemas), NamesFor(n.name, n.schema).schema)
    {
      PrintXmlLinks("Result", n.name, n.schema, files);
    }

    /** `print_xmlbody`. */
    method PrintXmlBody(n: Node, files: set<string>)
      requires Valid() && n.XmlBody?
      modifies this`html, this`xmlExamples, this`xmlSchemas
      ensures Valid()
      ensures html == old(html) + LinksParagraph("Body", n.name, n.schema, files)
      ensures xmlExamples == Register(old(xmlExamples), NamesFor(n.name, n.schema).example)
      ensures xmlSchemas == Register(old(xmlSchemas), NamesFor(n.name, n.schema).schema)
    {
      PrintXmlLinks("Body", n.name, n.schema, files);
    }

    /**
     * `print_xml_links`: derive the two file names, register them, and write
     * the paragraph of links to the files that exist.
     */
    method PrintXmlLinks(title: string, xmlname: string, schema: Option<string>, files: set<string>)
      requires Valid()
      modifies this`html, this`xmlExamples, this`xmlSchemas
      ensures Valid()
      ensures html == old(html) + LinksParagraph(title, xmlname, schema, files)
      ensures xmlExamples == Register(old(xmlExamples), NamesFor(xmlname, schema).example)
      ensures xmlSchemas == Register(old(xmlSchemas), NamesFor(xmlname, schema).schema)
    {
      var names := NamesFor(xmlname, schema);
      var example := names.example;
      var schemaName := names.schema;
      xmlExamples := Register(xmlExamples, example);
      xmlSchemas := Register(xmlSchemas, schemaName);
      ghost var e1, s1 := xmlExamples, xmlSchemas;
      ghost var h0 := html;
      ghost var lead := [Verbatim(title), Verbatim(": ")];
      html := html + [StartTag("p", []), Verbatim(title), Verbatim(": ")];
      assert html == h0 + ([StartTag("p", [])] + lead);
      ghost var opening := html;
      var hasExample := example in files;
      var hasSchema := schemaName in files;
      ghost var p1: seq<Markup> := if hasExample then Link("Example", example) else [];
      ghost var p2: seq<Markup> := if hasSchema then [Verbatim(" ")] + Link("Schema", schemaName) else [];
      ghost var p3: seq<Markup> := if !hasExample && !hasSchema then [Verbatim(xmlname)] else [];
      assert LinkBody(xmlname, names, files) == p1 + p2 + p3;
      if hasExample {
        html := html + Link("Example", example);
      }
      assert html == opening + p1;
      if hasSchema {
        html := html + [Verbatim(" ")] + Link("Schema", schemaName);
        Assoc3(opening, p1, [Verbatim(" ")], Link("Schema", schemaName));
      }
      assert html == opening + (p1 + p2);
      if !hasExample && !hasSchema {
        html := html + [Verbatim(xmlname)];
      }
      Assoc(opening, p1 + p2, p3);
      assert html == opening + LinkBody(xmlname, names, files);
      ghost var body := LinkBody(xmlname, names, files);
      html := html + [EndTag("p")];
      Opened(h0, StartTag("p", []), lead, body, EndTag("p"));
      assert xmlExamples == e1 && xmlSchemas == s1;
    }

    /** `print_contents`: the table of contents of the document, in a paragraph. */
    method PrintContents(doc: Node)
      requires doc.Section?
      modifies this`html
      ensures html == old(html) + Wrap("p", [], [Verbatim(ContentsList(doc, 1, esc))])
    {
      var list := CreateContentsList(doc, 1);
      html := html + [StartTag("p", []), Verbatim(list), EndTag("p")];
    }

    /**
     * `create_contents_list`: accumulate the children's entries in order,
     * then title and wrap them according to the section's level.
     */
    method CreateContentsList(section: Node, minLevel: int) returns (r: string)
      requires section.Section?
      ensures r == ContentsList(section, minLevel, esc)
      decreases section
    {
      var ns := section.children;
      var result := "";
      var i := 0;
      while i < |ns|
        invariant 0 <= i <= |ns|
        invariant result == ChildEntries(ns[..i], minLevel, esc)
      {
        var s := ns[i];
        assert ns[..i + 1][..i] == ns[..i] && ns[..i + 1][i] == s;
        ghost var prev := result;
        if s.Section? {
          var sub := CreateContentsList(s, minLevel);
          result := result + sub;
          assert result == prev + sub + "";
        } else if s.Request? {
          result := result + RequestEntry(s.id, s.title, esc);
          assert result == prev + "" + RequestEntry(s.id, s.title, esc);
        } else {
          assert result == prev + "" + "";
        }
        i := i + 1;
      }
      assert ns[..i] == ns;
      var endresult := "";
      if result != "" {
        if section.level > minLevel {
          endresult := TitleItem(section.title, esc);
        }
        if section.level >= minLevel {
          endresult := endresult + UnorderedList(result);
        } else {
          endresult := result;
        }
      }
      r := endresult;
    }
  }

  lemma {:induction false} RegisterAllAppend(reg: seq<string>, a: seq<string>, b: seq<string>)
    ensures RegisterAll(reg, a + b) == RegisterAll(RegisterAll(reg, a), b)
    decreases |b|
  {
    if b == [] {
      assert a + b == a;
    } else {
      assert (a + b)[..|a + b| - 1] == a + b[..|b| - 1];
      RegisterAllAppend(reg, a, b[..|b| - 1]);
    }
  }

  /** One step of `print_children`: the prefix grows by the next child. */
  lemma ChildStep(env: Env, ns: seq<Node>, i: int, examples: seq<string>, schemas: seq<string>)
    requires 0 <= i < |ns|
    ensures RenderAll(env, ns[..i + 1]) == RenderAll(env, ns[..i]) + Render(env, ns[i])
    ensures RegisterAll(examples, Examples(XmlFilesAll(ns[..i + 1])))
      == RegisterAll(RegisterAll(examples, Examples(XmlFilesAll(ns[..i]))), Examples(XmlFiles(ns[i])))
    ensures RegisterAll(schemas, Schemas(XmlFilesAll(ns[..i + 1])))
      == RegisterAll(RegisterAll(schemas, Schemas(XmlFilesAll(ns[..i]))), Schemas(XmlFiles(ns[i])))
  {
    assert ns[..i + 1][..i] == ns[..i] && ns[..i + 1][i] == ns[i];
    var a, b := XmlFilesAll(ns[..i]), XmlFiles(ns[i]);
    assert XmlFilesAll(ns[..i + 1]) == a + b;
    assert Examples(a + b) == Examples(a) + Examples(b);
    assert Schemas(a + b) == Schemas(a) + Schemas(b);
    RegisterAllAppend(examples, Examples(a), Examples(b));
    RegisterAllAppend(schemas, Schemas(a), Schemas(b));
  }

  /** The loop invariant of `print_children` survives visiting child `i`. */
  lemma Advance(env: Env, ns: seq<Node>, i: int, h0: seq<Markup>, e0: seq<string>, s0: seq<string>,
                h: seq<Markup>, e: seq<string>, s: seq<string>, h': seq<Markup>, e': seq<string>, s': seq<string>)
    requires 0 <= i < |ns|
    requires h == h0 + RenderAll(env, ns[..i]) && h' == h + Render(env, ns[i])
    requires e == RegisterAll(e0, Examples(XmlFilesAll(ns[..i]))) && e' == RegisterAll(e, Examples(XmlFiles(ns[i])))
    requires s == RegisterAll(s0, Schemas(XmlFilesAll(ns[..i]))) && s' == RegisterAll(s, Schemas(XmlFiles(ns[i])))
    ensures h' == h0 + RenderAll(env, ns[..i + 1])
    ensures e' == RegisterAll(e0, Examples(XmlFilesAll(ns[..i + 1])))
    ensures s' == RegisterAll(s0, Schemas(XmlFilesAll(ns[..i + 1])))
  {
    ChildStep(env, ns, i, e0, s0);
    Assoc(h0, RenderAll(env, ns[..i]), Render(env, ns[i]));
  }

  lemma RegisterOne(examples: seq<string>, schemas: seq<string>, n: Node)
    requires n.XmlResult? || n.XmlBody?
    ensures RegisterAll(examples, Examples(XmlFiles(n))) == Register(examples, NamesFor(n.name, n.schema).example)
    ensures RegisterAll(schemas, Schemas(XmlFiles(n))) == Register(schemas, NamesFor(n.name, n.schema).schema)
  {
    assert Examples(XmlFiles(n)) == [NamesFor(n.name, n.schema).example];
    assert Schemas(XmlFiles(n)) == [NamesFor(n.name, n.schema).schema];
    assert [NamesFor(n.name, n.schema).example][..0] == [];
    assert [NamesFor(n.name, n.schema).schema][..0] == [];
  }
}
