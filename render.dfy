/**
 * The markup each `print_*` rule writes for a node, with the walk over
 * children that the `rest` library's `print_children` performs.
 */
module Rendering {
  import opened Wrappers
  import opened RestNodes
  import opened Html
  import opened XmlLinks
  import opened TableOfContents

  /**
   * What printing depends on besides the node: the document root that a
   * contents node lists, the files that exist, and the escaping helper `h`.
   */
  datatype Env = Env(doc: Node, files: set<string>, esc: string -> string)

  function DigitChar(d: nat): char
    requires d < 10
  {
    "0123456789"[d]
  }

  /** Ruby's `Integer#to_s` for a non-negative integer. */
  function Decimal(n: nat): string
  {
    if n < 10 then [DigitChar(n)] else Decimal(n / 10) + [DigitChar(n % 10)]
  }

  /** `"h#{section.level}"`. */
  function HeadingTag(level: nat): string
  {
    "h" + Decimal(level)
  }

  /** `print_section` before the children: a heading, except for the root. */
  function SectionHeading(s: Node): seq<Markup>
    requires s.Section?
  {
    if s.isRoot then [] else Element(HeadingTag(s.level), [], s.title)
  }

  /** The anchored, bold title that opens a request block. */
  function RequestTitle(id: string, title: string): seq<Markup>
  {
    Wrap("p", [], Wrap("a", [Attr("name", id)], Element("b", [], title)))
  }

  /** One list item per parameter, in order. */
  function ParameterItems(ps: seq<string>): seq<Markup>
  {
    if ps == [] then [] else ParameterItems(ps[..|ps| - 1]) + Element("li", [], ps[|ps| - 1])
  }

  /** The "Arguments:" block, present only when there are parameters. */
  function Arguments(ps: seq<string>): seq<Markup>
  {
    if |ps| > 0 then Element("p", [], "Arguments:") + Wrap("ul", [], ParameterItems(ps)) else []
  }

  /** `p << t << "\n"` for each line of a text node. */
  function TextLines(lines: seq<string>): seq<Markup>
  {
    if lines == [] then []
    else TextLines(lines[..|lines| - 1]) + [Verbatim(lines[|lines| - 1]), Verbatim("\n")]
  }

  /** The paragraph `print_contents` writes around the list of the document. */
  function ContentsParagraph(env: Env): seq<Markup>
  {
    Wrap("p", [], [Verbatim(if env.doc.Section? then ContentsList(env.doc, 1, env.esc) else "")])
  }

  /** The markup printing node `n` appends to the stream. */
  function Render(env: Env, n: Node): seq<Markup>
    decreases n
  {
    match n
    case Section(_, _, _, children) => SectionHeading(n) + RenderAll(env, children)
    case Request(id, title, ps, children) =>
      Wrap("div", [Attr("class", "request")],
           RequestTitle(id, title) + Arguments(ps) + RenderAll(env, children))
    case Text(lines) => Wrap("p", [], TextLines(lines))
    case Parameter(_) => []
    case Host(name) => Element("p", [], "Host: " + name)
    case Result(name) => Element("p", [], "Result: " + name)
    case Body(name) => Element("p", [], "Body: " + name)
    case XmlResult(name, schema) => LinksParagraph("Result", name, schema, env.files)
    case XmlBody(name, schema) => LinksParagraph("Body", name, schema, env.files)
    case Contents => ContentsParagraph(env)
    case Version(v) => Element("p", [], "Version: " + v)
  }

  /** The markup of a sequence of sibling nodes, in order. */
  function RenderAll(env: Env, ns: seq<Node>): seq<Markup>
    decreases ns
  {
    if ns == [] then [] else RenderAll(env, ns[..|ns| - 1]) + Render(env, ns[|ns| - 1])
  }

  /** The example and schema names that printing `n` registers, in order. */
  function XmlFiles(n: Node): seq<FileNames>
    decreases n
  {
    match n
    case Section(_, _, _, children) => XmlFilesAll(children)
    case Request(_, _, _, children) => XmlFilesAll(children)
    case XmlResult(name, schema) => [NamesFor(name, schema)]
    case XmlBody(name, schema) => [NamesFor(name, schema)]
    case _ => []
  }

  function XmlFilesAll(ns: seq<Node>): seq<FileNames>
    decreases ns
  {
    if ns == [] then [] else XmlFilesAll(ns[..|ns| - 1]) + XmlFiles(ns[|ns| - 1])
  }

  /** `Register` applied to each name of `names` in turn. */
  function RegisterAll(reg: seq<string>, names: seq<string>): seq<string>
  {
    if names == [] then reg else Register(RegisterAll(reg, names[..|names| - 1]), names[|names| - 1])
  }

  function Examples(fs: seq<FileNames>): (r: seq<string>)
    ensures |r| == |fs| && forall i :: 0 <= i < |fs| ==> r[i] == fs[i].example
  {
    seq(|fs|, i requires 0 <= i < |fs| => fs[i].example)
  }

  function Schemas(fs: seq<FileNames>): (r: seq<string>)
    ensures |r| == |fs| && forall i :: 0 <= i < |fs| ==> r[i] == fs[i].schema
  {
    seq(|fs|, i requires 0 <= i < |fs| => fs[i].schema)
  }

  /** The parameters appear as list items, one per parameter, in order. */
  lemma {:induction false} ParameterItemsInOrder(ps: seq<string>)
    ensures |ParameterItems(ps)| == 3 * |ps|
    ensures forall i :: 0 <= i < |ps| ==> ParameterItems(ps)[3 * i .. 3 * i + 3] == Element("li", [], ps[i])
  {
    if ps != [] {
      var init := ps[..|ps| - 1];
      ParameterItemsInOrder(init);
      var items := ParameterItems(ps);
      assert items == ParameterItems(init) + Element("li", [], ps[|ps| - 1]);
      forall i | 0 <= i < |ps|
        ensures items[3 * i .. 3 * i + 3] == Element("li", [], ps[i])
      {
        if i < |ps| - 1 {
          assert items[3 * i .. 3 * i + 3] == ParameterItems(init)[3 * i .. 3 * i + 3];
          assert init[i] == ps[i];
        } else {
          assert items[3 * i .. 3 * i + 3] == Element("li", [], ps[|ps| - 1]);
        }
      }
    }
  }

  /** Every line of a text node is followed by a line break. */
  lemma {:induction false} TextLinesInOrder(lines: seq<string>)
    ensures |TextLines(lines)| == 2 * |lines|
    ensures forall i :: 0 <= i < |lines| ==>
      TextLines(lines)[2 * i] == Verbatim(lines[i]) && TextLines(lines)[2 * i + 1] == Verbatim("\n")
  {
    if lines != [] {
      var init := lines[..|lines| - 1];
      TextLinesInOrder(init);
      forall i | 0 <= i < |lines| - 1
        ensures TextLines(lines)[2 * i] == Verbatim(lines[i]) && TextLines(lines)[2 * i + 1] == Verbatim("\n")
      {
        assert init[i] == lines[i];
      }
    }
  }

  lemma {:induction false} ParameterItemsWellNested(ps: seq<string>)
    ensures WellNested(ParameterItems(ps))
  {
    if ps != [] {
      ParameterItemsWellNested(ps[..|ps| - 1]);
      WellNestedElement("li", [], ps[|ps| - 1]);
      WellNestedAppend(ParameterItems(ps[..|ps| - 1]), Element("li", [], ps[|ps| - 1]));
    }
  }

  lemma {:induction false} VerbatimsWellNested(ms: seq<Markup>)
    requires forall i :: 0 <= i < |ms| ==> ms[i].Verbatim?
    ensures WellNested(ms)
    decreases |ms|
  {
    forall open ensures Run(open, ms) == Some(open) {
      VerbatimsRun(open, ms);
    }
  }

  lemma {:induction false} VerbatimsRun(open: seq<string>, ms: seq<Markup>)
    requires forall i :: 0 <= i < |ms| ==> ms[i].Verbatim?
    ensures Run(open, ms) == Some(open)
    decreases |ms|
  {
    if ms != [] {
      VerbatimsRun(open, ms[1..]);
    }
  }

  lemma {:induction false} TextLinesWellNested(lines: seq<string>)
    ensures WellNested(TextLines(lines))
  {
    TextLinesInOrder(lines);
    var ms := TextLines(lines);
    forall k | 0 <= k < |ms| ensures ms[k].Verbatim? {
      var i := k / 2;
      assert k == 2 * i || k == 2 * i + 1;
    }
    VerbatimsWellNested(ms);
  }

  /** Every node's markup closes each element it opens, innermost first. */
  lemma {:induction false} RenderWellNested(env: Env, n: Node)
    ensures WellNested(Render(env, n))
    decreases n
  {
    match n
    case Section(_, _, _, children) =>
      if !n.isRoot { WellNestedElement(HeadingTag(n.level), [], n.title); }
      else { VerbatimsWellNested([]); }
      RenderAllWellNested(env, children);
      WellNestedAppend(SectionHeading(n), RenderAll(env, children));
    case Request(id, title, ps, children) =>
      RenderAllWellNested(env, children);
      RequestWellNested(id, title, ps, RenderAll(env, children));
    case Text(lines) =>
      TextLinesWellNested(lines);
      WellNestedWrap("p", [], TextLines(lines));
    case Parameter(_) => VerbatimsWellNested([]);
    case Host(name) => WellNestedElement("p", [], "Host: " + name);
    case Result(name) => WellNestedElement("p", [], "Result: " + name);
    case Body(name) => WellNestedElement("p", [], "Body: " + name);
    case XmlResult(name, schema) => LinksWellNested("Result", name, schema, env.files);
    case XmlBody(name, schema) => LinksWellNested("Body", name, schema, env.files);
    case Contents =>
      var list := if env.doc.Section? then ContentsList(env.doc, 1, env.esc) else "";
      VerbatimsWellNested([Verbatim(list)]);
      WellNestedWrap("p", [], [Verbatim(list)]);
    case Version(v) => WellNestedElement("p", [], "Version: " + v);
  }

  /** A request block is well nested when the markup of its children is. */
  lemma RequestWellNested(id: string, title: string, ps: seq<string>, kids: seq<Markup>)
    requires WellNested(kids)
    ensures WellNested(Wrap("div", [Attr("class", "request")], RequestTitle(id, title) + Arguments(ps) + kids))
  {
    WellNestedElement("b", [], title);
    WellNestedWrap("a", [Attr("name", id)], Element("b", [], title));
    WellNestedWrap("p", [], Wrap("a", [Attr("name", id)], Element("b", [], title)));
    if |ps| > 0 {
      WellNestedElement("p", [], "Arguments:");
      ParameterItemsWellNested(ps);
      WellNestedWrap("ul", [], ParameterItems(ps));
      WellNestedAppend(Element("p", [], "Arguments:"), Wrap("ul", [], ParameterItems(ps)));
    } else {
      VerbatimsWellNested([]);
    }
    WellNestedAppend(RequestTitle(id, title), Arguments(ps));
    WellNestedAppend(RequestTitle(id, title) + Arguments(ps), kids);
    WellNestedWrap("div", [Attr("class", "request")], RequestTitle(id, title) + Arguments(ps) + kids);
  }

  lemma {:induction false} RenderAllWellNested(env: Env, ns: seq<Node>)
    ensures WellNested(RenderAll(env, ns))
    decreases ns
  {
    if ns == [] {
      VerbatimsWellNested([]);
    } else {
      RenderAllWellNested(env, ns[..|ns| - 1]);
      RenderWellNested(env, ns[|ns| - 1]);
      WellNestedAppend(RenderAll(env, ns[..|ns| - 1]), Render(env, ns[|ns| - 1]));
    }
  }

  lemma {:induction false} LinksWellNested(title: string, xmlname: string, schema: Option<string>, files: set<string>)
    ensures WellNested(LinksParagraph(title, xmlname, schema, files))
  {
    var names := NamesFor(xmlname, schema);
    var hasExample := names.example in files;
    var hasSchema := names.schema in files;
    var e := if hasExample then Link("Example", names.example) else [];
    var s := if hasSchema then [Verbatim(" ")] + Link("Schema", names.schema) else [];
    var x := if !hasExample && !hasSchema then [Verbatim(xmlname)] else [];
    VerbatimsWellNested([Verbatim(title), Verbatim(": ")]);
    VerbatimsWellNested(x);
    VerbatimsWellNested([]);
    if hasExample {
      assert Link("Example", names.example) == Element("a", [Attr("href", names.example)], "Example");
      WellNestedElement("a", [Attr("href", names.example)], "Example");
    }
    if hasSchema {
      assert Link("Schema", names.schema) == Element("a", [Attr("href", names.schema)], "Schema");
      WellNestedElement("a", [Attr("href", names.schema)], "Schema");
      VerbatimsWellNested([Verbatim(" ")]);
      WellNestedAppend([Verbatim(" ")], Link("Schema", names.schema));
    }
    WellNestedAppend([Verbatim(title), Verbatim(": ")], e);
    WellNestedAppend([Verbatim(title), Verbatim(": ")] + e, s);
    WellNestedAppend([Verbatim(title), Verbatim(": ")] + e + s, x);
    assert LinkBody(xmlname, names, files) == e + s + x;
    assert [Verbatim(title), Verbatim(": ")] + LinkBody(xmlname, names, files)
        == [Verbatim(title), Verbatim(": ")] + e + s + x;
    WellNestedWrap("p", [], [Verbatim(title), Verbatim(": ")] + e + s + x);
  }
}
