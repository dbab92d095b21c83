/**
 * `print_xml_links`: the example and schema file names of an XML result or
 * body, the registries that remember them for the finishing step, and the
 * paragraph of links.
 */
module XmlLinks {
  import opened Wrappers
  import opened Html

  datatype FileNames = FileNames(example: string, schema: string)

  /**
   * The example is `<xmlname>.xml`; the schema is the given one unless it is
   * nil or empty, then `<xmlname>.xsd`.
   */
  function NamesFor(xmlname: string, schema: Option<string>): (r: FileNames)
    ensures |r.example| == |xmlname| + 4 && r.example[..|xmlname|] == xmlname && r.example[|xmlname|..] == ".xml"
    ensures schema.Some? && schema.value != "" ==> r.schema == schema.value
    ensures (schema.None? || schema.value == "") ==>
      |r.schema| == |xmlname| + 4 && r.schema[..|xmlname|] == xmlname && r.schema[|xmlname|..] == ".xsd"
    ensures r.example == r.schema ==> schema == Some(xmlname + ".xml")
  {
    var example := xmlname + ".xml";
    if schema.None? || schema.value == "" then
      var r := FileNames(example, xmlname + ".xsd");
      assert r.example[|xmlname| + 3] != r.schema[|xmlname| + 3];
      r
    else FileNames(example, schema.value)
  }

  /** No name occurs twice: the keys of a Ruby Hash. */
  predicate NoDup(reg: seq<string>)
  {
    forall i, j :: 0 <= i < j < |reg| ==> reg[i] != reg[j]
  }

  /**
   * `registry[name] = true` on a Hash used as a set, kept in registration order: a new
   * name goes last, a known one changes nothing.
   */
  function Register(reg: seq<string>, name: string): (r: seq<string>)
    ensures NoDup(reg) ==> NoDup(r)
    ensures forall x :: x in r <==> x in reg || x == name
    ensures |r| >= |reg| && r[..|reg|] == reg
    ensures name in reg ==> r == reg
    ensures name !in reg ==> r == reg + [name]
  {
    if name in reg then reg else reg + [name]
  }

  function Link(caption: string, href: string): seq<Markup>
  {
    [StartTag("a", [Attr("href", href)]), Content(caption), EndTag("a")]
  }

  /** What follows `title: ` in the paragraph, given which files exist. */
  function LinkBody(xmlname: string, names: FileNames, files: set<string>): seq<Markup>
  {
    var hasExample := names.example in files;
    var hasSchema := names.schema in files;
    (if hasExample then Link("Example", names.example) else [])
    + (if hasSchema then [Verbatim(" ")] + Link("Schema", names.schema) else [])
    + (if !hasExample && !hasSchema then [Verbatim(xmlname)] else [])
  }

  /** The paragraph `print_xml_links title, xmlname, schema` writes. */
  function LinksParagraph(title: string, xmlname: string, schema: Option<string>, files: set<string>): seq<Markup>
  {
    Wrap("p", [], [Verbatim(title), Verbatim(": ")] + LinkBody(xmlname, NamesFor(xmlname, schema), files))
  }

  /**
   * The paragraph starts with `title: `; it starts its body with an Example
   * link iff the example exists, ends it with a space and a Schema link iff
   * the schema exists, and is the bare name iff neither exists.
   */
  lemma {:induction false} LinksParagraphShape(title: string, xmlname: string, schema: Option<string>, files: set<string>)
    ensures var p := LinksParagraph(title, xmlname, schema, files);
      var names := NamesFor(xmlname, schema);
      var body := p[3..|p| - 1];
      && |p| >= 4
      && p[..3] == [StartTag("p", []), Verbatim(title), Verbatim(": ")]
      && p[|p| - 1] == EndTag("p")
      && (names.example in files <==> |body| >= 3 && body[..3] == Link("Example", names.example))
      && (names.schema in files <==> |body| >= 4 && body[|body| - 4..] == [Verbatim(" ")] + Link("Schema", names.schema))
      && (names.example !in files && names.schema !in files <==> body == [Verbatim(xmlname)])
  {
    var p := LinksParagraph(title, xmlname, schema, files);
    var names := NamesFor(xmlname, schema);
    var body := LinkBody(xmlname, names, files);
    assert p == [StartTag("p", []), Verbatim(title), Verbatim(": ")] + body + [EndTag("p")];
    assert p[3..|p| - 1] == body;
    LinkBodyShape(xmlname, names, files);
  }

  /** The three optional parts of the body, each present exactly when its condition holds. */
  lemma LinkBodyShape(xmlname: string, names: FileNames, files: set<string>)
    ensures var body := LinkBody(xmlname, names, files);
      && (names.example in files <==> |body| >= 3 && body[..3] == Link("Example", names.example))
      && (names.schema in files <==> |body| >= 4 && body[|body| - 4..] == [Verbatim(" ")] + Link("Schema", names.schema))
      && (names.example !in files && names.schema !in files <==> body == [Verbatim(xmlname)])
  {
    var ex := Link("Example", names.example);
    var sc := [Verbatim(" ")] + Link("Schema", names.schema);
    var body := LinkBody(xmlname, names, files);
    if names.example in files && names.schema in files {
      assert body == ex + sc;
      assert body[..3] == ex && body[|body| - 4..] == sc;
    } else if names.example in files {
      assert body == ex;
    } else if names.schema in files {
      assert body == sc;
      assert body[..3][0] == Verbatim(" ") != ex[0];
    } else {
      assert body == [Verbatim(xmlname)];
    }
  }
}
