/**
 * The markup stream written by the printer. `Builder::XmlMarkup` turns a
 * block call `@html.tag(attrs) do ... end` into a start tag, the block's
 * output and an end tag; a text argument becomes escaped content; `p << x`
 * inserts `x` verbatim. Indentation is not modelled.
 */
module Html {
  import opened Wrappers

  datatype Attr = Attr(name: string, value: string)

  datatype Markup =
    | StartTag(tag: string, attrs: seq<Attr>)
    | EndTag(tag: string)
    | Content(text: string)   // escaped by the markup writer
    | Verbatim(text: string)  // inserted as is, `p << text`

  /** `@html.tag(text, attrs)`: one element holding escaped text. */
  function Element(tag: string, attrs: seq<Attr>, text: string): seq<Markup>
  {
    [StartTag(tag, attrs), Content(text), EndTag(tag)]
  }

  /** `@html.tag(attrs) do ... end` around the markup `inner`. */
  function Wrap(tag: string, attrs: seq<Attr>, inner: seq<Markup>): seq<Markup>
  {
    [StartTag(tag, attrs)] + inner + [EndTag(tag)]
  }

  /**
   * Feeds `ms` to a stack of open tags; `None` when an end tag does not
   * close the innermost open element.
   */
  function Run(open: seq<string>, ms: seq<Markup>): Option<seq<string>>
    decreases |ms|
  {
    if ms == [] then Some(open)
    else match ms[0]
      case StartTag(t, _) => Run(open + [t], ms[1..])
      case EndTag(t) =>
        if open != [] && open[|open| - 1] == t then Run(open[..|open| - 1], ms[1..]) else None
      case _ => Run(open, ms[1..])
  }

  /** `ms` closes every element it opens, innermost first, and nothing else. */
  ghost predicate WellNested(ms: seq<Markup>)
  {
    forall open :: Run(open, ms) == Some(open)
  }

  lemma {:induction false} RunAppend(open: seq<string>, a: seq<Markup>, b: seq<Markup>)
    ensures Run(open, a + b) == if Run(open, a).None? then None else Run(Run(open, a).value, b)
    decreases |a|
  {
    if a == [] {
      assert a + b == b;
    } else {
      assert (a + b)[0] == a[0];
      assert (a + b)[1..] == a[1..] + b;
      match a[0]
      case StartTag(t, _) => RunAppend(open + [t], a[1..], b);
      case EndTag(t) =>
        if open != [] && open[|open| - 1] == t {
          RunAppend(open[..|open| - 1], a[1..], b);
        }
      case Content(_) => RunAppend(open, a[1..], b);
      case Verbatim(_) => RunAppend(open, a[1..], b);
    }
  }

  lemma {:induction false} WellNestedAppend(a: seq<Markup>, b: seq<Markup>)
    requires WellNested(a) && WellNested(b)
    ensures WellNested(a + b)
  {
    forall open ensures Run(open, a + b) == Some(open) {
      RunAppend(open, a, b);
    }
  }

  lemma {:induction false} WellNestedWrap(tag: string, attrs: seq<Attr>, inner: seq<Markup>)
    requires WellNested(inner)
    ensures WellNested(Wrap(tag, attrs, inner))
  {
    forall open ensures Run(open, Wrap(tag, attrs, inner)) == Some(open) {
      var w := Wrap(tag, attrs, inner);
      assert w == [StartTag(tag, attrs)] + (inner + [EndTag(tag)]);
      RunAppend(open, [StartTag(tag, attrs)], inner + [EndTag(tag)]);
      assert Run(open, [StartTag(tag, attrs)]) == Some(open + [tag]) by {
        assert [StartTag(tag, attrs)][1..] == [];
      }
      RunAppend(open + [tag], inner, [EndTag(tag)]);
      assert (open + [tag])[..|open + [tag]| - 1] == open;
      assert [EndTag(tag)][1..] == [];
    }
  }

  lemma {:induction false} WellNestedElement(tag: string, attrs: seq<Attr>, text: string)
    ensures WellNested(Element(tag, attrs, text))
  {
    assert WellNested([Content(text)]) by {
      forall open ensures Run(open, [Content(text)]) == Some(open) {
        assert [Content(text)][1..] == [];
      }
    }
    WellNestedWrap(tag, attrs, [Content(text)]);
    assert Element(tag, attrs, text) == Wrap(tag, attrs, [Content(text)]);
  }
}
