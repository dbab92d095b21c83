/**
 * The table of contents built by `create_contents_list`: a nested `<ul>`
 * list of the sections that have requests below them, with one linked item
 * per request. `esc` is the HTML escaping helper `h`.
 */
module TableOfContents {
  import opened RestNodes

  /** The item a request child contributes. */
  function RequestEntry(id: string, title: string, esc: string -> string): string
  {
    "<li><a href=\"#" + id + "\">" + esc(title) + "</a></li>\n"
  }

  /** The title item a section above `min_level` gets. */
  function TitleItem(title: string, esc: string -> string): string
  {
    "<li>" + esc(title) + "</li>\n"
  }

  function UnorderedList(inner: string): string
  {
    "<ul>\n" + inner + "</ul>\n"
  }

  /** `create_contents_list section, min_level`. */
  function ContentsList(s: Node, minLevel: int, esc: string -> string): string
    requires s.Section?
    decreases s
  {
    var inner := ChildEntries(s.children, minLevel, esc);
    if inner == "" then ""
    else if s.level >= minLevel then
      (if s.level > minLevel then TitleItem(s.title, esc) else "") + UnorderedList(inner)
    else inner
  }

  /** What the loop over `section.children` accumulates in `result`. */
  function ChildEntries(ns: seq<Node>, minLevel: int, esc: string -> string): string
    decreases ns
  {
    if ns == [] then ""
    else
      var c := ns[|ns| - 1];
      ChildEntries(ns[..|ns| - 1], minLevel, esc)
      + (if c.Section? then ContentsList(c, minLevel, esc) else "")
      + (if c.Request? then RequestEntry(c.id, c.title, esc) else "")
  }

  /** The children `create_contents_list` does not ignore. */
  function Relevant(ns: seq<Node>): (r: seq<Node>)
    ensures forall c :: c in r ==> c in ns && (c.Request? || HasRequest(c))
  {
    if ns == [] then []
    else
      var c := ns[|ns| - 1];
      Relevant(ns[..|ns| - 1]) + (if c.Request? || HasRequest(c) then [c] else [])
  }

  /** The list is empty exactly when no request lies below the section. */
  lemma {:induction false} ContentsEmptyIff(s: Node, minLevel: int, esc: string -> string)
    requires s.Section?
    ensures ContentsList(s, minLevel, esc) == "" <==> !HasRequest(s)
    decreases s
  {
    ChildEntriesEmptyIff(s.children, minLevel, esc);
  }

  lemma {:induction false} ChildEntriesEmptyIff(ns: seq<Node>, minLevel: int, esc: string -> string)
    ensures ChildEntries(ns, minLevel, esc) == "" <==> !AnyRequest(ns)
    decreases ns
  {
    if ns != [] {
      var init, c := ns[..|ns| - 1], ns[|ns| - 1];
      ChildEntriesEmptyIff(init, minLevel, esc);
      if c.Section? {
        ContentsEmptyIff(c, minLevel, esc);
      }
      if AnyRequest(init) {
        var i :| 0 <= i < |init| && (init[i].Request? || HasRequest(init[i]));
        assert ns[i] == init[i];
      }
      if c.Request? || HasRequest(c) {
        assert ns[|ns| - 1] == c;
      }
      if AnyRequest(ns) {
        var i :| 0 <= i < |ns| && (ns[i].Request? || HasRequest(ns[i]));
        if i < |ns| - 1 {
          assert init[i] == ns[i];
        }
      }
    }
  }

  /**
   * A section with requests below it is titled only above `minLevel`,
   * wrapped in a list only at or above it, and transparent below it.
   */
  lemma {:induction false} ContentsLevels(s: Node, minLevel: int, esc: string -> string)
    requires HasRequest(s)
    ensures var inner := ChildEntries(s.children, minLevel, esc);
      && inner != ""
      && (s.level > minLevel ==> ContentsList(s, minLevel, esc) == TitleItem(s.title, esc) + UnorderedList(inner))
      && (s.level == minLevel ==> ContentsList(s, minLevel, esc) == UnorderedList(inner))
      && (s.level < minLevel ==> ContentsList(s, minLevel, esc) == inner)
  {
    ChildEntriesEmptyIff(s.children, minLevel, esc);
  }

  lemma ChildEntriesSnoc(ns: seq<Node>, c: Node, minLevel: int, esc: string -> string)
    ensures ChildEntries(ns + [c], minLevel, esc)
      == ChildEntries(ns, minLevel, esc)
         + (if c.Section? then ContentsList(c, minLevel, esc) else "")
         + (if c.Request? then RequestEntry(c.id, c.title, esc) else "")
  {
    assert (ns + [c])[..|ns|] == ns;
  }

  /**
   * Pruning: dropping every child that is neither a request nor a section
   * with requests below it leaves the list unchanged.
   */
  lemma {:induction false} RelevantEntries(ns: seq<Node>, minLevel: int, esc: string -> string)
    ensures ChildEntries(Relevant(ns), minLevel, esc) == ChildEntries(ns, minLevel, esc)
    decreases ns
  {
    if ns != [] {
      var init, c := ns[..|ns| - 1], ns[|ns| - 1];
      RelevantEntries(init, minLevel, esc);
      if c.Request? || HasRequest(c) {
        ChildEntriesSnoc(Relevant(init), c, minLevel, esc);
      } else {
        assert Relevant(ns) == Relevant(init) + [];
        assert Relevant(init) + [] == Relevant(init);
        if c.Section? {
          ContentsEmptyIff(c, minLevel, esc);
        }
      }
    }
  }

  /**
   * A section without requests below it is omitted from its parent's list,
   * wherever it stands among the children.
   */
  lemma {:induction false} EmptySectionOmitted(a: seq<Node>, e: Node, b: seq<Node>, minLevel: int, esc: string -> string)
    requires e.Section? && !HasRequest(e)
    ensures ChildEntries(a + [e] + b, minLevel, esc) == ChildEntries(a + b, minLevel, esc)
    decreases |b|
  {
    if b == [] {
      assert a + [e] + b == a + [e];
      assert a + b == a;
      ChildEntriesSnoc(a, e, minLevel, esc);
      ContentsEmptyIff(e, minLevel, esc);
    } else {
      var init, c := b[..|b| - 1], b[|b| - 1];
      EmptySectionOmitted(a, e, init, minLevel, esc);
      assert a + [e] + b == (a + [e] + init) + [c];
      assert a + b == (a + init) + [c];
      ChildEntriesSnoc(a + [e] + init, c, minLevel, esc);
      ChildEntriesSnoc(a + init, c, minLevel, esc);
    }
  }
}
