/**
 * The table of contents and the printed requests agree: every request the
 * contents list reaches gets its `#id` entry there, and the printed section
 * holds the anchor named `id` that the entry links to.
 */
module Anchors {
  import opened RestNodes
  import opened Html
  import opened TableOfContents
  import opened Rendering

  /** Request `r` is a child of `s` or of a section below `s`. */
  predicate Listed(s: Node, r: Node)
    ensures Listed(s, r) ==> r.Request?
    decreases s
  {
    s.Section? && exists i :: 0 <= i < |s.children| && ((s.children[i] == r && r.Request?) || Listed(s.children[i], r))
  }

  /** `x` occurs in `y` starting at index `i`. */
  ghost predicate InfixAt(x: string, y: string, i: int)
  {
    0 <= i <= |y| - |x| && y[i..i + |x|] == x
  }

  /** `x` occurs in `y` as a contiguous piece. */
  ghost predicate Infix(x: string, y: string)
  {
    exists i :: InfixAt(x, y, i)
  }

  lemma InfixSelf(x: string)
    ensures Infix(x, x)
  {
    assert InfixAt(x, x, 0);
  }

  lemma InfixLeft(x: string, a: string, b: string)
    requires Infix(x, a)
    ensures Infix(x, a + b)
  {
    var i :| InfixAt(x, a, i);
    assert (a + b)[i..i + |x|] == a[i..i + |x|];
    assert InfixAt(x, a + b, i);
  }

  lemma InfixRight(x: string, a: string, b: string)
    requires Infix(x, b)
    ensures Infix(x, a + b)
  {
    var i :| InfixAt(x, b, i);
    assert (a + b)[|a| + i..|a| + i + |x|] == b[i..i + |x|];
    assert InfixAt(x, a + b, |a| + i);
  }

  lemma InfixTrans(x: string, y: string, z: string)
    requires Infix(x, y) && Infix(y, z)
    ensures Infix(x, z)
  {
    var i :| InfixAt(x, y, i);
    var j :| InfixAt(y, z, j);
    forall k | 0 <= k < |x| ensures z[j + i + k] == x[k] {
      assert y[i..i + |x|][k] == y[i + k];
      assert z[j..j + |y|][i + k] == z[j + i + k];
    }
    assert z[j + i..j + i + |x|] == x;
    assert InfixAt(x, z, j + i);
  }

  /** The piece child `c` adds to its parent's entries. */
  function Piece(c: Node, minLevel: int, esc: string -> string): string
  {
    (if c.Section? then ContentsList(c, minLevel, esc) else "")
    + (if c.Request? then RequestEntry(c.id, c.title, esc) else "")
  }

  lemma {:induction false} PieceInEntries(ns: seq<Node>, k: int, minLevel: int, esc: string -> string)
    requires 0 <= k < |ns|
    ensures Infix(Piece(ns[k], minLevel, esc), ChildEntries(ns, minLevel, esc))
    decreases |ns|
  {
    var init := ns[..|ns| - 1];
    var rest := ChildEntries(init, minLevel, esc);
    assert ChildEntries(ns, minLevel, esc) == rest + Piece(ns[|ns| - 1], minLevel, esc);
    if k == |ns| - 1 {
      InfixSelf(Piece(ns[k], minLevel, esc));
      InfixRight(Piece(ns[k], minLevel, esc), rest, Piece(ns[k], minLevel, esc));
    } else {
      PieceInEntries(init, k, minLevel, esc);
      assert init[k] == ns[k];
      InfixLeft(Piece(ns[k], minLevel, esc), rest, Piece(ns[|ns| - 1], minLevel, esc));
    }
  }

  /** Every request below `s` through sections has its entry in the list of `s`. */
  lemma {:induction false} ListedHasEntry(s: Node, r: Node, minLevel: int, esc: string -> string)
    requires Listed(s, r)
    ensures Infix(RequestEntry(r.id, r.title, esc), ContentsList(s, minLevel, esc))
    decreases s
  {
    var entry := RequestEntry(r.id, r.title, esc);
    var ns := s.children;
    var i :| 0 <= i < |ns| && ((ns[i] == r && r.Request?) || Listed(ns[i], r));
    var c := ns[i];
    var piece := Piece(c, minLevel, esc);
    if c == r && r.Request? {
      assert piece == entry;
      InfixSelf(entry);
    } else {
      ListedHasEntry(c, r, minLevel, esc);
      assert piece == ContentsList(c, minLevel, esc);
    }
    PieceInEntries(ns, i, minLevel, esc);
    var inner := ChildEntries(ns, minLevel, esc);
    InfixTrans(entry, piece, inner);
    EntriesInList(s, minLevel, esc);
    InfixTrans(entry, inner, ContentsList(s, minLevel, esc));
  }

  /** Non-empty entries of the children appear whole in the section's list. */
  lemma EntriesInList(s: Node, minLevel: int, esc: string -> string)
    requires s.Section? && ChildEntries(s.children, minLevel, esc) != ""
    ensures Infix(ChildEntries(s.children, minLevel, esc), ContentsList(s, minLevel, esc))
  {
    var inner := ChildEntries(s.children, minLevel, esc);
    InfixSelf(inner);
    if s.level >= minLevel {
      var head := if s.level > minLevel then TitleItem(s.title, esc) else "";
      InfixRight(inner, "<ul>\n", inner);
      InfixLeft(inner, "<ul>\n" + inner, "</ul>\n");
      InfixRight(inner, head, UnorderedList(inner));
      assert ContentsList(s, minLevel, esc) == head + UnorderedList(inner);
    }
  }

  lemma {:induction false} RenderInRenderAll(env: Env, ns: seq<Node>, k: int)
    requires 0 <= k < |ns|
    ensures forall m :: m in Render(env, ns[k]) ==> m in RenderAll(env, ns)
    decreases |ns|
  {
    if k < |ns| - 1 {
      RenderInRenderAll(env, ns[..|ns| - 1], k);
      assert ns[..|ns| - 1][k] == ns[k];
    }
  }

  /** The anchor a request entry links to. */
  function Anchor(id: string): Markup
  {
    StartTag("a", [Attr("name", id)])
  }

  /** Every request below `s` through sections is printed with its anchor. */
  lemma {:induction false} ListedHasAnchor(env: Env, s: Node, r: Node)
    requires Listed(s, r)
    ensures Anchor(r.id) in Render(env, s)
    decreases s
  {
    var ns := s.children;
    var i :| 0 <= i < |ns| && ((ns[i] == r && r.Request?) || Listed(ns[i], r));
    if ns[i] == r && r.Request? {
      assert Anchor(r.id) in RequestTitle(r.id, r.title);
    } else {
      ListedHasAnchor(env, ns[i], r);
    }
    RenderInRenderAll(env, ns, i);
  }

  /**
   * The table of contents of a printed document: each request it reaches has
   * an entry linking to `#id`, and the printed document holds the anchor `id`.
   */
  lemma {:induction false} ContentsLinksResolve(env: Env, r: Node)
    requires env.doc.Section? && Listed(env.doc, r)
    ensures Infix(RequestEntry(r.id, r.title, env.esc), ContentsList(env.doc, 1, env.esc))
    ensures Anchor(r.id) in Render(env, env.doc)
  {
    ListedHasEntry(env.doc, r, 1, env.esc);
    ListedHasAnchor(env, env.doc, r);
  }
}
