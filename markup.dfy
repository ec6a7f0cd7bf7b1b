/**
 * The parsed page as the extractors see it: a tree of elements and text
 * nodes, the document-order traversal that goquery's Find performs, the
 * Text() of a selection, and the in-place removal of script, style, nav and
 * footer elements.
 */
module Markup {
  import opened Base

  datatype Attr = Attr(key: string, val: string)

  /** An HTML node: an element with its attributes and children, or a run of text. */
  datatype Node =
    | Element(tag: string, attrs: seq<Attr>, children: seq<Node>)
    | TextNode(data: string)

  /**
   * Selection.Attr(key) on one element: the value of the first attribute with
   * that key, or nothing.
   */
  function AttrValue(attrs: seq<Attr>, key: string): (r: Option<string>)
    ensures r.Some? <==> exists i :: 0 <= i < |attrs| && attrs[i].key == key
    ensures r.Some? ==> exists i :: 0 <= i < |attrs| && attrs[i] == Attr(key, r.value) &&
                          forall j :: 0 <= j < i ==> attrs[j].key != key
  {
    if attrs == [] then None
    else if attrs[0].key == key then Some(attrs[0].val)
    else AttrValue(attrs[1..], key)
  }

  /** `val, _ := s.Attr(key)`: the value, or "" when the attribute is absent. */
  function AttrOrEmpty(n: Node, key: string): string {
    if n.Element? then
      match AttrValue(n.attrs, key)
      case Some(v) => v
      case None => ""
    else ""
  }

  /** The selector test `[key]`: some attribute has the key. */
  predicate HasAttr(n: Node, key: string) {
    n.Element? && exists i :: 0 <= i < |n.attrs| && n.attrs[i].key == key
  }

  /** The selector test `[key=value]`: some attribute with the key has exactly that value. */
  predicate HasAttrValue(n: Node, key: string, value: string) {
    n.Element? && exists i :: 0 <= i < |n.attrs| && n.attrs[i] == Attr(key, value)
  }

  /** The separators of a class list (" \t\r\n\f"). */
  predicate IsClassSeparator(c: char) {
    c == ' ' || c == '\t' || c == '\r' || c == '\n' || c == '\U{000C}'
  }

  function FirstSeparator(s: string): (k: int)
    ensures -1 <= k < |s|
    ensures k >= 0 ==> IsClassSeparator(s[k])
    ensures forall i :: 0 <= i < |s| && (k == -1 || i < k) ==> !IsClassSeparator(s[i])
  {
    if s == [] then -1
    else if IsClassSeparator(s[0]) then 0
    else var k := FirstSeparator(s[1..]); if k == -1 then -1 else k + 1
  }

  /** The word-list match of a class selector: word is one of the separated words of s. */
  predicate IncludesWord(word: string, s: string)
    decreases |s|
  {
    if s == [] then false
    else
      var i := FirstSeparator(s);
      if i == -1 then s == word
      else if s[..i] == word then true
      else IncludesWord(word, s[i + 1..])
  }

  /** The selector test `.name`: some class attribute lists the word. */
  predicate HasClass(n: Node, name: string) {
    n.Element? && exists i :: 0 <= i < |n.attrs| && n.attrs[i].key == "class" && IncludesWord(name, n.attrs[i].val)
  }

  function Children(n: Node): seq<Node> {
    if n.Element? then n.children else []
  }

  /**
   * Every element of the forest and of its subtrees, in document order
   * (pre-order): what a selector query walks, before filtering.
   */
  function Elements(f: seq<Node>): (r: seq<Node>)
    ensures forall i :: 0 <= i < |r| ==> r[i].Element?
  {
    if f == [] then []
    else match f[0]
      case TextNode(_) => Elements(f[1..])
      case Element(_, _, ch) => [f[0]] + Elements(ch) + Elements(f[1..])
  }

  /** The nodes of s that satisfy p, in their order: a selector's matches. */
  function Select(s: seq<Node>, p: Node -> bool): (r: seq<Node>)
    ensures forall n :: n in r <==> n in s && p(n)
    ensures |r| <= |s|
  {
    if s == [] then []
    else (if p(s[0]) then [s[0]] else []) + Select(s[1..], p)
  }

  /** doc.Find(sel): the matching elements of the whole document, in document order. */
  function Find(doc: seq<Node>, p: Node -> bool): seq<Node> {
    Select(Elements(doc), p)
  }

  /**
   * sel.Find(q): for each selected element in turn, its matching descendants
   * (the element itself excluded).
   */
  function FindWithin(sel: seq<Node>, p: Node -> bool): seq<Node> {
    if sel == [] then []
    else FindWithin(sel[..|sel| - 1], p) + Find(Children(sel[|sel| - 1]), p)
  }

  /** Selection.Text() of one node: its text nodes concatenated in document order. */
  function NodeText(n: Node): string {
    match n
    case TextNode(d) => d
    case Element(_, _, ch) => ForestText(ch)
  }

  function ForestText(f: seq<Node>): string {
    if f == [] then "" else NodeText(f[0]) + ForestText(f[1..])
  }

  /** The first node of a selection, if any (Selection.First). */
  function First(s: seq<Node>): Option<Node> {
    if s == [] then None else Some(s[0])
  }

  const NoiseTags: set<string> := {"script", "style", "nav", "footer"}

  /** The selector "script, style, nav, footer". */
  predicate IsNoise(n: Node) {
    n.Element? && n.tag in NoiseTags
  }

  /**
   * The forest after doc.Find("script, style, nav, footer").Remove(): every
   * such element is detached from its parent together with its subtree.
   */
  function Prune(f: seq<Node>): seq<Node> {
    if f == [] then []
    else
      var rest := Prune(f[1..]);
      match f[0]
      case TextNode(_) => [f[0]] + rest
      case Element(t, a, ch) => if t in NoiseTags then rest else [Element(t, a, Prune(ch))] + rest
  }

  lemma {:induction false} ElementsAppend(a: seq<Node>, b: seq<Node>)
    ensures Elements(a + b) == Elements(a) + Elements(b)
    decreases |a|
  {
    if a != [] {
      assert (a + b)[0] == a[0];
      assert (a + b)[1..] == a[1..] + b;
      ElementsAppend(a[1..], b);
    } else {
      assert a + b == b;
    }
  }

  lemma {:induction false} SelectAppend(a: seq<Node>, b: seq<Node>, p: Node -> bool)
    ensures Select(a + b, p) == Select(a, p) + Select(b, p)
    decreases |a|
  {
    if a != [] {
      assert (a + b)[0] == a[0];
      assert (a + b)[1..] == a[1..] + b;
      SelectAppend(a[1..], b, p);
    } else {
      assert a + b == b;
    }
  }

  /** Removal distributes over the top-level siblings. */
  lemma {:induction false} PruneAppend(a: seq<Node>, b: seq<Node>)
    ensures Prune(a + b) == Prune(a) + Prune(b)
    decreases |a|
  {
    if a != [] {
      assert (a + b)[0] == a[0];
      assert (a + b)[1..] == a[1..] + b;
      PruneAppend(a[1..], b);
    } else {
      assert a + b == b;
    }
  }

  /** After the removal no script, style, nav or footer element is left anywhere in the tree. */
  lemma {:induction false} PruneLeavesNoNoise(f: seq<Node>)
    ensures forall i :: 0 <= i < |Elements(Prune(f))| ==> !IsNoise(Elements(Prune(f))[i])
  {
    if f != [] {
      PruneLeavesNoNoise(f[1..]);
      match f[0]
      case TextNode(_) =>
        assert Prune(f) == [f[0]] + Prune(f[1..]);
        ElementsAppend([f[0]], Prune(f[1..]));
        assert Elements([f[0]]) == [];
      case Element(t, a, ch) =>
        if t !in NoiseTags {
          PruneLeavesNoNoise(ch);
          var e := Element(t, a, Prune(ch));
          ElementsAppend([e], Prune(f[1..]));
          assert Elements([e]) == [e] + Elements(Prune(ch));
        }
    }
  }

  /** A subtree rooted at a removed element leaves no trace: deleting it first changes nothing. */
  lemma NoiseSubtreeInvisible(pre: seq<Node>, n: Node, post: seq<Node>)
    requires IsNoise(n)
    ensures Prune(pre + [n] + post) == Prune(pre + post)
  {
    PruneAppend(pre + [n], post);
    PruneAppend(pre, [n]);
    PruneAppend(pre, post);
  }

  /** The same holds one level down: a removed element inside a kept element leaves no trace either. */
  lemma NoiseChildInvisible(t: string, attrs: seq<Attr>, pre: seq<Node>, n: Node, post: seq<Node>)
    requires t !in NoiseTags && IsNoise(n)
    ensures Prune([Element(t, attrs, pre + [n] + post)]) == Prune([Element(t, attrs, pre + post)])
  {
    NoiseSubtreeInvisible(pre, n, post);
    assert [Element(t, attrs, pre + [n] + post)][1..] == [];
    assert [Element(t, attrs, pre + post)][1..] == [];
  }

  /**
   * A position anywhere in a forest: the siblings before and after it, and
   * the elements enclosing it from the top level down.
   */
  datatype Ctx =
    | Top(pre: seq<Node>, post: seq<Node>)
    | Inside(pre: seq<Node>, tag: string, attrs: seq<Attr>, inner: Ctx, post: seq<Node>)

  /** The forest with the nodes `hole` put at the position c. */
  function Fill(c: Ctx, hole: seq<Node>): seq<Node> {
    match c
    case Top(pre, post) => pre + hole + post
    case Inside(pre, t, a, inner, post) => pre + [Element(t, a, Fill(inner, hole))] + post
  }

  /**
   * A removed element leaves no trace wherever it sits in the tree: the
   * result is as if it had never been there.
   */
  lemma {:induction false} NoiseAnywhereInvisible(c: Ctx, n: Node)
    requires IsNoise(n)
    ensures Prune(Fill(c, [n])) == Prune(Fill(c, []))
  {
    match c
    case Top(pre, post) =>
      NoiseSubtreeInvisible(pre, n, post);
      assert pre + [] + post == pre + post;
    case Inside(pre, t, a, inner, post) =>
      NoiseAnywhereInvisible(inner, n);
      var withN := Element(t, a, Fill(inner, [n]));
      var without := Element(t, a, Fill(inner, []));
      PruneAppend(pre + [withN], post);
      PruneAppend(pre, [withN]);
      PruneAppend(pre + [without], post);
      PruneAppend(pre, [without]);
      assert [withN][1..] == [] && [without][1..] == [];
  }

  /** A forest without script, style, nav or footer elements is left exactly as it is. */
  lemma {:induction false} PruneKeepsClean(f: seq<Node>)
    requires forall e :: e in Elements(f) ==> !IsNoise(e)
    ensures Prune(f) == f
  {
    if f != [] {
      ElementsAppend([f[0]], f[1..]);
      assert [f[0]] + f[1..] == f;
      PruneKeepsClean(f[1..]);
      match f[0]
      case TextNode(_) =>
      case Element(t, a, ch) =>
        assert Elements([f[0]]) == [f[0]] + Elements(ch) by { assert [f[0]][1..] == []; }
        assert t !in NoiseTags by { assert f[0] in Elements(f); }
        PruneKeepsClean(ch);
    }
  }

  /** Removing twice is removing once. */
  lemma {:induction false} PruneIdempotent(f: seq<Node>)
    ensures Prune(Prune(f)) == Prune(f)
  {
    if f != [] {
      PruneIdempotent(f[1..]);
      match f[0]
      case TextNode(_) =>
        PruneAppend([f[0]], Prune(f[1..]));
      case Element(t, a, ch) =>
        if t !in NoiseTags {
          PruneIdempotent(ch);
          PruneAppend([Element(t, a, Prune(ch))], Prune(f[1..]));
        }
    }
  }

  /** The page as goquery holds it: one tree that the extraction steps share and change in place. */
  class Document {
    var nodes: seq<Node>

    constructor (nodes: seq<Node>)
      ensures this.nodes == nodes
    {
      this.nodes := nodes;
    }
  }
}
