/**
 * The extraction passes of the crawler: main content (two tiers), links,
 * images and headings. Each pass is a method that walks a selection the way
 * the Go code's Each callbacks do, proved equal to a specification function
 * on the document's nodes; the lemmas state what those functions promise.
 */
module Extract {
  import opened Base
  import opened Text
  import opened Markup

  const HeadingTags: set<string> := {"h1", "h2", "h3", "h4", "h5", "h6"}

  /** The selector "h1, h2, h3, h4, h5, h6". */
  predicate IsHeading(n: Node) {
    n.Element? && n.tag in HeadingTags
  }

  /** The selector "h1, h2, h3, h4, h5, h6, p". */
  predicate IsTextBlock(n: Node) {
    n.Element? && (n.tag in HeadingTags || n.tag == "p")
  }

  /** The selector "p, h1, h2, h3". */
  predicate IsFallbackBlock(n: Node) {
    n.Element? && n.tag in {"p", "h1", "h2", "h3"}
  }

  /** The selector "article, main, [role=main], .content, .main". */
  predicate IsContentContainer(n: Node) {
    n.Element? &&
    (n.tag == "article" || n.tag == "main" || HasAttrValue(n, "role", "main")
     || HasClass(n, "content") || HasClass(n, "main"))
  }

  /** The selector "body". */
  predicate IsBody(n: Node) {
    n.Element? && n.tag == "body"
  }

  /** The selector "a[href]". */
  predicate IsLink(n: Node) {
    n.Element? && n.tag == "a" && HasAttr(n, "href")
  }

  /** The selector "img[src]". */
  predicate IsImage(n: Node) {
    n.Element? && n.tag == "img" && HasAttr(n, "src")
  }

  /** Fallback blocks must be longer than this many bytes (Go's len of the trimmed text). */
  const FallbackMinBytes: nat := 10

  /** strings.TrimSpace(s.Text()) of one selected element. */
  function TrimmedText(n: Node): string {
    TrimSpace(NodeText(n))
  }

  /** The keep test of the Each callbacks: non-empty and longer than minBytes bytes. */
  predicate Kept(t: string, minBytes: nat) {
    t != "" && Utf8Len(t) > minBytes
  }

  /** Every line is non-empty, trimmed and longer than minBytes bytes. */
  predicate KeptLines(r: seq<string>, minBytes: nat) {
    forall i :: 0 <= i < |r| ==> r[i] != "" && IsTrimmed(r[i]) && Utf8Len(r[i]) > minBytes
  }

  /** What one item contributes: its trimmed text when that passes the keep test, else nothing. */
  function KeptOf(n: Node, minBytes: nat): seq<string> {
    var t := TrimmedText(n);
    if Kept(t, minBytes) then [t] else []
  }

  /** The trimmed texts of the items that pass the keep test, in selection order, duplicates included. */
  function KeptTexts(items: seq<Node>, minBytes: nat): seq<string> {
    if items == [] then []
    else KeptTexts(items[..|items| - 1], minBytes) + KeptOf(items[|items| - 1], minBytes)
  }

  /** At most one line per item, and every line is non-empty, trimmed and longer than minBytes bytes. */
  lemma {:induction false} KeptTextsAreKeptLines(items: seq<Node>, minBytes: nat)
    ensures |KeptTexts(items, minBytes)| <= |items|
    ensures KeptLines(KeptTexts(items, minBytes), minBytes)
    decreases |items|
  {
    if items != [] {
      var init := items[..|items| - 1];
      KeptTextsAreKeptLines(init, minBytes);
      KeptOfIsKeptLine(items[|items| - 1], minBytes);
      KeptLinesAppend(KeptTexts(init, minBytes), KeptOf(items[|items| - 1], minBytes), minBytes);
    }
  }

  /** An item's contribution, if any, is a single kept line. */
  lemma KeptOfIsKeptLine(n: Node, minBytes: nat)
    ensures |KeptOf(n, minBytes)| <= 1
    ensures KeptLines(KeptOf(n, minBytes), minBytes)
  {
    TrimSpaceIsTrimmed(NodeText(n));
  }

  lemma KeptLinesAppend(a: seq<string>, b: seq<string>, minBytes: nat)
    requires KeptLines(a, minBytes) && KeptLines(b, minBytes)
    ensures KeptLines(a + b, minBytes)
  {
    forall i | 0 <= i < |a + b| ensures (a + b)[i] != "" && IsTrimmed((a + b)[i]) && Utf8Len((a + b)[i]) > minBytes {
      if i < |a| {
        assert (a + b)[i] == a[i];
      } else {
        assert (a + b)[i] == b[i - |a|];
      }
    }
  }


  /** One more item adds its own contribution at the end. */
  lemma KeptTextsSnoc(items: seq<Node>, n: Node, minBytes: nat)
    ensures KeptTexts(items + [n], minBytes) == KeptTexts(items, minBytes) + KeptOf(n, minBytes)
  {
    assert (items + [n])[..|items|] == items;
  }

  /** Concatenation regroups; kept apart so that the proofs that use it stay small. */
  lemma Associative<T>(x: seq<T>, y: seq<T>, z: seq<T>)
    ensures (x + y) + z == x + (y + z)
  {
  }

  /** Keeping texts commutes with concatenating selections: the pass is a filter in document order. */
  lemma {:induction false} KeptTextsAppend(a: seq<Node>, b: seq<Node>, minBytes: nat)
    ensures KeptTexts(a + b, minBytes) == KeptTexts(a, minBytes) + KeptTexts(b, minBytes)
    decreases |b|
  {
    if b == [] {
      assert a + b == a;
    } else {
      var init := b[..|b| - 1];
      var last := b[|b| - 1];
      assert b == init + [last];
      assert a + b == (a + init) + [last];
      KeptTextsAppend(a, init, minBytes);
      KeptTextsSnoc(a + init, last, minBytes);
      Associative(KeptTexts(a, minBytes), KeptTexts(init, minBytes), KeptOf(last, minBytes));
    }
  }

  /** What one Each callback writes to the builder for one item: its kept trimmed text and a newline, or nothing. */
  function Written(n: Node, minBytes: nat): string {
    var t := TrimmedText(n);
    if Kept(t, minBytes) then t + "\n" else ""
  }

  /** The builder's text after the callback has run over the items in turn, starting from builder. */
  function WriteAll(builder: string, items: seq<Node>, minBytes: nat): string {
    if items == [] then builder
    else WriteAll(builder, items[..|items| - 1], minBytes) + Written(items[|items| - 1], minBytes)
  }

  /** Rendering one more line that may or may not be kept. */
  lemma RenderKeptLine(ls: seq<string>, t: string, minBytes: nat)
    ensures Render(ls + (if Kept(t, minBytes) then [t] else []))
            == Render(ls) + (if Kept(t, minBytes) then t + "\n" else "")
  {
    if Kept(t, minBytes) {
      assert (ls + [t])[..|ls|] == ls;
    } else {
      assert ls + [] == ls;
      assert Render(ls) + "" == Render(ls);
    }
  }

  /** The last item's line, if kept, comes after the lines of the items before it. */
  lemma KeptStep(items: seq<Node>, minBytes: nat)
    requires items != []
    ensures Render(KeptTexts(items, minBytes))
            == Render(KeptTexts(items[..|items| - 1], minBytes)) + Written(items[|items| - 1], minBytes)
  {
    RenderKeptLine(KeptTexts(items[..|items| - 1], minBytes), TrimmedText(items[|items| - 1]), minBytes);
  }

  /** The builder ends up holding what it held plus the kept lines, each followed by a newline. */
  lemma {:induction false} WriteAllRenders(builder: string, items: seq<Node>, minBytes: nat)
    ensures WriteAll(builder, items, minBytes) == builder + Render(KeptTexts(items, minBytes))
    decreases |items|
  {
    if items == [] {
      assert builder + "" == builder;
    } else {
      var init := items[..|items| - 1];
      var last := items[|items| - 1];
      var before := Render(KeptTexts(init, minBytes));
      var line := Written(last, minBytes);
      WriteAllRenders(builder, init, minBytes);
      KeptStep(items, minBytes);
      Associative(builder, before, line);
    }
  }

  /** One item contributes its trimmed text exactly when that text passes the keep test. */
  lemma KeptTextsOfOne(n: Node, minBytes: nat)
    ensures KeptTexts([n], minBytes) == if Kept(TrimmedText(n), minBytes) then [TrimmedText(n)] else []
  {
    assert [n][..0] == [];
  }

  /**
   * The fallback threshold counts bytes, not characters: six two-byte
   * characters pass it although they are fewer than ten characters.
   */
  lemma FallbackThresholdCountsBytes()
    ensures |"\U{00E9}\U{00E9}\U{00E9}\U{00E9}\U{00E9}\U{00E9}"| == 6
    ensures Kept("\U{00E9}\U{00E9}\U{00E9}\U{00E9}\U{00E9}\U{00E9}", FallbackMinBytes)
    ensures !Kept("\U{00E9}\U{00E9}\U{00E9}\U{00E9}\U{00E9}", FallbackMinBytes)
  {
    var e := "\U{00E9}";
    assert RuneLen(e[0]) == 2;
    assert Utf8Len(e) == 2;
    assert Utf8Len(e + e) == 4 by { assert (e + e)[1..] == e; }
    assert Utf8Len(e + e + e) == 6 by { assert (e + e + e)[1..] == e + e; }
    assert Utf8Len(e + e + e + e) == 8 by { assert (e + e + e + e)[1..] == e + e + e; }
    assert Utf8Len(e + e + e + e + e) == 10 by { assert (e + e + e + e + e)[1..] == e + e + e + e; }
    assert Utf8Len(e + e + e + e + e + e) == 12 by { assert (e + e + e + e + e + e)[1..] == e + e + e + e + e; }
    assert e + e + e + e + e == "\U{00E9}\U{00E9}\U{00E9}\U{00E9}\U{00E9}";
    assert e + e + e + e + e + e == "\U{00E9}\U{00E9}\U{00E9}\U{00E9}\U{00E9}\U{00E9}";
  }

  /** Tier 1: the kept text blocks of every content container, container by container. */
  function Tier1Lines(f: seq<Node>): seq<string> {
    KeptTexts(FindWithin(Find(f, IsContentContainer), IsTextBlock), 0)
  }

  /** Tier 2: the text blocks under body whose trimmed text is longer than ten bytes. */
  function Tier2Lines(f: seq<Node>): seq<string> {
    KeptTexts(FindWithin(Find(f, IsBody), IsFallbackBlock), FallbackMinBytes)
  }

  /**
   * extractMainContent on an already cleaned tree: the builder holds the
   * tier-1 lines, or the tier-2 lines when tier 1 wrote nothing, and the
   * result is the builder's text trimmed.
   */
  function MainContent(f: seq<Node>): string {
    var builder := Render(Tier1Lines(f));
    var builder' := if |builder| == 0 then builder + Render(Tier2Lines(f)) else builder;
    TrimSpace(builder')
  }

  /** The lines the main content is made of: tier 1 when it has any, otherwise tier 2. */
  function ContentLines(f: seq<Node>): seq<string> {
    if Tier1Lines(f) != [] then Tier1Lines(f) else Tier2Lines(f)
  }

  /** The content lines are non-empty and trimmed, and longer than ten bytes when they come from the fallback. */
  lemma ContentLinesAreKept(f: seq<Node>)
    ensures NonEmptyTrimmedLines(ContentLines(f))
    ensures Tier1Lines(f) == [] ==> KeptLines(ContentLines(f), FallbackMinBytes)
  {
    KeptTextsAreKeptLines(FindWithin(Find(f, IsContentContainer), IsTextBlock), 0);
    KeptTextsAreKeptLines(FindWithin(Find(f, IsBody), IsFallbackBlock), FallbackMinBytes);
  }

  /** The builder ends up holding exactly the content lines, each followed by a newline. */
  lemma BuilderHoldsContentLines(f: seq<Node>)
    ensures MainContent(f) == TrimSpace(Render(ContentLines(f)))
  {
    assert "" + Render(Tier2Lines(f)) == Render(Tier2Lines(f));
  }

  /**
   * The main content is its lines joined by single newlines, with no leading
   * or trailing white space; the fallback is consulted only when tier 1 found
   * no text, and then every line is longer than ten bytes.
   */
  lemma MainContentIsJoinedLines(f: seq<Node>)
    ensures MainContent(f) == Join(ContentLines(f))
    ensures IsTrimmed(MainContent(f))
    ensures Tier1Lines(f) != [] ==> MainContent(f) == Join(Tier1Lines(f))
    ensures Tier1Lines(f) == [] ==> MainContent(f) == Join(Tier2Lines(f))
    ensures NonEmptyTrimmedLines(ContentLines(f))
    ensures Tier1Lines(f) == [] ==> KeptLines(ContentLines(f), FallbackMinBytes)
  {
    ContentLinesAreKept(f);
    BuilderHoldsContentLines(f);
    RenderThenTrimIsJoin(ContentLines(f));
  }

  /** extractHeadings on a tree: the kept h1-h6 texts in document order. */
  function Headings(f: seq<Node>): seq<string> {
    KeptTexts(Find(f, IsHeading), 0)
  }

  /** Every heading is non-empty and trimmed. */
  lemma HeadingsAreTrimmed(f: seq<Node>)
    ensures forall i :: 0 <= i < |Headings(f)| ==> Headings(f)[i] != "" && IsTrimmed(Headings(f)[i])
  {
    KeptTextsAreKeptLines(Find(f, IsHeading), 0);
  }

  /**
   * Headings follow document order: the headings of two sibling runs are
   * those of the first followed by those of the second, repeats included
   * (take b to be a).
   */
  lemma HeadingsInDocumentOrder(a: seq<Node>, b: seq<Node>)
    ensures Headings(a + b) == Headings(a) + Headings(b)
  {
    ElementsAppend(a, b);
    SelectAppend(Elements(a), Elements(b), IsHeading);
    KeptTextsAppend(Find(a, IsHeading), Find(b, IsHeading), 0);
  }

  /** A heading element contributes its own trimmed text, when non-empty, before its descendants' headings. */
  lemma HeadingOfOneElement(tag: string, attrs: seq<Attr>, children: seq<Node>)
    requires tag in HeadingTags
    ensures var t := TrimSpace(ForestText(children));
            Headings([Element(tag, attrs, children)]) == (if t != "" then [t] else []) + Headings(children)
  {
    var e := Element(tag, attrs, children);
    assert Elements([e]) == [e] + Elements(children) + Elements([]);
    assert Elements([e]) == [e] + Elements(children);
    SelectAppend([e], Elements(children), IsHeading);
    assert Select([e], IsHeading) == [e];
    KeptTextsAppend([e], Find(children, IsHeading), 0);
    KeptTextsOfOne(e, 0);
  }

  /** The values of one attribute across a selection, "" where absent. */
  function AttrValues(sel: seq<Node>, key: string): (r: seq<string>)
    ensures |r| == |sel|
    ensures forall i :: 0 <= i < |sel| ==> r[i] == AttrOrEmpty(sel[i], key)
  {
    if sel == [] then []
    else AttrValues(sel[..|sel| - 1], key) + [AttrOrEmpty(sel[|sel| - 1], key)]
  }

  predicate NoDuplicates(s: seq<string>) {
    forall i, j :: 0 <= i < j < |s| ==> s[i] != s[j]
  }

  /**
   * The values with empty strings skipped and repeats dropped, keeping each
   * first occurrence: what the seen-map loops build. It holds every non-empty
   * value of xs, nothing else, and no value twice.
   */
  function DistinctNonEmpty(xs: seq<string>): (r: seq<string>)
    ensures forall x :: x in r <==> x in xs && x != ""
    ensures NoDuplicates(r)
  {
    if xs == [] then []
    else
      var init := xs[..|xs| - 1];
      var x := xs[|xs| - 1];
      assert xs == init + [x];
      var r := DistinctNonEmpty(init);
      if x != "" && x !in r then r + [x] else r
  }

  /** The position of the first occurrence of x in xs, or |xs| when x does not occur. */
  function FirstIndex(xs: seq<string>, x: string): (k: nat)
    ensures k <= |xs| && x !in xs[..k]
    ensures k < |xs| <==> x in xs
    ensures k < |xs| ==> xs[k] == x
  {
    if xs == [] then 0
    else if xs[0] == x then 0
    else
      var k := FirstIndex(xs[1..], x);
      assert xs[..k + 1] == [xs[0]] + xs[1..][..k];
      assert xs == [xs[0]] + xs[1..];
      k + 1
  }

  lemma FirstIndexOfPrefix(xs: seq<string>, n: nat, y: string)
    requires n <= |xs| && y in xs[..n]
    ensures y in xs && FirstIndex(xs, y) == FirstIndex(xs[..n], y)
  {
    var k := FirstIndex(xs[..n], y);
    var k' := FirstIndex(xs, y);
    assert xs[k] == y;
    assert k' < |xs|;
    forall m | 0 <= m < k ensures xs[m] != y {
      assert xs[..n][..k][m] == xs[m];
    }
    forall m | 0 <= m < k' ensures xs[m] != y {
      assert xs[..k'][m] == xs[m];
    }
  }

  /** The entries of r come in the order of their first occurrences in xs. */
  predicate InFirstOccurrenceOrder(r: seq<string>, xs: seq<string>) {
    forall i, j :: 0 <= i < j < |r| ==> FirstIndex(xs, r[i]) < FirstIndex(xs, r[j])
  }

  /** A last value that does not occur earlier is first found at the end. */
  lemma FirstIndexOfNewLast(xs: seq<string>)
    requires xs != [] && xs[|xs| - 1] !in xs[..|xs| - 1]
    ensures FirstIndex(xs, xs[|xs| - 1]) == |xs| - 1
  {
    var n := |xs| - 1;
    forall m | 0 <= m < n ensures xs[m] != xs[n] {
      assert xs[..n][m] == xs[m];
    }
  }

  /** Appending a value that is new to xs keeps the first-occurrence order of the kept values. */
  lemma AppendNewValueKeepsOrder(xs: seq<string>, r0: seq<string>)
    requires xs != []
    requires xs[|xs| - 1] !in xs[..|xs| - 1]
    requires forall y :: y in r0 ==> FirstIndex(xs, y) < |xs| - 1
    requires InFirstOccurrenceOrder(r0, xs)
    ensures InFirstOccurrenceOrder(r0 + [xs[|xs| - 1]], xs)
  {
    FirstIndexOfNewLast(xs);
    AppendLaterKeepsOrder(xs, r0, xs[|xs| - 1]);
  }

  /** A value first found after every value of r0 can follow them. */
  lemma AppendLaterKeepsOrder(xs: seq<string>, r0: seq<string>, x: string)
    requires forall y :: y in r0 ==> FirstIndex(xs, y) < FirstIndex(xs, x)
    requires InFirstOccurrenceOrder(r0, xs)
    ensures InFirstOccurrenceOrder(r0 + [x], xs)
  {
    var r := r0 + [x];
    forall i, j | 0 <= i < j < |r| ensures FirstIndex(xs, r[i]) < FirstIndex(xs, r[j]) {
      assert r[i] == r0[i] && r0[i] in r0;
      if j < |r0| { assert r[j] == r0[j]; } else { assert r[j] == x; }
    }
  }


  /** Order by first occurrence in a prefix of xs is order by first occurrence in xs. */
  lemma OrderInPrefix(xs: seq<string>, n: nat, r0: seq<string>)
    requires n <= |xs|
    requires forall y :: y in r0 ==> y in xs[..n]
    requires InFirstOccurrenceOrder(r0, xs[..n])
    ensures forall y :: y in r0 ==> FirstIndex(xs, y) < n
    ensures InFirstOccurrenceOrder(r0, xs)
  {
    forall y | y in r0 ensures FirstIndex(xs, y) == FirstIndex(xs[..n], y) < n {
      FirstIndexOfPrefix(xs, n, y);
    }
    forall i, j | 0 <= i < j < |r0| ensures FirstIndex(xs, r0[i]) < FirstIndex(xs, r0[j]) {
      assert r0[i] in r0 && r0[j] in r0;
      assert FirstIndex(xs[..n], r0[i]) < FirstIndex(xs[..n], r0[j]);
    }
  }

  /** The kept values come in the order of their first occurrences in xs. */
  lemma {:induction false} DistinctNonEmptyKeepsFirstOccurrenceOrder(xs: seq<string>)
    ensures InFirstOccurrenceOrder(DistinctNonEmpty(xs), xs)
  {
    if xs != [] {
      var n := |xs| - 1;
      var init := xs[..n];
      var r0 := DistinctNonEmpty(init);
      DistinctNonEmptyKeepsFirstOccurrenceOrder(init);
      OrderInPrefix(xs, n, r0);
      if xs[n] != "" && xs[n] !in r0 {
        AppendNewValueKeepsOrder(xs, r0);
      }
    }
  }

  /** extractLinks on a tree: the distinct non-empty href values of a[href] elements, verbatim. */
  function Links(f: seq<Node>): seq<string> {
    DistinctNonEmpty(AttrValues(Find(f, IsLink), "href"))
  }

  /** extractImages on a tree: the distinct non-empty src values of img[src] elements, verbatim. */
  function Images(f: seq<Node>): seq<string> {
    DistinctNonEmpty(AttrValues(Find(f, IsImage), "src"))
  }

  /**
   * Every link is the exact href of some a[href] element of the tree (the
   * base URL plays no part), every such non-empty href is a link, and links
   * repeat no value and never are empty.
   */
  lemma LinksAreVerbatimHrefs(f: seq<Node>)
    ensures forall l :: l in Links(f) <==> l != "" && exists e :: e in Find(f, IsLink) && AttrOrEmpty(e, "href") == l
    ensures NoDuplicates(Links(f))
  {
    var sel := Find(f, IsLink);
    var vals := AttrValues(sel, "href");
    forall l ensures l in vals <==> exists e :: e in sel && AttrOrEmpty(e, "href") == l {
      if l in vals {
        var i :| 0 <= i < |vals| && vals[i] == l;
        assert sel[i] in sel;
      }
      if exists e :: e in sel && AttrOrEmpty(e, "href") == l {
        var e :| e in sel && AttrOrEmpty(e, "href") == l;
        var i :| 0 <= i < |sel| && sel[i] == e;
        assert vals[i] == l;
      }
    }
  }

  /** The src counterpart of LinksAreVerbatimHrefs. */
  lemma ImagesAreVerbatimSources(f: seq<Node>)
    ensures forall s :: s in Images(f) <==> s != "" && exists e :: e in Find(f, IsImage) && AttrOrEmpty(e, "src") == s
    ensures NoDuplicates(Images(f))
  {
    var sel := Find(f, IsImage);
    var vals := AttrValues(sel, "src");
    forall s ensures s in vals <==> exists e :: e in sel && AttrOrEmpty(e, "src") == s {
      if s in vals {
        var i :| 0 <= i < |vals| && vals[i] == s;
        assert sel[i] in sel;
      }
      if exists e :: e in sel && AttrOrEmpty(e, "src") == s {
        var e :| e in sel && AttrOrEmpty(e, "src") == s;
        var i :| 0 <= i < |sel| && sel[i] == e;
        assert vals[i] == s;
      }
    }
  }

  /** A body holding a nav bar with one link and, after it, a link of its own. */
  const NavBody: Node := Element("body", [], [
    Element("nav", [], [Element("a", [Attr("href", "/nav")], [])]),
    Element("a", [Attr("href", "/a")], [])])

  /** Removal takes the nav bar and its link out of the body. */
  lemma NavBodyPruned()
    ensures Prune([NavBody]) == [Element("body", [], [Element("a", [Attr("href", "/a")], [])])]
  {
    var link := Element("a", [Attr("href", "/a")], []);
    var nav := Element("nav", [], [Element("a", [Attr("href", "/nav")], [])]);
    assert [link][1..] == [] && [nav, link][1..] == [link] && [NavBody][1..] == [];
    assert Prune([link]) == [link];
    assert Prune([nav, link]) == [link];
  }

  /** Once the nav bar is removed, only the body's own link is reported. */
  lemma NavLinksDropped()
    ensures Links(Prune([NavBody])) == ["/a"]
  {
    var link := Element("a", [Attr("href", "/a")], []);
    var body := Element("body", [], [link]);
    NavBodyPruned();
    assert [link][1..] == [] && [body][1..] == [];
    assert Elements([link]) == [link];
    assert Elements([body]) == [body, link];
    assert [body, link][1..] == [link];
    assert HasAttr(link, "href") by { assert link.attrs[0].key == "href"; }
    assert Select([link], IsLink) == [link];
    assert Find([body], IsLink) == [link];
    assert AttrValues([link], "href") == ["/a"];
    assert ["/a"][..0] == [];
  }

  /** The loop step of CollectDistinct: item i's value is appended when it is non-empty and new. */
  lemma CollectStep(sel: seq<Node>, i: nat, key: string)
    requires i < |sel|
    ensures var r := DistinctNonEmpty(AttrValues(sel[..i], key));
            var v := AttrOrEmpty(sel[i], key);
            DistinctNonEmpty(AttrValues(sel[..i + 1], key)) == if v != "" && v !in r then r + [v] else r
  {
    assert sel[..i + 1][..i] == sel[..i];
    var xs := AttrValues(sel[..i + 1], key);
    assert xs[..|xs| - 1] == AttrValues(sel[..i], key);
  }

  /**
   * The Each loop of extractLinks and extractImages: skip empty values, skip
   * values already in seen, otherwise append and record in seen.
   */
  method CollectDistinct(sel: seq<Node>, key: string) returns (values: seq<string>)
    ensures values == DistinctNonEmpty(AttrValues(sel, key))
  {
    values := [];
    var seen: set<string> := {};
    for i := 0 to |sel|
      invariant values == DistinctNonEmpty(AttrValues(sel[..i], key))
      invariant forall v :: v in seen <==> v in values
    {
      CollectStep(sel, i, key);
      var v := AttrOrEmpty(sel[i], key);
      if v != "" && v !in seen {
        values := values + [v];
        seen := seen + {v};
      }
    }
    assert sel[..|sel|] == sel;
  }

  /** extractLinks(doc, baseURL): baseURL is accepted and never used. */
  method ExtractLinks(doc: Document, baseUrl: string) returns (links: seq<string>)
    ensures links == Links(doc.nodes)
  {
    links := CollectDistinct(Find(doc.nodes, IsLink), "href");
  }

  /** extractImages(doc, baseURL): baseURL is accepted and never used. */
  method ExtractImages(doc: Document, baseUrl: string) returns (images: seq<string>)
    ensures images == Images(doc.nodes)
  {
    images := CollectDistinct(Find(doc.nodes, IsImage), "src");
  }

  /** extractHeadings: append each non-empty trimmed heading text. */
  method ExtractHeadings(doc: Document) returns (headings: seq<string>)
    ensures headings == Headings(doc.nodes)
  {
    var sel := Find(doc.nodes, IsHeading);
    headings := [];
    for i := 0 to |sel|
      invariant headings == KeptTexts(sel[..i], 0)
    {
      KeptTextsStep(sel, i, 0);
      var text := TrimSpace(NodeText(sel[i]));
      if text != "" {
        headings := headings + [text];
      }
    }
    assert sel[..|sel|] == sel;
  }

  /** The loop step of ExtractHeadings: item i's contribution goes after those of the items before it. */
  lemma KeptTextsStep(sel: seq<Node>, i: nat, minBytes: nat)
    requires i < |sel|
    ensures KeptTexts(sel[..i + 1], minBytes) == KeptTexts(sel[..i], minBytes) + KeptOf(sel[i], minBytes)
  {
    assert sel[..i + 1][..i] == sel[..i];
  }

  /** The loop step of WriteLines: item j's line goes after what the items before it wrote. */
  lemma WriteAllStep(builder: string, items: seq<Node>, j: nat, minBytes: nat)
    requires j < |items|
    ensures WriteAll(builder, items[..j + 1], minBytes) == WriteAll(builder, items[..j], minBytes) + Written(items[j], minBytes)
  {
    assert items[..j + 1][..j] == items[..j];
  }

  /** After the last item the builder holds what it held plus every kept line. */
  lemma WriteAllOfEverything(builder: string, items: seq<Node>, minBytes: nat)
    ensures WriteAll(builder, items[..|items|], minBytes) == builder + Render(KeptTexts(items, minBytes))
  {
    assert items[..|items|] == items;
    WriteAllRenders(builder, items, minBytes);
  }

  /**
   * One Each callback over a selection writing to the builder: every item
   * whose trimmed text is non-empty and longer than minBytes bytes is written
   * followed by a newline.
   */
  method WriteLines(builder: string, items: seq<Node>, minBytes: nat) returns (out: string)
    ensures out == builder + Render(KeptTexts(items, minBytes))
  {
    out := builder;
    for j := 0 to |items|
      invariant out == WriteAll(builder, items[..j], minBytes)
    {
      WriteAllStep(builder, items, j, minBytes);
      var text := TrimmedText(items[j]);
      if Kept(text, minBytes) {
        out := out + (text + "\n");
      }
    }
    WriteAllOfEverything(builder, items, minBytes);
  }

  /** The builder after container i holds what it held before plus the lines of container i's text blocks. */
  lemma ContainerStep(containers: seq<Node>, i: nat)
    requires i < |containers|
    ensures Render(KeptTexts(FindWithin(containers[..i + 1], IsTextBlock), 0))
            == Render(KeptTexts(FindWithin(containers[..i], IsTextBlock), 0))
               + Render(KeptTexts(Find(Children(containers[i]), IsTextBlock), 0))
  {
    var done := FindWithin(containers[..i], IsTextBlock);
    var items := Find(Children(containers[i]), IsTextBlock);
    assert containers[..i + 1][..i] == containers[..i];
    assert FindWithin(containers[..i + 1], IsTextBlock) == done + items;
    KeptTextsAppend(done, items, 0);
    RenderAppend(KeptTexts(done, 0), KeptTexts(items, 0));
  }

  /**
   * extractMainContent: removes script, style, nav and footer from the shared
   * document in place, then fills a builder from the content containers, or
   * from the body's blocks when the containers gave nothing.
   */
  method ExtractMainContent(doc: Document) returns (content: string)
    modifies doc
    ensures doc.nodes == Prune(old(doc.nodes))
    ensures content == MainContent(doc.nodes)
  {
    doc.nodes := Prune(doc.nodes);
    var nodes := doc.nodes;
    var builder := "";
    var containers := Find(nodes, IsContentContainer);
    for i := 0 to |containers|
      invariant builder == Render(KeptTexts(FindWithin(containers[..i], IsTextBlock), 0))
      invariant doc.nodes == nodes
    {
      var items := Find(Children(containers[i]), IsTextBlock);
      ContainerStep(containers, i);
      builder := WriteLines(builder, items, 0);
    }
    assert containers[..|containers|] == containers;
    if |builder| == 0 {
      builder := WriteLines(builder, FindWithin(Find(nodes, IsBody), IsFallbackBlock), FallbackMinBytes);
    }
    content := TrimSpace(builder);
  }
}
