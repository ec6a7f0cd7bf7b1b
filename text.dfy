/**
 * The string operations the extractors rely on: Go's strings.TrimSpace, Go's
 * byte length len(s) of a UTF-8 string, and the text a strings.Builder holds
 * after one WriteString(line + "\n") per line.
 */
module Text {

  /** unicode.IsSpace: the Latin-1 spaces and the White_Space code points above U+00FF. */
  predicate IsSpace(c: char) {
    c == ' ' || c == '\t' || c == '\n' || c == '\U{000B}' || c == '\U{000C}' || c == '\r'
    || c == '\U{0085}' || c == '\U{00A0}' || c == '\U{1680}'
    || ('\U{2000}' <= c <= '\U{200A}')
    || c == '\U{2028}' || c == '\U{2029}' || c == '\U{202F}' || c == '\U{205F}' || c == '\U{3000}'
  }

  predicate AllSpace(s: string) {
    forall i :: 0 <= i < |s| ==> IsSpace(s[i])
  }

  /** Neither end of s is white space. */
  predicate IsTrimmed(s: string) {
    s == [] || (!IsSpace(s[0]) && !IsSpace(s[|s| - 1]))
  }

  /** strings.TrimLeftFunc(s, unicode.IsSpace): drops the leading white space and nothing else. */
  function TrimLeft(s: string): (r: string)
    ensures |r| <= |s| && r == s[|s| - |r|..]
    ensures AllSpace(s[..|s| - |r|])
    ensures r == [] || !IsSpace(r[0])
  {
    if s != [] && IsSpace(s[0]) then TrimLeft(s[1..]) else s
  }

  /** strings.TrimRightFunc(s, unicode.IsSpace): drops the trailing white space and nothing else. */
  function TrimRight(s: string): (r: string)
    ensures |r| <= |s| && r == s[..|r|]
    ensures AllSpace(s[|r|..])
    ensures r == [] || !IsSpace(r[|r| - 1])
  {
    if s != [] && IsSpace(s[|s| - 1]) then TrimRight(s[..|s| - 1]) else s
  }

  /** strings.TrimSpace: the leading and then the trailing white space removed. */
  function TrimSpace(s: string): string {
    TrimRight(TrimLeft(s))
  }

  /** The trimmed text has no white space at either end, and is empty exactly when s is all white space. */
  lemma TrimSpaceIsTrimmed(s: string)
    ensures IsTrimmed(TrimSpace(s)) && |TrimSpace(s)| <= |s|
    ensures TrimSpace(s) == [] <==> AllSpace(s)
  {
    var l := TrimLeft(s);
    var r := TrimRight(l);
    assert AllSpace(l) ==> AllSpace(s) by {
      if l == [] { assert s[..|s|] == s; }
    }
    assert r == [] ==> AllSpace(l) by {
      if r == [] { assert l[|r|..] == l; }
    }
  }

  lemma {:induction false} TrimLeftPadded(a: string, m: string)
    requires AllSpace(a)
    requires m == [] || !IsSpace(m[0])
    ensures TrimLeft(a + m) == m
    decreases |a|
  {
    if a != [] {
      assert (a + m)[0] == a[0];
      assert (a + m)[1..] == a[1..] + m;
      TrimLeftPadded(a[1..], m);
    }
  }

  lemma {:induction false} TrimRightPadded(m: string, b: string)
    requires AllSpace(b)
    requires m == [] || !IsSpace(m[|m| - 1])
    ensures TrimRight(m + b) == m
    decreases |b|
  {
    if b == [] {
      assert m + b == m;
    } else {
      assert (m + b)[|m + b| - 1] == b[|b| - 1];
      assert (m + b)[..|m + b| - 1] == m + b[..|b| - 1];
      TrimRightPadded(m, b[..|b| - 1]);
    }
  }

  /**
   * TrimSpace removes exactly the white-space padding: a trimmed core surrounded
   * by white space comes back unchanged, whatever the padding.
   */
  lemma TrimSpaceOfPadded(a: string, m: string, b: string)
    requires AllSpace(a) && AllSpace(b) && IsTrimmed(m)
    ensures TrimSpace(a + m + b) == m
  {
    assert a + m + b == a + (m + b);
    if m == [] {
      assert m + b == b;
      TrimLeftPadded(a + b, []);
      assert a + b + [] == a + b;
      assert TrimLeft(a + m + b) == [];
    } else {
      assert (m + b)[0] == m[0];
      TrimLeftPadded(a, m + b);
      TrimRightPadded(m, b);
    }
  }

  /** Number of bytes of c in UTF-8. */
  function RuneLen(c: char): nat {
    if c < '\U{0080}' then 1
    else if c < '\U{0800}' then 2
    else if c < '\U{10000}' then 3
    else 4
  }

  /** Go's len(s) for a string: its length in UTF-8 bytes, between one and four bytes per character. */
  function Utf8Len(s: string): (n: nat)
    ensures |s| <= n <= 4 * |s|
    ensures n == 0 <==> s == []
  {
    if s == [] then 0 else RuneLen(s[0]) + Utf8Len(s[1..])
  }

  /** What a strings.Builder holds after WriteString(line + "\n") for each line in turn. */
  function Render(lines: seq<string>): (r: string)
    ensures r == [] <==> lines == []
  {
    if lines == [] then ""
    else Render(lines[..|lines| - 1]) + lines[|lines| - 1] + "\n"
  }

  /** Writing two runs of lines one after the other. */
  lemma {:induction false} RenderAppend(a: seq<string>, b: seq<string>)
    ensures Render(a + b) == Render(a) + Render(b)
    decreases |b|
  {
    if b == [] {
      assert a + b == a;
    } else {
      assert (a + b)[..|a + b| - 1] == a + b[..|b| - 1];
      assert (a + b)[|a + b| - 1] == b[|b| - 1];
      RenderAppend(a, b[..|b| - 1]);
    }
  }

  /** strings.Join(lines, "\n"): the lines with one newline between neighbours. */
  function Join(lines: seq<string>): string {
    if lines == [] then ""
    else if |lines| == 1 then lines[0]
    else Join(lines[..|lines| - 1]) + "\n" + lines[|lines| - 1]
  }

  predicate NonEmptyTrimmedLines(lines: seq<string>) {
    forall i :: 0 <= i < |lines| ==> lines[i] != [] && IsTrimmed(lines[i])
  }

  lemma {:induction false} RenderIsJoinPlusNewline(lines: seq<string>)
    requires lines != []
    ensures Render(lines) == Join(lines) + "\n"
    decreases |lines|
  {
    if |lines| > 1 {
      RenderIsJoinPlusNewline(lines[..|lines| - 1]);
    } else {
      assert lines[..0] == [];
    }
  }

  lemma {:induction false} JoinEnds(lines: seq<string>)
    requires lines != [] && NonEmptyTrimmedLines(lines)
    ensures Join(lines) != []
    ensures Join(lines)[0] == lines[0][0]
    ensures Join(lines)[|Join(lines)| - 1] == lines[|lines| - 1][|lines[|lines| - 1]| - 1]
    decreases |lines|
  {
    if |lines| > 1 {
      var init := lines[..|lines| - 1];
      JoinEnds(init);
      assert init[0] == lines[0];
    }
  }

  /**
   * Trimming the builder's text after writing non-empty trimmed lines gives the
   * lines joined by single newlines: only the final "\n" is removed.
   */
  lemma RenderThenTrimIsJoin(lines: seq<string>)
    requires NonEmptyTrimmedLines(lines)
    ensures TrimSpace(Render(lines)) == Join(lines)
  {
    if lines != [] {
      RenderIsJoinPlusNewline(lines);
      JoinEnds(lines);
      var j := Join(lines);
      assert IsTrimmed(j);
      assert AllSpace("\n");
      TrimSpaceOfPadded("", j, "\n");
      assert "" + j + "\n" == j + "\n";
    }
  }
}
