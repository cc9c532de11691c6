/** String operations of JavaScript that the models share. */
module Text {

  const NL := '\n'
  const CR := '\r'

  /** White space in the sense of `trim` and `trimStart`. */
  predicate IsSpace(c: char) {
    || '\t' <= c <= '\r' || c == ' ' || c == '\U{A0}' || c == '\U{1680}' || '\U{2000}' <= c <= '\U{200A}'
    || c == '\U{2028}' || c == '\U{2029}' || c == '\U{202F}' || c == '\U{205F}' || c == '\U{3000}' || c == '\U{FEFF}'
  }

  /** Case folding of ASCII letters. */
  function Lower(c: char): char {
    if 'A' <= c <= 'Z' then (c as int + 32) as char else c
  }

  function Upper(c: char): char {
    if 'a' <= c <= 'z' then (c as int - 32) as char else c
  }

  function ToLower(s: string): string {
    seq(|s|, i requires 0 <= i < |s| => Lower(s[i]))
  }

  function ToUpper(s: string): string {
    seq(|s|, i requires 0 <= i < |s| => Upper(s[i]))
  }

  predicate OneLine(s: string) {
    forall i :: 0 <= i < |s| ==> s[i] != NL
  }

  /** The first place from `i` on that is no white space. */
  function SkipSpaces(s: string, i: nat): (k: nat)
    requires i <= |s|
    ensures i <= k <= |s|
    decreases |s| - i
  {
    if i < |s| && IsSpace(s[i]) then SkipSpaces(s, i + 1) else i
  }

  /** The end of what is left of the first `n` characters without the white space at their end. */
  function DropSpaces(s: string, n: nat): (k: nat)
    requires n <= |s|
    ensures k <= n
  {
    if n > 0 && IsSpace(s[n - 1]) then DropSpaces(s, n - 1) else n
  }

  function TrimStart(s: string): string {
    s[SkipSpaces(s, 0)..]
  }

  function TrimEnd(s: string): string {
    s[..DropSpaces(s, |s|)]
  }

  function Trim(s: string): string {
    TrimEnd(TrimStart(s))
  }

  // What trimming does, said without it.

  predicate AllSpace(s: string) {
    forall i :: 0 <= i < |s| ==> IsSpace(s[i])
  }

  /** Nothing to trim at either end. */
  predicate Trimmed(s: string) {
    s != "" ==> !IsSpace(s[0]) && !IsSpace(s[|s| - 1])
  }

  lemma {:induction false} SkipSpacesIs(s: string, i: nat)
    requires i <= |s|
    ensures var k := SkipSpaces(s, i);
            (forall j :: i <= j < k ==> IsSpace(s[j])) && (k < |s| ==> !IsSpace(s[k]))
    decreases |s| - i
  {
    if i < |s| && IsSpace(s[i]) {
      SkipSpacesIs(s, i + 1);
    }
  }

  lemma {:induction false} DropSpacesIs(s: string, n: nat)
    requires n <= |s|
    ensures var k := DropSpaces(s, n);
            (forall j :: k <= j < n ==> IsSpace(s[j])) && (k > 0 ==> !IsSpace(s[k - 1]))
  {
    if n > 0 && IsSpace(s[n - 1]) {
      DropSpacesIs(s, n - 1);
    }
  }

  /** Only white space goes, and only at the start, up to the first character that is none. */
  lemma TrimStartIs(s: string) returns (before: string)
    ensures s == before + TrimStart(s) && AllSpace(before)
    ensures TrimStart(s) != "" ==> !IsSpace(TrimStart(s)[0])
  {
    SkipSpacesIs(s, 0);
    before := s[..SkipSpaces(s, 0)];
  }

  /** Only white space goes, at both ends, and none is left at either. */
  lemma TrimIs(s: string) returns (before: string, after: string)
    ensures s == before + Trim(s) + after && AllSpace(before) && AllSpace(after) && Trimmed(Trim(s))
  {
    before := TrimStartIs(s);
    var t := TrimStart(s);
    DropSpacesIs(t, |t|);
    after := t[DropSpaces(t, |t|)..];
    assert t == Trim(s) + after;
    assert before + (Trim(s) + after) == before + Trim(s) + after;
  }

  /** In such a text, what is no white space is in the middle, and the ends of the middle are none. */
  lemma MiddleIs(before: string, mid: string, after: string)
    requires AllSpace(before) && AllSpace(after) && Trimmed(mid)
    ensures var s, i, j := before + mid + after, |before|, |before| + |mid|;
            && (forall k :: 0 <= k < |s| && !IsSpace(s[k]) ==> i <= k < j)
            && (mid != "" ==> !IsSpace(s[i]) && !IsSpace(s[j - 1]))
            && s[i..j] == mid
  {
    var s := before + mid + after;
    forall k | 0 <= k < |s| ensures !IsSpace(s[k]) ==> |before| <= k < |before| + |mid| {
      if k < |before| {
        assert s[k] == before[k];
      } else if k >= |before| + |mid| {
        assert s[k] == after[k - |before| - |mid|];
      }
    }
    if mid != "" {
      assert s[|before|] == mid[0] && s[|before| + |mid| - 1] == mid[|mid| - 1];
    }
  }

  /** So what is between the white space is what is left, whatever the white space. */
  lemma TrimExactly(before: string, mid: string, after: string)
    requires AllSpace(before) && AllSpace(after) && Trimmed(mid)
    ensures Trim(before + mid + after) == mid
  {
    var b, a := TrimIs(before + mid + after);
    MiddleIs(before, mid, after);
    MiddleIs(b, Trim(before + mid + after), a);
  }

  /** Folding maps the letters onto each other in order and leaves every other character alone. */
  lemma FoldingIs(c: char)
    ensures 'A' <= c <= 'Z' ==> 'a' <= Lower(c) <= 'z' && Lower(c) - 'a' == c - 'A' && Upper(Lower(c)) == c
    ensures 'a' <= c <= 'z' ==> 'A' <= Upper(c) <= 'Z' && Upper(c) - 'A' == c - 'a' && Lower(Upper(c)) == c
    ensures !('A' <= c <= 'Z') ==> Lower(c) == c
    ensures !('a' <= c <= 'z') ==> Upper(c) == c
  {
  }

  predicate AllOneLine(lines: seq<string>) {
    forall k :: 0 <= k < |lines| ==> OneLine(lines[k])
  }

  /** `s.split("\n")`: never empty, and no line holds a line feed. */
  function Lines(s: string): (lines: seq<string>)
    ensures lines != [] && AllOneLine(lines)
  {
    if s == [] then [""]
    else Prepend(s[0], Lines(s[1..]))
  }

  function Prepend(c: char, lines: seq<string>): seq<string>
    requires lines != []
  {
    if c == NL then [""] + lines else [[c] + lines[0]] + lines[1..]
  }

  /** `lines.join("\n")`. */
  function Join(lines: seq<string>): string
    requires lines != []
  {
    if |lines| == 1 then lines[0] else lines[0] + [NL] + Join(lines[1..])
  }

  lemma {:induction false} JoinLines(s: string)
    ensures Join(Lines(s)) == s
  {
    if s != [] {
      JoinLines(s[1..]);
      var rest := Lines(s[1..]);
      if s[0] == NL {
        assert ([""] + rest)[1..] == rest;
        assert Join(Lines(s)) == "" + [NL] + s[1..];
      } else {
        var lines := [[s[0]] + rest[0]] + rest[1..];
        assert lines[1..] == rest[1..];
        assert Join(lines) == [s[0]] + Join(rest);
      }
    }
  }

  lemma {:induction false} LinesJoin(lines: seq<string>)
    requires lines != [] && AllOneLine(lines)
    ensures Lines(Join(lines)) == lines
  {
    LinesOfOne(lines[0]);
    if |lines| == 1 {
      assert lines == [lines[0]];
    } else {
      LinesJoin(lines[1..]);
      LinesAppend(lines[0], Join(lines[1..]));
      assert lines == [lines[0]] + lines[1..];
    }
  }

  lemma {:induction false} LinesOfOne(l: string)
    requires OneLine(l)
    ensures Lines(l) == [l]
  {
    if l != [] {
      LinesOfOne(l[1..]);
      assert [l[0]] + l[1..] == l;
    }
  }

  lemma {:induction false} LinesAppend(a: string, b: string)
    ensures Lines(a + [NL] + b) == Lines(a) + Lines(b)
    decreases |a|
  {
    var s := a + [NL] + b;
    if a == [] {
      assert s[1..] == b && s[0] == NL;
    } else {
      LinesAppend(a[1..], b);
      assert s[1..] == a[1..] + [NL] + b && s[0] == a[0];
      PrependAppend(a[0], Lines(a[1..]), Lines(b));
    }
  }

  lemma PrependAppend(c: char, a: seq<string>, b: seq<string>)
    requires a != []
    ensures Prepend(c, a + b) == Prepend(c, a) + b
  {
    assert (a + b)[1..] == a[1..] + b;
  }
}
