/** The JavaScript string operations the pure functions are written with. */
module Text {

  /** The characters String.prototype.trim and the regular-expression class \s agree on. */
  predicate IsSpace(c: char) {
    var u := c as int;
    || 9 <= u <= 13 || u == 0x20 || u == 0xA0 || u == 0x1680 || 0x2000 <= u <= 0x200A
    || u == 0x2028 || u == 0x2029 || u == 0x202F || u == 0x205F || u == 0x3000 || u == 0xFEFF
  }

  function TrimStart(s: string): (r: string)
    ensures r == [] || !IsSpace(r[0])
    ensures |r| <= |s|
  {
    if s == [] || !IsSpace(s[0]) then s else TrimStart(s[1..])
  }

  function TrimEnd(s: string): (r: string)
    ensures r == [] || !IsSpace(r[|r| - 1])
    ensures |r| <= |s| && (r != [] ==> r[0] == s[0])
  {
    if s == [] || !IsSpace(s[|s| - 1]) then s else TrimEnd(s[..|s| - 1])
  }

  function Trim(s: string): string {
    TrimEnd(TrimStart(s))
  }

  predicate Trimmed(s: string) {
    s == [] || (!IsSpace(s[0]) && !IsSpace(s[|s| - 1]))
  }

  lemma TrimIsTrimmed(s: string)
    ensures Trimmed(Trim(s))
    ensures Trimmed(s) ==> Trim(s) == s
  {
  }

  lemma {:induction false} TrimEndDropsSpaces(s: string, tail: string)
    requires forall c :: c in tail ==> IsSpace(c)
    ensures TrimEnd(s + tail) == TrimEnd(s)
  {
    if tail == [] {
      assert s + tail == s;
    } else {
      var n := |tail| - 1;
      assert (s + tail)[..|s + tail| - 1] == s + tail[..n];
      TrimEndDropsSpaces(s, tail[..n]);
    }
  }

  lemma {:induction false} TrimStartDropsSpaces(lead: string, s: string)
    requires forall c :: c in lead ==> IsSpace(c)
    ensures TrimStart(lead + s) == TrimStart(s)
  {
    if lead == [] {
      assert lead + s == s;
    } else {
      assert (lead + s)[1..] == lead[1..] + s;
      TrimStartDropsSpaces(lead[1..], s);
    }
  }

  function Lower(c: char): char {
    if 'A' <= c <= 'Z' then c - 'A' + 'a' else c
  }

  /** Case folding of the ASCII letters, which is what the /i flag does without /u. */
  function LowerAll(s: string): string {
    seq(|s|, i requires 0 <= i < |s| => Lower(s[i]))
  }

  predicate EndsWith(s: string, suffix: string) {
    |suffix| <= |s| && s[|s| - |suffix|..] == suffix
  }

  lemma EndsWithTransitive(s: string, t: string, u: string)
    requires EndsWith(s, t) && EndsWith(t, u)
    ensures EndsWith(s, u)
  {
    assert s[|s| - |u|..] == s[|s| - |t|..][|t| - |u|..];
  }

  lemma {:induction false} TrimStartIsTail(s: string)
    ensures EndsWith(s, TrimStart(s))
  {
    if s != [] && IsSpace(s[0]) {
      TrimStartIsTail(s[1..]);
      assert EndsWith(s, s[1..]);
      EndsWithTransitive(s, s[1..], TrimStart(s[1..]));
    }
  }

  /** Trimming the tail of a trimmed text gives a shorter tail. */
  lemma TrimmedTail(s: string, k: nat)
    requires Trimmed(s) && k <= |s|
    ensures EndsWith(s, Trim(s[k..]))
  {
    var tail := s[k..];
    TrimStartIsTail(tail);
    assert EndsWith(s, tail);
    EndsWithTransitive(s, tail, TrimStart(tail));
    assert TrimEnd(TrimStart(tail)) == TrimStart(tail);
  }

  lemma TrimIgnoresBlanks(before: string, s: string, after: string)
    requires forall c :: c in before || c in after ==> IsSpace(c)
    ensures Trim(before + s + after) == Trim(s)
  {
    assert before + s + after == before + (s + after);
    TrimStartDropsSpaces(before, s + after);
    TrimDropsAfter(s, after);
  }

  lemma {:induction false} TrimDropsAfter(s: string, after: string)
    requires forall c :: c in after ==> IsSpace(c)
    ensures Trim(s + after) == Trim(s)
  {
    if s != [] && IsSpace(s[0]) {
      assert (s + after)[1..] == s[1..] + after;
      TrimDropsAfter(s[1..], after);
    } else if s == [] {
      assert s + after == after + [];
      TrimStartDropsSpaces(after, []);
    } else {
      TrimEndDropsSpaces(s, after);
    }
  }

  /** s.startsWith(prefix), character by character. */
  predicate StartsWith(s: string, prefix: string)
    ensures StartsWith(s, prefix) ==> |prefix| <= |s|
  {
    prefix == [] || (s != [] && s[0] == prefix[0] && StartsWith(s[1..], prefix[1..]))
  }

  lemma {:induction false} StartsWithIs(s: string, prefix: string)
    ensures StartsWith(s, prefix) <==> |prefix| <= |s| && s[..|prefix|] == prefix
  {
    if prefix != [] && s != [] {
      StartsWithIs(s[1..], prefix[1..]);
      assert prefix == [prefix[0]] + prefix[1..];
      if |prefix| <= |s| {
        assert s[..|prefix|] == [s[0]] + s[1..][..|prefix| - 1];
      }
    }
  }

  /** pat occurs in s at position i. */
  predicate At(s: string, pat: string, i: int) {
    0 <= i <= |s| && StartsWith(s[i..], pat)
  }

  lemma AtIs(s: string, pat: string, i: int)
    ensures At(s, pat, i) <==> 0 <= i && i + |pat| <= |s| && s[i..i + |pat|] == pat
  {
    if 0 <= i <= |s| {
      StartsWithIs(s[i..], pat);
      if i + |pat| <= |s| {
        assert s[i..][..|pat|] == s[i..i + |pat|];
      }
    }
  }

  lemma AtLeft(a: string, b: string, pat: string, i: int)
    requires i + |pat| <= |a|
    ensures At(a + b, pat, i) <==> At(a, pat, i)
  {
    AtIs(a + b, pat, i);
    AtIs(a, pat, i);
    if 0 <= i {
      assert (a + b)[i..i + |pat|] == a[i..i + |pat|];
    }
  }

  lemma AtRight(a: string, b: string, pat: string, i: int)
    requires |a| <= i
    ensures At(a + b, pat, i) <==> At(b, pat, i - |a|)
  {
    if i <= |a + b| {
      assert (a + b)[i..] == b[i - |a|..];
    }
  }

  lemma AtSlice(s: string, pat: string, i: nat)
    requires At(s, pat, i)
    ensures i + |pat| <= |s| && s[i..i + |pat|] == pat
    ensures s == s[..i] + pat + s[i + |pat|..]
  {
    AtIs(s, pat, i);
  }

  /** One differing character rules an occurrence out. */
  lemma NotAt(s: string, pat: string, i: nat, k: nat)
    requires k < |pat| && i + k < |s| && s[i + k] != pat[k]
    ensures !At(s, pat, i)
  {
    AtIs(s, pat, i);
    if i + |pat| <= |s| {
      assert s[i..i + |pat|][k] == s[i + k];
    }
  }

  lemma AtStart(pat: string, post: string)
    ensures At(pat + post, pat, 0)
  {
    AtIs(pat + post, pat, 0);
  }

  ghost predicate Contains(s: string, pat: string) {
    exists i :: At(s, pat, i)
  }

  /** s.indexOf(pat, from) for a non-empty pat: the first occurrence at or after from, or -1. */
  function Find(s: string, pat: string, from: nat): (r: int)
    requires pat != []
    ensures r == -1 || (from <= r && At(s, pat, r))
    ensures forall i :: from <= i && At(s, pat, i) ==> 0 <= r <= i
    decreases |s| - from
  {
    if from + |pat| > |s| then -1
    else if At(s, pat, from) then from
    else Find(s, pat, from + 1)
  }

  lemma FindIs(s: string, pat: string, from: nat, at: nat)
    requires pat != [] && from <= at && At(s, pat, at)
    requires forall i :: from <= i < at ==> !At(s, pat, i)
    ensures Find(s, pat, from) == at
  {
  }

  /** s.split(pat).join(''): drops the occurrences found left to right, in a single pass. */
  function Remove(s: string, pat: string): string
    requires pat != []
    decreases |s|
  {
    var i := Find(s, pat, 0);
    if i == -1 then s else s[..i] + Remove(s[i + |pat|..], pat)
  }

  /** parts.join(pat). */
  ghost function Join(parts: seq<string>, pat: string): string {
    if |parts| == 0 then []
    else if |parts| == 1 then parts[0]
    else parts[0] + (pat + Join(parts[1..], pat))
  }

  ghost predicate NoneContains(parts: seq<string>, pat: string) {
    forall i :: 0 <= i < |parts| ==> !Contains(parts[i], pat)
  }

  /** Dictionary order. */
  predicate LexLe(a: string, b: string) {
    a == [] || (b != [] && (a[0] < b[0] || (a[0] == b[0] && LexLe(a[1..], b[1..]))))
  }

  lemma {:induction false} LexTotal(a: string, b: string)
    ensures LexLe(a, b) || LexLe(b, a)
    ensures LexLe(a, b) && LexLe(b, a) ==> a == b
  {
    if a != [] && b != [] && a[0] == b[0] {
      LexTotal(a[1..], b[1..]);
      assert a == [a[0]] + a[1..] && b == [b[0]] + b[1..];
    }
  }

  lemma {:induction false} LexTransitive(a: string, b: string, c: string)
    requires LexLe(a, b) && LexLe(b, c)
    ensures LexLe(a, c)
  {
    if a != [] && a[0] == b[0] == c[0] {
      LexTransitive(a[1..], b[1..], c[1..]);
    }
  }
}
