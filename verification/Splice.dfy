/**
 * Replacing the text between two sentinels of a document, for any pair of sentinels. AiSection
 * uses it for the recommendation block (lib/report/aiSection.ts).
 */
module Splice {
  import opened Sequences
  import opened Text

  datatype Marks = Marks(start: string, end: string)

  /** A sentinel opens with the only '<' it has, so two occurrences never overlap. */
  ghost predicate OpensOnce(pat: string) {
    && pat != [] && pat[0] == '<' && '\n' !in pat
    && forall i :: 0 < i < |pat| ==> pat[i] != '<'
  }

  ghost predicate Valid(m: Marks) {
    && OpensOnce(m.start) && OpensOnce(m.end)
    && exists k :: 0 <= k < |m.start| && k < |m.end| && m.start[k] != m.end[k]
  }

  /** The positions of the first start sentinel and of the first end sentinel after it. */
  function Locate(m: Marks, md: string): (r: Option<(nat, nat)>)
    requires m.start != [] && m.end != []
    ensures r.Some? ==>
      && At(md, m.start, r.value.0) && At(md, m.end, r.value.1)
      && r.value.0 + |m.start| <= r.value.1
  {
    var start := Find(md, m.start, 0);
    if start == -1 then None
    else
      var end := Find(md, m.end, start + |m.start|);
      if end == -1 then None else Some((start, end))
  }

  function Separator(md: string): string {
    if EndsWith(md, "\n") then "\n" else "\n\n"
  }

  /** Swaps the block for one around `inner`, or appends such a block. */
  function Replace(m: Marks, md: string, inner: string): string
    requires m.start != [] && m.end != []
  {
    match Locate(m, md)
    case None => md + Separator(md) + (m.start + inner + m.end) + "\n"
    case Some((start, end)) => md[..start] + (m.start + inner + m.end) + md[end + |m.end|..]
  }

  /** The text between the sentinels. */
  function Between(m: Marks, md: string): Option<string>
    requires m.start != [] && m.end != []
  {
    match Locate(m, md)
    case None => None
    case Some((start, end)) => Some(md[start + |m.start|..end])
  }

  /** The text before and after the block. */
  function Outside(m: Marks, md: string): Option<(string, string)>
    requires m.start != [] && m.end != []
  {
    match Locate(m, md)
    case None => None
    case Some((start, end)) => Some((md[..start], md[end + |m.end|..]))
  }

  /** The text before and after the block, or around the one that would be appended. */
  function Around(m: Marks, md: string): (string, string)
    requires m.start != [] && m.end != []
  {
    Outside(m, md).GetOr((md + Separator(md), "\n"))
  }

  /** No block yet, or one that is closed. */
  ghost predicate WellFormed(m: Marks, md: string)
    requires m.start != [] && m.end != []
  {
    Locate(m, md).Some? || !Contains(md, m.start)
  }

  function Document(m: Marks, pre: string, inner: string, post: string): string {
    pre + (m.start + inner + m.end) + post
  }

  /** The first occurrence of pat in pre + pat + post is the one written, if pre has none. */
  lemma FirstOccurrence(pre: string, pat: string, post: string, from: nat)
    requires OpensOnce(pat) && from <= |pre|
    requires forall i :: from <= i ==> !At(pre, pat, i)
    ensures Find(pre + (pat + post), pat, from) == |pre|
  {
    var s := pre + (pat + post);
    AtStart(pat, post);
    AtRight(pre, pat + post, pat, |pre|);
    forall i | from <= i < |pre| ensures !At(s, pat, i) {
      if i + |pat| <= |pre| {
        AtLeft(pre, pat + post, pat, i);
      } else {
        NotAt(s, pat, i, |pre| - i);
      }
    }
    FindIs(s, pat, from, |pre|);
  }

  /** The ways to bracket a document. */
  lemma Bracket(pre: string, start: string, inner: string, end: string, post: string)
    ensures pre + (start + inner + end) + post == pre + (start + (inner + (end + post)))
    ensures pre + (start + inner + end) + post == (pre + start + inner) + (end + post)
  {
  }

  lemma FindsStart(m: Marks, pre: string, inner: string, post: string)
    requires Valid(m) && !Contains(pre, m.start)
    ensures Find(Document(m, pre, inner, post), m.start, 0) == |pre|
  {
    Bracket(pre, m.start, inner, m.end, post);
    FirstOccurrence(pre, m.start, inner + (m.end + post), 0);
  }

  lemma FindsEnd(m: Marks, pre: string, inner: string, post: string)
    requires Valid(m) && !Contains(inner, m.end)
    ensures Find(Document(m, pre, inner, post), m.end, |pre| + |m.start|) == |pre| + |m.start| + |inner|
  {
    var head := pre + m.start;
    Bracket(pre, m.start, inner, m.end, post);
    forall i | |head| <= i ensures !At(head + inner, m.end, i) {
      AtRight(head, inner, m.end, i);
    }
    FirstOccurrence(head + inner, m.end, post, |head|);
  }

  lemma Slices(pre: string, start: string, inner: string, end: string, post: string)
    ensures var md := pre + (start + inner + end) + post; var n := |pre| + |start|;
      md[..|pre|] == pre && md[n..n + |inner|] == inner && md[n + |inner| + |end|..] == post
  {
  }

  lemma LocateDocument(m: Marks, pre: string, inner: string, post: string)
    requires Valid(m) && !Contains(pre, m.start) && !Contains(inner, m.end)
    ensures Locate(m, Document(m, pre, inner, post)) == Some((|pre|, |pre| + |m.start| + |inner|))
    ensures Between(m, Document(m, pre, inner, post)) == Some(inner)
    ensures Outside(m, Document(m, pre, inner, post)) == Some((pre, post))
  {
    FindsStart(m, pre, inner, post);
    FindsEnd(m, pre, inner, post);
    Slices(pre, m.start, inner, m.end, post);
  }

  lemma PrefixHasNone(s: string, n: nat, pat: string)
    requires pat != [] && n <= |s|
    requires forall i :: 0 <= i < n ==> !At(s, pat, i)
    ensures !Contains(s[..n], pat)
  {
    forall i ensures !At(s[..n], pat, i) {
      if 0 <= i && i + |pat| <= n {
        assert s == s[..n] + s[n..];
        AtLeft(s[..n], s[n..], pat, i);
      }
    }
  }

  /** Line breaks after a text add no sentinel to it. */
  lemma BreaksAddNone(s: string, sep: string, pat: string)
    requires OpensOnce(pat)
    requires forall c :: c in sep ==> c == '\n'
    ensures Contains(s + sep, pat) <==> Contains(s, pat)
  {
    forall i | At(s, pat, i) ensures At(s + sep, pat, i) {
      AtLeft(s, sep, pat, i);
    }
    forall i | 0 <= i && |s| < i + |pat| <= |s + sep| ensures !At(s + sep, pat, i) {
      assert sep[i + |pat| - 1 - |s|] in sep && pat[|pat| - 1] in pat;
      NotAt(s + sep, pat, i, |pat| - 1);
    }
    forall i | At(s + sep, pat, i) ensures At(s, pat, i) {
      AtLeft(s, sep, pat, i);
    }
  }

  /** Nor does a lead without a '<' before it. */
  lemma LeadAddsNone(lead: string, s: string, pat: string)
    requires OpensOnce(pat) && '<' !in lead
    ensures Contains(lead + s, pat) <==> Contains(s, pat)
  {
    forall i | At(s, pat, i) ensures At(lead + s, pat, |lead| + i) {
      AtRight(lead, s, pat, |lead| + i);
    }
    forall i | 0 <= i < |lead| ensures !At(lead + s, pat, i) {
      NotAt(lead + s, pat, i, 0);
    }
    forall i | At(lead + s, pat, i) ensures At(s, pat, i - |lead|) {
      AtRight(lead, s, pat, i);
    }
  }

  /** No end sentinel straddles a start sentinel, or sits on it. */
  lemma NoneAcross(m: Marks, a: string, b: string)
    requires Valid(m) && !Contains(a, m.end) && !Contains(b, m.end)
    ensures !Contains(a + (m.start + b), m.end)
  {
    var all := a + (m.start + b);
    assert all == (a + m.start) + b;
    var k :| 0 <= k < |m.start| && k < |m.end| && m.start[k] != m.end[k];
    forall i | 0 <= i ensures !At(all, m.end, i) {
      if i + |m.end| <= |a| {
        AtLeft(a, m.start + b, m.end, i);
      } else if i < |a| {
        NotAt(all, m.end, i, |a| - i);
      } else if i == |a| {
        NotAt(all, m.end, i, k);
      } else if i < |a| + |m.start| {
        NotAt(all, m.end, i, 0);
      } else {
        AtRight(a + m.start, b, m.end, i);
      }
    }
  }

  /** Replacing always leaves a document around the new inner text. */
  lemma ReplaceIsDocument(m: Marks, md: string, inner: string) returns (pre: string, post: string)
    requires Valid(m) && WellFormed(m, md)
    ensures !Contains(pre, m.start)
    ensures Replace(m, md, inner) == Document(m, pre, inner, post)
    ensures match Outside(m, md)
            case Some(o) => o == (pre, post)
            case None => pre == md + Separator(md) && post == "\n"
  {
    match Locate(m, md) {
      case Some((start, end)) =>
        pre, post := md[..start], md[end + |m.end|..];
        assert start == Find(md, m.start, 0);
        PrefixHasNone(md, start, m.start);
      case None =>
        pre, post := md + Separator(md), "\n";
        BreaksAddNone(md, Separator(md), m.start);
    }
  }

  /** The last replacement wins, wherever the block was. */
  lemma ReplaceTwice(m: Marks, md: string, first: string, second: string)
    requires Valid(m) && WellFormed(m, md) && !Contains(first, m.end)
    ensures Replace(m, Replace(m, md, first), second) == Replace(m, md, second)
  {
    var pre, post := ReplaceIsDocument(m, md, first);
    LocateDocument(m, pre, first, post);
    var pre2, post2 := ReplaceIsDocument(m, Replace(m, md, first), second);
    var pre3, post3 := ReplaceIsDocument(m, md, second);
  }

  /** Bracketing only. */
  lemma Nested(pre: string, start: string, cut: string, end: string, after: string, post: string)
    ensures pre + (start + (cut + end + after) + end) + post
         == pre + (start + cut + end) + (after + end + post)
    ensures (pre + start + cut) + after + (start + post + end) + "\n"
         == pre + (start + (cut + after + (start + post)) + end) + "\n"
  {
  }

  lemma FirstSplits(s: string, pat: string)
    requires pat != [] && Contains(s, pat)
    ensures 0 <= Find(s, pat, 0) && Find(s, pat, 0) + |pat| <= |s|
    ensures var k := Find(s, pat, 0); s == s[..k] + pat + s[k + |pat|..] && !Contains(s[..k], pat)
  {
    FindsIfContains(s, pat);
    AtSlice(s, pat, Find(s, pat, 0));
    PrefixHasNone(s, Find(s, pat, 0), pat);
  }

  lemma FindsIfContains(s: string, pat: string)
    requires pat != [] && Contains(s, pat)
    ensures 0 <= Find(s, pat, 0) && Find(s, pat, 0) + |pat| <= |s|
  {
  }

  /** With an end sentinel inside, the part up to it is all a reader finds. */
  lemma BetweenIsCut(m: Marks, pre: string, inner: string, post: string)
    requires Valid(m) && !Contains(pre, m.start) && Contains(inner, m.end)
    ensures 0 <= Find(inner, m.end, 0) < |inner|
    ensures Between(m, Document(m, pre, inner, post)) == Some(inner[..Find(inner, m.end, 0)])
  {
    FirstSplits(inner, m.end);
    var k := Find(inner, m.end, 0);
    var after := inner[k + |m.end|..];
    Nested(pre, m.start, inner[..k], m.end, after, post);
    LocateDocument(m, pre, inner[..k], after + m.end + post);
  }

  /** What is left after an unclosed start sentinel holds no end sentinel. */
  lemma Unclosed(m: Marks, md: string) returns (pre: string, tail: string)
    requires Valid(m) && !WellFormed(m, md)
    ensures Find(md, m.start, 0) == |pre| && md == pre + m.start + tail && pre == md[..|pre|]
    ensures !Contains(pre, m.start) && !Contains(tail, m.end)
  {
    FirstSplits(md, m.start);
    var start := Find(md, m.start, 0);
    var head := start + |m.start|;
    pre, tail := md[..start], md[head..];
    assert md == md[..head] + tail;
    forall i | 0 <= i ensures !At(tail, m.end, i) {
      AtRight(md[..head], tail, m.end, head + i);
    }
  }

  /**
   * A start sentinel that is never closed is not repaired: the next block is appended after it,
   * and the one after that swallows everything between the dangling sentinel and that block.
   */
  lemma DanglingStart(m: Marks, md: string, first: string, second: string)
    requires Valid(m) && !WellFormed(m, md) && !Contains(first, m.end)
    ensures 0 <= Find(md, m.start, 0) <= |md|
    ensures Replace(m, Replace(m, md, first), second)
         == md[..Find(md, m.start, 0)] + (m.start + second + m.end) + "\n"
  {
    var pre, tail := Unclosed(m, md);
    var lost := tail + Separator(md);
    BreaksAddNone(tail, Separator(md), m.end);
    NoneAcross(m, lost, first);
    Nested(pre, m.start, tail, m.end, Separator(md), first);
    LocateDocument(m, pre, lost + (m.start + first), "\n");
  }

  /** With an end sentinel inside, the next block replaces the part up to it, and the rest stays. */
  lemma ReplaceInCut(m: Marks, pre: string, a: string, after: string, post: string, second: string)
    requires Valid(m) && !Contains(pre, m.start) && !Contains(a, m.end)
    ensures Replace(m, Document(m, pre, a + m.end + after, post), second)
         == Document(m, pre, second, after + m.end + post)
  {
    Nested(pre, m.start, a, m.end, after, post);
    LocateDocument(m, pre, a, after + m.end + post);
  }

  lemma ClosedButCut(m: Marks, md: string, first: string, second: string)
    requires Valid(m) && WellFormed(m, md) && Contains(first, m.end)
    ensures Replace(m, Replace(m, md, first), second) != Replace(m, md, second)
  {
    var pre, post := ReplaceIsDocument(m, md, first);
    var pre2, post2 := ReplaceIsDocument(m, md, second);
    FirstSplits(first, m.end);
    var k := Find(first, m.end, 0);
    var after := first[k + |m.end|..];
    ReplaceInCut(m, pre, first[..k], after, post, second);
    assert |Document(m, pre, second, after + m.end + post)| > |Document(m, pre2, second, post2)|;
  }

  /** The first end sentinel of a text that has one after `a`, where `a` has none. */
  lemma FirstAfter(m: Marks, a: string, rest: string)
    requires Valid(m) && !Contains(a, m.end)
    ensures Find(a + (m.end + rest), m.end, 0) == |a|
  {
    FirstOccurrence(a, m.end, rest, 0);
  }

  /** Where the end sentinel first comes tells a replaced block from an appended one. */
  lemma AppendedIsLater(m: Marks, lost: string, second: string, after: string, tail: string)
    requires Valid(m) && !Contains(lost, m.end)
    ensures second + (m.end + after) != lost + (m.start + (second + (m.end + tail)))
  {
    if Contains(second, m.end) {
      FirstSplits(second, m.end);
      var f := Find(second, m.end, 0);
      var a, b := second[..f], second[f + |m.end|..];
      Rebracket2(a, m.end, b, m.end + after);
      Rebracket2(a, m.end, b, m.end + tail);
      FirstAfter(m, a, b + (m.end + after));
      FirstInAppended(m, lost, a, b + (m.end + tail));
    } else {
      FirstAfter(m, second, after);
      FirstInAppended(m, lost, second, tail);
    }
  }

  /** Bracketing only. */
  lemma Rebracket2(a: string, end: string, b: string, rest: string)
    ensures (a + end + b) + rest == a + (end + (b + rest))
  {
  }

  lemma FirstInAppended(m: Marks, lost: string, a: string, b: string)
    requires Valid(m) && !Contains(lost, m.end) && !Contains(a, m.end)
    ensures Find(lost + (m.start + (a + (m.end + b))), m.end, 0) == |lost| + |m.start| + |a|
  {
    NoneAcross(m, lost, a);
    FirstOccurrence(lost + (m.start + a), m.end, b, 0);
    Rebracket(lost, m.start, a, m.end + b);
  }

  /** Bracketing only. */
  lemma Rebracket(lead: string, start: string, a: string, b: string)
    ensures lead + (start + (a + b)) == (lead + (start + a)) + b
  {
    assert start + (a + b) == (start + a) + b;
  }

  lemma DanglingTwice(m: Marks, md: string, pre: string, tail: string, first: string, second: string)
    returns (after: string)
    requires Valid(m) && md == pre + m.start + tail && Locate(m, md) == None
    requires !Contains(pre, m.start) && !Contains(tail, m.end) && Contains(first, m.end)
    ensures Replace(m, Replace(m, md, first), second)
         == (pre + m.start) + (second + (m.end + (after + m.end + "\n")))
  {
    var lost := tail + Separator(md);
    BreaksAddNone(tail, Separator(md), m.end);
    FirstSplits(first, m.end);
    var k := Find(first, m.end, 0);
    after := first[k + |m.end|..];
    var a := lost + (m.start + first[..k]);
    NoneAcross(m, lost, first[..k]);
    Nested(pre, m.start, tail, m.end, Separator(md), first);
    Rebracket3(lost, m.start, first[..k], m.end, after);
    ReplaceInCut(m, pre, a, after, "\n", second);
    HeadAndRest(pre, m.start, second, m.end, after + m.end + "\n");
  }

  /** Bracketing only. */
  lemma HeadAndRest(pre: string, start: string, second: string, end: string, post: string)
    ensures pre + (start + second + end) + post == (pre + start) + (second + (end + post))
  {
  }

  /** Bracketing only. */
  lemma Rebracket3(lost: string, start: string, a: string, end: string, after: string)
    ensures lost + (start + (a + end + after)) == (lost + (start + a)) + end + after
  {
  }

  lemma DanglingOnce(m: Marks, md: string, pre: string, tail: string, second: string)
    requires m.start != [] && m.end != [] && md == pre + m.start + tail && Locate(m, md) == None
    ensures Replace(m, md, second)
         == (pre + m.start) + ((tail + Separator(md)) + (m.start + (second + (m.end + "\n"))))
  {
    Appended(pre, m.start, tail, Separator(md), second, m.end);
  }

  /** Bracketing only. */
  lemma Appended(pre: string, start: string, tail: string, sep: string, second: string, end: string)
    ensures (pre + start + tail) + sep + (start + second + end) + "\n"
         == (pre + start) + ((tail + sep) + (start + (second + (end + "\n"))))
  {
  }

  lemma DanglingAndCut(m: Marks, md: string, first: string, second: string)
    requires Valid(m) && !WellFormed(m, md) && Contains(first, m.end)
    ensures Replace(m, Replace(m, md, first), second) != Replace(m, md, second)
  {
    var pre, tail := Unclosed(m, md);
    var lost := tail + Separator(md);
    var after := DanglingTwice(m, md, pre, tail, first, second);
    DanglingOnce(m, md, pre, tail, second);
    BreaksAddNone(tail, Separator(md), m.end);
    AppendedIsLater(m, lost, second, after + m.end + "\n", "\n");
    SameTail(pre + m.start, second + (m.end + (after + m.end + "\n")), lost + (m.start + (second + (m.end + "\n"))));
  }

  lemma SameTail(head: string, a: string, b: string)
    requires a != b
    ensures head + a != head + b
  {
    assert (head + a)[|head|..] == a && (head + b)[|head|..] == b;
  }

  lemma DanglingIsShorter(m: Marks, md: string, first: string, second: string)
    requires Valid(m) && !WellFormed(m, md) && !Contains(first, m.end)
    ensures Replace(m, Replace(m, md, first), second) != Replace(m, md, second)
  {
    var pre, tail := Unclosed(m, md);
    DanglingStart(m, md, first, second);
    assert |md[..|pre|] + (m.start + second + m.end) + "\n"| < |md + Separator(md) + (m.start + second + m.end) + "\n"|;
  }

  /** The last replacement wins exactly when the document was well formed and the first text can be closed. */
  lemma ReplaceTwiceIff(m: Marks, md: string, first: string, second: string)
    requires Valid(m)
    ensures Replace(m, Replace(m, md, first), second) == Replace(m, md, second)
      <==> WellFormed(m, md) && !Contains(first, m.end)
  {
    if WellFormed(m, md) {
      if Contains(first, m.end) {
        ClosedButCut(m, md, first, second);
      } else {
        ReplaceTwice(m, md, first, second);
      }
    } else if Contains(first, m.end) {
      DanglingAndCut(m, md, first, second);
    } else {
      DanglingIsShorter(m, md, first, second);
    }
  }

  /** With an end sentinel inside, what a reader takes for the text after the block is longer. */
  lemma OutsideOfCut(m: Marks, pre: string, inner: string, post: string)
    requires Valid(m) && !Contains(pre, m.start) && Contains(inner, m.end)
    ensures var o := Outside(m, Document(m, pre, inner, post)); o.Some? && |o.value.1| > |post|
  {
    FirstSplits(inner, m.end);
    var k := Find(inner, m.end, 0);
    var after := inner[k + |m.end|..];
    Nested(pre, m.start, inner[..k], m.end, after, post);
    LocateDocument(m, pre, inner[..k], after + m.end + post);
  }

  /** After a dangling start sentinel the block is found there, closed by the first end sentinel after it. */
  lemma OutsideOfDangling(m: Marks, md: string, inner: string)
    requires Valid(m) && !WellFormed(m, md)
    ensures var o := Outside(m, Replace(m, md, inner)); o.Some? && |o.value.0| < |md|
  {
    var pre, tail := Unclosed(m, md);
    var lost := tail + Separator(md);
    BreaksAddNone(tail, Separator(md), m.end);
    if Contains(inner, m.end) {
      FirstSplits(inner, m.end);
      var k := Find(inner, m.end, 0);
      var after := inner[k + |m.end|..];
      NoneAcross(m, lost, inner[..k]);
      Rebracket3(lost, m.start, inner[..k], m.end, after);
      Nested(pre, m.start, tail, m.end, Separator(md), inner);
      Nested(pre, m.start, lost + (m.start + inner[..k]), m.end, after, "\n");
      LocateDocument(m, pre, lost + (m.start + inner[..k]), after + m.end + "\n");
    } else {
      NoneAcross(m, lost, inner);
      Nested(pre, m.start, tail, m.end, Separator(md), inner);
      LocateDocument(m, pre, lost + (m.start + inner), "\n");
    }
  }

  /** Replacing keeps all other text; it is what a reader finds around the block if and only if both texts allow it. */
  lemma OutsideIsKeptIff(m: Marks, md: string, inner: string)
    requires Valid(m)
    ensures var (pre, post) := Around(m, md);
      Replace(m, md, inner) == Document(m, pre, inner, post)
    ensures WellFormed(m, Replace(m, md, inner))
    ensures Outside(m, Replace(m, md, inner)) == Some(Around(m, md)) <==> WellFormed(m, md) && !Contains(inner, m.end)
  {
    if WellFormed(m, md) {
      var pre, post := ReplaceIsDocument(m, md, inner);
      if Contains(inner, m.end) {
        OutsideOfCut(m, pre, inner, post);
      } else {
        LocateDocument(m, pre, inner, post);
      }
    } else {
      OutsideOfDangling(m, md, inner);
    }
  }

  /** An end sentinel around a whole one holds no start sentinel. */
  lemma NestedHasNoStart(m: Marks, cut: nat)
    requires Valid(m) && 0 < cut < |m.end|
    ensures !Contains(m.end[..cut] + (m.end + m.end[cut..]), m.start)
  {
    var body := m.end[..cut] + (m.end + m.end[cut..]);
    var k :| 0 <= k < |m.start| && k < |m.end| && m.start[k] != m.end[k];
    forall i | 0 <= i < |body| ensures !At(body, m.start, i) {
      if i == 0 {
        if cut < |m.start| { NotAt(body, m.start, 0, cut); } else { NotAt(body, m.start, 0, k); }
      } else if i == cut {
        NotAt(body, m.start, cut, k);
      } else {
        NotAt(body, m.start, i, 0);
      }
    }
  }

  lemma RemoveNothing(s: string, pat: string)
    requires pat != [] && !Contains(s, pat)
    ensures Remove(s, pat) == s
  {
  }

  lemma RemoveFirst(a: string, pat: string, b: string)
    requires OpensOnce(pat) && !Contains(a, pat)
    ensures Remove(a + (pat + b), pat) == a + Remove(b, pat)
  {
    FirstOccurrence(a, pat, b, 0);
    CutOut(a, pat, b);
  }

  /** Removing is splitting at the pattern and joining the parts with nothing between. */
  lemma {:induction false} RemoveJoins(parts: seq<string>, pat: string)
    requires OpensOnce(pat) && |parts| > 0 && NoneContains(parts, pat)
    ensures Remove(Join(parts, pat), pat) == Join(parts, "")
  {
    if |parts| == 1 {
      RemoveNothing(parts[0], pat);
    } else {
      RemoveJoins(parts[1..], pat);
      RemoveFirst(parts[0], pat, Join(parts[1..], pat));
      assert "" + Join(parts[1..], "") == Join(parts[1..], "");
    }
  }

  /** Every text can be split so. */
  lemma {:induction false} Splits(s: string, pat: string) returns (parts: seq<string>)
    requires pat != []
    ensures |parts| > 0 && NoneContains(parts, pat) && Join(parts, pat) == s
    decreases |s|
  {
    if Contains(s, pat) {
      FirstSplits(s, pat);
      var k := Find(s, pat, 0);
      var rest := Splits(s[k + |pat|..], pat);
      parts := [s[..k]] + rest;
      assert parts[1..] == rest;
      assert s == s[..k] + (pat + s[k + |pat|..]);
    } else {
      parts := [s];
    }
  }

  lemma CutOut(a: string, pat: string, b: string)
    ensures var s := a + (pat + b); s[..|a|] == a && s[|a| + |pat|..] == b
  {
  }

  /** Removing sentinels in one pass lets an end sentinel wrapped around a whole one reassemble. */
  lemma NestedReassembles(m: Marks, cut: nat)
    requires Valid(m) && 0 < cut < |m.end|
    ensures Remove(Remove(m.end[..cut] + (m.end + m.end[cut..]), m.start), m.end) == m.end
  {
    var a, b := m.end[..cut], m.end[cut..];
    NestedHasNoStart(m, cut);
    RemoveNothing(a + (m.end + b), m.start);
    RemoveFirst(a, m.end, b);
    RemoveNothing(b, m.end);
  }

  /** Heading before and line break after a text: sentinels are those of the text. */
  lemma Wrapped(lead: string, s: string, pat: string)
    requires OpensOnce(pat) && '<' !in lead
    ensures Contains(lead + s + "\n", pat) <==> Contains(s, pat)
  {
    BreaksAddNone(s, "\n", pat);
    LeadAddsNone(lead, s + "\n", pat);
    assert lead + s + "\n" == lead + (s + "\n");
  }

  /** The first sentinel of a wrapped text is that of the text. */
  lemma WrappedFirst(lead: string, s: string, pat: string)
    requires OpensOnce(pat) && '<' !in lead && Contains(s, pat)
    ensures var j := Find(s, pat, 0); var all := lead + s + "\n";
      && 0 <= j < |s| && Find(all, pat, 0) == |lead| + j && all[..|lead| + j] == lead + s[..j]
    ensures '<' in s
  {
    FirstSplits(s, pat);
    var j := Find(s, pat, 0);
    LeadAddsNone(lead, s[..j], pat);
    Regroup(lead, s[..j], pat, s[j + |pat|..]);
    FirstOccurrence(lead + s[..j], pat, s[j + |pat|..] + "\n", 0);
    assert s[j] == pat[0];
  }

  lemma Regroup(lead: string, a: string, pat: string, b: string)
    ensures lead + (a + pat + b) + "\n" == (lead + a) + (pat + (b + "\n"))
    ensures (lead + (a + pat + b) + "\n")[..|lead| + |a|] == lead + a
  {
  }
}
