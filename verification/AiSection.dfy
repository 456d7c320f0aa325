/** The "AI Recommendation" block inside a stored markdown report (lib/report/aiSection.ts). */
module AiSection {
  import opened Sequences
  import opened Text
  import Splice

  const AI_START := "<!-- ai-recommendation:start -->"
  const AI_END := "<!-- ai-recommendation:end -->"
  const AI_MARKS := Splice.Marks(AI_START, AI_END)
  // In pieces: the prover looks through each of them, but not through the whole (PlaceholderHasNoBracket).
  const AI_PLACEHOLDER := "_Not generated yet \U{2014} " + "open this report in the " + "dashboard to generate._"
  const HEADING := "\n## AI Recommendation\n\n"

  function Sanitize(body: string): string {
    Trim(Remove(Remove(body, AI_START), AI_END))
  }

  /** The text of the block between its sentinels. */
  function Inner(body: string): string {
    HEADING + Sanitize(body) + "\n"
  }

  function UpsertAiSection(md: string, body: string): string {
    Splice.Replace(AI_MARKS, md, Inner(body))
  }

  /** Drops a leading /^\s*##\s*AI Recommendation\s*(slash)i. */
  function StripHeading(inner: string): string {
    var a := TrimStart(inner);
    if !StartsWith(a, "##") then inner
    else
      var b := TrimStart(a[2..]);
      if |b| >= 17 && LowerAll(b[..17]) == "ai recommendation" then TrimStart(b[17..]) else inner
  }

  function ExtractAiSection(md: string): Option<string> {
    match Splice.Between(AI_MARKS, md)
    case None => None
    case Some(inner) => Readable(Trim(StripHeading(inner)))
  }

  /** An empty body and the placeholder read as "no recommendation". */
  function Readable(body: string): (r: Option<string>)
    ensures r.None? <==> body == "" || body == AI_PLACEHOLDER
    ensures r.Some? ==> r.value == body
  {
    if body == "" || body == AI_PLACEHOLDER then None else Some(body)
  }

  /** A report as it is first written has no recommendation. */
  lemma PlaceholderReadsAsNone()
    ensures Readable("_Not generated yet \U{2014} open this report in the dashboard to generate._") == None
    ensures Readable("") == None
  {
    FirstWords();
    var first, last := "_Not generated yet \U{2014} open this report in the ", "dashboard to generate._";
    var whole := "_Not generated yet \U{2014} open this report in the dashboard to generate._";
    assert |whole| == |first| + |last|;
    assert whole[..|first|] == first;
    assert whole[|first|..] == last;
    assert whole == first + last;
  }

  lemma FirstWords()
    ensures "_Not generated yet \U{2014} " + "open this report in the "
         == "_Not generated yet \U{2014} open this report in the "
  {
  }

  /** No block yet, or one that is closed. */
  ghost predicate WellFormed(md: string) {
    Splice.WellFormed(AI_MARKS, md)
  }

  /** The sanitized body would not close the block early. */
  ghost predicate Closable(body: string) {
    !Contains(Sanitize(body), AI_END)
  }

  // -------------------------------------------------------------------------------------------

  lemma StartOpensOnce()
    ensures Splice.OpensOnce(AI_START)
  {
  }

  lemma EndOpensOnce()
    ensures Splice.OpensOnce(AI_END)
  {
  }

  lemma MarksAreValid()
    ensures Splice.Valid(AI_MARKS)
  {
    StartOpensOnce();
    EndOpensOnce();
    assert AI_START[23] != AI_END[23];
  }

  /**
   * Sanitizing takes out the start sentinels, then the end sentinels of what is left, and trims: any text
   * is `starts` joined by start sentinels, and what they make together `ends` joined by end sentinels.
   */
  lemma SanitizeIs(body: string) returns (starts: seq<string>, ends: seq<string>)
    ensures NoneContains(starts, AI_START) && body == Join(starts, AI_START)
    ensures NoneContains(ends, AI_END) && Join(starts, "") == Join(ends, AI_END)
    ensures Sanitize(body) == Trim(Join(ends, ""))
  {
    MarksAreValid();
    starts := Splice.Splits(body, AI_START);
    Splice.RemoveJoins(starts, AI_START);
    ends := Splice.Splits(Join(starts, ""), AI_END);
    Splice.RemoveJoins(ends, AI_END);
  }

  /** What is appended to a report without a block. */
  lemma BlockIs(md: string, body: string)
    requires !Contains(md, AI_START)
    ensures UpsertAiSection(md, body)
         == md + (if EndsWith(md, "\n") then "\n" else "\n\n")
            + ("<!-- ai-recommendation:start -->" + ("\n## AI Recommendation\n\n" + Sanitize(body) + "\n")
               + "<!-- ai-recommendation:end -->") + "\n"
  {
    MarksAreValid();
    NoBlock(md);
  }

  lemma NoBlock(md: string)
    requires !Contains(md, AI_START)
    ensures Splice.Locate(AI_MARKS, md) == None
  {
    StartOpensOnce();
    EndOpensOnce();
  }

  /** Stripping drops the heading and the blanks around it, for any spelling of the title. */
  lemma HeadingIsDropped(lead: string, mid: string, title: string, gap: string, t: string)
    requires |title| == 17 && LowerAll(title) == "ai recommendation"
    requires forall c :: c in lead || c in mid || c in gap ==> IsSpace(c)
    ensures StripHeading(lead + ("##" + (mid + (title + (gap + t))))) == TrimStart(t)
  {
    var b := title + (gap + t);
    TitleStartsText(title);
    TrimStartLead(mid, b);
    TrimStartLead(lead, "##" + (mid + b));
    TrimStartDropsSpaces(gap, t);
    StripSteps(lead + ("##" + (mid + b)), mid + b, title, gap + t);
  }

  lemma TitleStartsText(title: string)
    requires |title| == 17 && LowerAll(title) == "ai recommendation"
    ensures !IsSpace(title[0])
  {
    assert LowerAll(title)[0] == 'a';
  }

  lemma TrimStartLead(lead: string, s: string)
    requires s != [] && !IsSpace(s[0]) && forall c :: c in lead ==> IsSpace(c)
    ensures TrimStart(lead + s) == s
  {
    TrimStartDropsSpaces(lead, s);
  }

  /** A text that does not start with such a heading is left as it is. */
  lemma OtherHeadingStays(inner: string)
    requires !StartsWith(TrimStart(inner), "##")
          || !StartsWith(LowerAll(TrimStart(TrimStart(inner)[2..])), "ai recommendation")
    ensures StripHeading(inner) == inner
  {
    StartsWithIs(TrimStart(inner), "##");
    if StartsWith(TrimStart(inner), "##") {
      var b := TrimStart(TrimStart(inner)[2..]);
      StartsWithIs(LowerAll(b), "ai recommendation");
      if |b| >= 17 {
        assert LowerAll(b)[..17] == LowerAll(b[..17]);
      }
    }
  }

  /** A block written by hand reads as its text without the heading. */
  lemma ReadsByHand(
    pre: string, lead: string, mid: string, title: string, gap: string, body: string, post: string)
    requires |title| == 17 && LowerAll(title) == "ai recommendation" && !Contains(pre, AI_START)
    requires forall c :: c in lead || c in mid || c in gap ==> IsSpace(c)
    requires !Contains(lead + ("##" + (mid + (title + (gap + body)))), AI_END)
    ensures ExtractAiSection(pre + (AI_START + (lead + ("##" + (mid + (title + (gap + body))))) + AI_END) + post)
         == Readable(Trim(body))
  {
    MarksAreValid();
    Splice.LocateDocument(AI_MARKS, pre, lead + ("##" + (mid + (title + (gap + body)))), post);
    HeadingIsDropped(lead, mid, title, gap, body);
    assert TrimStart(TrimStart(body)) == TrimStart(body);
  }

  lemma StripSteps(inner: string, x: string, title: string, y: string)
    requires |title| == 17 && LowerAll(title) == "ai recommendation"
    requires TrimStart(inner) == "##" + x && TrimStart(x) == title + y
    ensures StripHeading(inner) == TrimStart(y)
  {
    var a := "##" + x;
    assert a[2..] == x;
    StartsWithIs(a, "##");
    assert (title + y)[..17] == title && (title + y)[17..] == y;
  }

  lemma HeadingIs()
    ensures HEADING == "\n## " + "AI Recommendation" + "\n\n" && '<' !in HEADING
  {
  }

  lemma TitleFolds()
    ensures LowerAll("AI Recommendation") == "ai recommendation"
  {
  }

  lemma HeadingStrips(t: string)
    ensures Trim(StripHeading(HEADING + t)) == Trim(t)
  {
    HeadingIs();
    TitleFolds();
    HeadingIsDropped("\n", " ", "AI Recommendation", "\n\n", t);
    HeadingParts(t);
    assert TrimStart(TrimStart(t)) == TrimStart(t);
  }

  lemma HeadingParts(t: string)
    ensures HEADING + t == "\n" + ("##" + (" " + ("AI Recommendation" + ("\n\n" + t))))
  {
    assert HEADING == "\n" + "##" + " " + "AI Recommendation" + "\n\n";
  }

  /** Reading a block gives back the sanitized body, whatever the body was. */
  lemma InnerReads(body: string)
    ensures Trim(StripHeading(Inner(body))) == Sanitize(body)
    ensures Contains(Inner(body), AI_END) <==> Contains(Sanitize(body), AI_END)
  {
    var s := Sanitize(body);
    assert Inner(body) == HEADING + (s + "\n");
    HeadingStrips(s + "\n");
    TrimIsTrimmed(Remove(Remove(body, AI_START), AI_END));
    TrailingBreak(s);
    MarksAreValid();
    HeadingIs();
    Splice.Wrapped(HEADING, s, AI_END);
  }

  lemma TrailingBreak(s: string)
    requires Trimmed(s)
    ensures Trim(s + "\n") == s
  {
    if s == "" {
      assert s + "\n" == "\n" + "";
      TrimStartDropsSpaces("\n", "");
    } else {
      TrimEndDropsSpaces(s, "\n");
    }
  }

  // -------------------------------------------------------------------------------------------
  // The laws of the splice
  // -------------------------------------------------------------------------------------------

  /**
   * Reading back what was written gives the sanitized body exactly when that body holds no end
   * sentinel. A stray start sentinel does no harm.
   */
  lemma ExtractAfterUpsert(md: string, body: string)
    requires WellFormed(md)
    ensures ExtractAiSection(UpsertAiSection(md, body)) == Readable(Sanitize(body)) <==> Closable(body)
  {
    MarksAreValid();
    InnerReads(body);
    var pre, post := Splice.ReplaceIsDocument(AI_MARKS, md, Inner(body));
    if Closable(body) {
      Splice.LocateDocument(AI_MARKS, pre, Inner(body), post);
    } else {
      Splice.BetweenIsCut(AI_MARKS, pre, Inner(body), post);
      CutIsShorter(body);
    }
  }

  /** A body holding an end sentinel comes back strictly shorter. */
  lemma CutIsShorter(body: string)
    requires Contains(Inner(body), AI_END) && Contains(Sanitize(body), AI_END)
    ensures 0 <= Find(Inner(body), AI_END, 0) <= |Inner(body)|
    ensures var cut := Trim(StripHeading(Inner(body)[..Find(Inner(body), AI_END, 0)]));
      |cut| < |Sanitize(body)| && Readable(cut) != Readable(Sanitize(body))
  {
    MarksAreValid();
    HeadingIs();
    Splice.WrappedFirst(HEADING, Sanitize(body), AI_END);
    HeadingStrips(Sanitize(body)[..Find(Sanitize(body), AI_END, 0)]);
    PlaceholderHasNoBracket();
  }

  lemma PlaceholderHasNoBracket()
    ensures '<' !in AI_PLACEHOLDER
  {
  }

  /**
   * Regenerating leaves no trace of the earlier body exactly when the report was well formed and the
   * earlier body holds no end sentinel, whatever the later one is.
   */
  lemma UpsertTwice(md: string, first: string, second: string)
    ensures UpsertAiSection(UpsertAiSection(md, first), second) == UpsertAiSection(md, second)
      <==> WellFormed(md) && Closable(first)
  {
    MarksAreValid();
    InnerReads(first);
    Splice.ReplaceTwiceIff(AI_MARKS, md, Inner(first), Inner(second));
  }

  /** The text around the block, or around the one that would be appended. */
  ghost function Around(md: string): (string, string) {
    Splice.Around(AI_MARKS, md)
  }

  /**
   * Whatever the report and the body, the new block stands where the old one was, all other text is
   * kept, and the result is well formed. A reader finds that text around the block exactly when the
   * report was well formed and the body is closable.
   */
  lemma OutsideIsUntouched(md: string, body: string)
    ensures var (pre, post) := Around(md);
      UpsertAiSection(md, body) == pre + (AI_START + Inner(body) + AI_END) + post
    ensures WellFormed(UpsertAiSection(md, body))
    ensures Splice.Outside(AI_MARKS, UpsertAiSection(md, body)) == Some(Around(md))
      <==> WellFormed(md) && Closable(body)
  {
    MarksAreValid();
    InnerReads(body);
    Splice.OutsideIsKeptIff(AI_MARKS, md, Inner(body));
  }

  // -------------------------------------------------------------------------------------------
  // Why the hypotheses are there
  // -------------------------------------------------------------------------------------------

  /** Sanitizing is a single pass: an end sentinel wrapped around a whole one reassembles. */
  lemma NestedSentinelReassembles(cut: nat)
    requires 0 < cut < |AI_END|
    ensures !Closable(AI_END[..cut] + (AI_END + AI_END[cut..]))
  {
    MarksAreValid();
    Splice.NestedReassembles(AI_MARKS, cut);
    AiEndIsTrimmed();
    SelfContains(AI_END);
  }

  lemma AiEndIsTrimmed()
    ensures Trim(AI_END) == AI_END
  {
  }

  lemma SelfContains(s: string)
    ensures Contains(s, s)
  {
    AtStart(s, []);
    assert s + [] == s;
  }

  /**
   * A dangling start sentinel is never repaired: two generations later everything the report held
   * after it is gone.
   */
  lemma DanglingStartLosesText(md: string, first: string, second: string)
    requires !WellFormed(md) && Closable(first)
    ensures 0 <= Find(md, AI_START, 0) <= |md|
    ensures UpsertAiSection(UpsertAiSection(md, first), second)
         == md[..Find(md, AI_START, 0)] + (AI_START + Inner(second) + AI_END) + "\n"
  {
    MarksAreValid();
    InnerReads(first);
    Splice.DanglingStart(AI_MARKS, md, Inner(first), Inner(second));
  }
}
