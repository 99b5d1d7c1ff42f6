/**
 * The WhatsApp webhook controller: how an incoming request is routed (media or
 * text) and how a reply is cut into WhatsApp messages of at most 1600
 * characters, preferring paragraph and then sentence boundaries.
 *
 * The two splitters are methods with the loops of the controller; each is
 * specified by a fold (`PackParagraphs`, `PackSentences`) that performs the
 * same step on an accumulator `Acc`, and the guarantees are lemmas about the
 * folds.
 */
module WhatsAppWebhook {
  import opened JavaLang
  import MP = MessageProcessing
  import DH = DocumentHandler
  import Rag = RagService

  /** Twilio's limit on one WhatsApp message body. */
  const MaxMessageLength: nat := 1600
  const Ellipsis: string := "..."
  const ParagraphSeparator: string := "\n\n"

  /** The longest sentence whose single forced break leaves a remainder that fits. */
  const LongestBreakableSentence: nat := 2 * MaxMessageLength - 3

  /** The state of either splitter: the `StringBuilder currentPart` and the parts emitted so far. */
  datatype Acc = Acc(cur: string, parts: seq<string>)

  /** Emit the trimmed current part, if it is not empty. */
  function Flush(a: Acc): seq<string> {
    if |a.cur| > 0 then a.parts + [Trim(a.cur)] else a.parts
  }

  // ---------------------------------------------------------------------
  // Sentence level (splitLongParagraph)
  // ---------------------------------------------------------------------

  /** One iteration of the sentence loop. */
  function SentenceStep(a: Acc, sentence: string): Acc {
    if |a.cur| + |sentence| + 1 > MaxMessageLength then
      var flushed := Flush(a);
      if |sentence| > MaxMessageLength then
        Acc(sentence[MaxMessageLength - 3..], flushed + [sentence[..MaxMessageLength - 3] + Ellipsis])
      else
        Acc(sentence, flushed)
    else if |a.cur| > 0 then Acc(a.cur + " " + sentence, a.parts)
    else Acc(sentence, a.parts)
  }

  function PackSentences(a: Acc, sentences: seq<string>): Acc
    decreases |sentences|
  {
    if sentences == [] then a else PackSentences(SentenceStep(a, sentences[0]), sentences[1..])
  }

  /** What `splitLongParagraph` returns. */
  function LongParagraphParts(paragraph: string): seq<string> {
    Flush(PackSentences(Acc([], []), SentenceSplit(paragraph)))
  }

  method SplitLongParagraph(paragraph: string) returns (parts: seq<string>)
    ensures parts == LongParagraphParts(paragraph)
    ensures SentencesFit(paragraph) ==> forall k | 0 <= k < |parts| :: |parts[k]| <= MaxMessageLength
  {
    var sentences := SentenceSplit(paragraph);
    var currentPart: string := [];
    parts := [];
    for i := 0 to |sentences|
      invariant PackSentences(Acc(currentPart, parts), sentences[i..]) == PackSentences(Acc([], []), sentences)
    {
      assert sentences[i..][1..] == sentences[i + 1..];
      ghost var before := Acc(currentPart, parts);
      var sentence := sentences[i];
      if |currentPart| + |sentence| + 1 > MaxMessageLength {
        if |currentPart| > 0 {
          parts := parts + [Trim(currentPart)];
          currentPart := [];
        }
        if |sentence| > MaxMessageLength {
          parts := parts + [sentence[..MaxMessageLength - 3] + Ellipsis];
          sentence := sentence[MaxMessageLength - 3..];
        }
        currentPart := currentPart + sentence;
      } else {
        if |currentPart| > 0 {
          currentPart := currentPart + " ";
        }
        currentPart := currentPart + sentence;
      }
      assert Acc(currentPart, parts) == SentenceStep(before, sentences[i]);
    }
    assert sentences[|sentences|..] == [];
    if |currentPart| > 0 {
      parts := parts + [Trim(currentPart)];
    }
    if SentencesFit(paragraph) {
      LongParagraphPartsFit(paragraph);
    }
  }

  // ---------------------------------------------------------------------
  // Paragraph level (splitMessageNaturally)
  // ---------------------------------------------------------------------

  /** One iteration of the paragraph loop; `last` is `i == paragraphs.length - 1`. */
  function ParagraphStep(a: Acc, paragraph: string, last: bool): Acc {
    if |a.cur| + |paragraph| + 2 > MaxMessageLength then
      var flushed := Flush(a);
      if |paragraph| > MaxMessageLength then
        Acc([], flushed + LongParagraphParts(paragraph))
      else
        Acc(if last then paragraph else paragraph + ParagraphSeparator, flushed)
    else if |a.cur| > 0 then Acc(a.cur + ParagraphSeparator + paragraph, a.parts)
    else Acc(paragraph, a.parts)
  }

  function PackParagraphs(a: Acc, paragraphs: seq<string>): Acc
    decreases |paragraphs|
  {
    if paragraphs == [] then a
    else PackParagraphs(ParagraphStep(a, paragraphs[0], |paragraphs| == 1), paragraphs[1..])
  }

  lemma PackParagraphsUnfold(a: Acc, paragraphs: seq<string>, i: nat)
    requires i < |paragraphs|
    ensures PackParagraphs(a, paragraphs[i..]) ==
            PackParagraphs(ParagraphStep(a, paragraphs[i], i == |paragraphs| - 1), paragraphs[i + 1..])
  {
    assert paragraphs[i..][1..] == paragraphs[i + 1..];
  }

  /** What `splitMessageNaturally` returns. */
  function NaturalParts(message: string): seq<string> {
    if |message| <= MaxMessageLength then [message]
    else Flush(PackParagraphs(Acc([], []), Split(message, ParagraphSeparator)))
  }

  method SplitMessageNaturally(message: string) returns (parts: seq<string>)
    ensures parts == NaturalParts(message)
    ensures |message| <= MaxMessageLength ==> parts == [message]
    ensures ForcedBreaksFit(message) ==> forall k | 0 <= k < |parts| :: |parts[k]| <= MaxMessageLength
  {
    if |message| <= MaxMessageLength {
      parts := [message];
      return;
    }
    var paragraphs := Split(message, ParagraphSeparator);
    var currentPart: string := [];
    parts := [];
    for i := 0 to |paragraphs|
      invariant PackParagraphs(Acc(currentPart, parts), paragraphs[i..]) == PackParagraphs(Acc([], []), paragraphs)
    {
      ghost var before := Acc(currentPart, parts);
      ghost var last := i == |paragraphs| - 1;
      var paragraph := paragraphs[i];
      ParagraphStepCases(before, paragraph, last);
      if |currentPart| + |paragraph| + 2 > MaxMessageLength {
        if |currentPart| > 0 {
          parts := parts + [Trim(currentPart)];
          currentPart := [];
        }
        assert currentPart == [] && parts == Flush(before);
        if |paragraph| > MaxMessageLength {
          var sentenceParts := SplitLongParagraph(paragraph);
          parts := parts + sentenceParts;
        } else {
          currentPart := currentPart + paragraph;
          assert currentPart == paragraph;
          if i < |paragraphs| - 1 {
            currentPart := currentPart + ParagraphSeparator;
          }
        }
      } else {
        if |currentPart| > 0 {
          currentPart := currentPart + ParagraphSeparator;
        } else {
          assert currentPart == [];
        }
        currentPart := currentPart + paragraph;
      }
      assert Acc(currentPart, parts) == ParagraphStep(before, paragraph, last);
      PackParagraphsUnfold(before, paragraphs, i);
    }
    assert paragraphs[|paragraphs|..] == [];
    if |currentPart| > 0 {
      parts := parts + [Trim(currentPart)];
    }
    if ForcedBreaksFit(message) {
      NaturalPartsFit(message);
    }
  }

  // ---------------------------------------------------------------------
  // The length bound
  // ---------------------------------------------------------------------

  predicate AllFit(parts: seq<string>) {
    forall k | 0 <= k < |parts| :: |parts[k]| <= MaxMessageLength
  }

  /** No sentence of the paragraph is too long for the single forced break. */
  predicate SentencesFit(paragraph: string) {
    forall k | 0 <= k < |SentenceSplit(paragraph)| :: |SentenceSplit(paragraph)[k]| <= LongestBreakableSentence
  }

  /** Every paragraph that goes through `splitLongParagraph` satisfies `SentencesFit`. */
  predicate ForcedBreaksFit(message: string) {
    |message| <= MaxMessageLength ||
    forall k | 0 <= k < |Split(message, ParagraphSeparator)| ::
      |Split(message, ParagraphSeparator)[k]| > MaxMessageLength ==> SentencesFit(Split(message, ParagraphSeparator)[k])
  }

  lemma AllFitAppend(a: seq<string>, b: seq<string>)
    requires AllFit(a) && AllFit(b)
    ensures AllFit(a + b)
  {
    assert forall k | |a| <= k < |a + b| :: (a + b)[k] == b[k - |a|];
  }

  lemma FlushFits(a: Acc)
    requires AllFit(a.parts) && |a.cur| <= MaxMessageLength
    ensures AllFit(Flush(a))
  {
    TrimShorter(a.cur);
    AllFitAppend(a.parts, [Trim(a.cur)]);
  }

  lemma {:induction false} PackSentencesFit(a: Acc, sentences: seq<string>)
    requires AllFit(a.parts) && |a.cur| <= MaxMessageLength
    requires forall k | 0 <= k < |sentences| :: |sentences[k]| <= LongestBreakableSentence
    ensures var r := PackSentences(a, sentences); AllFit(r.parts) && |r.cur| <= MaxMessageLength
    decreases |sentences|
  {
    if sentences != [] {
      var s := sentences[0];
      var b := SentenceStep(a, s);
      FlushFits(a);
      if |a.cur| + |s| + 1 > MaxMessageLength && |s| > MaxMessageLength {
        AllFitAppend(Flush(a), [s[..MaxMessageLength - 3] + Ellipsis]);
      }
      assert AllFit(b.parts) && |b.cur| <= MaxMessageLength;
      PackSentencesFit(b, sentences[1..]);
    }
  }

  /**
   * Every part `splitLongParagraph` emits has at most 1600 characters, provided
   * no sentence exceeds 2 * 1600 - 3 characters; the remainder after a forced
   * break is never checked again (see `OneForcedBreakIsNotEnough`).
   */
  lemma LongParagraphPartsFit(paragraph: string)
    requires SentencesFit(paragraph)
    ensures AllFit(LongParagraphParts(paragraph))
  {
    var a := PackSentences(Acc([], []), SentenceSplit(paragraph));
    PackSentencesFit(Acc([], []), SentenceSplit(paragraph));
    FlushFits(a);
  }

  /**
   * The forced break: an oversized sentence that does not fit after the
   * current part closes it, emits its first 1597 characters followed by
   * "...", exactly 1600 characters, and goes on with the rest of the sentence.
   */
  lemma ForcedBreakPart(a: Acc, sentence: string)
    requires |sentence| > MaxMessageLength
    ensures var b := SentenceStep(a, sentence);
      b.parts == Flush(a) + [sentence[..MaxMessageLength - 3] + Ellipsis] &&
      |b.parts[|b.parts| - 1]| == MaxMessageLength &&
      b.cur == sentence[MaxMessageLength - 3..]
  {
  }

  /** The current paragraph part fits once trimmed: at most 1600, or 1600 plus a trailing separator. */
  predicate CurFits(cur: string) {
    |cur| <= MaxMessageLength ||
    (|cur| <= MaxMessageLength + 2 && cur[|cur| - 2..] == ParagraphSeparator)
  }

  lemma FlushParagraphFits(a: Acc)
    requires AllFit(a.parts) && CurFits(a.cur)
    ensures AllFit(Flush(a))
  {
    if |a.cur| > MaxMessageLength {
      var x := a.cur[..|a.cur| - 2];
      assert a.cur == x + ParagraphSeparator;
      TrimBlankSuffix(x, ParagraphSeparator);
      TrimShorter(x);
    } else {
      TrimShorter(a.cur);
    }
    AllFitAppend(a.parts, [Trim(a.cur)]);
  }

  lemma {:induction false} PackParagraphsFit(a: Acc, paragraphs: seq<string>)
    requires AllFit(a.parts) && CurFits(a.cur)
    requires forall k | 0 <= k < |paragraphs| ::
      |paragraphs[k]| > MaxMessageLength ==> AllFit(LongParagraphParts(paragraphs[k]))
    ensures var r := PackParagraphs(a, paragraphs); AllFit(r.parts) && CurFits(r.cur)
    decreases |paragraphs|
  {
    if paragraphs != [] {
      var p := paragraphs[0];
      var b := ParagraphStep(a, p, |paragraphs| == 1);
      if |a.cur| + |p| + 2 > MaxMessageLength {
        FlushParagraphFits(a);
        if |p| > MaxMessageLength {
          AllFitAppend(Flush(a), LongParagraphParts(p));
        } else if |paragraphs| != 1 {
          assert (p + ParagraphSeparator)[|p + ParagraphSeparator| - 2..] == ParagraphSeparator;
        }
      }
      assert AllFit(b.parts) && CurFits(b.cur);
      PackParagraphsFit(b, paragraphs[1..]);
    }
  }

  /**
   * Every part `splitMessageNaturally` emits has at most 1600 characters,
   * provided every sentence it has to force-break is at most 3197 long.
   */
  lemma NaturalPartsFit(message: string)
    requires ForcedBreaksFit(message)
    ensures AllFit(NaturalParts(message))
  {
    if |message| > MaxMessageLength {
      var ps := Split(message, ParagraphSeparator);
      forall k | 0 <= k < |ps| && |ps[k]| > MaxMessageLength ensures AllFit(LongParagraphParts(ps[k])) {
        LongParagraphPartsFit(ps[k]);
      }
      PackParagraphsFit(Acc([], []), ps);
      FlushParagraphFits(PackParagraphs(Acc([], []), ps));
    }
  }

  // ---------------------------------------------------------------------
  // Content and order
  // ---------------------------------------------------------------------

  /** The visible text held by an accumulator, parts first. */
  function Shown(a: Acc): string {
    Visible(Concat(a.parts)) + Visible(a.cur)
  }

  lemma ShownFlush(a: Acc)
    ensures Visible(Concat(Flush(a))) == Shown(a)
  {
    if |a.cur| > 0 {
      ConcatAppend(a.parts, [Trim(a.cur)]);
      ConcatSingleton(Trim(a.cur));
      VisibleAppend(Concat(a.parts), Trim(a.cur));
      VisibleTrim(a.cur);
    }
  }

  lemma ShownAppendPart(a: Acc, extra: seq<string>, cur: string)
    ensures Shown(Acc(cur, a.parts + extra)) == Visible(Concat(a.parts)) + Visible(Concat(extra)) + Visible(cur)
  {
    ConcatAppend(a.parts, extra);
    VisibleAppend(Concat(a.parts), Concat(extra));
  }

  /** No sentence of the paragraph needs a forced break. */
  predicate NoForcedBreak(paragraph: string) {
    forall k | 0 <= k < |SentenceSplit(paragraph)| :: |SentenceSplit(paragraph)[k]| <= MaxMessageLength
  }

  /** Restarting the current part after a flush. */
  lemma ShownRestart(a: Acc, cur: string)
    ensures Shown(Acc(cur, Flush(a))) == Shown(a) + Visible(cur)
  {
    ShownFlush(a);
  }

  /** Starting the current part when it is empty. */
  lemma ShownStart(a: Acc, cur: string)
    requires a.cur == []
    ensures Shown(Acc(cur, a.parts)) == Shown(a) + Visible(cur)
  {
    assert Visible(a.cur) == [];
    assert Shown(a) == Visible(Concat(a.parts));
  }

  /** Extending the current part across a blank separator. */
  lemma ShownExtend(a: Acc, sep: string, x: string)
    requires IsBlank(sep)
    ensures Shown(Acc(a.cur + sep + x, a.parts)) == Shown(a) + Visible(x)
  {
    VisibleSkipsBlank(a.cur, sep, x);
  }

  lemma SeparatorsAreBlank()
    ensures IsBlank(" ") && IsBlank(ParagraphSeparator)
  {
    assert " "[0] == ' ';
    assert ParagraphSeparator[0] == '\n' && ParagraphSeparator[1] == '\n';
  }

  lemma SentenceStepCases(a: Acc, sentence: string)
    requires |sentence| <= MaxMessageLength
    ensures |a.cur| + |sentence| + 1 > MaxMessageLength ==> SentenceStep(a, sentence) == Acc(sentence, Flush(a))
    ensures |a.cur| + |sentence| + 1 <= MaxMessageLength && |a.cur| > 0 ==>
      SentenceStep(a, sentence) == Acc(a.cur + " " + sentence, a.parts)
    ensures |a.cur| + |sentence| + 1 <= MaxMessageLength && |a.cur| == 0 ==>
      SentenceStep(a, sentence) == Acc(sentence, a.parts) && a.cur == []
  {
  }

  /** One sentence that needs no forced break adds exactly its visible text. */
  lemma SentenceStepShown(a: Acc, sentence: string)
    requires |sentence| <= MaxMessageLength
    ensures Shown(SentenceStep(a, sentence)) == Shown(a) + Visible(sentence)
  {
    if |a.cur| + |sentence| + 1 > MaxMessageLength {
      SentenceStepCases(a, sentence);
      ShownRestart(a, sentence);
    } else if |a.cur| > 0 {
      SentenceStepCases(a, sentence);
      SeparatorsAreBlank();
      ShownExtend(a, " ", sentence);
    } else {
      SentenceStepCases(a, sentence);
      ShownStart(a, sentence);
    }
  }

  lemma {:induction false} PackSentencesShown(a: Acc, sentences: seq<string>)
    requires forall k | 0 <= k < |sentences| :: |sentences[k]| <= MaxMessageLength
    ensures Shown(PackSentences(a, sentences)) == Shown(a) + Visible(Concat(sentences))
    decreases |sentences|
  {
    if sentences != [] {
      var x, rest := sentences[0], sentences[1..];
      var b := SentenceStep(a, x);
      assert Shown(b) == Shown(a) + Visible(x) by {
        SentenceStepShown(a, x);
      }
      assert Shown(PackSentences(b, rest)) == Shown(b) + Visible(Concat(rest)) by {
        PackSentencesShown(b, rest);
      }
      assert Visible(Concat(sentences)) == Visible(x) + Visible(Concat(rest)) by {
        assert sentences == [x] + rest;
        ConcatCons(x, rest);
        VisibleAppend(x, Concat(rest));
      }
      assert PackSentences(a, sentences) == PackSentences(b, rest);
      AppendAssociative(Shown(a), Visible(x), Visible(Concat(rest)));
    }
  }

  /** Without forced breaks, the sentence parts hold the paragraph's visible text in order. */
  lemma LongParagraphKeepsText(paragraph: string)
    requires NoForcedBreak(paragraph)
    ensures Visible(Concat(LongParagraphParts(paragraph))) == Visible(paragraph)
  {
    PackSentencesShown(Acc([], []), SentenceSplit(paragraph));
    ShownFlush(PackSentences(Acc([], []), SentenceSplit(paragraph)));
    VisibleSentenceSplit(paragraph);
  }

  lemma ParagraphStepCases(a: Acc, paragraph: string, last: bool)
    ensures var overflow := |a.cur| + |paragraph| + 2 > MaxMessageLength;
      var b := ParagraphStep(a, paragraph, last);
      (overflow && |paragraph| > MaxMessageLength ==> b == Acc([], Flush(a) + LongParagraphParts(paragraph))) &&
      (overflow && |paragraph| <= MaxMessageLength && last ==> b == Acc(paragraph, Flush(a))) &&
      (overflow && |paragraph| <= MaxMessageLength && !last ==> b == Acc(paragraph + ParagraphSeparator, Flush(a))) &&
      (!overflow && |a.cur| > 0 ==> b == Acc(a.cur + ParagraphSeparator + paragraph, a.parts)) &&
      (!overflow && |a.cur| == 0 ==> b == Acc(paragraph, a.parts) && a.cur == [])
  {
  }

  /** A paragraph cut into sentence parts, after a flush. */
  lemma ShownLongParagraph(a: Acc, paragraph: string)
    requires NoForcedBreak(paragraph)
    ensures Shown(Acc([], Flush(a) + LongParagraphParts(paragraph))) == Shown(a) + Visible(paragraph)
  {
    ShownFlush(a);
    LongParagraphKeepsText(paragraph);
    ShownAppendPart(Acc([], Flush(a)), LongParagraphParts(paragraph), []);
  }

  /** One paragraph, split into sentences only when none needs a forced break, adds exactly its visible text. */
  lemma ParagraphStepShown(a: Acc, paragraph: string, last: bool)
    requires |paragraph| > MaxMessageLength ==> NoForcedBreak(paragraph)
    ensures Shown(ParagraphStep(a, paragraph, last)) == Shown(a) + Visible(paragraph)
  {
    if |a.cur| + |paragraph| + 2 > MaxMessageLength {
      if |paragraph| > MaxMessageLength {
        ParagraphStepCases(a, paragraph, last);
        ShownLongParagraph(a, paragraph);
      } else if last {
        ParagraphStepCases(a, paragraph, last);
        ShownRestart(a, paragraph);
      } else {
        ParagraphStepCases(a, paragraph, last);
        ShownRestart(a, paragraph + ParagraphSeparator);
        SeparatorsAreBlank();
        VisibleBlankSuffix(paragraph, ParagraphSeparator);
      }
    } else if |a.cur| > 0 {
      ParagraphStepCases(a, paragraph, last);
      SeparatorsAreBlank();
      ShownExtend(a, ParagraphSeparator, paragraph);
    } else {
      ParagraphStepCases(a, paragraph, last);
      ShownStart(a, paragraph);
    }
  }

  lemma {:induction false} PackParagraphsShown(a: Acc, paragraphs: seq<string>)
    requires forall k | 0 <= k < |paragraphs| :: |paragraphs[k]| > MaxMessageLength ==> NoForcedBreak(paragraphs[k])
    ensures Shown(PackParagraphs(a, paragraphs)) == Shown(a) + Visible(Concat(paragraphs))
    decreases |paragraphs|
  {
    if paragraphs != [] {
      var p, rest := paragraphs[0], paragraphs[1..];
      var b := ParagraphStep(a, p, |paragraphs| == 1);
      assert Shown(b) == Shown(a) + Visible(p) by {
        ParagraphStepShown(a, p, |paragraphs| == 1);
      }
      assert Shown(PackParagraphs(b, rest)) == Shown(b) + Visible(Concat(rest)) by {
        PackParagraphsShown(b, rest);
      }
      assert Visible(Concat(paragraphs)) == Visible(p) + Visible(Concat(rest)) by {
        assert paragraphs == [p] + rest;
        ConcatCons(p, rest);
        VisibleAppend(p, Concat(rest));
      }
      assert PackParagraphs(a, paragraphs) == PackParagraphs(b, rest);
      AppendAssociative(Shown(a), Visible(p), Visible(Concat(rest)));
    }
  }

  /** No paragraph that reaches `splitLongParagraph` has a sentence above 1600 characters. */
  predicate NoTruncation(message: string) {
    |message| <= MaxMessageLength ||
    forall k | 0 <= k < |Split(message, ParagraphSeparator)| ::
      |Split(message, ParagraphSeparator)[k]| > MaxMessageLength ==> NoForcedBreak(Split(message, ParagraphSeparator)[k])
  }

  /**
   * Nothing is lost and nothing is reordered: when no sentence is force-broken,
   * the parts, read in order, hold exactly the message's characters above
   * U+0020 in their original order; only separators and surrounding white
   * space differ.
   */
  lemma NaturalPartsKeepText(message: string)
    requires NoTruncation(message)
    ensures Visible(Concat(NaturalParts(message))) == Visible(message)
  {
    if |message| <= MaxMessageLength {
      ConcatSingleton(message);
    } else {
      var ps := Split(message, ParagraphSeparator);
      PackParagraphsShown(Acc([], []), ps);
      ShownFlush(PackParagraphs(Acc([], []), ps));
      VisibleSplit(message, ParagraphSeparator);
    }
  }

  // ---------------------------------------------------------------------
  // Sentence parts are runs of consecutive sentences
  // ---------------------------------------------------------------------

  /** The sentences of consecutive runs, read in order. */
  function Glue(runs: seq<seq<string>>): seq<string> {
    if runs == [] then [] else Glue(runs[..|runs| - 1]) + runs[|runs| - 1]
  }

  /** One part made of a run of sentences: their trimmed space-join. */
  function RunText(run: seq<string>): string {
    Trim(Join(run, " "))
  }

  /** `runs` cut `sentences` into non-empty runs, in order, and `parts` are their texts. */
  predicate RunsOf(parts: seq<string>, runs: seq<seq<string>>, sentences: seq<string>) {
    |parts| == |runs| && Glue(runs) == sentences &&
    forall j | 0 <= j < |runs| :: runs[j] != [] && parts[j] == RunText(runs[j])
  }

  /** `parts` cuts `sentences` into consecutive non-empty runs, the j-th part being the j-th run's text. */
  ghost predicate IsRunSplit(parts: seq<string>, sentences: seq<string>) {
    exists runs :: RunsOf(parts, runs, sentences)
  }

  /** Closing one more run appends its text to the parts. */
  lemma RunsSnoc(parts: seq<string>, runs: seq<seq<string>>, done: seq<string>, run: seq<string>)
    requires RunsOf(parts, runs, done) && run != []
    ensures RunsOf(parts + [RunText(run)], runs + [run], done + run)
  {
    assert (runs + [run])[..|runs|] == runs;
  }

  lemma JoinNonEmpty(run: seq<string>, sep: string)
    requires run != [] && run[0] != []
    ensures Join(run, sep) != []
  {
  }

  /** Flushing the current run closes it as the next part. */
  lemma FlushRuns(a: Acc, runs: seq<seq<string>>, done: seq<string>, run: seq<string>)
    returns (runs': seq<seq<string>>)
    requires RunsOf(a.parts, runs, done) && a.cur == Join(run, " ")
    requires forall k | 0 <= k < |run| :: run[k] != []
    ensures RunsOf(Flush(a), runs', done + run)
  {
    if run != [] {
      JoinNonEmpty(run, " ");
      RunsSnoc(a.parts, runs, done, run);
      runs' := runs + [run];
    } else {
      assert done + run == done;
      runs' := runs;
    }
  }

  /** One sentence step keeps the accumulator a run split of what it has read. */
  lemma StepRuns(a: Acc, runs: seq<seq<string>>, done: seq<string>, run: seq<string>, s: string)
    returns (runs': seq<seq<string>>, done': seq<string>, run': seq<string>)
    requires RunsOf(a.parts, runs, done) && a.cur == Join(run, " ")
    requires forall k | 0 <= k < |run| :: run[k] != []
    requires s != [] && |s| <= MaxMessageLength
    ensures RunsOf(SentenceStep(a, s).parts, runs', done') && SentenceStep(a, s).cur == Join(run', " ")
    ensures forall k | 0 <= k < |run'| :: run'[k] != []
    ensures done' + run' == done + run + [s]
  {
    assert Join([s], " ") == s;
    if |a.cur| + |s| + 1 > MaxMessageLength {
      runs' := FlushRuns(a, runs, done, run);
      done', run' := done + run, [s];
    } else if |a.cur| > 0 {
      JoinSnoc(run, s, " ");
      runs', done', run' := runs, done, run + [s];
    } else {
      if run != [] {
        JoinNonEmpty(run, " ");
      }
      runs', done', run' := runs, done, [s];
    }
  }

  lemma {:induction false} PackSentencesRuns(a: Acc, runs: seq<seq<string>>, done: seq<string>, run: seq<string>,
                                             sentences: seq<string>)
    returns (runs': seq<seq<string>>)
    requires RunsOf(a.parts, runs, done) && a.cur == Join(run, " ")
    requires forall k | 0 <= k < |run| :: run[k] != []
    requires forall k | 0 <= k < |sentences| :: sentences[k] != [] && |sentences[k]| <= MaxMessageLength
    ensures RunsOf(Flush(PackSentences(a, sentences)), runs', done + run + sentences)
    decreases |sentences|
  {
    if sentences == [] {
      assert done + run + sentences == done + run;
      runs' := FlushRuns(a, runs, done, run);
    } else {
      var b := SentenceStep(a, sentences[0]);
      var bruns, done', run' := StepRuns(a, runs, done, run, sentences[0]);
      assert done' + run' + sentences[1..] == done + run + sentences by {
        assert sentences == [sentences[0]] + sentences[1..];
      }
      assert PackSentences(a, sentences) == PackSentences(b, sentences[1..]);
      runs' := PackSentencesRuns(b, bruns, done', run', sentences[1..]);
    }
  }

  /**
   * When no sentence needs a forced break, the parts of a long paragraph are
   * the trimmed space-joins of consecutive runs of its sentences, and the runs
   * cover all sentences in order.
   */
  lemma LongParagraphRuns(paragraph: string)
    requires paragraph != [] && NoForcedBreak(paragraph)
    ensures IsRunSplit(LongParagraphParts(paragraph), SentenceSplit(paragraph))
  {
    var ss := SentenceSplit(paragraph);
    SentenceSplitNonEmpty(paragraph);
    assert Join([], " ") == [];
    assert RunsOf([], [], []);
    var runs := PackSentencesRuns(Acc([], []), [], [], [], ss);
    assert [] + [] + ss == ss;
    assert RunsOf(LongParagraphParts(paragraph), runs, ss);
  }

  // ---------------------------------------------------------------------
  // Boundary cases
  // ---------------------------------------------------------------------

  /**
   * A 1601-character message with no paragraph separator and no sentence
   * break becomes two parts: the first 1597 characters followed by "...",
   * then the trimmed last four characters.
   */
  lemma UnbrokenMessageJustOverLimit(message: string)
    requires |message| == MaxMessageLength + 1
    requires !Contains(message, ParagraphSeparator)
    requires forall k | 0 <= k < |message| :: !BreaksAt(message, k)
    ensures NaturalParts(message) ==
      [message[..MaxMessageLength - 3] + Ellipsis, Trim(message[MaxMessageLength - 3..])]
  {
    NoOccurrenceSinglePiece(message, ParagraphSeparator, 0, 0);
    assert message[0..] == message;
    assert Split(message, ParagraphSeparator) == [message];
    NoBreakSinglePiece(message, 0, 0);
    assert SentenceSplit(message) == [message];
    var rest := message[MaxMessageLength - 3..];
    var first := message[..MaxMessageLength - 3] + Ellipsis;
    assert SentenceStep(Acc([], []), message) == Acc(rest, [first]);
    assert PackSentences(Acc([], []), [message]) == Acc(rest, [first]);
    assert LongParagraphParts(message) == [first, Trim(rest)];
    assert ParagraphStep(Acc([], []), message, true) == Acc([], [first, Trim(rest)]);
    assert PackParagraphs(Acc([], []), [message]) == Acc([], [first, Trim(rest)]);
  }

  /**
   * Separators are not normalised: a paragraph that starts a new part keeps
   * the "\n\n" appended for it, so a next paragraph that still fits is
   * joined after a second "\n\n", four line feeds in all.
   */
  lemma DoubleSeparatorAfterRestart(a: Acc, p: string, q: string)
    requires |a.cur| + |p| + 2 > MaxMessageLength && |p| <= MaxMessageLength
    requires |p| + |q| + 4 <= MaxMessageLength
    ensures ParagraphStep(ParagraphStep(a, p, false), q, false).cur == p + "\n\n\n\n" + q
  {
    assert p + ParagraphSeparator + ParagraphSeparator + q == p + "\n\n\n\n" + q;
  }

  /**
   * The single forced break is not enough for a sentence of 3198 characters:
   * its remainder, emitted as the second part, has 1601.  So the bound of
   * `NaturalPartsFit` needs its precondition.
   */
  lemma OneForcedBreakIsNotEnough(message: string)
    requires |message| == LongestBreakableSentence + 1
    requires forall k | 0 <= k < |message| :: !IsBlankChar(message[k])
    ensures |NaturalParts(message)| == 2
    ensures NaturalParts(message)[0] == message[..MaxMessageLength - 3] + Ellipsis
    ensures |NaturalParts(message)[1]| == MaxMessageLength + 1
  {
    forall k | 0 <= k <= |message| - |ParagraphSeparator|
      ensures !OccursAt(message, ParagraphSeparator, k)
    {
      assert message[k..k + 2][0] == message[k] && !IsBlankChar(message[k]);
    }
    NoOccurrenceSinglePiece(message, ParagraphSeparator, 0, 0);
    assert message[0..] == message;
    assert Split(message, ParagraphSeparator) == [message];
    forall k | 0 <= k < |message| ensures !BreaksAt(message, k) {
      assert !IsBlankChar(message[k]);
    }
    NoBreakSinglePiece(message, 0, 0);
    assert SentenceSplit(message) == [message];
    var rest := message[MaxMessageLength - 3..];
    var first := message[..MaxMessageLength - 3] + Ellipsis;
    assert SentenceStep(Acc([], []), message) == Acc(rest, [first]);
    assert PackSentences(Acc([], []), [message]) == Acc(rest, [first]);
    TrimNoBlankEnds(rest);
    assert LongParagraphParts(message) == [first, rest];
    assert ParagraphStep(Acc([], []), message, true) == Acc([], [first, rest]);
    assert PackParagraphs(Acc([], []), [message]) == Acc([], [first, rest]);
  }

  // ---------------------------------------------------------------------
  // handleWhatsAppMessage
  // ---------------------------------------------------------------------

  /** The fields of Twilio's form post the controller reads; absent fields are None (Java null). */
  datatype TwilioRequest = TwilioRequest(
    from: Option<string>, body: Option<string>, profileName: Option<string>,
    numMedia: Option<string>, mediaUrl0: Option<string>, mediaContentType0: Option<string>)
  {
    /** `getBody()`: the empty string for a missing body. */
    function Body(): string {
      if body.Some? then body.value else ""
    }
  }

  datatype Path = MediaPath | TextPath | Rejected

  /**
   * The media test of `handleWhatsAppMessage`.  `NumMedia` is parsed
   * untrimmed, so a non-blank value `parseInt` refuses (" 1", "x") throws and
   * the request is answered with status 500.
   */
  function RouteFor(numMedia: Option<string>): Path {
    if numMedia.None? || Trim(numMedia.value) == [] then TextPath
    else
      match ParseInt(numMedia.value)
      case None => Rejected
      case Some(n) => if n > 0 then MediaPath else TextPath
  }

  /** A request takes the media path exactly when `NumMedia` is present and parses to a positive count. */
  lemma MediaPathIff(numMedia: Option<string>)
    ensures RouteFor(numMedia) == MediaPath <==>
      numMedia.Some? && ParseInt(numMedia.value).Some? && ParseInt(numMedia.value).value > 0
    ensures RouteFor(numMedia) == Rejected <==>
      numMedia.Some? && !IsBlank(numMedia.value) && ParseInt(numMedia.value).None?
  {
    if numMedia.Some? {
      TrimEmptyIffBlank(numMedia.value);
      if ParseInt(numMedia.value).Some? {
        ParsedIsNotBlank(numMedia.value);
      }
    }
  }

  lemma PaddedCountIsRejected()
    ensures RouteFor(Some(" 1")) == Rejected
  {
    assert Trim(" 1") == "1" by {
      assert TrimStart(" 1") == "1";
      assert TrimEnd("1") == "1";
    }
  }

  /** The outside world the controller talks to, as oracles. */
  datatype Services = Services(
    hour: MP.Hour,
    answer: string -> string,
    fetch: string -> DH.HttpResponse,
    send: DH.Email -> bool,
    timestamp: string)

  /** The HTTP status returned to Twilio and the WhatsApp messages sent back, in order. */
  datatype WebhookResult = WebhookResult(status: int, outgoing: seq<string>)

  /** The reply `processMessage` computes for a text message, with the retrieval service wired in. */
  function TextReply(request: TwilioRequest, env: Services): string {
    MP.ProcessMessage(request.Body(), request.profileName, env.hour,
                      env.answer)
  }

  /** The reply `processDocument` computes for an attachment. */
  function MediaReply(request: TwilioRequest, env: Services): string {
    var from := if request.from.Some? then request.from.value else "null";
    DH.ProcessDocument(from, request.profileName, request.mediaUrl0, request.mediaContentType0,
                       env.timestamp, env.fetch, env.send).reply
  }

  /** `handleWhatsAppMessage`, with `sendWhatsAppMessage` sending the natural parts of the reply. */
  function HandleWhatsAppMessage(request: TwilioRequest, env: Services): (r: WebhookResult)
    ensures r.status == 500 <==> RouteFor(request.numMedia) == Rejected
    ensures r.status == 500 ==> r.outgoing == []
    ensures r.status == 200 || r.status == 500
  {
    match RouteFor(request.numMedia)
    case Rejected => WebhookResult(500, [])
    case MediaPath => WebhookResult(200, NaturalParts(MediaReply(request, env)))
    case TextPath => WebhookResult(200, NaturalParts(TextReply(request, env)))
  }

  /**
   * Whatever the reply, when no sentence has to be cut, the messages sent
   * back carry exactly its visible text, in order, each within the limit.
   */
  lemma RepliesArriveWhole(request: TwilioRequest, env: Services)
    requires RouteFor(request.numMedia) != Rejected
    ensures var reply := if RouteFor(request.numMedia) == MediaPath then MediaReply(request, env)
                         else TextReply(request, env);
      HandleWhatsAppMessage(request, env).outgoing == NaturalParts(reply) &&
      (NoTruncation(reply) ==> Visible(Concat(HandleWhatsAppMessage(request, env).outgoing)) == Visible(reply)) &&
      (ForcedBreaksFit(reply) ==> AllFit(HandleWhatsAppMessage(request, env).outgoing))
  {
    var reply := if RouteFor(request.numMedia) == MediaPath then MediaReply(request, env)
                 else TextReply(request, env);
    if NoTruncation(reply) {
      NaturalPartsKeepText(reply);
    }
    if ForcedBreaksFit(reply) {
      NaturalPartsFit(reply);
    }
  }

  /** A text message no rule recognises is answered by the retrieval service, from the body as received. */
  lemma UnrecognisedTextGoesToRetrieval(request: TwilioRequest, env: Services)
    requires RouteFor(request.numMedia) == TextPath
    requires MP.Classify(MP.Normalize(request.Body())).None?
    ensures HandleWhatsAppMessage(request, env).outgoing ==
      NaturalParts(env.answer(request.Body()))
  {
  }

  /** The apologies and refusals of the retrieval and document services go out as one message, unchanged. */
  lemma ErrorRepliesSentWhole()
    ensures NaturalParts(Rag.NoDocumentsReply) == [Rag.NoDocumentsReply]
    ensures NaturalParts(Rag.TechnicalErrorReply) == [Rag.TechnicalErrorReply]
    ensures NaturalParts(DH.UnsupportedTypeReply) == [DH.UnsupportedTypeReply]
    ensures NaturalParts(DH.ProcessingErrorReply) == [DH.ProcessingErrorReply]
  {
  }
}
