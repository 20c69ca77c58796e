/** The block of the guide in a document: written between two marks, and replaced by the next one. */
module GuideBlock {
  import opened Options

  const START_MARK := "<!-- guide:start"

  const FROM := ": written from "

  const STEPS := "apps/console/app/guide-steps.ts"

  const BY := " by `node "

  const DOCS := "apps/console/guide-docs.ts`. -->"

  const START := START_MARK + (FROM + STEPS + BY + DOCS)

  const END := "<!-- guide:end -->"

  predicate IsAt(text: string, mark: string, i: nat) {
    i + |mark| <= |text| && text[i..i + |mark|] == mark
  }

  /** The first place of a mark, from the place `from`. */
  function IndexFrom(text: string, mark: string, from: nat): (r: Option<nat>)
    ensures r.Some? ==> r.value >= from && IsAt(text, mark, r.value)
    ensures r.Some? ==> forall i :: from <= i < r.value ==> !IsAt(text, mark, i)
    ensures r.None? ==> forall i :: from <= i ==> !IsAt(text, mark, i)
    decreases |text| - from
  {
    if from + |mark| > |text| then None
    else if IsAt(text, mark, from) then Some(from)
    else IndexFrom(text, mark, from + 1)
  }

  function IndexOf(text: string, mark: string): Option<nat> {
    IndexFrom(text, mark, 0)
  }

  predicate Holds(text: string, mark: string) {
    IndexOf(text, mark).Some?
  }

  /** The first place is the one with no other before it. */
  lemma FirstPlace(text: string, mark: string, i: nat)
    requires IsAt(text, mark, i) && forall j :: 0 <= j < i ==> !IsAt(text, mark, j)
    ensures IndexOf(text, mark) == Some(i)
  {
  }

  /** Whether the first start mark has the first end mark after it. */
  predicate HasBlock(document: string) {
    var start := IndexOf(document, START_MARK);
    var end := IndexOf(document, END);
    start.Some? && end.Some? && end.value >= start.value
  }

  function Before(document: string): string
    requires HasBlock(document)
  {
    document[..IndexOf(document, START_MARK).value]
  }

  function After(document: string): string
    requires HasBlock(document)
  {
    document[IndexOf(document, END).value + |END|..]
  }

  /** `document` with its block replaced; absent where the source throws, as the document holds no block. */
  function WithGuideBlock(document: string, block: string): Option<string> {
    if HasBlock(document) then Some(Before(document) + block + After(document)) else None
  }

  /** A block that can be found again: it opens with the mark of a start, and its only end is its own. */
  predicate Proper(block: string) {
    |block| >= |END| && START_MARK <= block && IndexOf(block, END) == Some(|block| - |END|)
  }

  /** A mark opens with a character it does not hold again, so it cannot begin before a block and end in it. */
  predicate OpensOnce(mark: string) {
    mark != [] && mark[0] == '<' && forall j :: 0 < j < |mark| ==> mark[j] != '<'
  }

  lemma MarksOpenOnce()
    ensures OpensOnce(START_MARK) && OpensOnce(END)
  {
  }

  /** A mark that begins before a text and goes on into it holds the first character of that text. */
  lemma Overlap(before: string, after: string, mark: string, i: nat)
    requires IsAt(before + after, mark, i) && i < |before| < i + |mark|
    ensures after != [] && mark[|before| - i] == after[0]
  {
    var both := before + after;
    assert both[i..i + |mark|][|before| - i] == both[|before|];
  }

  /** Before a text that opens as the mark does, a mark is either wholly in what comes before, or not there. */
  lemma NoneAcross(before: string, after: string, mark: string, i: nat)
    requires OpensOnce(mark) && after != [] && after[0] == '<' && i < |before|
    requires IsAt(before + after, mark, i)
    ensures IsAt(before, mark, i)
  {
    if |before| < i + |mark| {
      Overlap(before, after, mark, i);
    } else {
      assert before[i..i + |mark|] == (before + after)[i..i + |mark|];
    }
  }

  lemma PrefixPlace(text: string, n: nat, mark: string, i: nat)
    requires n <= |text| && IsAt(text[..n], mark, i)
    ensures IsAt(text, mark, i)
  {
    assert text[i..i + |mark|] == text[..n][i..i + |mark|];
  }

  /** A place in the middle text of three. */
  lemma MiddlePlace(before: string, middle: string, after: string, mark: string, i: nat)
    requires i + |mark| <= |middle|
    ensures IsAt(before + middle + after, mark, |before| + i) <==> IsAt(middle, mark, i)
  {
    var all := before + middle + after;
    assert all[|before| + i..|before| + i + |mark|] == middle[i..i + |mark|];
  }

  /** No mark begins between two places of a text. */
  ghost predicate NoneWithin(text: string, mark: string, from: nat, to: nat) {
    forall i: nat :: from <= i < to ==> !IsAt(text, mark, i)
  }

  /** Where the marks of a block are once it is written: its own, and none before them. */
  lemma WrittenStart(before: string, block: string, after: string)
    requires START_MARK <= block && NoneWithin(before, START_MARK, 0, |before|)
    ensures IndexOf(before + block + after, START_MARK) == Some(|before|)
  {
    MarksOpenOnce();
    NoneInFront(before, block, after, START_MARK);
    StartPlace(before, block, after, START_MARK);
  }

  lemma WrittenEnd(before: string, block: string, after: string)
    requires Proper(block) && NoneWithin(before, END, 0, |before|)
    ensures IndexOf(before + block + after, END) == Some(|before| + |block| - |END|)
  {
    MarksOpenOnce();
    NoneInFront(before, block, after, END);
    EndPlace(before, block, after, END);
  }

  lemma NoneInFront(before: string, block: string, after: string, mark: string)
    requires START_MARK <= block && OpensOnce(mark) && NoneWithin(before, mark, 0, |before|)
    ensures NoneWithin(before + block + after, mark, 0, |before|)
  {
    assert before + block + after == before + (block + after);
    MarksOpenOnce();
    assert (block + after)[0] == START_MARK[0];
    forall i: nat | i < |before|
      ensures !IsAt(before + block + after, mark, i)
    {
      NoneBefore(before, block + after, mark, i);
    }
  }

  lemma StartPlace(before: string, block: string, after: string, mark: string)
    requires mark <= block && NoneWithin(before + block + after, mark, 0, |before|)
    ensures IndexOf(before + block + after, mark) == Some(|before|)
  {
    MiddlePlace(before, block, after, mark, 0);
    assert block[0..|mark|] == mark;
    FirstPlace(before + block + after, mark, |before|);
  }

  lemma NoneBefore(before: string, after: string, mark: string, i: nat)
    requires OpensOnce(mark) && after != [] && after[0] == '<' && i < |before|
    requires !IsAt(before, mark, i)
    ensures !IsAt(before + after, mark, i)
  {
    if IsAt(before + after, mark, i) {
      NoneAcross(before, after, mark, i);
    }
  }

  /** A text that ends on its only mark, wherever it is written with no mark before it. */
  ghost predicate EndsOn(block: string, mark: string) {
    |block| >= |mark| && IndexOf(block, mark) == Some(|block| - |mark|)
  }

  lemma EndPlace(before: string, block: string, after: string, mark: string)
    requires EndsOn(block, mark) && NoneWithin(before + block + after, mark, 0, |before|)
    ensures IndexOf(before + block + after, mark) == Some(|before| + |block| - |mark|)
  {
    MiddlePlace(before, block, after, mark, |block| - |mark|);
    NoneEarlier(before, block, after, mark);
    AfterBoth(before + block + after, mark, |before|, |before| + |block| - |mark|);
  }

  lemma AfterBoth(written: string, mark: string, middle: nat, last: nat)
    requires IsAt(written, mark, last)
    requires NoneWithin(written, mark, 0, middle) && NoneWithin(written, mark, middle, last)
    ensures IndexOf(written, mark) == Some(last)
  {
    FirstPlace(written, mark, last);
  }

  lemma NoneEarlier(before: string, block: string, after: string, mark: string)
    requires EndsOn(block, mark)
    ensures NoneWithin(before + block + after, mark, |before|, |before| + |block| - |mark|)
  {
    forall i: nat | |before| <= i < |before| + |block| - |mark|
      ensures !IsAt(before + block + after, mark, i)
    {
      MiddlePlace(before, block, after, mark, i - |before|);
    }
  }

  /** All around a proper block stays, when no mark comes before it. */
  lemma AroundStays(before: string, block: string, after: string, next: string)
    requires Proper(block)
    requires NoneWithin(before, START_MARK, 0, |before|) && NoneWithin(before, END, 0, |before|)
    ensures WithGuideBlock(before + block + after, next) == Some(before + next + after)
  {
    var written := before + block + after;
    WrittenStart(before, block, after);
    WrittenEnd(before, block, after);
    assert written[..|before|] == before;
    assert written[|before| + |block|..] == after;
  }

  /** The last block written is the one a document holds, as if the ones before had not been written. */
  lemma LastWriteWins(document: string, first: string, second: string)
    requires Proper(first) && HasBlock(document)
    ensures WithGuideBlock(WithGuideBlock(document, first).value, second) == WithGuideBlock(document, second)
  {
    NoMarksBefore(document);
    AroundStays(Before(document), first, After(document), second);
  }

  /** When the first end of a document is the one of the block written in it, that block is proper. */
  lemma EndOfItsOwn(before: string, block: string, after: string)
    requires START_MARK <= block && |block| >= |END|
    requires IndexOf(before + block + after, END) == Some(|before| + |block| - |END|)
    ensures Proper(block)
  {
    var last := |block| - |END|;
    MiddlePlace(before, block, after, END, last);
    forall i: nat | i < last
      ensures !IsAt(block, END, i)
    {
      MiddlePlace(before, block, after, END, i);
    }
    FirstPlace(block, END, last);
  }

  /** What replaces a block that opens with its mark stays in front; all around it stays only for a proper block. */
  lemma {:induction false} AroundStaysExactly(before: string, block: string, after: string, next: string)
    requires START_MARK <= block
    requires NoneWithin(before, START_MARK, 0, |before|) && NoneWithin(before, END, 0, |before|)
    ensures WithGuideBlock(before + block + after, next) == Some(before + next + after) <==> Proper(block)
  {
    if Proper(block) {
      AroundStays(before, block, after, next);
    } else {
      WrittenStart(before, block, after);
      if WithGuideBlock(before + block + after, next) == Some(before + next + after) {
        EndOfSameLength(before, block, after, before + block + after, next);
        EndOfItsOwn(before, block, after);
      }
    }
  }

  /** When all around a block stays, the first end of the document is the end of the block. */
  lemma EndOfSameLength(before: string, block: string, after: string, document: string, next: string)
    requires |document| == |before| + |block| + |after| && IndexOf(document, START_MARK) == Some(|before|)
    requires WithGuideBlock(document, next) == Some(before + next + after)
    ensures |block| >= |END| && IndexOf(document, END) == Some(|before| + |block| - |END|)
  {
    WrittenLength(document, next);
    assert |before + next + after| == |before| + |next| + |after|;
  }

  lemma WrittenLength(document: string, next: string)
    requires HasBlock(document)
    ensures var end := IndexOf(document, END).value;
            |WithGuideBlock(document, next).value| == |Before(document)| + |next| + (|document| - end - |END|)
  {
  }

  /** A block that opens with its mark is overwritten as if it had not been written exactly when it is proper. */
  lemma {:induction false} LastWriteWinsExactly(document: string, first: string, second: string)
    requires HasBlock(document) && START_MARK <= first
    ensures WithGuideBlock(WithGuideBlock(document, first).value, second) == WithGuideBlock(document, second)
            <==> Proper(first)
  {
    NoMarksBefore(document);
    AroundStaysExactly(Before(document), first, After(document), second);
  }

  lemma NoMarksBefore(document: string)
    requires HasBlock(document)
    ensures var before := Before(document);
            NoneWithin(before, START_MARK, 0, |before|) && NoneWithin(before, END, 0, |before|)
  {
    var start := |Before(document)|;
    forall i: nat | i < start
      ensures !IsAt(Before(document), START_MARK, i) && !IsAt(Before(document), END, i)
    {
      if IsAt(Before(document), START_MARK, i) {
        PrefixPlace(document, start, START_MARK, i);
      }
      if IsAt(Before(document), END, i) {
        PrefixPlace(document, start, END, i);
      }
    }
  }

  /** Writing a block again changes nothing, so a check that compares the document with itself rewritten passes. */
  lemma WriteTwice(document: string, block: string)
    requires Proper(block) && HasBlock(document)
    ensures WithGuideBlock(WithGuideBlock(document, block).value, block) == WithGuideBlock(document, block)
  {
    LastWriteWins(document, block, block);
  }

  // ---------- the block that is written ----------

  function Lines(parts: seq<string>): string {
    if parts == [] then ""
    else if |parts| == 1 then parts[0]
    else parts[0] + "\n" + Lines(parts[1..])
  }

  /** Each step, and a line left empty after it. */
  function Spaced(steps: seq<string>): seq<string> {
    if steps == [] then [] else [steps[0], ""] + Spaced(steps[1..])
  }

  function Inner(steps: seq<string>, captures: string): seq<string> {
    [START, ""] + Spaced(steps) + [captures, ""]
  }

  /** The steps as Markdown, between the marks; `captures`: the sentence that says what the captures show. */
  function GuideMarkdown(steps: seq<string>, captures: string): string {
    Lines(Inner(steps, captures) + [END])
  }

  lemma PlaceInFirst(first: string, second: string, mark: string, i: nat)
    requires i + |mark| <= |first|
    ensures IsAt(first + second, mark, i) <==> IsAt(first, mark, i)
  {
    assert (first + second)[i..i + |mark|] == first[i..i + |mark|];
  }

  lemma PlaceInSecond(first: string, second: string, mark: string, i: nat)
    ensures IsAt(first + second, mark, |first| + i) <==> IsAt(second, mark, i)
  {
    if i + |mark| <= |second| {
      assert (first + second)[|first| + i..|first| + i + |mark|] == second[i..i + |mark|];
    }
  }

  /** A mark on one line is not across two lines. */
  lemma AcrossLines(first: string, rest: string, mark: string)
    requires mark != [] && '\n' !in mark
    ensures Holds(first + "\n" + rest, mark) <==> Holds(first, mark) || Holds(rest, mark)
  {
    var all := first + "\n" + rest;
    if Holds(first, mark) {
      var i := IndexOf(first, mark).value;
      PlaceInFirst(first, "\n", mark, i);
      PlaceInFirst(first + "\n", rest, mark, i);
    }
    if Holds(rest, mark) {
      PlaceInSecond(first + "\n", rest, mark, IndexOf(rest, mark).value);
    }
    if Holds(all, mark) {
      PlaceOnALine(first, rest, mark, IndexOf(all, mark).value);
    }
  }

  lemma PlaceOnALine(first: string, rest: string, mark: string, i: nat)
    requires mark != [] && '\n' !in mark && IsAt(first + "\n" + rest, mark, i)
    ensures IsAt(first, mark, i) || (i > |first| && IsAt(rest, mark, i - |first| - 1))
  {
    if i > |first| {
      PlaceInSecond(first + "\n", rest, mark, i - |first| - 1);
    } else if i + |mark| > |first| {
      OverLine(first, rest, mark, i);
    } else {
      PlaceInFirst(first + "\n", rest, mark, i);
      PlaceInFirst(first, "\n", mark, i);
    }
  }

  lemma OverLine(first: string, rest: string, mark: string, i: nat)
    requires IsAt(first + "\n" + rest, mark, i) && i <= |first| < i + |mark|
    ensures '\n' in mark
  {
    var all := first + "\n" + rest;
    assert all[i..i + |mark|][|first| - i] == all[|first|];
  }

  predicate AnyHolds(parts: seq<string>, mark: string) {
    exists i :: 0 <= i < |parts| && Holds(parts[i], mark)
  }

  lemma {:induction false} LinesHold(parts: seq<string>, mark: string)
    requires mark != [] && '\n' !in mark
    ensures Holds(Lines(parts), mark) <==> AnyHolds(parts, mark)
  {
    if |parts| > 1 {
      var rest := parts[1..];
      AcrossLines(parts[0], Lines(rest), mark);
      LinesHold(rest, mark);
      if AnyHolds(rest, mark) {
        var i :| 0 <= i < |rest| && Holds(rest[i], mark);
        assert Holds(parts[i + 1], mark);
      }
      if AnyHolds(parts, mark) && !Holds(parts[0], mark) {
        var i :| 0 <= i < |parts| && Holds(parts[i], mark);
        assert Holds(rest[i - 1], mark);
      }
    }
  }

  lemma {:induction false} LastLine(parts: seq<string>, last: string)
    requires parts != []
    ensures Lines(parts + [last]) == Lines(parts) + "\n" + last
  {
    if |parts| == 1 {
      assert (parts + [last])[1..] == [last];
    } else {
      assert (parts + [last])[1..] == parts[1..] + [last];
      LastLine(parts[1..], last);
      assert parts[0] + "\n" + (Lines(parts[1..]) + "\n" + last) == (parts[0] + "\n" + Lines(parts[1..])) + "\n" + last;
    }
  }

  lemma EndIsLast(inner: string)
    ensures IndexOf(inner + "\n" + END, END) == Some(|inner| + 1) <==> !Holds(inner, END)
  {
    var all := inner + "\n" + END;
    assert all[|inner| + 1..|inner| + 1 + |END|] == END;
    if !Holds(inner, END) {
      forall i: nat | i < |inner| + 1
        ensures !IsAt(all, END, i)
      {
        if IsAt(all, END, i) {
          PlaceOnALine(inner, END, END, i);
        }
      }
      FirstPlace(all, END, |inner| + 1);
    } else {
      var i := IndexOf(inner, END).value;
      assert all[i..i + |END|] == inner[i..i + |END|];
      assert IsAt(all, END, i);
    }
  }

  lemma {:induction false} SpacedHolds(steps: seq<string>)
    ensures AnyHolds(Spaced(steps), END) <==> AnyHolds(steps, END)
  {
    if steps != [] {
      var rest := steps[1..];
      SpacedHolds(rest);
      AnyAppend([steps[0], ""], Spaced(rest), END);
      AnyAppend([steps[0]], rest, END);
      assert steps == [steps[0]] + rest;
      assert [steps[0], ""][0] == steps[0] && [steps[0]][0] == steps[0];
    }
  }

  lemma AnyAppend(a: seq<string>, b: seq<string>, mark: string)
    ensures AnyHolds(a + b, mark) <==> AnyHolds(a, mark) || AnyHolds(b, mark)
  {
    if AnyHolds(a, mark) {
      var i :| 0 <= i < |a| && Holds(a[i], mark);
      assert Holds((a + b)[i], mark);
    }
    if AnyHolds(b, mark) {
      var i :| 0 <= i < |b| && Holds(b[i], mark);
      assert Holds((a + b)[|a| + i], mark);
    }
  }

  /** The block of the guide can be found again exactly when no step, and not the captures, holds the end mark. */
  lemma BlockIsProper(steps: seq<string>, captures: string)
    ensures Proper(GuideMarkdown(steps, captures)) <==> !AnyHolds(steps, END) && !Holds(captures, END)
  {
    var inner := Inner(steps, captures);
    LastLine(inner, END);
    BlockOpens(steps, captures);
    ProperEnd(Lines(inner));
    LinesHold(inner, END);
    InnerHolds(steps, captures);
  }

  /**
   * In any document with a block, the guide is written over as if it had not been there exactly when
   * no step, and not the captures, holds the end mark.
   */
  lemma {:induction false} GuideIsReplacedExactly(document: string, steps: seq<string>, captures: string,
                                                  second: string)
    requires HasBlock(document)
    ensures var written := WithGuideBlock(document, GuideMarkdown(steps, captures)).value;
            WithGuideBlock(written, second) == WithGuideBlock(document, second)
            <==> !AnyHolds(steps, END) && !Holds(captures, END)
  {
    BlockOpens(steps, captures);
    BlockIsProper(steps, captures);
    LastWriteWinsExactly(document, GuideMarkdown(steps, captures), second);
  }

  lemma ProperEnd(inner: string)
    requires START_MARK <= inner + "\n" + END
    ensures Proper(inner + "\n" + END) <==> !Holds(inner, END)
  {
    EndIsLast(inner);
  }

  lemma BlockOpens(steps: seq<string>, captures: string)
    ensures START_MARK <= GuideMarkdown(steps, captures)
  {
    var parts := Inner(steps, captures) + [END];
    assert parts[0] == START;
    assert START_MARK <= START;
  }

  lemma InnerHolds(steps: seq<string>, captures: string)
    ensures AnyHolds(Inner(steps, captures), END) <==> AnyHolds(steps, END) || Holds(captures, END)
  {
    AnyAppend([START, ""] + Spaced(steps), [captures, ""], END);
    AnyAppend([START, ""], Spaced(steps), END);
    SpacedHolds(steps);
    StartHoldsNoEnd();
    assert [captures, ""][0] == captures;
  }

  lemma WordsOpenNothing()
    ensures '<' !in FROM + STEPS + BY + DOCS
  {
    assert '<' !in FROM && '<' !in BY;
    assert forall i :: 0 <= i < |STEPS| ==> STEPS[i] != '<';
    assert forall i :: 0 <= i < |DOCS| ==> DOCS[i] != '<';
  }

  lemma StartHoldsNoEnd()
    ensures !Holds(START, END)
  {
    MarksOpenOnce();
    WordsOpenNothing();
    forall i: nat ensures !IsAt(START, END, i) {
      if IsAt(START, END, i) {
        NotAtStart(i);
      }
    }
  }

  lemma NotAtStart(i: nat)
    requires i < |START|
    ensures START[i] != END[0] || (i == 0 && START[11] != END[11])
  {
    MarksOpenOnce();
    WordsOpenNothing();
    var words := FROM + STEPS + BY + DOCS;
    if i == 0 {
      assert START[11] == START_MARK[11];
    } else if i >= |START_MARK| {
      assert START[i] == words[i - |START_MARK|];
      assert words[i - |START_MARK|] in words;
    }
  }

  /** A block that holds an end mark of its own leaves its last part in the document at the next writing. */
  lemma EndInside(rest: string, next: string)
    ensures var block := START_MARK + END + (rest + END);
      WithGuideBlock(block, next) == Some(next + (rest + END))
  {
    MarksAreProper();
    assert "" + (START_MARK + END) == START_MARK + END;
    AroundStays("", START_MARK + END, rest + END, next);
    assert "" + next == next;
  }

  lemma MarksAreProper()
    ensures Proper(START_MARK + END)
  {
    var both := START_MARK + END;
    MarksOpenOnce();
    assert both[|START_MARK|..] == END;
    forall i: nat | i < |START_MARK| ensures !IsAt(both, END, i) {
      NoneBefore(START_MARK, END, END, i);
    }
    FirstPlace(both, END, |START_MARK|);
  }

  // ---------- what the block says ----------

  function InTurn(steps: seq<string>): string {
    if steps == [] then "" else steps[0] + "\n\n" + InTurn(steps[1..])
  }

  lemma LinesFirst(first: string, rest: seq<string>)
    requires rest != []
    ensures Lines([first] + rest) == first + "\n" + Lines(rest)
  {
    assert ([first] + rest)[1..] == rest;
  }

  lemma LinesApart(first: string, rest: seq<string>)
    requires rest != []
    ensures Lines([first] + ([""] + rest)) == first + "\n\n" + Lines(rest)
  {
    LinesFirst("", rest);
    LinesFirst(first, [""] + rest);
    assert first + "\n" + ("" + "\n" + Lines(rest)) == first + "\n\n" + Lines(rest);
  }

  lemma Grouped(first: string, others: string, last: string)
    ensures first + (others + last) == (first + others) + last
  {
  }

  lemma SpacedNext(steps: seq<string>, rest: seq<string>)
    requires steps != []
    ensures Spaced(steps) + rest == [steps[0]] + ([""] + (Spaced(steps[1..]) + rest))
  {
  }

  lemma {:induction false} StepsInTurn(steps: seq<string>, rest: seq<string>)
    requires rest != []
    ensures Lines(Spaced(steps) + rest) == InTurn(steps) + Lines(rest)
  {
    if steps == [] {
      assert Spaced(steps) + rest == rest;
      assert InTurn(steps) + Lines(rest) == Lines(rest);
    } else {
      StepsInTurn(steps[1..], rest);
      SpacedNext(steps, rest);
      LinesApart(steps[0], Spaced(steps[1..]) + rest);
      Grouped(steps[0] + "\n\n", InTurn(steps[1..]), Lines(rest));
    }
  }

  lemma InnerLines(steps: seq<string>, captures: string)
    ensures Inner(steps, captures) + [END] == [START] + ([""] + (Spaced(steps) + ([captures] + ([""] + [END]))))
  {
  }

  /** The block is its mark, each step and the sentence of the captures, each with a line left empty, and its end. */
  lemma {:induction false} GuideExactly(steps: seq<string>, captures: string)
    ensures GuideMarkdown(steps, captures)
         == START + "\n\n" + (InTurn(steps) + (captures + "\n\n" + END))
  {
    var last := [captures] + ([""] + [END]);
    InnerLines(steps, captures);
    LinesApart(START, Spaced(steps) + last);
    StepsInTurn(steps, last);
    LinesApart(captures, [END]);
  }
}
