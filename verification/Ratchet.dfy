/**
 * The lines that a full mutation run writes, and which failures a later run reports against them. A
 * score counts hundredths of a percent, rounded down.
 */
module Ratchet {
  import opened Options

  datatype Status = Killed | Timeout | Survived | NoCoverage | CompileError | RuntimeError | Ignored

  const WHOLE: nat := 10000

  /** An object by name, in the order of its entries; `Apart` says that a name is there once. */
  type Record<T> = seq<(string, T)>

  type Report = Record<seq<Status>>

  datatype Line = Line(score: nat, mutants: nat)

  datatype Lines = Lines(score: nat, files: Record<Line>)

  ghost predicate Apart<T>(record: Record<T>) {
    forall i, j :: 0 <= i < j < |record| ==> record[i].0 != record[j].0
  }

  function Lookup<T>(record: Record<T>, name: string): (r: Option<T>)
    ensures r.Some? ==> (name, r.value) in record
    ensures r.None? ==> forall i :: 0 <= i < |record| ==> record[i].0 != name
  {
    if record == [] then None
    else if record[0].0 == name then Some(record[0].1)
    else Lookup(record[1..], name)
  }

  lemma {:induction false} LookupEntry<T>(record: Record<T>, i: nat)
    requires Apart(record) && i < |record|
    ensures Lookup(record, record[i].0) == Some(record[i].1)
  {
    if i > 0 {
      LookupEntry(record[1..], i - 1);
    }
  }

  // ---------- scores ----------

  predicate IsDetected(status: Status) {
    status in {Killed, Timeout}
  }

  predicate IsValid(status: Status) {
    IsDetected(status) || status in {Survived, NoCoverage}
  }

  function Detected(mutants: seq<Status>): (n: nat)
    ensures n <= Valid(mutants)
  {
    if mutants == [] then 0 else Detected(mutants[1..]) + if IsDetected(mutants[0]) then 1 else 0
  }

  function Valid(mutants: seq<Status>): nat {
    if mutants == [] then 0 else Valid(mutants[1..]) + if IsValid(mutants[0]) then 1 else 0
  }

  function ScoreOf(mutants: seq<Status>): Option<Line> {
    var valid := Valid(mutants);
    if valid == 0 then None else Some(Line(WHOLE * Detected(mutants) / valid, valid))
  }

  lemma {:induction false} QuotientAtLeast(a: nat, b: nat, q: nat)
    requires b > 0
    ensures q <= a / b <==> q * b <= a
  {
    assert a == (a / b) * b + a % b;
    assert (a / b + 1) * b == (a / b) * b + b;
    if q <= a / b {
    } else {
    }
  }

  /** What the detected mutants are over `score` hundredths of the valid ones, in hundredths. */
  function Margin(mutants: seq<Status>, score: nat): int {
    if mutants == [] then 0
    else
      Margin(mutants[1..], score)
      + (if IsDetected(mutants[0]) then WHOLE else 0) - (if IsValid(mutants[0]) then score else 0)
  }

  lemma {:induction false} MarginCounts(mutants: seq<Status>, score: nat)
    ensures Margin(mutants, score) == WHOLE * Detected(mutants) - score * Valid(mutants)
  {
    if mutants != [] {
      MarginCounts(mutants[1..], score);
      var valid := Valid(mutants[1..]);
      assert score * (valid + 1) == score * valid + score;
    }
  }

  /** Whether at least `score` hundredths of the valid mutants were detected, with no rounding. */
  predicate Reaches(mutants: seq<Status>, score: nat) {
    Margin(mutants, score) >= 0
  }

  /**
   * A line is the highest number of hundredths that was measured: it never asks for more than that,
   * and for less by under one.
   */
  lemma ScoreReaches(mutants: seq<Status>, score: nat)
    requires Valid(mutants) > 0
    ensures score <= ScoreOf(mutants).value.score <==> Reaches(mutants, score)
  {
    MarginCounts(mutants, score);
    QuotientAtLeast(WHOLE * Detected(mutants), Valid(mutants), score);
  }

  lemma {:induction false} MarginAppend(a: seq<Status>, b: seq<Status>, score: nat)
    ensures Margin(a + b, score) == Margin(a, score) + Margin(b, score)
  {
    if a == [] {
      assert a + b == b;
    } else {
      assert a + b == [a[0]] + (a[1..] + b);
      MarginAppend(a[1..], b, score);
    }
  }

  /** Mutants that were not valid count for nothing. */
  lemma {:induction false} NoMargin(mutants: seq<Status>, score: nat)
    requires Valid(mutants) == 0
    ensures Margin(mutants, score) == 0
  {
    if mutants != [] {
      NoMargin(mutants[1..], score);
    }
  }

  // ---------- the lines of a package ----------

  function AllMutants(report: Report): seq<Status> {
    if report == [] then [] else report[0].1 + AllMutants(report[1..])
  }

  function LinesIn(report: Report): Record<Line> {
    if report == [] then []
    else
      var last := report[|report| - 1];
      var line := ScoreOf(last.1);
      LinesIn(report[..|report| - 1]) + if line.Some? then [(last.0, line.value)] else []
  }

  function PackageScore(report: Report): nat {
    var all := ScoreOf(AllMutants(report));
    if all.Some? then all.value.score else 0
  }

  function LinesOf(report: Report): Lines {
    Lines(PackageScore(report), LinesIn(report))
  }

  method MeasureLines(report: Report) returns (lines: Lines)
    ensures lines == LinesOf(report)
  {
    var files: Record<Line> := [];
    for i := 0 to |report|
      invariant files == LinesIn(report[..i])
    {
      assert report[..i + 1][..i] == report[..i];
      var line := ScoreOf(report[i].1);
      if line.Some? {
        files := files + [(report[i].0, line.value)];
      }
    }
    assert report[..|report|] == report;
    var all := ScoreOf(AllMutants(report));
    lines := Lines(if all.Some? then all.value.score else 0, files);
  }

  /** A file has a line exactly when a mutant of it was valid, and the line is its score. */
  lemma {:induction false} LineOfFile(report: Report, i: nat)
    requires i < |report|
    ensures ScoreOf(report[i].1).Some? ==> (report[i].0, ScoreOf(report[i].1).value) in LinesIn(report)
  {
    if i < |report| - 1 {
      LineOfFile(report[..|report| - 1], i);
    }
  }

  lemma {:induction false} FileOfLine(report: Report, k: nat) returns (i: nat)
    requires k < |LinesIn(report)|
    ensures i < |report| && report[i].0 == LinesIn(report)[k].0
    ensures ScoreOf(report[i].1) == Some(LinesIn(report)[k].1)
  {
    var front := report[..|report| - 1];
    if k < |LinesIn(front)| {
      i := FileOfLine(front, k);
    } else {
      i := |report| - 1;
    }
  }

  lemma {:induction false} LinesApart(report: Report)
    requires Apart(report)
    ensures Apart(LinesIn(report))
  {
    if report != [] {
      var front := report[..|report| - 1];
      LinesApart(front);
      forall k | 0 <= k < |LinesIn(front)|
        ensures LinesIn(front)[k].0 != report[|report| - 1].0
      {
        var i := FileOfLine(front, k);
      }
    }
  }

  /** What `Lookup` finds in the lines of a report: the score of the file of that name. */
  lemma LineLookup(report: Report, name: string)
    requires Apart(report)
    ensures Lookup(LinesIn(report), name) ==
      if Lookup(report, name).Some? then ScoreOf(Lookup(report, name).value) else None
  {
    LinesApart(report);
    var found := Lookup(report, name);
    if found.Some? {
      var i :| 0 <= i < |report| && report[i] == (name, found.value);
      if ScoreOf(found.value).Some? {
        LineOfFile(report, i);
        var k :| 0 <= k < |LinesIn(report)| && LinesIn(report)[k] == (name, ScoreOf(found.value).value);
        LookupEntry(LinesIn(report), k);
      }
    }
    var line := Lookup(LinesIn(report), name);
    if line.Some? {
      var k :| 0 <= k < |LinesIn(report)| && LinesIn(report)[k] == (name, line.value);
      var i := FileOfLine(report, k);
      LookupEntry(report, i);
    }
  }

  // ---------- the package lies between its files ----------

  lemma {:induction false} CountsAppend(a: seq<Status>, b: seq<Status>)
    ensures Detected(a + b) == Detected(a) + Detected(b) && Valid(a + b) == Valid(a) + Valid(b)
  {
    if a == [] {
      assert a + b == b;
    } else {
      assert a + b == [a[0]] + (a[1..] + b);
      CountsAppend(a[1..], b);
    }
  }

  lemma {:induction false} AllReach(report: Report, low: nat)
    requires forall i :: 0 <= i < |report| ==> Reaches(report[i].1, low)
    ensures Reaches(AllMutants(report), low)
  {
    if report != [] {
      AllReach(report[1..], low);
      MarginAppend(report[0].1, AllMutants(report[1..]), low);
    }
  }

  lemma {:induction false} NoneReaches(report: Report, high: nat)
    requires forall i :: 0 <= i < |report| && Valid(report[i].1) > 0 ==> !Reaches(report[i].1, high)
    ensures Valid(AllMutants(report)) > 0 ==> !Reaches(AllMutants(report), high)
  {
    if report != [] {
      var first, rest := report[0].1, AllMutants(report[1..]);
      NoneReaches(report[1..], high);
      CountsAppend(first, rest);
      MarginAppend(first, rest, high);
      if Valid(first) == 0 {
        NoMargin(first, high);
      }
      if Valid(rest) == 0 {
        NoMargin(rest, high);
      }
    }
  }

  /** The scores of a file, against a bound under it and one over it. */
  predicate Between(mutants: seq<Status>, low: nat, high: nat) {
    ScoreOf(mutants).Some? ==> low <= ScoreOf(mutants).value.score <= high
  }

  lemma {:induction false} BetweenReaches(mutants: seq<Status>, low: nat, high: nat)
    ensures Between(mutants, low, high) <==>
      (Valid(mutants) > 0 ==> Reaches(mutants, low) && !Reaches(mutants, high + 1))
    ensures Valid(mutants) == 0 ==> Reaches(mutants, low)
  {
    if Valid(mutants) > 0 {
      ScoreReaches(mutants, low);
      ScoreReaches(mutants, high + 1);
    } else {
      NoMargin(mutants, low);
    }
  }

  /** The score of a package is never under that of all its files, nor over it, also once rounded. */
  lemma PackageBetween(report: Report, low: nat, high: nat)
    requires forall i :: 0 <= i < |report| ==> Between(report[i].1, low, high)
    ensures Between(AllMutants(report), low, high)
  {
    forall i | 0 <= i < |report|
      ensures Reaches(report[i].1, low)
      ensures Valid(report[i].1) > 0 ==> !Reaches(report[i].1, high + 1)
    {
      BetweenReaches(report[i].1, low, high);
    }
    AllReach(report, low);
    NoneReaches(report, high + 1);
    BetweenReaches(AllMutants(report), low, high);
  }

  // ---------- what fails in a run ----------

  datatype Failure =
    | NoLines
    | UnderLine(file: string, score: nat, line: nat)
    | NewUnderPackage(file: string, score: nat, package: nat)
    | NotMeasured(file: string)
    | PackageUnder(score: nat, line: nat)

  function FailureOf(file: string, line: Line, lines: Lines): seq<Failure> {
    match Lookup(lines.files, file)
    case Some(before) => if line.score < before.score then [UnderLine(file, line.score, before.score)] else []
    case None => if line.score < lines.score then [NewUnderPackage(file, line.score, lines.score)] else []
  }

  function FileFailures(measured: Record<Line>, lines: Lines): seq<Failure> {
    if measured == [] then []
    else
      var last := measured[|measured| - 1];
      FileFailures(measured[..|measured| - 1], lines) + FailureOf(last.0, last.1, lines)
  }

  function Missing(files: Record<Line>, report: Report): seq<Failure> {
    if files == [] then []
    else
      var last := files[|files| - 1];
      Missing(files[..|files| - 1], report) + if Lookup(report, last.0).None? then [NotMeasured(last.0)] else []
  }

  function Regressions(lines: Option<Lines>, report: Report, full: bool): seq<Failure> {
    if lines.None? then [NoLines]
    else
      FileFailures(LinesIn(report), lines.value)
      + (if full then Missing(lines.value.files, report) else [])
      + if full && PackageScore(report) < lines.value.score
        then [PackageUnder(PackageScore(report), lines.value.score)] else []
  }

  lemma NextFailures(measured: Record<Line>, i: nat, lines: Lines)
    requires i < |measured|
    ensures FileFailures(measured[..i + 1], lines) ==
      FileFailures(measured[..i], lines) + FailureOf(measured[i].0, measured[i].1, lines)
  {
    assert measured[..i + 1][..i] == measured[..i];
  }

  lemma NextMissing(files: Record<Line>, i: nat, report: Report)
    requires i < |files|
    ensures Missing(files[..i + 1], report) ==
      Missing(files[..i], report) + if Lookup(report, files[i].0).None? then [NotMeasured(files[i].0)] else []
  {
    assert files[..i + 1][..i] == files[..i];
  }

  /** The first loop: each file that was measured, against its line. */
  method FindUnderLine(measured: Record<Line>, before: Lines) returns (found: seq<Failure>)
    ensures found == FileFailures(measured, before)
  {
    found := [];
    for i := 0 to |measured|
      invariant found == FileFailures(measured[..i], before)
    {
      NextFailures(measured, i, before);
      var (file, line) := measured[i];
      var had := Lookup(before.files, file);
      if had.Some? && line.score < had.value.score {
        found := found + [UnderLine(file, line.score, had.value.score)];
      }
      if had.None? && line.score < before.score {
        found := found + [NewUnderPackage(file, line.score, before.score)];
      }
    }
    assert measured[..|measured|] == measured;
  }

  /** The second loop: each file that has a line. */
  method FindMissing(files: Record<Line>, report: Report) returns (found: seq<Failure>)
    ensures found == Missing(files, report)
  {
    found := [];
    for i := 0 to |files|
      invariant found == Missing(files[..i], report)
    {
      NextMissing(files, i, report);
      if Lookup(report, files[i].0).None? {
        found := found + [NotMeasured(files[i].0)];
      }
    }
    assert files[..|files|] == files;
  }

  method FindRegressions(lines: Option<Lines>, report: Report, full: bool) returns (found: seq<Failure>)
    ensures found == Regressions(lines, report, full)
  {
    if lines.None? {
      return [NoLines];
    }
    var before := lines.value;
    var measured := MeasureLines(report);
    found := FindUnderLine(measured.files, before);
    if full {
      var missing := FindMissing(before.files, report);
      found := found + missing;
    }
    if full && measured.score < before.score {
      found := found + [PackageUnder(measured.score, before.score)];
    }
  }

  // ---------- when a run holds every line ----------

  /** The score that a file may not go under. */
  function LineOf(name: string, lines: Lines): nat {
    match Lookup(lines.files, name) case Some(before) => before.score case None => lines.score
  }

  predicate Holds(name: string, score: nat, lines: Lines) {
    score >= LineOf(name, lines)
  }

  /** Each file that scored holds its line, or the one of the package when it has none. */
  predicate FilesHold(report: Report, lines: Lines) {
    forall i :: 0 <= i < |report| && ScoreOf(report[i].1).Some? ==>
      Holds(report[i].0, ScoreOf(report[i].1).value.score, lines)
  }

  predicate AllMeasured(report: Report, lines: Lines) {
    forall i :: 0 <= i < |lines.files| ==> Lookup(report, lines.files[i].0).Some?
  }

  predicate LinesHold(measured: Record<Line>, lines: Lines) {
    forall k :: 0 <= k < |measured| ==> Holds(measured[k].0, measured[k].1.score, lines)
  }

  lemma {:induction false} NoFileFailures(measured: Record<Line>, lines: Lines)
    ensures FileFailures(measured, lines) == [] <==> LinesHold(measured, lines)
  {
    if measured != [] {
      var n := |measured| - 1;
      var front, last := measured[..n], measured[n];
      NoFileFailures(front, lines);
      assert FailureOf(last.0, last.1, lines) == [] <==> Holds(last.0, last.1.score, lines);
      assert FileFailures(measured, lines) == FileFailures(front, lines) + FailureOf(last.0, last.1, lines);
      assert LinesHold(measured, lines) <==> LinesHold(front, lines) && Holds(last.0, last.1.score, lines);
    }
  }

  lemma {:induction false} NoneMissing(files: Record<Line>, report: Report)
    ensures Missing(files, report) == [] <==> forall i :: 0 <= i < |files| ==> Lookup(report, files[i].0).Some?
  {
    if files != [] {
      NoneMissing(files[..|files| - 1], report);
    }
  }

  lemma LinesHoldFiles(report: Report, lines: Lines)
    ensures FilesHold(report, lines) <==> LinesHold(LinesIn(report), lines)
  {
    var measured := LinesIn(report);
    if FilesHold(report, lines) {
      forall k | 0 <= k < |measured|
        ensures Holds(measured[k].0, measured[k].1.score, lines)
      {
        var i := FileOfLine(report, k);
      }
    }
    if LinesHold(measured, lines) {
      forall i | 0 <= i < |report| && ScoreOf(report[i].1).Some?
        ensures Holds(report[i].0, ScoreOf(report[i].1).value.score, lines)
      {
        LineOfFile(report, i);
        var k :| 0 <= k < |measured| && measured[k] == (report[i].0, ScoreOf(report[i].1).value);
      }
    }
  }

  /** A run fails nothing exactly when every file holds, and a full run also measured all and holds as a package. */
  lemma RegressionsExactly(lines: Lines, report: Report, full: bool)
    ensures Regressions(Some(lines), report, full) == [] <==>
      && FilesHold(report, lines)
      && (full ==> AllMeasured(report, lines) && PackageScore(report) >= lines.score)
  {
    NoFileFailures(LinesIn(report), lines);
    LinesHoldFiles(report, lines);
    NoneMissing(lines.files, report);
    var a := FileFailures(LinesIn(report), lines);
    var b := if full then Missing(lines.files, report) else [];
    assert full ==> (b == [] <==> AllMeasured(report, lines));
  }

  // ---------- write, then check ----------

  /** As many valid mutants, and no fewer detected. */
  predicate NoWorse(before: seq<Status>, after: seq<Status>) {
    Valid(before) == Valid(after) && Detected(before) <= Detected(after)
  }

  /** The same mutants are valid, and every one that was detected still is. */
  predicate StaysDetected(before: seq<Status>, after: seq<Status>) {
    |before| == |after| && forall i :: 0 <= i < |before| ==>
      IsValid(before[i]) == IsValid(after[i]) && (IsDetected(before[i]) ==> IsDetected(after[i]))
  }

  lemma {:induction false} StaysDetectedNoWorse(before: seq<Status>, after: seq<Status>)
    requires StaysDetected(before, after)
    ensures NoWorse(before, after)
  {
    if before != [] {
      StaysDetectedNoWorse(before[1..], after[1..]);
    }
  }

  lemma NoWorseMargin(before: seq<Status>, after: seq<Status>, score: nat)
    requires NoWorse(before, after)
    ensures Margin(before, score) <= Margin(after, score)
  {
    MarginCounts(before, score);
    MarginCounts(after, score);
  }

  lemma {:induction false} NoWorseScore(before: seq<Status>, after: seq<Status>)
    requires NoWorse(before, after) && Valid(before) > 0
    ensures ScoreOf(before).value.score <= ScoreOf(after).value.score
  {
    var score := ScoreOf(before).value.score;
    ScoreReaches(before, score);
    NoWorseMargin(before, after, score);
    ScoreReaches(after, score);
  }

  /** Each file of `after` was measured before, and is no worse. */
  predicate FilesNoWorse(before: Report, after: Report) {
    forall i :: 0 <= i < |after| ==>
      Lookup(before, after[i].0).Some? && NoWorse(Lookup(before, after[i].0).value, after[i].1)
  }

  predicate SameFiles(before: Report, after: Report) {
    && (forall i :: 0 <= i < |after| ==> Lookup(before, after[i].0).Some?)
    && (forall i :: 0 <= i < |before| ==> Lookup(after, before[i].0).Some?)
  }

  function Without<T>(record: Record<T>, i: nat): Record<T>
    requires i < |record|
  {
    record[..i] + record[i + 1..]
  }

  lemma WithoutLater<T>(record: Record<T>, i: nat)
    requires 0 < i < |record|
    ensures Without(record, i) == [record[0]] + Without(record[1..], i - 1)
  {
  }

  lemma {:induction false} CountsWithout(report: Report, i: nat)
    requires i < |report|
    ensures var rest := AllMutants(Without(report, i));
      && Valid(AllMutants(report)) == Valid(report[i].1) + Valid(rest)
      && Detected(AllMutants(report)) == Detected(report[i].1) + Detected(rest)
  {
    CountsAppend(report[0].1, AllMutants(report[1..]));
    if i == 0 {
      assert Without(report, 0) == report[1..];
    } else {
      CountsWithout(report[1..], i - 1);
      WithoutLater(report, i);
      var rest := Without(report[1..], i - 1);
      assert ([report[0]] + rest)[1..] == rest;
      assert AllMutants([report[0]] + rest) == report[0].1 + AllMutants(rest);
      CountsAppend(report[0].1, AllMutants(rest));
    }
  }

  lemma LookupWithout<T>(record: Record<T>, i: nat, name: string)
    requires Apart(record) && i < |record| && name != record[i].0
    ensures Apart(Without(record, i)) && Lookup(Without(record, i), name) == Lookup(record, name)
  {
    var rest := Without(record, i);
    var found := Lookup(record, name);
    assert Apart(rest);
    if found.Some? {
      var k :| 0 <= k < |record| && record[k] == (name, found.value);
      assert rest[if k < i then k else k - 1] == record[k];
      LookupEntry(rest, if k < i then k else k - 1);
    } else {
      forall k | 0 <= k < |rest| ensures rest[k].0 != name {
        assert rest[k] == record[if k < i then k else k + 1];
      }
    }
  }

  lemma EmptyTogether(before: Report, after: Report)
    requires SameFiles(before, after)
    ensures before == [] <==> after == []
  {
    if before != [] {
      assert Lookup(after, before[0].0).Some?;
    }
    if after != [] {
      assert Lookup(before, after[0].0).Some?;
    }
  }

  lemma FirstAgain(before: Report, after: Report) returns (i: nat)
    requires Apart(before) && SameFiles(before, after) && FilesNoWorse(before, after) && before != []
    ensures i < |after| && after[i].0 == before[0].0 && NoWorse(before[0].1, after[i].1)
  {
    var entry := (before[0].0, Lookup(after, before[0].0).value);
    i :| 0 <= i < |after| && after[i] == entry;
    LookupEntry(before, 0);
  }

  /** Over the same files, in any order: a package whose files are no worse is no worse. */
  lemma {:induction false} PackageNoWorse(before: Report, after: Report)
    requires Apart(before) && Apart(after) && SameFiles(before, after) && FilesNoWorse(before, after)
    ensures NoWorse(AllMutants(before), AllMutants(after))
    decreases |before|
  {
    EmptyTogether(before, after);
    if before != [] {
      var i := FirstAgain(before, after);
      CountsAppend(before[0].1, AllMutants(before[1..]));
      CountsWithout(after, i);
      RestNoWorse(before, after, i);
      PackageNoWorse(before[1..], Without(after, i));
    }
  }

  lemma {:induction false} StayingName(before: Report, after: Report, i: nat, k: nat)
    requires Apart(before) && Apart(after)
    requires before != [] && i < |after| && after[i].0 == before[0].0 && k < |before| - 1
    ensures Lookup(Without(after, i), before[1..][k].0) == Lookup(after, before[k + 1].0)
  {
    LookupWithout(after, i, before[k + 1].0);
  }

  lemma RestNoWorse(before: Report, after: Report, i: nat)
    requires Apart(before) && Apart(after) && SameFiles(before, after) && FilesNoWorse(before, after)
    requires before != [] && i < |after| && after[i].0 == before[0].0
    ensures var rest := Without(after, i);
      Apart(rest) && SameFiles(before[1..], rest) && FilesNoWorse(before[1..], rest)
  {
    var rest := Without(after, i);
    forall k | 0 <= k < |rest|
      ensures Lookup(before[1..], rest[k].0).Some? && NoWorse(Lookup(before[1..], rest[k].0).value, rest[k].1)
    {
    }
    forall k | 0 <= k < |before[1..]|
      ensures Lookup(rest, before[1..][k].0).Some?
    {
      StayingName(before, after, i, k);
    }
  }

  /**
   * A run that measures the files of the lines again, each with the same valid mutants and every
   * detected one still detected, fails nothing, full or not; a partial one may leave files out.
   */
  lemma WriteThenCheck(before: Report, after: Report, full: bool)
    requires Apart(before) && Apart(after) && FilesNoWorse(before, after)
    requires full ==> SameFiles(before, after)
    ensures Regressions(Some(LinesOf(before)), after, full) == []
  {
    var lines := LinesOf(before);
    forall i | 0 <= i < |after| && ScoreOf(after[i].1).Some?
      ensures Holds(after[i].0, ScoreOf(after[i].1).value.score, lines)
    {
      var had := Lookup(before, after[i].0).value;
      LineLookup(before, after[i].0);
      NoWorseScore(had, after[i].1);
    }
    if full {
      forall k | 0 <= k < |lines.files|
        ensures Lookup(after, lines.files[k].0).Some?
      {
        var i := FileOfLine(before, k);
      }
      PackageNoWorse(before, after);
      if Valid(AllMutants(before)) > 0 {
        NoWorseScore(AllMutants(before), AllMutants(after));
      }
    }
    RegressionsExactly(lines, after, full);
  }

  // ---------- the reports of the jobs of one package ----------

  function Put<T>(record: Record<T>, name: string, value: T): Record<T> {
    if record == [] then [(name, value)]
    else if record[0].0 == name then [(name, value)] + record[1..]
    else [record[0]] + Put(record[1..], name, value)
  }

  function Assign<T>(record: Record<T>, other: Record<T>): Record<T>
    decreases |other|
  {
    if other == [] then record else Assign(Put(record, other[0].0, other[0].1), other[1..])
  }

  function Assigned(record: Report, reports: seq<Report>): Report
    decreases |reports|
  {
    if reports == [] then record else Assigned(Assign(record, reports[0]), reports[1..])
  }

  function Merged(reports: seq<Report>): Report {
    Assigned([], reports)
  }

  lemma {:induction false} PutNew<T>(record: Record<T>, name: string, value: T)
    requires forall i :: 0 <= i < |record| ==> record[i].0 != name
    ensures Put(record, name, value) == record + [(name, value)]
  {
    if record != [] {
      PutNew(record[1..], name, value);
      assert record == [record[0]] + record[1..];
    }
  }

  lemma {:induction false} AssignNew<T>(record: Record<T>, other: Record<T>)
    requires Apart(record + other)
    ensures Assign(record, other) == record + other
    decreases |other|
  {
    if other == [] {
      assert record + other == record;
    } else {
      var all := record + other;
      assert all[|record|] == other[0];
      forall i | 0 <= i < |record| ensures record[i].0 != other[0].0 {
        assert all[i] == record[i];
      }
      PutNew(record, other[0].0, other[0].1);
      assert (record + [other[0]]) + other[1..] == all;
      AssignNew(record + [other[0]], other[1..]);
    }
  }

  function Joined(reports: seq<Report>): Report {
    if reports == [] then [] else reports[0] + Joined(reports[1..])
  }

  lemma {:induction false} AssignedNew(record: Report, reports: seq<Report>)
    requires Apart(record + Joined(reports))
    ensures Assigned(record, reports) == record + Joined(reports)
    decreases |reports|
  {
    if reports == [] {
      assert record + Joined(reports) == record;
    } else {
      var both := record + reports[0];
      assert record + Joined(reports) == both + Joined(reports[1..]);
      ApartPrefix(both, Joined(reports[1..]));
      AssignNew(record, reports[0]);
      AssignedNew(both, reports[1..]);
    }
  }

  lemma ApartPrefix<T>(record: Record<T>, other: Record<T>)
    requires Apart(record + other)
    ensures Apart(record)
  {
    var all := record + other;
    forall i, j | 0 <= i < j < |record| ensures record[i].0 != record[j].0 {
      assert all[i] == record[i] && all[j] == record[j];
    }
  }

  /** Reports of jobs that hold files the others do not, merged: all their files, in turn. */
  lemma MergedIsJoined(reports: seq<Report>)
    requires Apart(Joined(reports))
    ensures Merged(reports) == Joined(reports)
  {
    assert [] + Joined(reports) == Joined(reports);
    AssignedNew([], reports);
  }

  lemma {:induction false} JoinedHolds(reports: seq<Report>, report: Report, entry: (string, seq<Status>))
    requires report in reports && entry in report
    ensures entry in Joined(reports)
  {
    if report != reports[0] {
      JoinedHolds(reports[1..], report, entry);
    }
  }

  lemma {:induction false} JoinedFrom(reports: seq<Report>, entry: (string, seq<Status>)) returns (report: Report)
    requires entry in Joined(reports)
    ensures report in reports && entry in report
  {
    if entry in reports[0] {
      report := reports[0];
    } else {
      report := JoinedFrom(reports[1..], entry);
    }
  }

  lemma SameEntries(reports: seq<Report>, other: seq<Report>)
    requires forall report :: report in reports ==> report in other
    ensures forall entry :: entry in Joined(reports) ==> entry in Joined(other)
  {
    forall entry | entry in Joined(reports) ensures entry in Joined(other) {
      var report := JoinedFrom(reports, entry);
      JoinedHolds(other, report, entry);
    }
  }

  lemma EntriesNoWorse(before: Report, after: Report)
    requires Apart(before) && forall entry :: entry in after ==> entry in before
    ensures FilesNoWorse(before, after)
    ensures forall i :: 0 <= i < |after| ==> Lookup(before, after[i].0) == Some(after[i].1)
  {
    forall i | 0 <= i < |after|
      ensures Lookup(before, after[i].0) == Some(after[i].1)
    {
      assert after[i] in after;
      var k :| 0 <= k < |before| && before[k] == after[i];
      LookupEntry(before, k);
    }
  }

  lemma SameScore(one: Report, two: Report)
    requires Apart(one) && Apart(two) && forall entry :: entry in one <==> entry in two
    ensures PackageScore(one) == PackageScore(two)
  {
    EntriesNoWorse(one, two);
    EntriesNoWorse(two, one);
    PackageNoWorse(one, two);
    PackageNoWorse(two, one);
  }

  lemma SameLine(one: Report, two: Report, name: string)
    requires Apart(one) && Apart(two) && forall entry :: entry in one <==> entry in two
    ensures Lookup(LinesIn(one), name) == Lookup(LinesIn(two), name)
  {
    LineLookup(one, name);
    LineLookup(two, name);
    if Lookup(one, name).Some? {
      SameLookup(one, two, name);
    } else if Lookup(two, name).Some? {
      SameLookup(two, one, name);
    }
  }

  lemma SameLookup(one: Report, two: Report, name: string)
    requires Apart(two) && Lookup(one, name).Some? && forall entry :: entry in one ==> entry in two
    ensures Lookup(two, name) == Lookup(one, name)
  {
    var entry := (name, Lookup(one, name).value);
    assert entry in two;
    var i :| 0 <= i < |two| && two[i] == entry;
    LookupEntry(two, i);
  }

  /** The lines of a package do not depend on the order in which the reports of its jobs are read. */
  lemma MergedOrderFree(reports: seq<Report>, other: seq<Report>)
    requires forall report :: report in reports <==> report in other
    requires Apart(Joined(reports)) && Apart(Joined(other))
    ensures PackageScore(Merged(reports)) == PackageScore(Merged(other))
    ensures forall name :: Lookup(LinesIn(Merged(reports)), name) == Lookup(LinesIn(Merged(other)), name)
  {
    MergedIsJoined(reports);
    MergedIsJoined(other);
    SameEntries(reports, other);
    SameEntries(other, reports);
    SameScore(Joined(reports), Joined(other));
    forall name ensures Lookup(LinesIn(Joined(reports)), name) == Lookup(LinesIn(Joined(other)), name) {
      SameLine(Joined(reports), Joined(other), name);
    }
  }

  // ---------- the package line beside the file lines ----------

  /** Up to ten thousand valid mutants, a score that does not go down means that no fewer are detected. */
  lemma {:induction false} ScoreCounts(before: seq<Status>, after: seq<Status>)
    requires 0 < Valid(before) == Valid(after) <= WHOLE
    requires ScoreOf(before).value.score <= ScoreOf(after).value.score
    ensures NoWorse(before, after)
  {
    var score := ScoreOf(before).value.score;
    ScoreReaches(before, score);
    ScoreReaches(before, score + 1);
    ScoreReaches(after, score);
    MarginCounts(before, score);
    MarginCounts(before, score + 1);
    MarginCounts(after, score);
    OneLess(score, Valid(before), Detected(before), Detected(after));
  }

  lemma OneLess(score: nat, valid: nat, before: nat, after: nat)
    requires valid <= WHOLE
    requires WHOLE * before < (score + 1) * valid
    requires score * valid <= WHOLE * after
    ensures before <= after
  {
    assert (score + 1) * valid == score * valid + valid;
  }

  /** Each file of `after` has as many valid mutants as before, and not more than ten thousand. */
  predicate KeepsSizes(before: Report, after: Report) {
    forall i :: 0 <= i < |after| ==>
      Lookup(before, after[i].0).Some? && Valid(Lookup(before, after[i].0).value) == Valid(after[i].1) <= WHOLE
  }

  /** Runs of single files that all hold make the full run hold, as long as the mutants are as many. */
  lemma {:induction false} FilesAreEnough(before: Report, after: Report)
    requires Apart(before) && Apart(after) && SameFiles(before, after) && KeepsSizes(before, after)
    requires FilesHold(after, LinesOf(before))
    ensures Regressions(Some(LinesOf(before)), after, true) == []
  {
    forall i | 0 <= i < |after|
      ensures NoWorse(Lookup(before, after[i].0).value, after[i].1)
    {
      var had := Lookup(before, after[i].0).value;
      LineLookup(before, after[i].0);
      if Valid(had) > 0 {
        ScoreCounts(had, after[i].1);
      }
    }
    WriteThenCheck(before, after, true);
  }

  // ---------- when the file lines imply the package line ----------

  /** The valid mutants of each file. */
  function Sizes(report: Report): (r: Record<nat>)
    ensures |r| == |report| && forall i :: 0 <= i < |r| ==> r[i] == (report[i].0, Valid(report[i].1))
  {
    seq(|report|, i requires 0 <= i < |report| => (report[i].0, Valid(report[i].1)))
  }

  /** The fewest mutants to detect for a score: the hundredths of the size, rounded up. */
  function Fewest(score: nat, size: nat): nat {
    (score * size + WHOLE - 1) / WHOLE
  }

  function TotalFewest(sizes: Record<nat>, lines: Lines): nat {
    if sizes == [] then 0 else Fewest(LineOf(sizes[0].0, lines), sizes[0].1) + TotalFewest(sizes[1..], lines)
  }

  function TotalSize(sizes: Record<nat>): nat {
    if sizes == [] then 0 else sizes[0].1 + TotalSize(sizes[1..])
  }

  /** The score of a package whose files are each at their line, and no higher. */
  function LeastScore(sizes: Record<nat>, lines: Lines): nat {
    if TotalSize(sizes) == 0 then 0 else WHOLE * TotalFewest(sizes, lines) / TotalSize(sizes)
  }

  /** Scores are hundredths of a whole, as a run writes them. */
  predicate WithinWhole(lines: Lines) {
    lines.score <= WHOLE && forall i :: 0 <= i < |lines.files| ==> lines.files[i].1.score <= WHOLE
  }

  lemma {:induction false} FewestReaches(mutants: seq<Status>, score: nat)
    ensures Reaches(mutants, score) <==> Fewest(score, Valid(mutants)) <= Detected(mutants)
  {
    MarginCounts(mutants, score);
    RoundedUp(score * Valid(mutants), Detected(mutants));
  }

  lemma RoundedUp(part: nat, count: nat)
    ensures (part + WHOLE - 1) / WHOLE <= count <==> part <= WHOLE * count
  {
  }

  lemma FewestWithin(score: nat, size: nat)
    requires score <= WHOLE
    ensures Fewest(score, size) <= size
  {
    assert score * size <= WHOLE * size;
    RoundedUp(score * size, size);
  }

  /** A file holds when it detects the fewest for its line, and also when it has no valid mutant. */
  lemma {:induction false} HoldsFewest(mutants: seq<Status>, name: string, lines: Lines)
    ensures (ScoreOf(mutants).Some? ==> Holds(name, ScoreOf(mutants).value.score, lines))
            <==> Fewest(LineOf(name, lines), Valid(mutants)) <= Detected(mutants)
  {
    FewestReaches(mutants, LineOf(name, lines));
    if Valid(mutants) > 0 {
      ScoreReaches(mutants, LineOf(name, lines));
    } else {
      NoMargin(mutants, LineOf(name, lines));
    }
  }

  lemma {:induction false} SizesAdd(report: Report)
    ensures TotalSize(Sizes(report)) == Valid(AllMutants(report))
  {
    if report != [] {
      assert Sizes(report)[1..] == Sizes(report[1..]);
      SizesAdd(report[1..]);
      CountsAppend(report[0].1, AllMutants(report[1..]));
    }
  }

  lemma {:induction false} DetectsFewest(report: Report, lines: Lines)
    requires FilesHold(report, lines)
    ensures TotalFewest(Sizes(report), lines) <= Detected(AllMutants(report))
  {
    if report != [] {
      assert Sizes(report)[1..] == Sizes(report[1..]);
      assert forall i :: 0 <= i < |report[1..]| ==> report[1..][i] == report[i + 1];
      DetectsFewest(report[1..], lines);
      HoldsFewest(report[0].1, report[0].0, lines);
      CountsAppend(report[0].1, AllMutants(report[1..]));
    }
  }

  function Repeated(status: Status, n: nat): (r: seq<Status>)
    ensures |r| == n && forall i :: 0 <= i < n ==> r[i] == status
  {
    seq(n, _ => status)
  }

  lemma {:induction false} RepeatedCounts(status: Status, n: nat)
    ensures Detected(Repeated(status, n)) == if IsDetected(status) then n else 0
    ensures Valid(Repeated(status, n)) == if IsValid(status) then n else 0
  {
    if n > 0 {
      assert Repeated(status, n)[1..] == Repeated(status, n - 1);
      RepeatedCounts(status, n - 1);
    }
  }

  /** A file of so many valid mutants, the fewest of them detected. */
  function AtLine(name: string, size: nat, lines: Lines): seq<Status> {
    var fewest := Fewest(LineOf(name, lines), size);
    Repeated(Killed, fewest) + Repeated(Survived, if fewest <= size then size - fewest else 0)
  }

  lemma LineWithinWhole(name: string, lines: Lines)
    requires WithinWhole(lines)
    ensures LineOf(name, lines) <= WHOLE
  {
    var found := Lookup(lines.files, name);
    if found.Some? {
      var i :| 0 <= i < |lines.files| && lines.files[i] == (name, found.value);
    }
  }

  lemma AtLineCounts(name: string, size: nat, lines: Lines)
    requires WithinWhole(lines)
    ensures Valid(AtLine(name, size, lines)) == size
    ensures Detected(AtLine(name, size, lines)) == Fewest(LineOf(name, lines), size)
  {
    var fewest := Fewest(LineOf(name, lines), size);
    LineWithinWhole(name, lines);
    FewestWithin(LineOf(name, lines), size);
    RepeatedCounts(Killed, fewest);
    RepeatedCounts(Survived, size - fewest);
    CountsAppend(Repeated(Killed, fewest), Repeated(Survived, size - fewest));
  }

  /** A report of such sizes where each file is at its line, and no higher. */
  lemma {:induction false} LeastReport(sizes: Record<nat>, lines: Lines) returns (report: Report)
    requires WithinWhole(lines)
    ensures Sizes(report) == sizes && FilesHold(report, lines)
    ensures Detected(AllMutants(report)) == TotalFewest(sizes, lines)
  {
    if sizes == [] {
      report := [];
    } else {
      var (name, size) := sizes[0];
      var rest := LeastReport(sizes[1..], lines);
      var first := AtLine(name, size, lines);
      report := [(name, first)] + rest;
      AtLineCounts(name, size, lines);
      HoldsFewest(first, name, lines);
      CountsAppend(first, AllMutants(rest));
      assert report[1..] == rest;
      forall i | 0 <= i < |report| && ScoreOf(report[i].1).Some?
        ensures Holds(report[i].0, ScoreOf(report[i].1).value.score, lines)
      {
        assert i > 0 ==> report[i] == rest[i - 1];
      }
    }
  }

  /** Every line is of a file that is measured. */
  predicate Covers(sizes: Record<nat>, lines: Lines) {
    forall i :: 0 <= i < |lines.files| ==> Lookup(sizes, lines.files[i].0).Some?
  }

  lemma {:induction false} SizesLookup(report: Report, name: string)
    ensures Lookup(Sizes(report), name).Some? <==> Lookup(report, name).Some?
  {
    if report != [] {
      assert Sizes(report)[1..] == Sizes(report[1..]);
      SizesLookup(report[1..], name);
    }
  }

  lemma PackageOf(report: Report)
    ensures var size := TotalSize(Sizes(report));
            PackageScore(report) == if size == 0 then 0 else WHOLE * Detected(AllMutants(report)) / size
  {
    SizesAdd(report);
  }

  lemma {:induction false} MoreScores(fewer: nat, more: nat, size: nat)
    requires fewer <= more && size > 0
    ensures WHOLE * fewer / size <= WHOLE * more / size
  {
    QuotientAtLeast(WHOLE * more, size, WHOLE * fewer / size);
    QuotientAtLeast(WHOLE * fewer, size, WHOLE * fewer / size);
  }

  /**
   * From the lines and the sizes of the files alone: a full run where every file holds fails nothing,
   * whatever was detected, exactly when the files at their lines make a package at its own.
   */
  lemma {:induction false} FilesAreEnoughExactly(sizes: Record<nat>, lines: Lines)
    requires WithinWhole(lines) && Covers(sizes, lines)
    ensures (forall report :: Sizes(report) == sizes && FilesHold(report, lines) ==>
               Regressions(Some(lines), report, true) == [])
            <==> LeastScore(sizes, lines) >= lines.score
  {
    if LeastScore(sizes, lines) >= lines.score {
      forall report | Sizes(report) == sizes && FilesHold(report, lines)
        ensures Regressions(Some(lines), report, true) == []
      {
        HoldsAsPackage(report, lines);
      }
    } else {
      var report := LeastReport(sizes, lines);
      PackageOf(report);
      RegressionsExactly(lines, report, true);
      assert Regressions(Some(lines), report, true) != [];
    }
  }

  lemma HoldsAsPackage(report: Report, lines: Lines)
    requires FilesHold(report, lines) && Covers(Sizes(report), lines)
    requires LeastScore(Sizes(report), lines) >= lines.score
    ensures Regressions(Some(lines), report, true) == []
  {
    forall i | 0 <= i < |lines.files|
      ensures Lookup(report, lines.files[i].0).Some?
    {
      SizesLookup(report, lines.files[i].0);
    }
    PackageOf(report);
    DetectsFewest(report, lines);
    if TotalSize(Sizes(report)) > 0 {
      MoreScores(TotalFewest(Sizes(report), lines), Detected(AllMutants(report)), TotalSize(Sizes(report)));
    }
    RegressionsExactly(lines, report, true);
  }

  /** The lines a run writes are such lines. */
  lemma {:induction false} WrittenWithin(report: Report)
    ensures WithinWhole(LinesOf(report))
  {
    ScoreWithin(AllMutants(report));
    forall k | 0 <= k < |LinesIn(report)|
      ensures LinesIn(report)[k].1.score <= WHOLE
    {
      var i := FileOfLine(report, k);
      ScoreWithin(report[i].1);
    }
  }

  lemma ScoreWithin(mutants: seq<Status>)
    ensures ScoreOf(mutants).Some? ==> ScoreOf(mutants).value.score <= WHOLE
  {
    if Valid(mutants) > 0 {
      assert WHOLE * Detected(mutants) <= WHOLE * Valid(mutants);
      ScoreReaches(mutants, WHOLE + 1);
      MarginCounts(mutants, WHOLE + 1);
    }
  }

  const HALF: Report := [("a", [Killed]), ("b", [Survived])]

  const THIRD: Report := [("a", [Killed]), ("b", [Survived, Survived])]

  /** With more mutants in a weak file, every file holds its line and the package falls under its own. */
  lemma FilesAreNotEnough() returns (before: Report, after: Report)
    ensures SameFiles(before, after) && FilesHold(after, LinesOf(before))
    ensures Regressions(Some(LinesOf(before)), after, true) == [PackageUnder(3333, 5000)]
  {
    before, after := HALF, THIRD;
    SameNames();
    CountsOfExamples();
    ThirdHolds();
    NoFileFailures(LinesIn(THIRD), LinesOf(HALF));
    NoneMissing(LinesIn(HALF), THIRD);
  }

  lemma SameNames()
    ensures SameFiles(HALF, THIRD)
  {
    assert Lookup(THIRD, "a").Some? && Lookup(HALF, "a").Some?;
  }

  lemma {:induction false} ThirdHolds()
    ensures LinesHold(LinesIn(THIRD), LinesOf(HALF)) && FilesHold(THIRD, LinesOf(HALF))
    ensures AllMeasured(THIRD, LinesOf(HALF))
  {
    LinesOfExamples();
    var lines := LinesOf(HALF);
    assert Lookup(lines.files, "a") == Some(Line(10000, 1)) && Lookup(lines.files, "b") == Some(Line(0, 1));
    LinesHoldFiles(THIRD, lines);
    assert Lookup(THIRD, "a").Some? && Lookup(THIRD, "b").Some?;
  }

  lemma LinesOfExamples()
    ensures LinesIn(HALF) == [("a", Line(10000, 1)), ("b", Line(0, 1))]
    ensures LinesIn(THIRD) == [("a", Line(10000, 1)), ("b", Line(0, 2))]
  {
    CountsOfExamples();
    assert HALF[..1] == [("a", [Killed])] && HALF[..1][..0] == [];
    assert THIRD[..1] == [("a", [Killed])] && THIRD[..1][..0] == [];
    assert LinesIn([("a", [Killed])]) == [("a", Line(10000, 1))];
  }

  lemma CountsOfExamples()
    ensures ScoreOf([Killed]) == Some(Line(10000, 1)) && ScoreOf([Survived]) == Some(Line(0, 1))
    ensures ScoreOf([Survived, Survived]) == Some(Line(0, 2))
    ensures PackageScore(HALF) == 5000 && PackageScore(THIRD) == 3333
  {
    assert AllMutants([("b", [Survived])]) == [Survived];
    assert AllMutants(HALF) == [Killed, Survived];
    assert AllMutants([("b", [Survived, Survived])]) == [Survived, Survived];
    assert AllMutants(THIRD) == [Killed, Survived, Survived];
    assert [Killed, Survived][1..] == [Survived];
    assert [Killed, Survived, Survived][1..] == [Survived, Survived];
    assert [Survived, Survived][1..] == [Survived];
  }

  // ---------- what is counted, and what is reported ----------

  /** Detected: killed or timed out. Valid: those, and the mutants that survived or that no test reached. */
  lemma {:induction false} CountsExactly(mutants: seq<Status>)
    ensures Detected(mutants) == multiset(mutants)[Killed] + multiset(mutants)[Timeout]
    ensures Valid(mutants) == Detected(mutants) + multiset(mutants)[Survived] + multiset(mutants)[NoCoverage]
    ensures match ScoreOf(mutants)
            case Some(line) => line.mutants > 0 && line.mutants == Detected(mutants) + multiset(mutants)[Survived]
                                                                   + multiset(mutants)[NoCoverage]
            case None => Detected(mutants) + multiset(mutants)[Survived] + multiset(mutants)[NoCoverage] == 0
  {
    if mutants != [] {
      assert mutants == [mutants[0]] + mutants[1..];
      CountsExactly(mutants[1..]);
    }
  }

  /** The mutants of a package are those of its files, one file after another. */
  lemma {:induction false} AllMutantsInTurn(a: Report, file: string, mutants: seq<Status>)
    ensures AllMutants([]) == []
    ensures AllMutants(a + [(file, mutants)]) == AllMutants(a) + mutants
  {
    if a == [] {
      assert a + [(file, mutants)] == [(file, mutants)];
    } else {
      assert (a + [(file, mutants)])[1..] == a[1..] + [(file, mutants)];
      AllMutantsInTurn(a[1..], file, mutants);
    }
  }

  /** What a measured file does wrong: it is under its line, or it has none and is under the package. */
  ghost predicate FileFails(entry: (string, Line), lines: Lines, failure: Failure) {
    match Lookup(lines.files, entry.0)
    case Some(before) =>
      entry.1.score < before.score && failure == UnderLine(entry.0, entry.1.score, before.score)
    case None => entry.1.score < lines.score && failure == NewUnderPackage(entry.0, entry.1.score, lines.score)
  }

  lemma {:induction false} FileFailuresExactly(measured: Record<Line>, lines: Lines, failure: Failure)
    ensures failure in FileFailures(measured, lines) <==>
              exists k :: 0 <= k < |measured| && FileFails(measured[k], lines, failure)
  {
    if measured != [] {
      var n := |measured| - 1;
      FileFailuresExactly(measured[..n], lines, failure);
      assert failure in FailureOf(measured[n].0, measured[n].1, lines) <==> FileFails(measured[n], lines, failure);
      if k :| 0 <= k < n && FileFails(measured[..n][k], lines, failure) {
        assert FileFails(measured[k], lines, failure);
      }
      if k :| 0 <= k < n && FileFails(measured[k], lines, failure) {
        assert FileFails(measured[..n][k], lines, failure);
      }
    }
  }

  /** A file with a line that a report does not hold. */
  predicate IsMissing(file: string, report: Report, failure: Failure) {
    Lookup(report, file).None? && failure == NotMeasured(file)
  }

  lemma {:induction false} MissingTo(files: Record<Line>, n: nat, report: Report, failure: Failure)
    requires n <= |files|
    ensures failure in Missing(files[..n], report) <==>
              exists k :: 0 <= k < n && IsMissing(files[k].0, report, failure)
  {
    if n > 0 {
      MissingTo(files, n - 1, report, failure);
      NextMissing(files, n - 1, report);
    }
  }

  lemma {:induction false} MissingExactly(files: Record<Line>, report: Report, failure: Failure)
    ensures failure in Missing(files, report) <==>
              exists k :: 0 <= k < |files| && IsMissing(files[k].0, report, failure)
  {
    MissingTo(files, |files|, report, failure);
    assert files[..|files|] == files;
  }

  /** A file of a report whose mutants make it fail. */
  ghost predicate ScoredFails(entry: (string, seq<Status>), lines: Lines, failure: Failure) {
    ScoreOf(entry.1).Some? && FileFails((entry.0, ScoreOf(entry.1).value), lines, failure)
  }

  lemma {:induction false} ScoredExactly(report: Report, lines: Lines, failure: Failure)
    ensures failure in FileFailures(LinesIn(report), lines) <==>
              exists i :: 0 <= i < |report| && ScoredFails(report[i], lines, failure)
  {
    var measured := LinesIn(report);
    FileFailuresExactly(measured, lines, failure);
    if k :| 0 <= k < |measured| && FileFails(measured[k], lines, failure) {
      var i := FileOfLine(report, k);
      assert ScoredFails(report[i], lines, failure);
    }
    if i :| 0 <= i < |report| && ScoredFails(report[i], lines, failure) {
      LineOfFile(report, i);
      var k :| 0 <= k < |measured| && measured[k] == (report[i].0, ScoreOf(report[i].1).value);
      assert FileFails(measured[k], lines, failure);
    }
  }

  /**
   * What a run reports, failure by failure: each file under its line, each file with no line that is
   * under the package, and, of a full run, each line that was not measured and a package under its own.
   */
  lemma {:induction false} ReportedExactly(lines: Lines, report: Report, full: bool, failure: Failure)
    ensures failure in Regressions(Some(lines), report, full) <==>
              || (exists i :: 0 <= i < |report| && ScoredFails(report[i], lines, failure))
              || (full && exists k :: 0 <= k < |lines.files| && IsMissing(lines.files[k].0, report, failure))
              || (full && PackageScore(report) < lines.score
                  && failure == PackageUnder(PackageScore(report), lines.score))
    ensures Regressions(None, report, full) == [NoLines]
  {
    ScoredExactly(report, lines, failure);
    MissingExactly(lines.files, report, failure);
  }

  lemma {:induction false} PutLookup<T>(record: Record<T>, name: string, value: T, other: string)
    ensures Lookup(Put(record, name, value), other) == if other == name then Some(value) else Lookup(record, other)
  {
    if record != [] {
      assert ([(name, value)] + record[1..])[1..] == record[1..];
      assert ([record[0]] + Put(record[1..], name, value))[1..] == Put(record[1..], name, value);
      PutLookup(record[1..], name, value, other);
    }
  }

  /** Of two reports that hold a file, the later one counts. */
  lemma {:induction false} LaterCounts<T>(record: Record<T>, other: Record<T>, name: string)
    requires Apart(other)
    ensures Lookup(Assign(record, other), name)
         == if Lookup(other, name).Some? then Lookup(other, name) else Lookup(record, name)
    decreases |other|
  {
    if other != [] {
      var (first, value) := other[0];
      PutLookup(record, first, value, name);
      LaterCounts(Put(record, first, value), other[1..], name);
      NotAgain(other);
    }
  }

  lemma NotAgain<T>(record: Record<T>)
    requires Apart(record) && record != []
    ensures Lookup(record[1..], record[0].0).None?
  {
    forall i | 0 <= i < |record| - 1
      ensures record[1..][i].0 != record[0].0
    {
    }
  }
}
