/** What the cut of the suite promises: every file once, no part empty, the same parts in every job, a bounded time. */
module ShardProperties {
  import opened Ordering
  import opened ListScheduling
  import opened Shards

  ghost predicate Timed(files: seq<string>, seconds: string -> real) {
    forall f :: f in files ==> 0.0 <= seconds(f)
  }

  ghost predicate WithinLongest(files: seq<string>, seconds: string -> real, longest: real) {
    forall f :: f in files ==> seconds(f) <= longest
  }

  lemma TotalCons(x: string, files: seq<string>, seconds: string -> real)
    ensures Total([x] + files, seconds) == seconds(x) + Total(files, seconds)
  {
    assert Times([x] + files, seconds)[1..] == Times(files, seconds);
  }

  lemma TotalAppend(files: seq<string>, x: string, seconds: string -> real)
    ensures Total(files + [x], seconds) == Total(files, seconds) + seconds(x)
  {
    assert Times(files + [x], seconds) == Times(files, seconds) + [seconds(x)];
    SumAppend(Times(files, seconds), [seconds(x)]);
    assert Sum([seconds(x)]) == seconds(x);
  }

  lemma {:induction false} TotalInsert(le: (string, string) -> bool, x: string, s: seq<string>, seconds: string -> real)
    ensures Total(Insert(le, x, s), seconds) == seconds(x) + Total(s, seconds)
  {
    TotalCons(x, s, seconds);
    if s != [] && !le(x, s[0]) {
      TotalInsert(le, x, s[1..], seconds);
      TotalCons(s[0], Insert(le, x, s[1..]), seconds);
      TotalCons(s[0], s[1..], seconds);
      assert s == [s[0]] + s[1..];
    }
  }

  lemma {:induction false} TotalSort(le: (string, string) -> bool, s: seq<string>, seconds: string -> real)
    ensures Total(Sort(le, s), seconds) == Total(s, seconds)
  {
    if s != [] {
      TotalSort(le, s[1..], seconds);
      TotalInsert(le, s[0], Sort(le, s[1..]), seconds);
      TotalCons(s[0], s[1..], seconds);
      assert s == [s[0]] + s[1..];
    }
  }

  lemma TotalPermuted(a: seq<string>, b: seq<string>, seconds: string -> real)
    requires multiset(a) == multiset(b)
    ensures Total(a, seconds) == Total(b, seconds)
  {
    TextOrder();
    SortOrderFree(TextLe, a, b);
    TotalSort(TextLe, a, seconds);
    TotalSort(TextLe, b, seconds);
  }

  // ---- The time of one part -------------------------------------------------------------------

  lemma {:induction false} SortedTimes(part: seq<string>, seconds: string -> real, longest: real)
    requires Timed(part, seconds) && WithinLongest(part, seconds, longest)
    ensures Nonnegative(Times(Sort(TextLe, part), seconds)) && AtMost(Times(Sort(TextLe, part), seconds), longest)
  {
    SortMembers(TextLe, part);
  }

  function LongestTime(files: seq<string>, seconds: string -> real): (m: real)
    ensures 0.0 <= m && WithinLongest(files, seconds, m)
  {
    if files == [] then 0.0
    else
      var rest := LongestTime(files[1..], seconds);
      if seconds(files[0]) <= rest then rest else seconds(files[0])
  }

  /** A part takes its mean load at least, and passes it by less than one longest file. */
  lemma PartTimeBounds(part: seq<string>, seconds: string -> real, workers: nat, longest: real)
    requires workers >= 1 && 0.0 <= longest && Timed(part, seconds) && WithinLongest(part, seconds, longest)
    ensures Total(part, seconds) <= Scaled(workers, PartTime(part, seconds, workers))
    ensures Scaled(workers, PartTime(part, seconds, workers)) <= Total(part, seconds) + Scaled(workers - 1, longest)
  {
    SortedTimes(part, seconds, longest);
    TotalSort(TextLe, part, seconds);
    MakespanMean(Times(Sort(TextLe, part), seconds), workers);
    MakespanAtMost(Times(Sort(TextLe, part), seconds), workers, longest);
  }

  lemma PartTimeHolds(part: seq<string>, file: string, seconds: string -> real, workers: nat)
    requires workers >= 1 && Timed(part, seconds) && file in part
    ensures seconds(file) <= PartTime(part, seconds, workers)
  {
    SortMembers(TextLe, part);
    var sorted := Sort(TextLe, part);
    var k :| 0 <= k < |sorted| && sorted[k] == file;
    SortedTimes(part, seconds, LongestTime(part, seconds));
    MakespanHolds(Times(sorted, seconds), workers, k);
  }

  /** A part of its own takes the time of its file; files of no time take none. */
  lemma PartTimeAlone(file: string, seconds: string -> real, workers: nat)
    requires workers >= 1 && 0.0 <= seconds(file)
    ensures PartTime([file], seconds, workers) == seconds(file)
  {
    var sorted := Sort(TextLe, [file]);
    assert sorted == [file];
    var jobs := Times(sorted, seconds);
    assert jobs == [seconds(file)] && jobs[1..] == [];
    assert Run(Idle(workers), jobs) == Place(Idle(workers), jobs[0]);
  }

  lemma PartTimeZero(part: seq<string>, seconds: string -> real, workers: nat)
    requires workers >= 1 && forall f :: f in part ==> seconds(f) == 0.0
    ensures PartTime(part, seconds, workers) == 0.0 && Total(part, seconds) == 0.0
  {
    SumIdle(Times(part, seconds));
    PartTimeBounds(part, seconds, workers, 0.0);
    ScaledProduct(workers - 1, 0.0);
    ScaledProduct(workers, PartTime(part, seconds, workers));
  }

  /** How much later a part ends with one more file. */
  function Growth(part: seq<string>, file: string, seconds: string -> real, workers: nat): real
    requires workers >= 1
  {
    PartTime(part + [file], seconds, workers) - PartTime(part, seconds, workers)
  }

  lemma OneMoreFile(before: seq<string>, file: string, after: seq<string>, seconds: string -> real, workers: nat)
    requires workers >= 1 && Timed(after, seconds) && 0.0 <= seconds(file)
    ensures Makespan(Times(before + after, seconds), workers)
         <= Makespan(Times(before + [file] + after, seconds), workers)
         <= Makespan(Times(before + after, seconds), workers) + seconds(file)
  {
    var first, last := Times(before, seconds), Times(after, seconds);
    assert Times(before + after, seconds) == first + last;
    assert Times(before + [file] + after, seconds) == first + [seconds(file)] + last;
    OneMoreJob(first, seconds(file), last, workers);
  }

  /**
   * One more file never lowers the time of a part, wherever it falls in the order of the paths, and
   * raises it by the time of the file at most.
   */
  lemma AddingNeverLowers(part: seq<string>, file: string, seconds: string -> real, workers: nat)
    requires workers >= 1 && Timed(part, seconds) && 0.0 <= seconds(file)
    ensures 0.0 <= Growth(part, file, seconds, workers) <= seconds(file)
  {
    var sorted := Sort(TextLe, part);
    TextOrder();
    SortAppend(TextLe, part, file);
    var k := InsertSplits(TextLe, file, sorted);
    SortMembers(TextLe, part);
    assert sorted == sorted[..k] + sorted[k..];
    OneMoreFile(sorted[..k], file, sorted[k..], seconds, workers);
  }

  /** Longer files never make a part end earlier. */
  lemma LongerNeverLowers(part: seq<string>, seconds: string -> real, longer: string -> real, workers: nat)
    requires workers >= 1 && Timed(part, seconds) && forall f :: f in part ==> seconds(f) <= longer(f)
    ensures PartTime(part, seconds, workers) <= PartTime(part, longer, workers)
  {
    SortMembers(TextLe, part);
    LongerJobs(Times(Sort(TextLe, part), seconds), Times(Sort(TextLe, part), longer), workers);
  }

  /** Graham's bound for one part: `chosen[i]` is the worker that any other schedule gives the file `part[i]`. */
  lemma PartApproximation(part: seq<string>, seconds: string -> real, workers: nat, chosen: seq<nat>)
    requires workers >= 1 && Timed(part, seconds) && Assignment(chosen, |part|, workers)
    ensures PartTime(part, seconds, workers)
         <= (2.0 - 1.0 / workers as real) * AssignedTime(Times(part, seconds), workers, chosen)
  {
    PartWithinAny(part, seconds, workers, chosen);
    SuiteRatio(part, seconds, workers, chosen, PartTime(part, seconds, workers),
               AssignedTime(Times(part, seconds), workers, chosen));
  }

  lemma PartWithinAny(part: seq<string>, seconds: string -> real, workers: nat, chosen: seq<nat>)
    requires workers >= 1 && Timed(part, seconds) && Assignment(chosen, |part|, workers)
    ensures Scaled(workers, PartTime(part, seconds, workers))
         <= Total(part, seconds) + Scaled(workers - 1, AssignedTime(Times(part, seconds), workers, chosen))
  {
    AssignedLongest(Times(part, seconds), workers, chosen);
    var best := AssignedTime(Times(part, seconds), workers, chosen);
    PartTimeBounds(part, seconds, workers, best);
  }

  // ---- Every file in one part -----------------------------------------------------------------

  function Contents(out: seq<seq<string>>): multiset<string> {
    if out == [] then multiset{} else multiset(out[0]) + Contents(out[1..])
  }

  lemma {:induction false} ContentsUpdate(out: seq<seq<string>>, k: nat, file: string)
    requires k < |out|
    ensures Contents(out[k := out[k] + [file]]) == Contents(out) + multiset{file}
  {
    var next := out[k := out[k] + [file]];
    if k == 0 {
      assert next[1..] == out[1..];
    } else {
      assert next[1..] == out[1..][k - 1 := out[k] + [file]];
      ContentsUpdate(out[1..], k - 1, file);
    }
  }

  lemma {:induction false} ContentsPutOne(out: seq<seq<string>>, file: string, seconds: string -> real, workers: nat)
    requires workers >= 1 && out != []
    ensures Contents(Put(out, file, seconds, workers)) == Contents(out) + multiset{file}
  {
    ContentsUpdate(out, BestOf(KeysOf(out, file, seconds, workers)), file);
  }

  lemma {:induction false} ContentsPut(out: seq<seq<string>>, files: seq<string>, seconds: string -> real, workers: nat)
    requires workers >= 1 && out != []
    ensures Contents(PutAll(out, files, seconds, workers)) == Contents(out) + multiset(files)
    decreases |files|
  {
    if files != [] {
      ContentsPutOne(out, files[0], seconds, workers);
      ContentsPut(Put(out, files[0], seconds, workers), files[1..], seconds, workers);
      MultisetTail(files);
    }
  }

  lemma {:induction false} ContentsEmpty(out: seq<seq<string>>)
    requires forall i :: 0 <= i < |out| ==> out[i] == []
    ensures Contents(out) == multiset{}
  {
    if out != [] {
      ContentsEmpty(out[1..]);
    }
  }

  lemma {:induction false} ContentsSorted(out: seq<seq<string>>)
    ensures Contents(SortedParts(out)) == Contents(out)
  {
    if out != [] {
      assert SortedParts(out)[1..] == SortedParts(out[1..]);
      ContentsSorted(out[1..]);
    }
  }

  /** The parts together hold the files, each as often as the folder does; each part is sorted. */
  lemma FilesConserved(files: seq<string>, durations: map<string, real>, parts: nat, workers: nat,
                       collate: (string, string) -> bool)
    requires workers >= 1
    ensures var out := Parts(files, durations, parts, workers, collate);
            && (Contents(out) == multiset(files) <==> parts >= 1 || files == [])
            && (forall i :: 0 <= i < parts ==> Sorted(TextLe, out[i]))
  {
    var order := Order(files, durations, collate);
    ContentsEmpty(EmptyParts(parts));
    ContentsSorted(Cut(files, durations, parts, workers, collate));
    if parts >= 1 {
      ContentsPut(EmptyParts(parts), order, SecondsOf(files, durations), workers);
    } else if files != [] {
      assert files[0] in multiset(files);
    }
    TextOrder();
    forall i | 0 <= i < parts
      ensures Sorted(TextLe, Parts(files, durations, parts, workers, collate)[i])
    {
      SortSorted(TextLe, Cut(files, durations, parts, workers, collate)[i]);
    }
  }

  // ---- The same parts in every job ------------------------------------------------------------

  lemma {:induction false} KnownCounts(files: seq<string>, durations: map<string, real>, f: string)
    ensures multiset(Known(files, durations))[f] == if f in durations then multiset(files)[f] else 0
  {
    if files != [] {
      KnownCounts(files[1..], durations, f);
      assert files == [files[0]] + files[1..];
    }
  }

  lemma MeanPermuted(a: seq<string>, b: seq<string>, durations: map<string, real>)
    requires multiset(a) == multiset(b)
    ensures Mean(a, durations) == Mean(b, durations)
  {
    var left, right := Known(a, durations), Known(b, durations);
    forall f: string
      ensures multiset(left)[f] == multiset(right)[f]
    {
      KnownCounts(a, durations, f);
      KnownCounts(b, durations, f);
    }
    assert multiset(left) == multiset(right);
    assert |multiset(left)| == |left| && |multiset(right)| == |right|;
    TotalPermuted(left, right, Lookup(durations, 0.0));
  }

  /** Two listings of the same files, in any order, are cut in the same parts. */
  lemma {:induction false} PartsOrderFree(a: seq<string>, b: seq<string>, durations: map<string, real>, parts: nat,
                                          workers: nat, collate: (string, string) -> bool)
    requires workers >= 1 && TotalOrder(collate) && multiset(a) == multiset(b)
    ensures Parts(a, durations, parts, workers, collate) == Parts(b, durations, parts, workers, collate)
  {
    MeanPermuted(a, b, durations);
    var seconds := SecondsOf(a, durations);
    SortOrderFree(LongestFirst(seconds, collate), a, b);
  }

  // ---- No part empty --------------------------------------------------------------------------

  ghost predicate NoneEmpty(out: seq<seq<string>>) {
    forall i :: 0 <= i < |out| ==> out[i] != []
  }

  /** A part that holds a file of some time. */
  ghost predicate Loaded(part: seq<string>, seconds: string -> real) {
    Timed(part, seconds) && exists f :: f in part && seconds(f) > 0.0
  }

  ghost predicate Idling(part: seq<string>, seconds: string -> real) {
    forall f :: f in part ==> seconds(f) == 0.0
  }

  /** The first `k` parts hold a file of some time, and the others nothing. */
  ghost predicate FilledTo(out: seq<seq<string>>, k: nat, seconds: string -> real) {
    && k <= |out|
    && (forall i :: 0 <= i < k ==> Loaded(out[i], seconds))
    && (forall i :: k <= i < |out| ==> out[i] == [])
  }

  /** As `FilledTo`, but part `k` has files of no time, one at least. */
  ghost predicate Trailing(out: seq<seq<string>>, k: nat, seconds: string -> real) {
    && k < |out|
    && (forall i :: 0 <= i < k ==> Loaded(out[i], seconds))
    && out[k] != [] && Idling(out[k], seconds)
    && (forall i :: k < i < |out| ==> out[i] == [])
  }

  lemma {:induction false} LoadedTotal(part: seq<string>, seconds: string -> real)
    requires Timed(part, seconds)
    ensures 0.0 <= Total(part, seconds)
    ensures Loaded(part, seconds) ==> 0.0 < Total(part, seconds)
  {
    if part != [] {
      assert part == [part[0]] + part[1..];
      TotalCons(part[0], part[1..], seconds);
      LoadedTotal(part[1..], seconds);
    }
  }

  /** A part that holds some time never wins over one that holds none. */
  lemma LoadedLoses(loaded: seq<string>, idle: seq<string>, file: string, seconds: string -> real, workers: nat)
    requires workers >= 1 && Loaded(loaded, seconds) && Idling(idle, seconds) && 0.0 <= seconds(file)
    requires idle == [] || seconds(file) == 0.0
    ensures KeyLess(KeyOf(idle, file, seconds, workers), KeyOf(loaded, file, seconds, workers))
  {
    LoadedTotal(loaded, seconds);
    PartTimeHolds(loaded + [file], file, seconds, workers);
    PartTimeZero(idle, seconds, workers);
    if idle == [] {
      assert idle + [file] == [file];
      PartTimeAlone(file, seconds, workers);
    } else {
      PartTimeZero(idle + [file], seconds, workers);
    }
  }

  lemma IdleKey(idle: seq<string>, file: string, seconds: string -> real, workers: nat)
    requires workers >= 1 && Idling(idle, seconds) && 0.0 <= seconds(file)
    requires idle == [] || seconds(file) == 0.0
    ensures KeyOf(idle, file, seconds, workers) == (seconds(file), 0.0)
  {
    PartTimeZero(idle, seconds, workers);
    if idle == [] {
      assert idle + [file] == [file];
      PartTimeAlone(file, seconds, workers);
    } else {
      PartTimeZero(idle + [file], seconds, workers);
    }
  }

  lemma {:induction false} LaterLoses(out: seq<seq<string>>, k: nat, i: nat, file: string, seconds: string -> real,
                                      workers: nat)
    requires workers >= 1 && i < |out| && k < |out| && 0.0 <= seconds(file)
    requires Loaded(out[i], seconds) && Idling(out[k], seconds) && (out[k] == [] || seconds(file) == 0.0)
    ensures KeyLess(KeysOf(out, file, seconds, workers)[k], KeysOf(out, file, seconds, workers)[i])
  {
    KeysAt(out, file, seconds, workers, k);
    KeysAt(out, file, seconds, workers, i);
    LoadedLoses(out[i], out[k], file, seconds, workers);
  }

  lemma IdleKeyAt(out: seq<seq<string>>, i: nat, file: string, seconds: string -> real, workers: nat)
    requires workers >= 1 && i < |out| && 0.0 <= seconds(file)
    requires Idling(out[i], seconds) && (out[i] == [] || seconds(file) == 0.0)
    ensures KeysOf(out, file, seconds, workers)[i] == (seconds(file), 0.0)
  {
    KeysAt(out, file, seconds, workers, i);
    IdleKey(out[i], file, seconds, workers);
  }

  /** The file goes to the first part with no time, after the loaded ones. */
  lemma {:induction false} BestIsFirstIdle(out: seq<seq<string>>, k: nat, file: string, seconds: string -> real,
                                           workers: nat)
    requires workers >= 1 && k < |out| && 0.0 <= seconds(file)
    requires forall i :: 0 <= i < k ==> Loaded(out[i], seconds)
    requires Idling(out[k], seconds) && (out[k] == [] || seconds(file) == 0.0)
    requires forall i :: k < i < |out| ==> out[i] == []
    ensures BestOf(KeysOf(out, file, seconds, workers)) == k
  {
    var keys := KeysOf(out, file, seconds, workers);
    forall i | 0 <= i < k
      ensures KeyLess(keys[k], keys[i])
    {
      LaterLoses(out, k, i, file, seconds, workers);
    }
    forall i | k <= i < |out|
      ensures keys[i] == (seconds(file), 0.0)
    {
      IdleKeyAt(out, i, file, seconds, workers);
    }
    BestIsFirstLeast(keys);
    FirstLeastUnique(keys, |keys|, k, BestOf(keys));
  }

  lemma PutIdle(out: seq<seq<string>>, k: nat, file: string, seconds: string -> real, workers: nat)
    requires workers >= 1 && FilledTo(out, k, seconds) && k < |out| && 0.0 <= seconds(file)
    ensures Put(out, file, seconds, workers) == out[k := [file]]
  {
    BestIsFirstIdle(out, k, file, seconds, workers);
    assert out[k] + [file] == [file];
  }

  lemma FillNext(out: seq<seq<string>>, k: nat, file: string, seconds: string -> real)
    requires FilledTo(out, k, seconds) && k < |out| && 0.0 <= seconds(file)
    ensures 0.0 < seconds(file) ==> FilledTo(out[k := [file]], k + 1, seconds)
    ensures 0.0 == seconds(file) ==> Trailing(out[k := [file]], k, seconds)
  {
    assert file in [file];
  }

  /** Files of no time, after the others, all go to one part. */
  lemma {:induction false} PutTrailing(out: seq<seq<string>>, k: nat, files: seq<string>, seconds: string -> real,
                                       workers: nat)
    requires workers >= 1 && Trailing(out, k, seconds) && Idling(files, seconds)
    ensures Trailing(PutAll(out, files, seconds, workers), k, seconds)
    decreases |files|
  {
    if files != [] {
      BestIsFirstIdle(out, k, files[0], seconds, workers);
      PutTrailing(Put(out, files[0], seconds, workers), k, files[1..], seconds, workers);
    }
  }

  function PositiveCount(files: seq<string>, seconds: string -> real): (n: nat)
    ensures n <= |files|
  {
    if files == [] then 0 else (if seconds(files[0]) > 0.0 then 1 else 0) + PositiveCount(files[1..], seconds)
  }

  lemma {:induction false} PositiveInsert(le: (string, string) -> bool, x: string, s: seq<string>,
                                          seconds: string -> real)
    ensures PositiveCount(Insert(le, x, s), seconds) == PositiveCount([x] + s, seconds)
  {
    assert ([x] + s)[1..] == s;
    if s != [] && !le(x, s[0]) {
      PositiveInsert(le, x, s[1..], seconds);
      assert ([x] + s[1..])[1..] == s[1..];
      assert Insert(le, x, s)[1..] == Insert(le, x, s[1..]);
    }
  }

  lemma {:induction false} PositiveSort(le: (string, string) -> bool, s: seq<string>, seconds: string -> real)
    ensures PositiveCount(Sort(le, s), seconds) == PositiveCount(s, seconds)
  {
    if s != [] {
      PositiveSort(le, s[1..], seconds);
      PositiveInsert(le, s[0], Sort(le, s[1..]), seconds);
      assert ([s[0]] + Sort(le, s[1..]))[1..] == Sort(le, s[1..]);
    }
  }

  ghost predicate Descending(files: seq<string>, seconds: string -> real) {
    forall i, j :: 0 <= i < j < |files| ==> seconds(files[i]) >= seconds(files[j])
  }

  lemma {:induction false} NoPositive(files: seq<string>, seconds: string -> real)
    requires Idling(files, seconds)
    ensures PositiveCount(files, seconds) == 0
  {
    if files != [] {
      NoPositive(files[1..], seconds);
    }
  }

  lemma FilledNoneEmpty(out: seq<seq<string>>, k: nat, seconds: string -> real)
    requires FilledTo(out, k, seconds)
    ensures NoneEmpty(out) <==> k == |out|
  {
    if k < |out| {
      assert out[k] == [];
    }
  }

  lemma TrailingNoneEmpty(out: seq<seq<string>>, k: nat, seconds: string -> real)
    requires Trailing(out, k, seconds)
    ensures NoneEmpty(out) <==> k + 1 == |out|
  {
    if k + 1 < |out| {
      assert out[k + 1] == [];
    }
  }

  /** Enough files to reach every part, when the first `k` are reached already. */
  ghost predicate Enough(parts: nat, k: nat, files: seq<string>, seconds: string -> real) {
    var positive := PositiveCount(files, seconds);
    parts <= k + positive || (parts == k + positive + 1 && positive < |files|)
  }

  lemma EnoughNext(parts: nat, k: nat, files: seq<string>, seconds: string -> real)
    requires files != []
    ensures seconds(files[0]) > 0.0 ==>
              (Enough(parts, k, files, seconds) <==> Enough(parts, k + 1, files[1..], seconds))
    ensures k == parts ==> Enough(parts, k, files, seconds)
  {
  }

  lemma {:induction false} FullStays(out: seq<seq<string>>, files: seq<string>, seconds: string -> real, workers: nat)
    requires workers >= 1 && FilledTo(out, |out|, seconds) && Timed(files, seconds)
    ensures NoneEmpty(PutAll(out, files, seconds, workers))
    decreases |files|
  {
    if files == [] {
      FilledNoneEmpty(out, |out|, seconds);
    } else {
      FullStays(Put(out, files[0], seconds, workers), files[1..], seconds, workers);
    }
  }

  /** The first file of no time, and the files after it. */
  lemma TrailingEnough(out: seq<seq<string>>, k: nat, files: seq<string>, seconds: string -> real, workers: nat)
    requires workers >= 1 && FilledTo(out, k, seconds) && k < |out| && files != [] && Idling(files, seconds)
    ensures NoneEmpty(PutAll(out, files, seconds, workers)) <==> Enough(|out|, k, files, seconds)
  {
    PutIdle(out, k, files[0], seconds, workers);
    FillNext(out, k, files[0], seconds);
    NoPositive(files, seconds);
    PutTrailing(out[k := [files[0]]], k, files[1..], seconds, workers);
    TrailingNoneEmpty(PutAll(out[k := [files[0]]], files[1..], seconds, workers), k, seconds);
  }

  lemma {:induction false} GreedyFills(out: seq<seq<string>>, k: nat, files: seq<string>, seconds: string -> real,
                                       workers: nat)
    requires workers >= 1 && FilledTo(out, k, seconds) && Timed(files, seconds) && Descending(files, seconds)
    ensures NoneEmpty(PutAll(out, files, seconds, workers)) <==> Enough(|out|, k, files, seconds)
    decreases |files|
  {
    if files == [] {
      FilledNoneEmpty(out, k, seconds);
    } else if k == |out| {
      EnoughNext(|out|, k, files, seconds);
      FullStays(out, files, seconds, workers);
    } else if seconds(files[0]) > 0.0 {
      PutIdle(out, k, files[0], seconds, workers);
      FillNext(out, k, files[0], seconds);
      GreedyFills(out[k := [files[0]]], k + 1, files[1..], seconds, workers);
      EnoughNext(|out|, k, files, seconds);
    } else {
      DescendingIdle(files, seconds);
      TrailingEnough(out, k, files, seconds, workers);
    }
  }

  lemma DescendingIdle(files: seq<string>, seconds: string -> real)
    requires files != [] && Timed(files, seconds) && Descending(files, seconds) && seconds(files[0]) <= 0.0
    ensures Idling(files, seconds)
  {
    forall f | f in files
      ensures seconds(f) == 0.0
    {
      var i :| 0 <= i < |files| && files[i] == f;
      assert seconds(files[0]) >= seconds(files[i]);
    }
  }

  lemma KnownTotal(files: seq<string>, durations: map<string, real>)
    requires forall f :: f in files && f in durations ==> 0.0 <= durations[f]
    ensures Timed(files, SecondsOf(files, durations))
  {
    var known := Known(files, durations);
    KnownIn(files, durations);
    LoadedTotal(known, Lookup(durations, 0.0));
  }

  lemma {:induction false} KnownIn(files: seq<string>, durations: map<string, real>)
    ensures forall f :: f in Known(files, durations) <==> f in files && f in durations
  {
    if files != [] {
      KnownIn(files[1..], durations);
      assert files == [files[0]] + files[1..];
    }
  }

  lemma OrderDescends(files: seq<string>, durations: map<string, real>, collate: (string, string) -> bool)
    requires TotalOrder(collate)
    ensures Descending(Order(files, durations, collate), SecondsOf(files, durations))
  {
    SortSorted(LongestFirst(SecondsOf(files, durations), collate), files);
  }

  lemma SortedNoneEmpty(out: seq<seq<string>>)
    ensures NoneEmpty(SortedParts(out)) <==> NoneEmpty(out)
  {
    forall i | 0 <= i < |out|
      ensures SortedParts(out)[i] != [] <==> out[i] != []
    {
      SortMembers(TextLe, out[i]);
    }
  }

  lemma OrderSame(files: seq<string>, durations: map<string, real>, collate: (string, string) -> bool)
    requires TotalOrder(collate) && Timed(files, SecondsOf(files, durations))
    ensures var seconds, order := SecondsOf(files, durations), Order(files, durations, collate);
            && Timed(order, seconds) && Descending(order, seconds)
            && |order| == |files| && PositiveCount(order, seconds) == PositiveCount(files, seconds)
  {
    var seconds := SecondsOf(files, durations);
    SortMembers(LongestFirst(seconds, collate), files);
    PositiveSort(LongestFirst(seconds, collate), files, seconds);
    OrderDescends(files, durations, collate);
  }

  lemma CutFills(files: seq<string>, durations: map<string, real>, parts: nat, workers: nat,
                 collate: (string, string) -> bool)
    requires workers >= 1 && TotalOrder(collate) && Timed(files, SecondsOf(files, durations))
    ensures NoneEmpty(Cut(files, durations, parts, workers, collate))
            <==> Enough(parts, 0, files, SecondsOf(files, durations))
  {
    OrderSame(files, durations, collate);
    GreedyFills(EmptyParts(parts), 0, Order(files, durations, collate), SecondsOf(files, durations), workers);
  }

  /**
   * When the greedy leaves no part empty: exactly when there are as many files as parts, and all of
   * them but one at most can be given a file that takes some time.
   */
  lemma {:induction false} NoPartEmpty(files: seq<string>, durations: map<string, real>, parts: nat, workers: nat,
                                       collate: (string, string) -> bool)
    requires workers >= 1 && TotalOrder(collate)
    requires forall f :: f in files && f in durations ==> 0.0 <= durations[f]
    ensures NoneEmpty(Parts(files, durations, parts, workers, collate))
            <==> parts <= |files| && parts - 1 <= PositiveCount(files, SecondsOf(files, durations))
  {
    KnownTotal(files, durations);
    CutFills(files, durations, parts, workers, collate);
    SortedNoneEmpty(Cut(files, durations, parts, workers, collate));
  }

  lemma {:induction false} AllPositive(files: seq<string>, seconds: string -> real)
    requires forall f :: f in files ==> 0.0 < seconds(f)
    ensures PositiveCount(files, seconds) == |files|
  {
    if files != [] {
      AllPositive(files[1..], seconds);
    }
  }

  /** With durations above zero, one file for each part is all it takes. */
  lemma NoPartEmptyWhenPositive(files: seq<string>, durations: map<string, real>, parts: nat, workers: nat,
                                collate: (string, string) -> bool)
    requires workers >= 1 && TotalOrder(collate)
    requires forall f :: f in files && f in durations ==> 0.0 < durations[f]
    ensures NoneEmpty(Parts(files, durations, parts, workers, collate)) <==> parts <= |files|
  {
    var known := Known(files, durations);
    KnownIn(files, durations);
    LoadedTotal(known, Lookup(durations, 0.0));
    if known != [] {
      assert known[0] in known;
      assert Loaded(known, Lookup(durations, 0.0));
    }
    AllPositive(files, SecondsOf(files, durations));
    NoPartEmpty(files, durations, parts, workers, collate);
  }

  // ---- The part that grows least --------------------------------------------------------------

  /** The part a file goes to grows by no more than any other would. */
  ghost predicate GrowsLeast(out: seq<seq<string>>, file: string, seconds: string -> real, workers: nat)
    requires workers >= 1 && out != []
  {
    var best := BestOf(KeysOf(out, file, seconds, workers));
    forall k :: 0 <= k < |out| ==> Growth(out[best], file, seconds, workers) <= Growth(out[k], file, seconds, workers)
  }

  /** The parts when the turn of the file `i` comes, longest first. */
  function CutBefore(files: seq<string>, durations: map<string, real>, parts: nat, workers: nat,
                     collate: (string, string) -> bool, i: nat): (r: seq<seq<string>>)
    requires workers >= 1 && i < |Order(files, durations, collate)|
    ensures |r| == parts
  {
    PutAll(EmptyParts(parts), Order(files, durations, collate)[..i], SecondsOf(files, durations), workers)
  }

  /** Every file of the cut goes where the time grows least. */
  ghost predicate CutGrowsLeast(files: seq<string>, durations: map<string, real>, parts: nat, workers: nat,
                                collate: (string, string) -> bool)
    requires workers >= 1 && parts >= 1
  {
    forall i :: 0 <= i < |Order(files, durations, collate)| ==>
      GrowsLeast(CutBefore(files, durations, parts, workers, collate, i), Order(files, durations, collate)[i],
                 SecondsOf(files, durations), workers)
  }

  /** With one worker, any part grows by the time of the file. */
  lemma OneWorkerGrowth(part: seq<string>, file: string, seconds: string -> real)
    ensures Growth(part, file, seconds, 1) == seconds(file)
  {
    OneWorker(Times(Sort(TextLe, part), seconds));
    OneWorker(Times(Sort(TextLe, part + [file]), seconds));
    TotalSort(TextLe, part, seconds);
    TotalSort(TextLe, part + [file], seconds);
    TotalAppend(part, file, seconds);
  }

  lemma SameGrowth(one: seq<string>, other: seq<string>, file: string, seconds: string -> real)
    ensures Growth(one, file, seconds, 1) == Growth(other, file, seconds, 1)
  {
    OneWorkerGrowth(one, file, seconds);
    OneWorkerGrowth(other, file, seconds);
  }

  lemma {:induction false} GrowsAlike(out: seq<seq<string>>, file: string, seconds: string -> real, workers: nat)
    requires workers >= 1 && out != [] && (workers == 1 || |out| == 1)
    ensures GrowsLeast(out, file, seconds, workers)
  {
    var best := BestOf(KeysOf(out, file, seconds, workers));
    if workers == 1 {
      forall k | 0 <= k < |out|
        ensures Growth(out[best], file, seconds, 1) <= Growth(out[k], file, seconds, 1)
      {
        SameGrowth(out[best], out[k], file, seconds);
      }
    }
  }

  lemma Pair(collate: (string, string) -> bool) returns (files: seq<string>, durations: map<string, real>)
    ensures forall f :: f in durations ==> 0.0 <= durations[f]
    ensures SecondsOf(files, durations)("a") == 2.0 && SecondsOf(files, durations)("b") == 1.0
    ensures Order(files, durations, collate) == ["a", "b"]
  {
    files, durations := ["a", "b"], map["a" := 2.0, "b" := 1.0];
    var le := LongestFirst(SecondsOf(files, durations), collate);
    assert files[1..] == ["b"] && ["b"][1..] == [];
    assert Sort(le, ["b"]) == Insert(le, "b", []);
    assert le("a", "b");
  }

  lemma PairTime(seconds: string -> real, workers: nat)
    requires workers >= 2 && 0.0 <= seconds("b") <= seconds("a")
    ensures Growth(["a"], "b", seconds, workers) == 0.0
  {
    assert ["a"] + ["b"] == ["a", "b"] && ["a", "b"][1..] == ["b"] && ["b"][1..] == [];
    assert TextLe("a", "b");
    assert Sort(TextLe, ["a", "b"]) == ["a", "b"];
    assert Times(["a", "b"], seconds) == [seconds("a"), seconds("b")];
    ShorterSecond(seconds("a"), seconds("b"), workers);
    PartTimeAlone("a", seconds, workers);
  }

  /** `a` of 2 s takes the first part. */
  lemma {:induction false} FirstOfPair(files: seq<string>, durations: map<string, real>, parts: nat, workers: nat,
                                       collate: (string, string) -> bool)
    requires parts >= 2 && workers >= 1 && Order(files, durations, collate) == ["a", "b"]
    requires SecondsOf(files, durations)("a") == 2.0
    ensures var out := CutBefore(files, durations, parts, workers, collate, 1);
            out == EmptyParts(parts)[0 := ["a"]] && FilledTo(out, 1, SecondsOf(files, durations))
  {
    var seconds := SecondsOf(files, durations);
    assert ["a", "b"][..1] == ["a"] && ["a"][1..] == [];
    PutIdle(EmptyParts(parts), 0, "a", seconds, workers);
    FillNext(EmptyParts(parts), 0, "a", seconds);
  }

  /** `b` of 1 s then takes the empty part, where the time grows by 1 s, and not the first, where it grows by 0. */
  lemma {:induction false} SecondOfPair(out: seq<seq<string>>, seconds: string -> real, workers: nat)
    requires workers >= 2 && |out| >= 2 && out == EmptyParts(|out|)[0 := ["a"]] && FilledTo(out, 1, seconds)
    requires seconds("a") == 2.0 && seconds("b") == 1.0
    ensures var best := BestOf(KeysOf(out, "b", seconds, workers));
            && best == 1 && out[best] == [] && Growth(out[best], "b", seconds, workers) == 1.0
            && out[0] == ["a"] && Growth(out[0], "b", seconds, workers) == 0.0
  {
    BestIsFirstIdle(out, 1, "b", seconds, workers);
    PairTime(seconds, workers);
    PartTimeZero([], seconds, workers);
    assert [] + ["b"] == ["b"];
    PartTimeAlone("b", seconds, workers);
  }

  /** Two files, `a` and `b`: the second goes where the time grows by 1 s, and not where it grows by 0. */
  lemma {:induction false} PutWhereItGrowsMore(parts: nat, workers: nat, collate: (string, string) -> bool)
    returns (files: seq<string>, durations: map<string, real>)
    requires parts >= 2 && workers >= 2
    ensures forall f :: f in durations ==> 0.0 <= durations[f]
    ensures Order(files, durations, collate) == ["a", "b"]
    ensures var seconds := SecondsOf(files, durations);
            var out := CutBefore(files, durations, parts, workers, collate, 1);
            var best := BestOf(KeysOf(out, "b", seconds, workers));
            && best == 1 && out[best] == [] && Growth(out[best], "b", seconds, workers) == 1.0
            && out[0] == ["a"] && Growth(out[0], "b", seconds, workers) == 0.0
  {
    files, durations := Pair(collate);
    FirstOfPair(files, durations, parts, workers, collate);
    SecondOfPair(CutBefore(files, durations, parts, workers, collate, 1), SecondsOf(files, durations), workers);
  }

  /** Over every suite with durations that are not negative. */
  ghost predicate EveryCutGrowsLeast(parts: nat, workers: nat, collate: (string, string) -> bool)
    requires parts >= 1 && workers >= 1
  {
    forall files: seq<string>, durations: map<string, real> :: (forall f :: f in durations ==> 0.0 <= durations[f]) ==>
      CutGrowsLeast(files, durations, parts, workers, collate)
  }

  lemma {:induction false} PairSpoils(parts: nat, workers: nat, collate: (string, string) -> bool)
    requires parts >= 2 && workers >= 2
    ensures !EveryCutGrowsLeast(parts, workers, collate)
  {
    var files, durations := PutWhereItGrowsMore(parts, workers, collate);
    assert !GrowsLeast(CutBefore(files, durations, parts, workers, collate, 1), "b", SecondsOf(files, durations),
                       workers);
    assert !CutGrowsLeast(files, durations, parts, workers, collate);
  }

  lemma {:induction false} CutGrowsAlike(files: seq<string>, durations: map<string, real>, parts: nat, workers: nat,
                                         collate: (string, string) -> bool)
    requires parts >= 1 && workers >= 1 && (workers == 1 || parts == 1)
    ensures CutGrowsLeast(files, durations, parts, workers, collate)
  {
    var order := Order(files, durations, collate);
    forall i | 0 <= i < |order|
      ensures GrowsLeast(CutBefore(files, durations, parts, workers, collate, i), order[i],
                         SecondsOf(files, durations), workers)
    {
      GrowsAlike(CutBefore(files, durations, parts, workers, collate, i), order[i], SecondsOf(files, durations),
                 workers);
    }
  }

  lemma {:induction false} AlikeEverywhere(parts: nat, workers: nat, collate: (string, string) -> bool)
    requires parts >= 1 && workers >= 1 && (workers == 1 || parts == 1)
    ensures EveryCutGrowsLeast(parts, workers, collate)
  {
    forall files: seq<string>, durations: map<string, real>
      ensures CutGrowsLeast(files, durations, parts, workers, collate)
    {
      CutGrowsAlike(files, durations, parts, workers, collate);
    }
  }

  /** Over every suite, the greedy adds each file where the time grows least exactly with one worker, or one part. */
  lemma {:induction false} LeastGrowthExactly(parts: nat, workers: nat, collate: (string, string) -> bool)
    requires parts >= 1 && workers >= 1
    ensures EveryCutGrowsLeast(parts, workers, collate) <==> workers == 1 || parts == 1
  {
    if workers == 1 || parts == 1 {
      AlikeEverywhere(parts, workers, collate);
    } else {
      PairSpoils(parts, workers, collate);
    }
  }

  // ---- The time of the whole suite ------------------------------------------------------------

  function GrandTotal(out: seq<seq<string>>, seconds: string -> real): real {
    if out == [] then 0.0 else Total(out[0], seconds) + GrandTotal(out[1..], seconds)
  }

  lemma {:induction false} GrandTotalUpdate(out: seq<seq<string>>, k: nat, file: string, seconds: string -> real)
    requires k < |out|
    ensures GrandTotal(out[k := out[k] + [file]], seconds) == GrandTotal(out, seconds) + seconds(file)
  {
    var next := out[k := out[k] + [file]];
    TotalAppend(out[k], file, seconds);
    if k == 0 {
      assert next[1..] == out[1..];
    } else {
      assert next[1..] == out[1..][k - 1 := out[k] + [file]];
      GrandTotalUpdate(out[1..], k - 1, file, seconds);
    }
  }

  /** Some part holds the mean of the parts at most. */
  lemma {:induction false} LightestPart(out: seq<seq<string>>, seconds: string -> real) returns (k: nat)
    requires out != []
    ensures k < |out| && Scaled(|out|, Total(out[k], seconds)) <= GrandTotal(out, seconds)
    ensures forall i :: 0 <= i < |out| ==> Total(out[k], seconds) <= Total(out[i], seconds)
  {
    if |out| == 1 {
      k := 0;
      assert out[1..] == [];
      assert Scaled(1, Total(out[0], seconds)) == Total(out[0], seconds) + Scaled(0, Total(out[0], seconds));
    } else {
      var rest := LightestPart(out[1..], seconds);
      k := if Total(out[0], seconds) <= Total(out[1..][rest], seconds) then 0 else rest + 1;
      ScaledMonotone(|out| - 1, Total(out[k], seconds), Total(out[1..][rest], seconds));
    }
  }

  lemma {:induction false} ScaledMonotone(n: nat, x: real, y: real)
    requires x <= y
    ensures Scaled(n, x) <= Scaled(n, y)
  {
    if n > 0 {
      ScaledMonotone(n - 1, x, y);
    }
  }

  lemma {:induction false} ScaledAdd(n: nat, x: real, y: real)
    ensures Scaled(n, x + y) == Scaled(n, x) + Scaled(n, y)
  {
    if n > 0 {
      ScaledAdd(n - 1, x, y);
    }
  }

  lemma {:induction false} ScaledSplit(m: nat, n: nat, x: real)
    ensures Scaled(m + n, x) == Scaled(m, x) + Scaled(n, x)
  {
    if m > 0 {
      ScaledSplit(m - 1, n, x);
    }
  }

  lemma {:induction false} ScaledTwice(m: nat, n: nat, x: real)
    ensures Scaled(m, Scaled(n, x)) == Scaled(m * n, x)
  {
    if m > 0 {
      ScaledTwice(m - 1, n, x);
      ScaledSplit(n, (m - 1) * n, x);
      assert m * n == n + (m - 1) * n;
    }
  }

  /** Each part is within one longest file of the mean of all the workers of all the parts. */
  ghost predicate Level(out: seq<seq<string>>, seconds: string -> real, workers: nat, all: nat, longest: real)
    requires workers >= 1 && all >= 1
  {
    forall i :: 0 <= i < |out| ==> LevelAt(out[i], seconds, workers, all, longest, GrandTotal(out, seconds))
  }

  lemma LevelArithmetic(p: nat, w: nat, all: nat, time: real, lightest: real, file: real, longest: real, grand: real)
    requires p >= 1 && w >= 1 && all == p * w && file <= longest
    requires Scaled(w, time) <= lightest + file + Scaled(w - 1, longest)
    requires Scaled(p, lightest) <= grand
    ensures all >= 1 && Scaled(all, time) <= grand + file + Scaled(all - 1, longest)
  {
    ScaledMonotone(p, Scaled(w, time), lightest + file + Scaled(w - 1, longest));
    ScaledTwice(p, w, time);
    ScaledAdd(p, lightest + file, Scaled(w - 1, longest));
    ScaledAdd(p, lightest, file);
    ScaledTwice(p, w - 1, longest);
    ScaledMonotone(p - 1, file, longest);
    ScaledSplit(p - 1, p * (w - 1), longest);
    assert p - 1 + p * (w - 1) == p * w - 1;
  }

  /** The part a file goes to ends no later than the lightest part would. */
  lemma {:induction false} BestTime(out: seq<seq<string>>, k: nat, file: string, seconds: string -> real, workers: nat)
    requires workers >= 1 && k < |out|
    ensures var best := BestOf(KeysOf(out, file, seconds, workers));
            PartTime(out[best] + [file], seconds, workers) <= PartTime(out[k] + [file], seconds, workers)
  {
    var keys := KeysOf(out, file, seconds, workers);
    BestIsFirstLeast(keys);
    KeysAt(out, file, seconds, workers, k);
    KeysAt(out, file, seconds, workers, BestOf(keys));
    assert !KeyLess(keys[k], keys[BestOf(keys)]);
  }

  lemma AddedTime(part: seq<string>, file: string, seconds: string -> real, workers: nat, longest: real)
    requires workers >= 1 && 0.0 <= seconds(file) <= longest
    requires Timed(part, seconds) && WithinLongest(part, seconds, longest)
    ensures Scaled(workers, PartTime(part + [file], seconds, workers))
         <= Total(part, seconds) + seconds(file) + Scaled(workers - 1, longest)
  {
    PartTimeBounds(part + [file], seconds, workers, longest);
    TotalAppend(part, file, seconds);
  }

  lemma {:induction false} PutTime(out: seq<seq<string>>, file: string, seconds: string -> real, workers: nat,
                                   all: nat, longest: real)
    requires workers >= 1 && out != [] && all == |out| * workers && 0.0 <= seconds(file) <= longest
    requires forall i :: 0 <= i < |out| ==> Timed(out[i], seconds) && WithinLongest(out[i], seconds, longest)
    ensures var best := BestOf(KeysOf(out, file, seconds, workers));
            && all >= 1
            && Scaled(all, PartTime(out[best] + [file], seconds, workers))
               <= GrandTotal(out, seconds) + seconds(file) + Scaled(all - 1, longest)
  {
    var best := BestOf(KeysOf(out, file, seconds, workers));
    var k := LightestPart(out, seconds);
    BestTime(out, k, file, seconds, workers);
    AddedTime(out[k], file, seconds, workers, longest);
    var time := PartTime(out[best] + [file], seconds, workers);
    ScaledMonotone(workers, time, PartTime(out[k] + [file], seconds, workers));
    LevelArithmetic(|out|, workers, all, time, Total(out[k], seconds), seconds(file), longest,
                    GrandTotal(out, seconds));
  }

  ghost predicate LevelAt(files: seq<string>, seconds: string -> real, workers: nat, all: nat, longest: real,
                          grand: real)
    requires workers >= 1 && all >= 1
  {
    && Timed(files, seconds) && WithinLongest(files, seconds, longest)
    && Scaled(all, PartTime(files, seconds, workers)) <= grand + Scaled(all - 1, longest)
  }

  lemma {:induction false} LevelUpdate(out: seq<seq<string>>, k: nat, file: string, seconds: string -> real,
                                       workers: nat, all: nat, longest: real)
    requires workers >= 1 && all >= 1 && k < |out| && 0.0 <= seconds(file) <= longest
    requires Level(out, seconds, workers, all, longest)
    requires Scaled(all, PartTime(out[k] + [file], seconds, workers))
          <= GrandTotal(out, seconds) + seconds(file) + Scaled(all - 1, longest)
    ensures Level(out[k := out[k] + [file]], seconds, workers, all, longest)
  {
    var next := out[k := out[k] + [file]];
    GrandTotalUpdate(out, k, file, seconds);
    forall i | 0 <= i < |next|
      ensures LevelAt(next[i], seconds, workers, all, longest, GrandTotal(next, seconds))
    {
      if i == k {
        assert next[i] == out[k] + [file];
        assert LevelAt(out[k], seconds, workers, all, longest, GrandTotal(out, seconds));
      } else {
        assert next[i] == out[i];
        assert LevelAt(out[i], seconds, workers, all, longest, GrandTotal(out, seconds));
      }
    }
  }

  lemma {:induction false} PutLevel(out: seq<seq<string>>, file: string, seconds: string -> real, workers: nat,
                                    all: nat, longest: real)
    requires workers >= 1 && out != [] && all == |out| * workers && all >= 1
    requires Level(out, seconds, workers, all, longest) && 0.0 <= seconds(file) <= longest
    ensures Level(Put(out, file, seconds, workers), seconds, workers, all, longest)
  {
    var best := BestOf(KeysOf(out, file, seconds, workers));
    PutTime(out, file, seconds, workers, all, longest);
    LevelUpdate(out, best, file, seconds, workers, all, longest);
  }

  lemma PutTotal(out: seq<seq<string>>, file: string, seconds: string -> real, workers: nat)
    requires workers >= 1 && out != []
    ensures GrandTotal(Put(out, file, seconds, workers), seconds) == GrandTotal(out, seconds) + seconds(file)
  {
    GrandTotalUpdate(out, BestOf(KeysOf(out, file, seconds, workers)), file, seconds);
  }

  lemma {:induction false} PutAllTotal(out: seq<seq<string>>, files: seq<string>, seconds: string -> real,
                                       workers: nat)
    requires workers >= 1 && out != []
    ensures GrandTotal(PutAll(out, files, seconds, workers), seconds)
         == GrandTotal(out, seconds) + Total(files, seconds)
    decreases |files|
  {
    if files != [] {
      var first, rest := files[0], files[1..];
      PutTotal(out, first, seconds, workers);
      var next := Put(out, first, seconds, workers);
      PutAllTotal(next, rest, seconds, workers);
      assert Total(files, seconds) == seconds(first) + Total(rest, seconds) by {
        assert files == [first] + rest;
        TotalCons(first, rest, seconds);
      }
    }
  }

  lemma {:induction false} PutAllLevel(out: seq<seq<string>>, files: seq<string>, seconds: string -> real,
                                       workers: nat, all: nat, longest: real)
    requires workers >= 1 && out != [] && all == |out| * workers && all >= 1
    requires Level(out, seconds, workers, all, longest)
    requires Timed(files, seconds) && WithinLongest(files, seconds, longest)
    ensures Level(PutAll(out, files, seconds, workers), seconds, workers, all, longest)
    decreases |files|
  {
    if files != [] {
      PutLevel(out, files[0], seconds, workers, all, longest);
      PutAllLevel(Put(out, files[0], seconds, workers), files[1..], seconds, workers, all, longest);
    }
  }

  lemma {:induction false} EmptyGrandTotal(out: seq<seq<string>>, seconds: string -> real)
    requires forall i :: 0 <= i < |out| ==> out[i] == []
    ensures GrandTotal(out, seconds) == 0.0
  {
    if out != [] {
      EmptyGrandTotal(out[1..], seconds);
    }
  }

  lemma EmptyLevel(parts: nat, seconds: string -> real, workers: nat, all: nat, longest: real)
    requires workers >= 1 && all >= 1 && 0.0 <= longest
    ensures Level(EmptyParts(parts), seconds, workers, all, longest)
  {
    EmptyGrandTotal(EmptyParts(parts), seconds);
    PartTimeZero([], seconds, workers);
    ScaledZero(all);
    ScaledMonotone(all - 1, 0.0, longest);
    ScaledZero(all - 1);
  }

  lemma {:induction false} ScaledZero(n: nat)
    ensures Scaled(n, 0.0) == 0.0
  {
    if n > 0 {
      ScaledZero(n - 1);
    }
  }

  lemma {:induction false} SortedPartTime(part: seq<string>, seconds: string -> real, workers: nat)
    requires workers >= 1
    ensures PartTime(Sort(TextLe, part), seconds, workers) == PartTime(part, seconds, workers)
  {
    TextOrder();
    SortOrderFree(TextLe, Sort(TextLe, part), part);
  }

  /** The cut before any comparison: no part passes the mean of all the workers by one longest file. */
  lemma {:induction false} CutLevel(files: seq<string>, durations: map<string, real>, parts: nat, workers: nat,
                                    all: nat, collate: (string, string) -> bool, longest: real)
    requires workers >= 1 && parts >= 1 && all == parts * workers && all >= 1 && 0.0 <= longest
    requires Timed(files, SecondsOf(files, durations)) && WithinLongest(files, SecondsOf(files, durations), longest)
    ensures var out := Cut(files, durations, parts, workers, collate);
            && Level(out, SecondsOf(files, durations), workers, all, longest)
            && GrandTotal(out, SecondsOf(files, durations)) == Total(files, SecondsOf(files, durations))
  {
    var seconds := SecondsOf(files, durations);
    SortMembers(LongestFirst(seconds, collate), files);
    TotalSort(LongestFirst(seconds, collate), files, seconds);
    EmptyLevel(parts, seconds, workers, all, longest);
    EmptyGrandTotal(EmptyParts(parts), seconds);
    PutAllLevel(EmptyParts(parts), Order(files, durations, collate), seconds, workers, all, longest);
    PutAllTotal(EmptyParts(parts), Order(files, durations, collate), seconds, workers);
  }

  lemma {:induction false} PartWithinMean(files: seq<string>, durations: map<string, real>, parts: nat, workers: nat,
                                          all: nat, collate: (string, string) -> bool, longest: real, i: nat)
    requires workers >= 1 && i < parts && all == parts * workers && all >= 1 && 0.0 <= longest
    requires Timed(files, SecondsOf(files, durations)) && WithinLongest(files, SecondsOf(files, durations), longest)
    ensures var seconds := SecondsOf(files, durations);
            Scaled(all, PartTime(Parts(files, durations, parts, workers, collate)[i], seconds, workers))
            <= Total(files, seconds) + Scaled(all - 1, longest)
  {
    CutLevel(files, durations, parts, workers, all, collate, longest);
    LevelOfSorted(Cut(files, durations, parts, workers, collate), SecondsOf(files, durations), workers, all, longest,
                  i);
  }

  lemma {:induction false} LevelOfSorted(out: seq<seq<string>>, seconds: string -> real, workers: nat, all: nat,
                                         longest: real, i: nat)
    requires workers >= 1 && all >= 1 && i < |out| && Level(out, seconds, workers, all, longest)
    ensures Scaled(all, PartTime(SortedParts(out)[i], seconds, workers))
         <= GrandTotal(out, seconds) + Scaled(all - 1, longest)
  {
    assert LevelAt(out[i], seconds, workers, all, longest, GrandTotal(out, seconds));
    SortedPartTime(out[i], seconds, workers);
  }

  // ---- Parts that end together ----------------------------------------------------------------

  /** No part ends more than one longest file after another. */
  ghost predicate Together(out: seq<seq<string>>, seconds: string -> real, workers: nat, longest: real)
    requires workers >= 1
  {
    && (forall i :: 0 <= i < |out| ==> Timed(out[i], seconds))
    && forall i, k :: 0 <= i < |out| && 0 <= k < |out| ==>
         PartTime(out[i], seconds, workers) <= PartTime(out[k], seconds, workers) + longest
  }

  lemma {:induction false} WithinOthers(out: seq<seq<string>>, k: nat, file: string, seconds: string -> real,
                                        workers: nat)
    requires workers >= 1 && k < |out| && Timed(out[k], seconds) && 0.0 <= seconds(file)
    ensures var best := BestOf(KeysOf(out, file, seconds, workers));
            PartTime(out[best] + [file], seconds, workers) <= PartTime(out[k], seconds, workers) + seconds(file)
  {
    BestTime(out, k, file, seconds, workers);
    AddingNeverLowers(out[k], file, seconds, workers);
  }

  lemma {:induction false} TogetherUpdate(out: seq<seq<string>>, b: nat, part: seq<string>, seconds: string -> real,
                                          workers: nat, longest: real)
    requires workers >= 1 && b < |out| && 0.0 <= longest && Together(out, seconds, workers, longest)
    requires Timed(part, seconds) && PartTime(out[b], seconds, workers) <= PartTime(part, seconds, workers)
    requires forall k :: 0 <= k < |out| ==>
               PartTime(part, seconds, workers) <= PartTime(out[k], seconds, workers) + longest
    ensures Together(out[b := part], seconds, workers, longest)
  {
  }

  lemma {:induction false} PutTogether(out: seq<seq<string>>, file: string, seconds: string -> real, workers: nat,
                                       longest: real)
    requires workers >= 1 && out != [] && 0.0 <= seconds(file) <= longest
    requires Together(out, seconds, workers, longest)
    ensures Together(Put(out, file, seconds, workers), seconds, workers, longest)
  {
    var best := BestOf(KeysOf(out, file, seconds, workers));
    var part := out[best] + [file];
    AddingNeverLowers(out[best], file, seconds, workers);
    forall k | 0 <= k < |out|
      ensures PartTime(part, seconds, workers) <= PartTime(out[k], seconds, workers) + longest
    {
      WithinOthers(out, k, file, seconds, workers);
    }
    TogetherUpdate(out, best, part, seconds, workers, longest);
  }

  lemma {:induction false} PutAllTogether(out: seq<seq<string>>, files: seq<string>, seconds: string -> real,
                                          workers: nat, longest: real)
    requires workers >= 1 && out != [] && Together(out, seconds, workers, longest)
    requires Timed(files, seconds) && WithinLongest(files, seconds, longest)
    ensures Together(PutAll(out, files, seconds, workers), seconds, workers, longest)
    decreases |files|
  {
    if files != [] {
      PutTogether(out, files[0], seconds, workers, longest);
      PutAllTogether(Put(out, files[0], seconds, workers), files[1..], seconds, workers, longest);
    }
  }

  lemma {:induction false} CutTogether(files: seq<string>, durations: map<string, real>, parts: nat, workers: nat,
                                       collate: (string, string) -> bool, longest: real)
    requires workers >= 1 && parts >= 1 && 0.0 <= longest
    requires Timed(files, SecondsOf(files, durations)) && WithinLongest(files, SecondsOf(files, durations), longest)
    ensures Together(Cut(files, durations, parts, workers, collate), SecondsOf(files, durations), workers, longest)
  {
    SortMembers(LongestFirst(SecondsOf(files, durations), collate), files);
    PutAllTogether(EmptyParts(parts), Order(files, durations, collate), SecondsOf(files, durations), workers, longest);
  }

  /** Each part of the cut ends within one longest file of every other. */
  lemma {:induction false} PartsEndTogether(files: seq<string>, durations: map<string, real>, parts: nat, workers: nat,
                                            collate: (string, string) -> bool, longest: real, i: nat, k: nat)
    requires workers >= 1 && i < parts && k < parts && 0.0 <= longest
    requires forall f :: f in files && f in durations ==> 0.0 <= durations[f]
    requires WithinLongest(files, SecondsOf(files, durations), longest)
    ensures var out, seconds := Parts(files, durations, parts, workers, collate), SecondsOf(files, durations);
            PartTime(out[i], seconds, workers) <= PartTime(out[k], seconds, workers) + longest
  {
    KnownTotal(files, durations);
    CutTogether(files, durations, parts, workers, collate, longest);
    SortedPartTime(Cut(files, durations, parts, workers, collate)[i], SecondsOf(files, durations), workers);
    SortedPartTime(Cut(files, durations, parts, workers, collate)[k], SecondsOf(files, durations), workers);
  }

  // ---- The suite against any other schedule ---------------------------------------------------

  lemma AnyCovers(files: seq<string>, seconds: string -> real, all: nat, chosen: seq<nat>, best: real)
    requires all >= 1 && Timed(files, seconds) && Assignment(chosen, |files|, all)
    requires best == AssignedTime(Times(files, seconds), all, chosen)
    ensures 0.0 <= best && WithinLongest(files, seconds, best)
  {
    AssignedLongest(Times(files, seconds), all, chosen);
  }

  /** As a ratio, for a time that stands for the one of a part. */
  lemma SuiteRatio(files: seq<string>, seconds: string -> real, all: nat, chosen: seq<nat>, time: real, best: real)
    requires all >= 1 && Timed(files, seconds) && Assignment(chosen, |files|, all)
    requires best == AssignedTime(Times(files, seconds), all, chosen)
    requires Scaled(all, time) <= Total(files, seconds) + Scaled(all - 1, best)
    ensures time <= (2.0 - 1.0 / all as real) * best
  {
    RatioToAny(time, Times(files, seconds), all, chosen);
  }

  /**
   * The cut is a schedule of the whole suite on `all = parts * workers` workers, and keeps Graham's
   * bound there: no part takes more than 2 - 1/all times `best`, the busiest worker of any other way
   * to give the files to that many workers. `chosen[i]` is the worker that way gives `files[i]`.
   */
  lemma SuiteApproximation(files: seq<string>, durations: map<string, real>, parts: nat, workers: nat, all: nat,
                           collate: (string, string) -> bool, chosen: seq<nat>, best: real, i: nat)
    requires workers >= 1 && i < parts && all == parts * workers && all >= 1
    requires forall f :: f in files && f in durations ==> 0.0 <= durations[f]
    requires Assignment(chosen, |files|, all)
    requires best == AssignedTime(Times(files, SecondsOf(files, durations)), all, chosen)
    ensures PartTime(Parts(files, durations, parts, workers, collate)[i], SecondsOf(files, durations), workers)
         <= (2.0 - 1.0 / all as real) * best
  {
    var seconds := SecondsOf(files, durations);
    KnownTotal(files, durations);
    AnyCovers(files, seconds, all, chosen, best);
    PartWithinMean(files, durations, parts, workers, all, collate, best, i);
    SuiteRatio(files, seconds, all, chosen,
               PartTime(Parts(files, durations, parts, workers, collate)[i], seconds, workers), best);
  }
}
