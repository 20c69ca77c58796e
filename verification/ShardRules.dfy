/**
 * The cut by its rules: what a file counts for, how a part hands its files out, and where each file
 * goes, for whatever order, choice among equals and bookkeeping keep those rules.
 */
module ShardRules {
  import opened Ordering
  import opened ListScheduling
  import opened Shards
  import opened ShardProperties

  // ---- The seconds of a file ------------------------------------------------------------------

  /** The listed files whose durations are known, each as often as it is listed, in any order. */
  ghost predicate ListsKnown(known: seq<string>, files: seq<string>, durations: map<string, real>) {
    forall f: string :: multiset(known)[f] == if f in durations then multiset(files)[f] else 0
  }

  lemma KnownAlike(known: seq<string>, files: seq<string>, durations: map<string, real>)
    requires ListsKnown(known, files, durations)
    ensures multiset(known) == multiset(Known(files, durations)) && |known| == |Known(files, durations)|
  {
    var other := Known(files, durations);
    forall f: string
      ensures multiset(known)[f] == multiset(other)[f]
    {
      KnownCounts(files, durations, f);
    }
    assert multiset(known) == multiset(other);
    assert |multiset(known)| == |known| && |multiset(other)| == |other|;
  }

  lemma {:induction false} KnownTotalIs(known: seq<string>, files: seq<string>, durations: map<string, real>,
                                        amounts: seq<real>)
    requires ListsKnown(known, files, durations) && |amounts| == |known|
    requires forall i :: 0 <= i < |known| ==> known[i] in durations && amounts[i] == durations[known[i]]
    ensures |known| == |Known(files, durations)|
    ensures Sum(amounts) == Total(Known(files, durations), Lookup(durations, 0.0))
  {
    KnownAlike(known, files, durations);
    TotalPermuted(known, Known(files, durations), Lookup(durations, 0.0));
    assert Times(known, Lookup(durations, 0.0)) == amounts;
  }

  lemma SecondsSplit(files: seq<string>, durations: map<string, real>, f: string)
    ensures SecondsOf(files, durations)(f) == if f in durations then durations[f] else Mean(files, durations)
  {
  }

  lemma Quotient(total: real, count: nat)
    requires count > 0
    ensures count as real * (total / count as real) == total
  {
  }

  lemma {:induction false} MeanTimes(files: seq<string>, durations: map<string, real>, count: nat, total: real)
    requires count == |Known(files, durations)| && total == Total(Known(files, durations), Lookup(durations, 0.0))
    ensures count == 0 ==> Mean(files, durations) == 1.0
    ensures count > 0 ==> count as real * Mean(files, durations) == total
  {
    if count > 0 {
      Quotient(total, count);
    }
  }

  lemma {:induction false} SecondsOfOthers(files: seq<string>, durations: map<string, real>, f: string, count: nat,
                                           total: real)
    requires f !in durations && count == |Known(files, durations)|
    requires total == Total(Known(files, durations), Lookup(durations, 0.0))
    ensures count == 0 ==> SecondsOf(files, durations)(f) == 1.0
    ensures count > 0 ==> count as real * SecondsOf(files, durations)(f) == total
  {
    SecondsSplit(files, durations, f);
    MeanTimes(files, durations, count, total);
  }

  /**
   * A file that was measured counts for its duration. Any other one counts for as much as a measured
   * one on average, or for a second when none of the listed files was measured. `amounts`: what the
   * `known` files took.
   */
  lemma {:induction false} SecondsMean(files: seq<string>, durations: map<string, real>, f: string,
                                       known: seq<string>, amounts: seq<real>, count: nat)
    requires ListsKnown(known, files, durations) && |amounts| == |known| == count
    requires forall i :: 0 <= i < |known| ==> known[i] in durations && amounts[i] == durations[known[i]]
    ensures f in durations ==> SecondsOf(files, durations)(f) == durations[f]
    ensures f !in durations && count == 0 ==> SecondsOf(files, durations)(f) == 1.0
    ensures f !in durations && count > 0 ==> count as real * SecondsOf(files, durations)(f) == Sum(amounts)
  {
    SecondsSplit(files, durations, f);
    KnownTotalIs(known, files, durations, amounts);
    if f !in durations {
      SecondsOfOthers(files, durations, f, count, Sum(amounts));
    }
  }

  // ---- The time of a part ---------------------------------------------------------------------

  /**
   * The files by their paths, the first path first, each to a worker that is least busy then: the part
   * ends when the busiest of those workers does. `chosen[k]` is the worker of `sorted[k]`.
   */
  lemma {:induction false} PartTimeIsHandedOut(files: seq<string>, seconds: string -> real, workers: nat,
                                               sorted: seq<string>, chosen: seq<nat>)
    requires workers >= 1 && multiset(sorted) == multiset(files) && Sorted(TextLe, sorted)
    requires HandedOut(Times(sorted, seconds), workers, chosen)
    ensures PartTime(files, seconds, workers) == AssignedTime(Times(sorted, seconds), workers, chosen)
  {
    TextOrder();
    SortIs(TextLe, files, sorted);
    AnyLeastBusy(Times(sorted, seconds), workers, chosen);
  }

  /** A part can be handed out that way. */
  lemma {:induction false} PartHandOut(files: seq<string>, seconds: string -> real, workers: nat)
    returns (sorted: seq<string>, chosen: seq<nat>)
    requires workers >= 1
    ensures multiset(sorted) == multiset(files) && Sorted(TextLe, sorted)
    ensures HandedOut(Times(sorted, seconds), workers, chosen)
  {
    TextOrder();
    SortSorted(TextLe, files);
    sorted := Sort(TextLe, files);
    chosen := SomeHandOut(Times(sorted, seconds), workers);
  }

  // ---- The cut --------------------------------------------------------------------------------

  /** Every file of the suite, the longest first, and files of one length by their names. */
  ghost predicate LongestComeFirst(order: seq<string>, files: seq<string>, seconds: string -> real,
                                   collate: (string, string) -> bool)
  {
    && multiset(order) == multiset(files)
    && forall i, j :: 0 <= i < j < |order| ==>
         seconds(order[i]) > seconds(order[j])
         || (seconds(order[i]) == seconds(order[j]) && collate(order[i], order[j]))
  }

  /**
   * The part `p` ends first with the file; among those that do it holds the least without it; among
   * those that do it is the first.
   */
  ghost predicate Picked(out: seq<seq<string>>, file: string, p: nat, seconds: string -> real, workers: nat)
    requires workers >= 1
  {
    && p < |out|
    && forall j :: 0 <= j < |out| ==> NotBetter(out[j], j, out[p], p, file, seconds, workers)
  }

  ghost predicate NotBetter(other: seq<string>, j: nat, part: seq<string>, p: nat, file: string,
                            seconds: string -> real, workers: nat)
    requires workers >= 1
  {
    var otherTime, time := PartTime(other + [file], seconds, workers), PartTime(part + [file], seconds, workers);
    || time < otherTime
    || (time == otherTime && Total(part, seconds) < Total(other, seconds))
    || (time == otherTime && Total(part, seconds) == Total(other, seconds) && p <= j)
  }

  lemma {:induction false} PickedIsBest(out: seq<seq<string>>, file: string, p: nat, seconds: string -> real,
                                        workers: nat)
    requires workers >= 1 && Picked(out, file, p, seconds, workers)
    ensures p == BestOf(KeysOf(out, file, seconds, workers))
  {
    var keys := KeysOf(out, file, seconds, workers);
    forall j | 0 <= j < |keys|
      ensures !KeyLess(keys[j], keys[p]) && (j < p ==> KeyLess(keys[p], keys[j]))
    {
      KeysAt(out, file, seconds, workers, j);
      KeysAt(out, file, seconds, workers, p);
      assert NotBetter(out[j], j, out[p], p, file, seconds, workers);
    }
    BestIsFirstLeast(keys);
    FirstLeastUnique(keys, |keys|, p, BestOf(keys));
  }

  /** One file after another, each put in the part that is picked for it then. */
  ghost predicate Follows(states: seq<seq<seq<string>>>, order: seq<string>, places: seq<nat>,
                          seconds: string -> real, workers: nat)
    requires workers >= 1
  {
    && |states| == |order| + 1 && |places| == |order|
    && forall k :: 0 <= k < |order| ==>
         && Picked(states[k], order[k], places[k], seconds, workers)
         && states[k + 1] == states[k][places[k] := states[k][places[k]] + [order[k]]]
  }

  lemma {:induction false} FirstPut(out: seq<seq<string>>, next: seq<seq<string>>, file: string, p: nat,
                                    seconds: string -> real, workers: nat)
    requires workers >= 1 && Picked(out, file, p, seconds, workers) && next == out[p := out[p] + [file]]
    ensures next == Put(out, file, seconds, workers)
  {
    PickedIsBest(out, file, p, seconds, workers);
  }

  lemma {:induction false} FollowsPut(states: seq<seq<seq<string>>>, order: seq<string>, places: seq<nat>,
                                      seconds: string -> real, workers: nat)
    requires workers >= 1 && Follows(states, order, places, seconds, workers)
    ensures states[|order|] == PutAll(states[0], order, seconds, workers)
    decreases |order|
  {
    if order != [] {
      FirstPut(states[0], states[1], order[0], places[0], seconds, workers);
      FollowsLater(states, order, places, seconds, workers);
      FollowsPut(states[1..], order[1..], places[1..], seconds, workers);
    }
  }

  lemma {:induction false} FollowsLater(states: seq<seq<seq<string>>>, order: seq<string>, places: seq<nat>,
                                        seconds: string -> real, workers: nat)
    requires workers >= 1 && order != [] && Follows(states, order, places, seconds, workers)
    ensures Follows(states[1..], order[1..], places[1..], seconds, workers)
  {
    forall k | 0 <= k < |order| - 1
      ensures Picked(states[1..][k], order[1..][k], places[1..][k], seconds, workers)
      ensures states[1..][k + 1] == states[1..][k][places[1..][k] := states[1..][k][places[1..][k]] + [order[1..][k]]]
    {
      assert Picked(states[k + 1], order[k + 1], places[k + 1], seconds, workers);
    }
  }

  lemma {:induction false} OrderIs(files: seq<string>, durations: map<string, real>,
                                   collate: (string, string) -> bool, order: seq<string>)
    requires TotalOrder(collate) && LongestComeFirst(order, files, SecondsOf(files, durations), collate)
    ensures Order(files, durations, collate) == order
  {
    var le := LongestFirst(SecondsOf(files, durations), collate);
    assert Preorder(le) && Untied(le, order) && Sorted(le, order);
    SortIs(le, files, order);
  }

  /**
   * However the files are walked, the longest first, and put one after another where they are picked
   * for, from parts with nothing in them: those parts, each by its paths, are the cut.
   */
  lemma {:induction false} PartsFollowTheRule(files: seq<string>, durations: map<string, real>, parts: nat,
                                              workers: nat, collate: (string, string) -> bool, order: seq<string>,
                                              states: seq<seq<seq<string>>>, places: seq<nat>)
    requires workers >= 1 && TotalOrder(collate)
    requires LongestComeFirst(order, files, SecondsOf(files, durations), collate)
    requires Follows(states, order, places, SecondsOf(files, durations), workers)
    requires |states[0]| == parts && forall i :: 0 <= i < parts ==> states[0][i] == []
    ensures var out := Parts(files, durations, parts, workers, collate);
            && |out| == |states[|order|]| == parts
            && forall i :: 0 <= i < parts ==>
                 multiset(out[i]) == multiset(states[|order|][i]) && Sorted(TextLe, out[i])
  {
    OrderIs(files, durations, collate, order);
    assert states[0] == EmptyParts(parts);
    FollowsPut(states, order, places, SecondsOf(files, durations), workers);
    TextOrder();
    forall i | 0 <= i < parts
      ensures Sorted(TextLe, Parts(files, durations, parts, workers, collate)[i])
    {
      SortSorted(TextLe, states[|order|][i]);
    }
  }
}
