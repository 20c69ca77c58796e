/**
 * What a mutation run costs, when each mutant runs the test files that reach it, in their order, and
 * stops at the first that fails; and what the run costs with fewer test files. Times are exact reals.
 */
module MutationCost {
  import opened Options

  datatype Status = Killed | Timeout | Survived | NoCoverage | Other

  datatype Mutant = Mutant(
    status: Status,
    coveredBy: Option<seq<string>>,
    killedBy: Option<seq<string>>,
    testsCompleted: Option<nat>)

  /** `None` for the mean of no mutant at all. */
  datatype Cost = Cost(mutants: nat, reached: Option<real>, ran: Option<real>, dryRun: nat, seconds: Option<Seconds>)

  datatype Seconds = Seconds(mutants: real, timeouts: real, dryRun: real)

  function Reach(m: Mutant): seq<string> {
    match m.coveredBy case Some(ids) => ids case None => []
  }

  /** The test that failed first, if the report names one. */
  function KillerOf(m: Mutant): Option<string> {
    if m.status == Killed && m.killedBy != None && m.killedBy.value != [] then Some(m.killedBy.value[0]) else None
  }

  /** The name that is looked up in the tests that ran: the empty one when the report names none. */
  function KillerName(m: Mutant): string {
    if m.killedBy != None && m.killedBy.value != [] then m.killedBy.value[0] else ""
  }

  function IndexOf(s: seq<string>, x: string): (k: int)
    ensures k == -1 <==> x !in s
    ensures -1 <= k < |s| && (k >= 0 ==> s[k] == x && forall i :: 0 <= i < k ==> s[i] != x)
  {
    if s == [] then -1
    else if s[0] == x then 0
    else
      var rest := IndexOf(s[1..], x);
      assert s == [s[0]] + s[1..];
      if rest == -1 then -1 else rest + 1
  }

  /** Whether a report gives a mutant another count of tests than its tests and its killer do. */
  predicate Disagrees(m: Mutant) {
    if m.status == Killed then
      var place: nat := IndexOf(Reach(m), KillerName(m)) + 1;
      m.testsCompleted != Some(place)
    else if m.status == Survived then m.testsCompleted != Some(|Reach(m)|)
    else false
  }

  function Inconsistent(mutants: seq<Mutant>): (r: seq<Mutant>)
    ensures forall m :: m in r <==> m in mutants && Disagrees(m)
  {
    if mutants == [] then []
    else
      assert mutants == [mutants[0]] + mutants[1..];
      (if Disagrees(mutants[0]) then [mutants[0]] else []) + Inconsistent(mutants[1..])
  }

  function Filter(ids: seq<string>, keep: set<string>): (r: seq<string>)
    ensures |r| <= |ids| && forall id :: id in r <==> id in ids && id in keep
  {
    if ids == [] then []
    else
      assert ids == [ids[0]] + ids[1..];
      (if ids[0] in keep then [ids[0]] else []) + Filter(ids[1..], keep)
  }

  function Kept(ids: seq<string>, keep: Option<set<string>>): seq<string> {
    match keep case None => ids case Some(tests) => Filter(ids, tests)
  }

  /** The tests up to one, and it; all of them when it is not there. */
  function UpTo(ids: seq<string>, name: string): seq<string> {
    if ids == [] || ids[0] == name then ids[..if ids == [] then 0 else 1] else [ids[0]] + UpTo(ids[1..], name)
  }

  lemma {:induction false} UpToIndex(ids: seq<string>, name: string)
    ensures UpTo(ids, name) == if name in ids then ids[..IndexOf(ids, name) + 1] else ids
  {
    if ids != [] && ids[0] != name {
      UpToIndex(ids[1..], name);
      assert ids == [ids[0]] + ids[1..];
      if name in ids {
        var k := IndexOf(ids[1..], name);
        assert ids[..k + 2] == [ids[0]] + ids[1..][..k + 1];
      }
    }
  }

  /** Of the tests that reach a mutant, those it runs: a killed one stops at its killer. */
  function UpToKiller(m: Mutant, reach: seq<string>): seq<string> {
    if m.status == Killed then UpTo(reach, KillerName(m)) else reach
  }

  function RunOf(m: Mutant, keep: Option<set<string>>): seq<string> {
    UpToKiller(m, Kept(Reach(m), keep))
  }

  method TestsRun(m: Mutant, reach: seq<string>) returns (run: seq<string>)
    ensures run == UpToKiller(m, reach)
  {
    UpToIndex(reach, KillerName(m));
    var killer := if m.status == Killed then IndexOf(reach, KillerName(m)) else -1;
    run := if killer >= 0 then reach[..killer + 1] else reach;
  }

  function Net(ids: seq<string>, time: string -> real): real {
    if ids == [] then 0.0 else time(ids[0]) + Net(ids[1..], time)
  }

  /** The time to start the processes of so many tests. */
  function Starts(overhead: real, count: nat): real {
    if count == 0 then 0.0 else overhead + Starts(overhead, count - 1)
  }

  /** As many starts as that take so many times the overhead. */
  lemma {:induction false} StartsProduct(overhead: real, count: nat)
    ensures Starts(overhead, count) == overhead * count as real
  {
    if count > 0 {
      StartsProduct(overhead, count - 1);
    }
  }

  function TimeoutSeconds(reach: seq<string>, dryRun: nat, time: string -> real, overhead: real): real {
    1.5 * Net(reach, time) + 5.0 + Starts(overhead, dryRun)
  }

  function RunSeconds(run: seq<string>, time: string -> real, overhead: real): real {
    Net(run, time) + Starts(overhead, |run|)
  }

  /** The time of a run, with one start for each of its tests. */
  method SecondsOf(run: seq<string>, net: string -> real, overhead: real) returns (seconds: real)
    ensures seconds == RunSeconds(run, net, overhead)
  {
    StartsProduct(overhead, |run|);
    seconds := Net(run, net) + overhead * |run| as real;
  }

  /** What a mutant that times out takes: its limit, and the starts of the dry run. */
  method LimitOf(reach: seq<string>, dryRun: nat, net: string -> real, overhead: real) returns (seconds: real)
    ensures seconds == TimeoutSeconds(reach, dryRun, net, overhead)
  {
    StartsProduct(overhead, dryRun);
    seconds := 1.5 * Net(reach, net) + 5.0 + overhead * dryRun as real;
  }

  function TotalReached(mutants: seq<Mutant>, keep: Option<set<string>>): nat {
    if mutants == [] then 0 else |Kept(Reach(mutants[0]), keep)| + TotalReached(mutants[1..], keep)
  }

  function TotalRan(mutants: seq<Mutant>, keep: Option<set<string>>): nat {
    if mutants == [] then 0 else |RunOf(mutants[0], keep)| + TotalRan(mutants[1..], keep)
  }

  function TotalSeconds(mutants: seq<Mutant>, keep: Option<set<string>>, time: string -> real, overhead: real): real {
    if mutants == [] then 0.0
    else
      (if mutants[0].status == Timeout then 0.0 else RunSeconds(RunOf(mutants[0], keep), time, overhead))
      + TotalSeconds(mutants[1..], keep, time, overhead)
  }

  function TotalTimeouts(mutants: seq<Mutant>, keep: Option<set<string>>, dryRun: nat, time: string -> real,
                         overhead: real): real {
    if mutants == [] then 0.0
    else
      (if mutants[0].status == Timeout then TimeoutSeconds(Kept(Reach(mutants[0]), keep), dryRun, time, overhead)
       else 0.0)
      + TotalTimeouts(mutants[1..], keep, dryRun, time, overhead)
  }

  function Mean(total: nat, count: nat): Option<real> {
    if count == 0 then None else Some(total as real / count as real)
  }

  function NoTime(): string -> real {
    _ => 0.0
  }

  function Costs(mutants: seq<Mutant>, allTests: seq<string>, keep: Option<set<string>>,
                 time: Option<string -> real>, overhead: real): Cost {
    var dryRun := Kept(allTests, keep);
    Cost(|mutants|, Mean(TotalReached(mutants, keep), |mutants|), Mean(TotalRan(mutants, keep), |mutants|), |dryRun|,
         match time
         case None => None
         case Some(net) =>
           Some(Seconds(TotalSeconds(mutants, keep, net, overhead),
                        TotalTimeouts(mutants, keep, |dryRun|, net, overhead),
                        RunSeconds(dryRun, net, overhead))))
  }

  lemma TotalsNext(mutants: seq<Mutant>, i: nat, keep: Option<set<string>>, dryRun: nat, time: string -> real,
                   overhead: real)
    requires i < |mutants|
    ensures TotalReached(mutants[i..], keep) == |Kept(Reach(mutants[i]), keep)| + TotalReached(mutants[i + 1..], keep)
    ensures TotalRan(mutants[i..], keep) == |RunOf(mutants[i], keep)| + TotalRan(mutants[i + 1..], keep)
    ensures TotalSeconds(mutants[i..], keep, time, overhead)
         == (if mutants[i].status == Timeout then 0.0 else RunSeconds(RunOf(mutants[i], keep), time, overhead))
            + TotalSeconds(mutants[i + 1..], keep, time, overhead)
    ensures TotalTimeouts(mutants[i..], keep, dryRun, time, overhead)
         == (if mutants[i].status == Timeout
             then TimeoutSeconds(Kept(Reach(mutants[i]), keep), dryRun, time, overhead) else 0.0)
            + TotalTimeouts(mutants[i + 1..], keep, dryRun, time, overhead)
  {
    assert mutants[i..][0] == mutants[i] && mutants[i..][1..] == mutants[i + 1..];
  }

  /** The loop over the mutants. */
  method SumsOf(mutants: seq<Mutant>, keep: Option<set<string>>, dryRun: nat, net: string -> real, overhead: real)
    returns (reached: nat, ran: nat, mutantSeconds: real, timeoutSeconds: real)
    ensures reached == TotalReached(mutants, keep) && ran == TotalRan(mutants, keep)
    ensures mutantSeconds == TotalSeconds(mutants, keep, net, overhead)
    ensures timeoutSeconds == TotalTimeouts(mutants, keep, dryRun, net, overhead)
  {
    reached, ran, mutantSeconds, timeoutSeconds := 0, 0, 0.0, 0.0;
    assert mutants[0..] == mutants;
    for i := 0 to |mutants|
      invariant reached + TotalReached(mutants[i..], keep) == TotalReached(mutants, keep)
      invariant ran + TotalRan(mutants[i..], keep) == TotalRan(mutants, keep)
      invariant mutantSeconds + TotalSeconds(mutants[i..], keep, net, overhead)
             == TotalSeconds(mutants, keep, net, overhead)
      invariant timeoutSeconds + TotalTimeouts(mutants[i..], keep, dryRun, net, overhead)
             == TotalTimeouts(mutants, keep, dryRun, net, overhead)
    {
      var mutant := mutants[i];
      TotalsNext(mutants, i, keep, dryRun, net, overhead);
      var reach := Kept(Reach(mutant), keep);
      reached := reached + |reach|;
      if mutant.status == Timeout {
        ran := ran + |reach|;
        var limit := LimitOf(reach, dryRun, net, overhead);
        timeoutSeconds := timeoutSeconds + limit;
        continue;
      }
      var run := TestsRun(mutant, reach);
      ran := ran + |run|;
      var seconds := SecondsOf(run, net, overhead);
      mutantSeconds := mutantSeconds + seconds;
    }
  }

  method CostOf(mutants: seq<Mutant>, allTests: seq<string>, keep: Option<set<string>>,
                time: Option<string -> real>, overhead: real) returns (cost: Cost)
    ensures cost == Costs(mutants, allTests, keep, time, overhead)
  {
    var dryRunTests := Kept(allTests, keep);
    var net := match time case Some(each) => each case None => NoTime();
    var reached, ran, mutantSeconds, timeoutSeconds := SumsOf(mutants, keep, |dryRunTests|, net, overhead);
    var dryRunSeconds := SecondsOf(dryRunTests, net, overhead);
    var seconds := if time == None then None else Some(Seconds(mutantSeconds, timeoutSeconds, dryRunSeconds));
    cost := Cost(|mutants|, Mean(reached, |mutants|), Mean(ran, |mutants|), |dryRunTests|, seconds);
  }

  /** How many mutants a test killed first. */
  function KilledFirst(mutants: seq<Mutant>, test: string): nat {
    if mutants == [] then 0 else (if KillerOf(mutants[0]) == Some(test) then 1 else 0) + KilledFirst(mutants[1..], test)
  }

  lemma {:induction false} KilledFirstNext(mutants: seq<Mutant>, m: Mutant, test: string)
    ensures KilledFirst(mutants + [m], test)
         == KilledFirst(mutants, test) + (if KillerOf(m) == Some(test) then 1 else 0)
  {
    if mutants == [] {
      assert mutants + [m] == [m];
    } else {
      assert (mutants + [m])[1..] == mutants[1..] + [m];
      KilledFirstNext(mutants[1..], m, test);
    }
  }

  method Killers(mutants: seq<Mutant>) returns (count: map<string, nat>)
    ensures forall t :: t in count <==> KilledFirst(mutants, t) > 0
    ensures forall t :: t in count ==> count[t] == KilledFirst(mutants, t)
  {
    count := map[];
    for i := 0 to |mutants|
      invariant forall t :: t in count <==> KilledFirst(mutants[..i], t) > 0
      invariant forall t :: t in count ==> count[t] == KilledFirst(mutants[..i], t)
    {
      assert mutants[..i + 1] == mutants[..i] + [mutants[i]];
      forall t
        ensures KilledFirst(mutants[..i + 1], t)
             == KilledFirst(mutants[..i], t) + (if KillerOf(mutants[i]) == Some(t) then 1 else 0)
      {
        KilledFirstNext(mutants[..i], mutants[i], t);
      }
      match KillerOf(mutants[i])
      case None =>
      case Some(killer) => count := count[killer := (if killer in count then count[killer] else 0) + 1];
    }
    assert mutants[..|mutants|] == mutants;
  }

  // ---- Fewer test files -----------------------------------------------------------------------

  /** The kept tests still hold the test a killed mutant stops at. */
  ghost predicate KeepsKiller(m: Mutant, keep: set<string>) {
    m.status == Killed && KillerName(m) in Reach(m) ==> KillerName(m) in keep
  }

  lemma {:induction false} UpToFiltered(ids: seq<string>, name: string, keep: set<string>)
    requires name in ids ==> name in keep
    ensures UpTo(Filter(ids, keep), name) == Filter(UpTo(ids, name), keep)
  {
    if ids != [] {
      var rest := Filter(ids[1..], keep);
      if ids[0] == name {
        assert Filter(ids, keep) == [name] + rest;
        assert ids[..1] == [name] && [name][1..] == [];
        assert Filter([name], keep) == [name];
      } else {
        UpToFiltered(ids[1..], name, keep);
        var upTo := UpTo(ids[1..], name);
        assert ([ids[0]] + upTo)[1..] == upTo;
        if ids[0] in keep {
          assert ([ids[0]] + rest)[1..] == rest;
        } else {
          assert [] + rest == rest && [] + Filter(upTo, keep) == Filter(upTo, keep);
        }
      }
    }
  }

  /** The filter commutes with the stop: with its killer kept, a mutant runs the kept tests of those it ran. */
  lemma PrunedRun(m: Mutant, keep: set<string>)
    requires KeepsKiller(m, keep)
    ensures RunOf(m, Some(keep)) == Filter(RunOf(m, None), keep)
  {
    if m.status == Killed {
      UpToFiltered(Reach(m), KillerName(m), keep);
    }
  }

  /** A killed mutant still ends on the test that killed it. */
  lemma PrunedEndsOnKiller(m: Mutant, keep: set<string>)
    requires m.status == Killed && KillerName(m) in Reach(m) && KillerName(m) in keep
    ensures var before, after := RunOf(m, None), RunOf(m, Some(keep));
            before != [] && after != [] && before[|before| - 1] == after[|after| - 1] == KillerName(m)
  {
    UpToIndex(Reach(m), KillerName(m));
    UpToIndex(Filter(Reach(m), keep), KillerName(m));
  }

  lemma {:induction false} NetFiltered(ids: seq<string>, keep: set<string>, time: string -> real)
    requires forall id :: id in ids ==> 0.0 <= time(id)
    ensures Net(Filter(ids, keep), time) <= Net(ids, time)
  {
    if ids != [] {
      NetFiltered(ids[1..], keep, time);
      var rest := Filter(ids[1..], keep);
      assert ([ids[0]] + rest)[1..] == rest;
      assert [] + rest == rest;
    }
  }

  lemma {:induction false} StartsMonotone(overhead: real, fewer: nat, more: nat)
    requires 0.0 <= overhead && fewer <= more
    ensures 0.0 <= Starts(overhead, fewer) <= Starts(overhead, more)
  {
    if fewer < more {
      StartsMonotone(overhead, fewer, more - 1);
    } else if fewer > 0 {
      StartsMonotone(overhead, fewer - 1, more - 1);
    }
  }

  ghost predicate Timed(time: string -> real) {
    forall id :: 0.0 <= time(id)
  }

  lemma RunSecondsFiltered(ids: seq<string>, keep: set<string>, time: string -> real, overhead: real)
    requires 0.0 <= overhead && Timed(time)
    ensures RunSeconds(Filter(ids, keep), time, overhead) <= RunSeconds(ids, time, overhead)
  {
    NetFiltered(ids, keep, time);
    StartsMonotone(overhead, |Filter(ids, keep)|, |ids|);
  }

  lemma TimeoutFiltered(reach: seq<string>, keep: set<string>, fewer: nat, more: nat, time: string -> real,
                        overhead: real)
    requires 0.0 <= overhead && Timed(time) && fewer <= more
    ensures TimeoutSeconds(Filter(reach, keep), fewer, time, overhead) <= TimeoutSeconds(reach, more, time, overhead)
  {
    NetFiltered(reach, keep, time);
    StartsMonotone(overhead, fewer, more);
  }

  ghost predicate AllKeepKiller(mutants: seq<Mutant>, keep: set<string>) {
    forall i :: 0 <= i < |mutants| ==> KeepsKiller(mutants[i], keep)
  }

  lemma {:induction false} CountsPruned(mutants: seq<Mutant>, keep: set<string>)
    requires AllKeepKiller(mutants, keep)
    ensures TotalReached(mutants, Some(keep)) <= TotalReached(mutants, None)
    ensures TotalRan(mutants, Some(keep)) <= TotalRan(mutants, None)
  {
    if mutants != [] {
      PrunedRun(mutants[0], keep);
      CountsPruned(mutants[1..], keep);
    }
  }

  lemma {:induction false} SecondsPruned(mutants: seq<Mutant>, keep: set<string>, fewer: nat, more: nat,
                                         time: string -> real, overhead: real)
    requires AllKeepKiller(mutants, keep) && 0.0 <= overhead && Timed(time) && fewer <= more
    ensures TotalSeconds(mutants, Some(keep), time, overhead) <= TotalSeconds(mutants, None, time, overhead)
    ensures TotalTimeouts(mutants, Some(keep), fewer, time, overhead)
         <= TotalTimeouts(mutants, None, more, time, overhead)
  {
    if mutants != [] {
      PrunedRun(mutants[0], keep);
      RunSecondsFiltered(RunOf(mutants[0], None), keep, time, overhead);
      TimeoutFiltered(Reach(mutants[0]), keep, fewer, more, time, overhead);
      SecondsPruned(mutants[1..], keep, fewer, more, time, overhead);
    }
  }

  lemma MeanMonotone(fewer: nat, more: nat, count: nat)
    requires fewer <= more && count > 0
    ensures Mean(fewer, count).value <= Mean(more, count).value
  {
  }

  /** No figure of the second cost is above the one of the first. */
  ghost predicate NotDearer(before: Cost, after: Cost) {
    && after.mutants == before.mutants
    && (before.mutants > 0 ==>
          && before.reached != None && after.reached != None && after.reached.value <= before.reached.value
          && before.ran != None && after.ran != None && after.ran.value <= before.ran.value)
    && after.dryRun <= before.dryRun
    && (before.seconds != None ==>
          && after.seconds != None
          && after.seconds.value.mutants <= before.seconds.value.mutants
          && after.seconds.value.timeouts <= before.seconds.value.timeouts
          && after.seconds.value.dryRun <= before.seconds.value.dryRun)
  }

  /** Fewer test files cost no more, while the killers of the mutants are kept. */
  lemma PruningIsNotDearer(mutants: seq<Mutant>, allTests: seq<string>, keep: set<string>,
                           time: Option<string -> real>, overhead: real)
    requires AllKeepKiller(mutants, keep) && 0.0 <= overhead && (time != None ==> Timed(time.value))
    ensures NotDearer(Costs(mutants, allTests, None, time, overhead),
                      Costs(mutants, allTests, Some(keep), time, overhead))
  {
    CountsPruned(mutants, keep);
    if mutants != [] {
      MeanMonotone(TotalReached(mutants, Some(keep)), TotalReached(mutants, None), |mutants|);
      MeanMonotone(TotalRan(mutants, Some(keep)), TotalRan(mutants, None), |mutants|);
    }
    if time != None {
      SecondsPruned(mutants, keep, |Filter(allTests, keep)|, |allTests|, time.value, overhead);
      RunSecondsFiltered(allTests, keep, time.value, overhead);
    }
  }

  // ---- The killers as the kept tests ----------------------------------------------------------

  /** The tests that killed a mutant of the report first: what the report can be cut down to. */
  ghost predicate AreKillers(mutants: seq<Mutant>, keep: set<string>) {
    forall t :: t in keep <==> KilledFirst(mutants, t) > 0
  }

  /** A killed mutant whose report names no killer reaches no test with the empty name. */
  predicate Named(m: Mutant) {
    m.status == Killed && KillerOf(m) == None ==> "" !in Reach(m)
  }

  lemma {:induction false} KillsCount(mutants: seq<Mutant>, i: nat)
    requires i < |mutants| && KillerOf(mutants[i]) != None
    ensures KilledFirst(mutants, KillerOf(mutants[i]).value) > 0
  {
    if i > 0 {
      KillsCount(mutants[1..], i - 1);
    }
  }

  /** Cut down to the killers of the file, the run of a report that names its killers costs no more. */
  lemma {:induction false} KillersAreNotDearer(mutants: seq<Mutant>, allTests: seq<string>, keep: set<string>,
                                               time: Option<string -> real>, overhead: real)
    requires 0.0 <= overhead && (time != None ==> Timed(time.value))
    requires AreKillers(mutants, keep)
    requires forall i :: 0 <= i < |mutants| ==> Named(mutants[i])
    ensures NotDearer(Costs(mutants, allTests, None, time, overhead),
                      Costs(mutants, allTests, Some(keep), time, overhead))
    ensures forall i :: 0 <= i < |mutants| ==> RunOf(mutants[i], Some(keep)) == Filter(RunOf(mutants[i], None), keep)
  {
    forall i | 0 <= i < |mutants|
      ensures KeepsKiller(mutants[i], keep)
    {
      if KillerOf(mutants[i]) != None {
        KillsCount(mutants, i);
      }
    }
    PruningIsNotDearer(mutants, allTests, keep, time, overhead);
    forall i | 0 <= i < |mutants|
      ensures RunOf(mutants[i], Some(keep)) == Filter(RunOf(mutants[i], None), keep)
    {
      PrunedRun(mutants[i], keep);
    }
  }

  lemma {:induction false} OthersKept(ids: seq<string>, name: string, others: set<string>)
    requires forall id :: id in ids ==> (id in others <==> id != name)
    ensures |Filter(ids, others)| == |ids| - multiset(ids)[name]
  {
    if ids != [] {
      OthersKept(ids[1..], name, others);
      assert ids == [ids[0]] + ids[1..];
    }
  }

  /**
   * A killed mutant stops at the first test that has the name of its killer, the empty name when its
   * report names none: no choice of tests makes it run more, even one without the killer, exactly when
   * the tests of another name are no more than those up to that place.
   */
  lemma NeverDearerExactly(m: Mutant)
    requires m.status == Killed && KillerName(m) in Reach(m)
    ensures (forall keep :: |RunOf(m, Some(keep))| <= |RunOf(m, None)|)
            <==> |Reach(m)| - multiset(Reach(m))[KillerName(m)] <= IndexOf(Reach(m), KillerName(m)) + 1
  {
    var killer := KillerName(m);
    var others := set id | id in Reach(m) && id != killer;
    OthersKept(Reach(m), killer, others);
    UpToIndex(Reach(m), killer);
    UpToIndex(Filter(Reach(m), others), killer);
    assert RunOf(m, Some(others)) == Filter(Reach(m), others);
    if |Filter(Reach(m), others)| <= |RunOf(m, None)| {
      forall keep
        ensures |RunOf(m, Some(keep))| <= |RunOf(m, None)|
      {
        if killer in keep {
          PrunedRun(m, keep);
        } else {
          UpToIndex(Filter(Reach(m), keep), killer);
          FilterFewer(Reach(m), keep, others);
        }
      }
    }
  }

  lemma {:induction false} FilterFewer(ids: seq<string>, few: set<string>, many: set<string>)
    requires forall id :: id in ids && id in few ==> id in many
    ensures |Filter(ids, few)| <= |Filter(ids, many)|
  {
    if ids != [] {
      FilterFewer(ids[1..], few, many);
    }
  }

  lemma {:induction false} KillerIsKept(mutants: seq<Mutant>, keep: set<string>, m: Mutant)
    requires m in mutants && AreKillers(mutants, keep) && m.status == Killed
    requires KillerOf(m) != None || "" !in Reach(m)
    ensures |RunOf(m, Some(keep))| <= |RunOf(m, None)|
  {
    if KillerOf(m) != None {
      var i :| 0 <= i < |mutants| && mutants[i] == m;
      KillsCount(mutants, i);
    }
    PrunedRun(m, keep);
  }

  /** One killed mutant for each test but the one with the empty name. */
  function OneForEach(ids: seq<string>): seq<Mutant> {
    if ids == [] then []
    else
      (if ids[0] == "" then [] else [Mutant(Killed, Some([ids[0]]), Some([ids[0]]), Some(1))]) + OneForEach(ids[1..])
  }

  lemma {:induction false} OneForEachKills(ids: seq<string>, test: string)
    ensures KilledFirst(OneForEach(ids), test) > 0 <==> test in ids && test != ""
  {
    if ids != [] {
      OneForEachKills(ids[1..], test);
      assert ids == [ids[0]] + ids[1..];
      if ids[0] == "" {
        assert OneForEach(ids) == OneForEach(ids[1..]);
      } else {
        assert OneForEach(ids)[1..] == OneForEach(ids[1..]);
      }
    }
  }

  /** A report where a mutant that names no killer runs every test but those with the empty name. */
  lemma WithoutTheEmptyName(m: Mutant) returns (mutants: seq<Mutant>, keep: set<string>)
    requires m.status == Killed && KillerOf(m) == None
    ensures m in mutants && AreKillers(mutants, keep)
    ensures |RunOf(m, Some(keep))| == |Reach(m)| - multiset(Reach(m))[""]
  {
    mutants := [m] + OneForEach(Reach(m));
    keep := set id | id in Reach(m) && id != "";
    assert mutants[1..] == OneForEach(Reach(m));
    forall t
      ensures t in keep <==> KilledFirst(mutants, t) > 0
    {
      OneForEachKills(Reach(m), t);
    }
    OthersKept(Reach(m), "", keep);
    UpToIndex(Filter(Reach(m), keep), "");
  }

  /**
   * A report cut down to its killers never makes a killed mutant run more, whatever the other mutants
   * are, exactly when it names its killer, or no test that reaches it has the empty name, or the tests
   * of another name are no more than those up to the first with the empty one.
   */
  lemma KillersNeverDearerExactly(m: Mutant)
    requires m.status == Killed
    ensures (forall mutants: seq<Mutant>, keep: set<string> :: m in mutants && AreKillers(mutants, keep) ==>
               |RunOf(m, Some(keep))| <= |RunOf(m, None)|)
            <==> || KillerOf(m) != None || "" !in Reach(m)
                 || |Reach(m)| - multiset(Reach(m))[""] <= IndexOf(Reach(m), "") + 1
  {
    if KillerOf(m) != None || "" !in Reach(m) {
      forall mutants: seq<Mutant>, keep: set<string> | m in mutants && AreKillers(mutants, keep)
        ensures |RunOf(m, Some(keep))| <= |RunOf(m, None)|
      {
        KillerIsKept(mutants, keep, m);
      }
    } else {
      NeverDearerExactly(m);
      var mutants, keep := WithoutTheEmptyName(m);
      UpToIndex(Reach(m), "");
    }
  }

  /** Such a report: pruned to its one killer, it runs more test files than before. */
  lemma UnnamedKillerIsDearer() returns (mutants: seq<Mutant>, keep: set<string>)
    ensures AreKillers(mutants, keep)
    ensures TotalRan(mutants, Some(keep)) > TotalRan(mutants, None)
  {
    mutants, keep := [UNNAMED, KILLING], {"a"};
    assert mutants[1..] == [KILLING] && [KILLING][1..] == [];
    forall t
      ensures KilledFirst(mutants, t) == if t == "a" then 1 else 0
    {
      assert KilledFirst([KILLING], t) == if t == "a" then 1 else 0;
    }
    UnnamedRuns(keep);
    RanOfOne(KILLING, Some(keep));
    RanOfOne(KILLING, None);
  }

  lemma RanOfOne(m: Mutant, keep: Option<set<string>>)
    ensures TotalRan([m], keep) == |RunOf(m, keep)|
  {
    assert [m][1..] == [];
  }

  const UNNAMED := Mutant(Killed, Some(["", "a", "a"]), None, Some(1))
  const KILLING := Mutant(Killed, Some(["a"]), Some(["a"]), Some(1))

  lemma UnnamedRuns(keep: set<string>)
    requires keep == {"a"}
    ensures |RunOf(UNNAMED, Some(keep))| == 2 && |RunOf(UNNAMED, None)| == 1
    ensures |RunOf(KILLING, Some(keep))| == 1 && |RunOf(KILLING, None)| == 1
  {
    assert Reach(UNNAMED)[1..] == ["a", "a"] && ["a", "a"][1..] == ["a"] && ["a"][1..] == [];
    assert Filter(["a"], keep) == ["a"];
    assert Filter(["a", "a"], keep) == ["a", "a"];
    assert Filter(Reach(UNNAMED), keep) == ["a", "a"];
  }

  // ---- The counts of the report ---------------------------------------------------------------

  /** The tests of a mutant as its report counts them, or all that reach it where the report does not say. */
  function Reported(m: Mutant): nat {
    if m.testsCompleted != None && (m.status == Survived || (m.status == Killed && KillerName(m) in Reach(m)))
    then m.testsCompleted.value else |Reach(m)|
  }

  function TotalReported(mutants: seq<Mutant>): nat {
    if mutants == [] then 0 else Reported(mutants[0]) + TotalReported(mutants[1..])
  }

  /** When no mutant disagrees, the tests that ran are those that the report counts. */
  lemma {:induction false} RanAsReported(mutants: seq<Mutant>)
    requires Inconsistent(mutants) == []
    ensures TotalRan(mutants, None) == TotalReported(mutants)
  {
    if mutants != [] {
      UpToIndex(Reach(mutants[0]), KillerName(mutants[0]));
      assert !Disagrees(mutants[0]);
      RanAsReported(mutants[1..]);
    }
  }

  // ---- What the figures are -------------------------------------------------------------------

  /** The kept tests, in their order, each as often. */
  lemma {:induction false} FilterInTurn(ids: seq<string>, id: string, keep: set<string>)
    ensures Filter([], keep) == []
    ensures Filter(ids + [id], keep) == Filter(ids, keep) + if id in keep then [id] else []
  {
    if ids == [] {
      assert ids + [id] == [id] && [id][1..] == [];
    } else {
      var rest := ids[1..];
      assert (ids + [id])[0] == ids[0] && (ids + [id])[1..] == rest + [id];
      FilterInTurn(rest, id, keep);
      var first := if ids[0] in keep then [ids[0]] else [];
      assert Filter(ids + [id], keep) == first + Filter(rest + [id], keep);
    }
  }

  lemma {:induction false} NetInTurn(ids: seq<string>, id: string, time: string -> real)
    ensures Net([], time) == 0.0 && Net(ids + [id], time) == Net(ids, time) + time(id)
  {
    if ids == [] {
      assert ids + [id] == [id] && [id][1..] == [];
    } else {
      assert (ids + [id])[1..] == ids[1..] + [id];
      NetInTurn(ids[1..], id, time);
    }
  }

  /** `run`: what a mutant runs of the tests `reach`, up to the first one that failed when it was killed. */
  ghost predicate Runs(m: Mutant, reach: seq<string>, run: seq<string>) {
    var killer := if m.killedBy != None && m.killedBy.value != [] then m.killedBy.value[0] else "";
    if m.status == Killed && killer in reach
    then && run <= reach && run != [] && run[|run| - 1] == killer && killer !in run[..|run| - 1]
    else run == reach
  }

  lemma {:induction false} RunIs(m: Mutant, reach: seq<string>, run: seq<string>)
    requires Runs(m, reach, run)
    ensures run == UpToKiller(m, reach)
  {
    var killer := KillerName(m);
    UpToIndex(reach, killer);
    if m.status == Killed && killer in reach {
      var k, n := IndexOf(reach, killer), |run| - 1;
      assert reach[n] == run[n] == killer;
      assert forall i :: 0 <= i < n ==> run[..n][i] == reach[i];
      assert k == n;
    }
  }

  /** A mutant runs some of the tests that reach it: there is such a run. */
  lemma {:induction false} SomeRun(m: Mutant, reach: seq<string>)
    ensures Runs(m, reach, UpToKiller(m, reach))
  {
    var killer := KillerName(m);
    UpToIndex(reach, killer);
    if m.status == Killed && killer in reach {
      var k := IndexOf(reach, killer);
      assert UpToKiller(m, reach) == reach[..k + 1];
      assert reach[..k + 1][..k] == reach[..k];
    }
  }

  /** What is said of one mutant: how many tests reach it and run, and how long that takes. */
  datatype Share = Share(reach: seq<string>, run: seq<string>, seconds: real, limit: real)

  function Sum(parts: seq<real>): real {
    if parts == [] then 0.0 else parts[0] + Sum(parts[1..])
  }

  function Count(parts: seq<nat>): nat {
    if parts == [] then 0 else parts[0] + Count(parts[1..])
  }

  ghost predicate IsShare(share: Share, m: Mutant, keep: Option<set<string>>, dryRun: nat, time: string -> real,
                          overhead: real)
  {
    && share.reach == (match keep
                       case None => (if m.coveredBy == None then [] else m.coveredBy.value)
                       case Some(tests) => Filter(if m.coveredBy == None then [] else m.coveredBy.value, tests))
    && Runs(m, share.reach, share.run)
    && share.seconds == (if m.status == Timeout then 0.0
                         else Net(share.run, time) + Starts(overhead, |share.run|))
    && share.limit == (if m.status == Timeout then 1.5 * Net(share.reach, time) + 5.0 + Starts(overhead, dryRun)
                       else 0.0)
  }

  ghost predicate AreShares(shares: seq<Share>, mutants: seq<Mutant>, keep: Option<set<string>>, dryRun: nat,
                            time: string -> real, overhead: real)
  {
    && |shares| == |mutants|
    && forall i :: 0 <= i < |mutants| ==> IsShare(shares[i], mutants[i], keep, dryRun, time, overhead)
  }

  function Reaches(shares: seq<Share>): (r: seq<nat>)
    ensures |r| == |shares| && forall i :: 0 <= i < |r| ==> r[i] == |shares[i].reach|
  {
    seq(|shares|, i requires 0 <= i < |shares| => |shares[i].reach|)
  }

  function RunsMade(shares: seq<Share>): (r: seq<nat>)
    ensures |r| == |shares| && forall i :: 0 <= i < |r| ==> r[i] == |shares[i].run|
  {
    seq(|shares|, i requires 0 <= i < |shares| => |shares[i].run|)
  }

  function SecondsMade(shares: seq<Share>): (r: seq<real>)
    ensures |r| == |shares| && forall i :: 0 <= i < |r| ==> r[i] == shares[i].seconds
  {
    seq(|shares|, i requires 0 <= i < |shares| => shares[i].seconds)
  }

  function Limits(shares: seq<Share>): (r: seq<real>)
    ensures |r| == |shares| && forall i :: 0 <= i < |r| ==> r[i] == shares[i].limit
  {
    seq(|shares|, i requires 0 <= i < |shares| => shares[i].limit)
  }

  lemma SharesFirst(shares: seq<Share>)
    requires shares != []
    ensures Count(Reaches(shares)) == |shares[0].reach| + Count(Reaches(shares[1..]))
    ensures Count(RunsMade(shares)) == |shares[0].run| + Count(RunsMade(shares[1..]))
    ensures Sum(SecondsMade(shares)) == shares[0].seconds + Sum(SecondsMade(shares[1..]))
    ensures Sum(Limits(shares)) == shares[0].limit + Sum(Limits(shares[1..]))
  {
    assert Reaches(shares)[1..] == Reaches(shares[1..]) && RunsMade(shares)[1..] == RunsMade(shares[1..]);
    assert SecondsMade(shares)[1..] == SecondsMade(shares[1..]) && Limits(shares)[1..] == Limits(shares[1..]);
  }

  lemma {:induction false} OneShare(share: Share, m: Mutant, keep: Option<set<string>>, dryRun: nat,
                                    time: string -> real, overhead: real)
    requires IsShare(share, m, keep, dryRun, time, overhead)
    ensures share.reach == Kept(Reach(m), keep) && share.run == RunOf(m, keep)
    ensures share.seconds == if m.status == Timeout then 0.0 else RunSeconds(RunOf(m, keep), time, overhead)
    ensures share.limit == if m.status == Timeout then TimeoutSeconds(share.reach, dryRun, time, overhead) else 0.0
  {
    RunIs(m, share.reach, share.run);
  }

  lemma {:induction false} TotalsAre(shares: seq<Share>, mutants: seq<Mutant>, keep: Option<set<string>>,
                                     dryRun: nat, time: string -> real, overhead: real)
    requires AreShares(shares, mutants, keep, dryRun, time, overhead)
    ensures TotalReached(mutants, keep) == Count(Reaches(shares)) && TotalRan(mutants, keep) == Count(RunsMade(shares))
    ensures TotalSeconds(mutants, keep, time, overhead) == Sum(SecondsMade(shares))
    ensures TotalTimeouts(mutants, keep, dryRun, time, overhead) == Sum(Limits(shares))
  {
    if mutants != [] {
      OneShare(shares[0], mutants[0], keep, dryRun, time, overhead);
      TotalsAre(shares[1..], mutants[1..], keep, dryRun, time, overhead);
      SharesFirst(shares);
    }
  }

  /** A mean of so many, of which the sum is known; none of nothing. */
  ghost predicate MeanOf(mean: Option<real>, total: nat, count: nat) {
    if count == 0 then mean == None else mean != None && mean.value * count as real == total as real
  }

  lemma MeanIs(total: nat, count: nat)
    ensures MeanOf(Mean(total, count), total, count)
  {
  }

  lemma {:induction false} DryRunIs(mutants: seq<Mutant>, allTests: seq<string>, keep: Option<set<string>>,
                                    time: string -> real, overhead: real, dryRun: seq<string>)
    requires dryRun == if keep == None then allTests else Filter(allTests, keep.value)
    ensures var cost := Costs(mutants, allTests, keep, Some(time), overhead);
            && cost.dryRun == |dryRun| && cost.seconds != None
            && cost.seconds.value.dryRun == Net(dryRun, time) + Starts(overhead, |dryRun|)
  {
  }

  /**
   * Every figure of a cost, from what is said of each mutant: the tests that reach it and those it runs,
   * on average, and the sums of the times, with one start for each test that runs.
   */
  lemma {:induction false} CostExactly(mutants: seq<Mutant>, allTests: seq<string>, keep: Option<set<string>>,
                                       time: string -> real, overhead: real, dryRun: seq<string>, shares: seq<Share>)
    requires dryRun == if keep == None then allTests else Filter(allTests, keep.value)
    requires AreShares(shares, mutants, keep, |dryRun|, time, overhead)
    ensures var cost := Costs(mutants, allTests, keep, Some(time), overhead);
            && cost.mutants == |mutants| && cost.dryRun == |dryRun|
            && MeanOf(cost.reached, Count(Reaches(shares)), |mutants|)
            && MeanOf(cost.ran, Count(RunsMade(shares)), |mutants|)
            && cost.seconds != None
            && cost.seconds.value.mutants == Sum(SecondsMade(shares))
            && cost.seconds.value.timeouts == Sum(Limits(shares))
            && cost.seconds.value.dryRun == Net(dryRun, time) + Starts(overhead, |dryRun|)
    ensures Costs(mutants, allTests, keep, None, overhead)
         == Costs(mutants, allTests, keep, Some(time), overhead).(seconds := None)
  {
    TotalsAre(shares, mutants, keep, |dryRun|, time, overhead);
    MeanIs(Count(Reaches(shares)), |mutants|);
    MeanIs(Count(RunsMade(shares)), |mutants|);
    DryRunIs(mutants, allTests, keep, time, overhead, dryRun);
  }

  /** With no mutant that disagrees, the tests that ran, on average, are those that the report counts. */
  lemma {:induction false} RanOfReport(mutants: seq<Mutant>, allTests: seq<string>, overhead: real)
    requires Inconsistent(mutants) == []
    ensures MeanOf(Costs(mutants, allTests, None, None, overhead).ran, TotalReported(mutants), |mutants|)
  {
    RanAsReported(mutants);
    MeanIs(TotalRan(mutants, None), |mutants|);
  }

  /** The count a report gives a mutant: up to its killer, or all the tests that reach it. */
  ghost predicate Agrees(m: Mutant) {
    var reach := if m.coveredBy == None then [] else m.coveredBy.value;
    var killer := if m.killedBy != None && m.killedBy.value != [] then m.killedBy.value[0] else "";
    match m.status
    case Killed =>
      m.testsCompleted != None
      && (if killer !in reach then m.testsCompleted.value == 0
          else && 1 <= m.testsCompleted.value <= |reach| && reach[m.testsCompleted.value - 1] == killer
               && killer !in reach[..m.testsCompleted.value - 1])
    case Survived => m.testsCompleted == Some(|reach|)
    case _ => true
  }

  lemma {:induction false} DisagreesExactly(m: Mutant)
    ensures Disagrees(m) <==> !Agrees(m)
  {
    if m.status == Killed && m.testsCompleted != None {
      var k, n := IndexOf(Reach(m), KillerName(m)), m.testsCompleted.value;
      if 1 <= n <= |Reach(m)| {
        assert forall i :: 0 <= i < n - 1 ==> Reach(m)[..n - 1][i] == Reach(m)[i];
      }
    }
  }

  /** The mutants that are listed are those whose count does not follow from their tests and their killer. */
  lemma {:induction false} InconsistentExactly(mutants: seq<Mutant>, m: Mutant)
    ensures m in Inconsistent(mutants) <==> m in mutants && !Agrees(m)
  {
    DisagreesExactly(m);
  }

  /** A mutant killed first by a test, as its report names it. */
  predicate KilledBy(m: Mutant, test: string) {
    m.status == Killed && m.killedBy != None && m.killedBy.value != [] && m.killedBy.value[0] == test
  }

  lemma {:induction false} KilledAre(mutants: seq<Mutant>, test: string) returns (places: set<nat>)
    ensures forall i: nat :: i in places <==> i < |mutants| && KilledBy(mutants[i], test)
    ensures KilledFirst(mutants, test) == |places|
  {
    if mutants == [] {
      places := {};
    } else {
      var n: nat := |mutants| - 1;
      var before := KilledAre(mutants[..n], test);
      assert mutants == mutants[..n] + [mutants[n]];
      KilledFirstNext(mutants[..n], mutants[n], test);
      places := if KilledBy(mutants[n], test) then before + {n} else before;
    }
  }

  /** The kills of a test are the mutants it killed first, counted. */
  lemma {:induction false} KillsExactly(mutants: seq<Mutant>, test: string, places: set<nat>)
    requires forall i: nat :: i in places <==> i < |mutants| && KilledBy(mutants[i], test)
    ensures KilledFirst(mutants, test) == |places|
  {
    var same := KilledAre(mutants, test);
    assert same == places;
  }
}
