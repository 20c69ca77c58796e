/**
 * With one worker for each part, the cut is list scheduling of the longest file first, and keeps the
 * sharper bound of Graham: no part takes more than 4/3 - 1/(3 * parts) times any other cut.
 */
module LongestFirstBound {
  import opened Ordering
  import opened ListScheduling
  import opened Shards
  import opened ShardProperties

  // ---- Long jobs, counted ---------------------------------------------------------------------

  /**
   * How much of a worker a job takes, of two: a job no shorter than `low` takes one, and one that leaves
   * no room for such a job, being over `cap`, takes both.
   */
  function Weight(job: real, low: real, cap: real): real {
    if job < low then 0.0 else if job > cap then 2.0 else 1.0
  }

  function Weights(jobs: seq<real>, low: real, cap: real): (r: seq<real>)
    ensures |r| == |jobs| && forall i :: 0 <= i < |r| ==> r[i] == Weight(jobs[i], low, cap)
  {
    Each((job: real) => Weight(job, low, cap), jobs)
  }

  /** What the weight of a worker says of its load, when it is of a time `low + cap` and takes no three. */
  predicate AtLeastWeighs(load: real, weight: real, low: real, cap: real) {
    || (weight == 0.0 && 0.0 <= load)
    || (weight == 1.0 && low <= load)
    || (weight == 2.0 && low <= load && (2.0 * low <= load || cap < load))
    || (weight >= 3.0 && low + cap < load)
  }

  lemma OneMoreWeighs(load: real, weight: real, job: real, low: real, cap: real)
    requires 0.0 <= job && 0.0 < low && cap < 2.0 * low && 0.0 <= cap
    requires AtLeastWeighs(load, weight, low, cap)
    ensures AtLeastWeighs(load + job, weight + Weight(job, low, cap), low, cap)
  {
  }

  ghost predicate AllWeigh(loads: seq<real>, weights: seq<real>, low: real, cap: real) {
    |loads| == |weights| && forall i :: 0 <= i < |loads| ==> AtLeastWeighs(loads[i], weights[i], low, cap)
  }

  /** Any assignment keeps what weights say of loads. */
  lemma {:induction false} AssignedWeighs(loads: seq<real>, weights: seq<real>, jobs: seq<real>, chosen: seq<nat>,
                                          low: real, cap: real)
    requires Assignment(chosen, |jobs|, |loads|) && Nonnegative(jobs)
    requires 0.0 < low && 0.0 <= cap < 2.0 * low && AllWeigh(loads, weights, low, cap)
    ensures AllWeigh(Assigned(loads, jobs, chosen), Assigned(weights, Weights(jobs, low, cap), chosen), low, cap)
    decreases |jobs|
  {
    if jobs != [] {
      var k := chosen[0];
      OneMoreWeighs(loads[k], weights[k], jobs[0], low, cap);
      var more := Weights(jobs, low, cap);
      assert more[0] == Weight(jobs[0], low, cap) && more[1..] == Weights(jobs[1..], low, cap);
      AssignedWeighs(loads[k := loads[k] + jobs[0]], weights[k := weights[k] + more[0]], jobs[1..], chosen[1..], low,
                     cap);
    }
  }

  /** Within the time `low + cap`, all the workers take two each at most. */
  lemma {:induction false} WeightsFit(jobs: seq<real>, workers: nat, chosen: seq<nat>, low: real, cap: real)
    requires workers >= 1 && Assignment(chosen, |jobs|, workers) && Nonnegative(jobs)
    requires 0.0 < low && 0.0 <= cap < 2.0 * low && AssignedTime(jobs, workers, chosen) <= low + cap
    ensures Sum(Weights(jobs, low, cap)) <= Scaled(workers, 2.0)
  {
    var weights := Assigned(Idle(workers), Weights(jobs, low, cap), chosen);
    AssignedWeighs(Idle(workers), Idle(workers), jobs, chosen, low, cap);
    forall i | 0 <= i < workers
      ensures weights[i] <= 2.0
    {
      assert AtLeastWeighs(Assigned(Idle(workers), jobs, chosen)[i], weights[i], low, cap);
    }
    SumAtMost(weights, 2.0);
    SumIdle(Idle(workers));
    AssignedSum(Idle(workers), Weights(jobs, low, cap), chosen);
  }

  /** What the weight of a worker says of its load, the other way: with one it has room for another job. */
  predicate AtMostWeighs(load: real, weight: real, cap: real) {
    weight >= 2.0 || (weight == 1.0 && load <= cap) || (weight == 0.0 && load == 0.0)
  }

  ghost predicate AllHaveRoom(loads: seq<real>, weights: seq<real>, cap: real) {
    |loads| == |weights| && forall i :: 0 <= i < |loads| ==> AtMostWeighs(loads[i], weights[i], cap)
  }

  ghost predicate NoShorter(jobs: seq<real>, low: real) {
    forall i :: 0 <= i < |jobs| ==> low <= jobs[i]
  }

  /** The workers that got each job, and the weights that they got with them. */
  lemma {:induction false} RunHasRoom(loads: seq<real>, weights: seq<real>, jobs: seq<real>, low: real, cap: real)
    returns (after: seq<real>)
    requires loads != [] && NoShorter(jobs, low) && AllHaveRoom(loads, weights, cap)
    ensures AllHaveRoom(Run(loads, jobs), after, cap)
    ensures Sum(after) == Sum(weights) + Sum(Weights(jobs, low, cap))
    decreases |jobs|
  {
    if jobs == [] {
      after := weights;
    } else {
      var k, more := Free(loads), Weights(jobs, low, cap);
      var next := weights[k := weights[k] + more[0]];
      assert more[1..] == Weights(jobs[1..], low, cap);
      SumUpdate(weights, k, weights[k] + more[0]);
      after := RunHasRoom(Place(loads, jobs[0]), next, jobs[1..], low, cap);
    }
  }

  /** With every worker over `cap`, the jobs take two of each. */
  lemma {:induction false} WeightsFill(jobs: seq<real>, workers: nat, low: real, cap: real)
    requires workers >= 1 && NoShorter(jobs, low) && 0.0 <= cap
    requires forall i :: 0 <= i < workers ==> cap < Run(Idle(workers), jobs)[i]
    ensures Scaled(workers, 2.0) <= Sum(Weights(jobs, low, cap))
  {
    var weights := RunHasRoom(Idle(workers), Idle(workers), jobs, low, cap);
    forall i | 0 <= i < workers
      ensures 2.0 <= weights[i]
    {
      assert AtMostWeighs(Run(Idle(workers), jobs)[i], weights[i], cap);
    }
    SumAtLeast(weights, 2.0);
    SumIdle(Idle(workers));
  }

  // ---- The end of one job ---------------------------------------------------------------------

  ghost predicate Falling(jobs: seq<real>) {
    forall i, j :: 0 <= i < j < |jobs| ==> jobs[j] <= jobs[i]
  }

  lemma {:induction false} SumPermuted(a: seq<real>, b: seq<real>)
    requires multiset(a) == multiset(b)
    ensures Sum(a) == Sum(b)
  {
    if a == [] {
      assert |multiset(b)| == 0;
    } else {
      var k := PlaceOfHead(a, b);
      PermutedRest(a, b, k);
      SumPermuted(a[1..], b[..k] + b[k + 1..]);
      SplitAt(b, k);
      SumAppend(b[..k] + [b[k]], b[k + 1..]);
      SumAppend(b[..k], [b[k]]);
      SumAppend(b[..k], b[k + 1..]);
      assert Sum([b[k]]) == b[k];
    }
  }

  /** The jobs to one, that one, and the ones after it. */
  lemma WeightsInTurn(jobs: seq<real>, k: nat, low: real, cap: real)
    requires k < |jobs| && low <= jobs[k]
    ensures Sum(Weights(jobs[..k], low, cap)) + 1.0 <= Sum(Weights(jobs, low, cap))
  {
    var first, one, last := Weights(jobs[..k], low, cap), Weights([jobs[k]], low, cap),
                            Weights(jobs[k + 1..], low, cap);
    assert Weights(jobs, low, cap) == first + one + last;
    SumAppend(first + one, last);
    SumAppend(first, one);
    assert one == [Weight(jobs[k], low, cap)] && Sum(one) == one[0];
    SumAtLeast(last, 0.0);
    ScaledNone(|last|);
  }

  lemma {:induction false} ScaledNone(n: nat)
    ensures Scaled(n, 0.0) == 0.0
  {
    if n > 0 {
      ScaledNone(n - 1);
    }
  }

  /** The load of the worker that gets the job `k`. */
  function LeastBefore(jobs: seq<real>, k: nat, workers: nat): real
    requires workers >= 1 && k <= |jobs|
  {
    var loads := Run(Idle(workers), jobs[..k]);
    loads[Free(loads)]
  }

  /** A job of more than a third of the time of another schedule ends within that time. */
  lemma {:induction false} LongJobEnds(jobs: seq<real>, k: nat, workers: nat, others: seq<real>, chosen: seq<nat>,
                                       best: real)
    requires workers >= 1 && k < |jobs| && Falling(jobs) && Nonnegative(jobs) && multiset(jobs) == multiset(others)
    requires Nonnegative(others) && Assignment(chosen, |others|, workers)
    requires best == AssignedTime(others, workers, chosen) && jobs[k] <= best < 3.0 * jobs[k]
    ensures LeastBefore(jobs, k, workers) + jobs[k] <= best
  {
    var low, cap := jobs[k], best - jobs[k];
    if LeastBefore(jobs, k, workers) > cap {
      WeightsFill(jobs[..k], workers, low, cap);
      WeightsInTurn(jobs, k, low, cap);
      WeightsFit(others, workers, chosen, low, cap);
      EachPermuted((job: real) => Weight(job, low, cap), jobs, others);
      SumPermuted(Weights(jobs, low, cap), Weights(others, low, cap));
      assert false;
    }
  }

  lemma SumInTurn(jobs: seq<real>, k: nat)
    requires k < |jobs| && Nonnegative(jobs)
    ensures Sum(jobs[..k]) + jobs[k] <= Sum(jobs)
  {
    var last := jobs[k + 1..];
    assert jobs == jobs[..k] + [jobs[k]] + last;
    SumAppend(jobs[..k] + [jobs[k]], last);
    SumAppend(jobs[..k], [jobs[k]]);
    assert Sum([jobs[k]]) == jobs[k];
    SumAtLeast(last, 0.0);
    ScaledNone(|last|);
  }

  /** The least load is the mean of the jobs before at most. */
  lemma LeastIsLow(jobs: seq<real>, k: nat, workers: nat)
    requires workers >= 1 && k < |jobs| && Nonnegative(jobs)
    ensures Scaled(workers, LeastBefore(jobs, k, workers)) + jobs[k] <= Sum(jobs)
  {
    var loads := Run(Idle(workers), jobs[..k]);
    SumAtLeast(loads, LeastBefore(jobs, k, workers));
    SumIdle(Idle(workers));
    RunSum(Idle(workers), jobs[..k]);
    SumInTurn(jobs, k);
  }

  lemma ThreeTimes(w: real, job: real, best: real)
    requires w >= 1.0 && 3.0 * job <= best
    ensures 3.0 * (w * job - job) <= w * best - best
  {
    assert (w - 1.0) * (3.0 * job) <= (w - 1.0) * best;
  }

  lemma {:induction false} ThirdAtMost(workers: nat, least: real, job: real, total: real, best: real)
    requires workers >= 1 && 3.0 * job <= best
    requires Scaled(workers, least) + job <= total <= Scaled(workers, best)
    ensures least + job <= (4.0 / 3.0 - 1.0 / (3.0 * workers as real)) * best
  {
    var w := workers as real;
    ScaledProduct(workers, least);
    ScaledProduct(workers, best);
    ThreeTimes(w, job, best);
    assert w * (least + job) == w * least + w * job;
    assert (4.0 * w - 1.0) * best == 4.0 * (w * best) - best;
    Divided(w, least + job, best);
  }

  lemma Divided(w: real, time: real, best: real)
    requires w >= 1.0 && 3.0 * (w * time) <= (4.0 * w - 1.0) * best
    ensures time <= (4.0 / 3.0 - 1.0 / (3.0 * w)) * best
  {
    assert (4.0 / 3.0 - 1.0 / (3.0 * w)) * (3.0 * w) == 4.0 * w - 1.0;
    var bound := (4.0 / 3.0 - 1.0 / (3.0 * w)) * best;
    assert (3.0 * w) * bound == (4.0 * w - 1.0) * best;
    assert (3.0 * w) * time <= (3.0 * w) * bound;
  }

  function Ratio(workers: nat): real
    requires workers >= 1
  {
    4.0 / 3.0 - 1.0 / (3.0 * workers as real)
  }

  lemma RatioOverOne(workers: nat, best: real)
    requires workers >= 1 && 0.0 <= best
    ensures best <= Ratio(workers) * best
  {
    var w := workers as real;
    assert 3.0 * w * best <= (4.0 * w - 1.0) * best;
    Divided(w, best, best);
  }

  /** A job of a third of that time or less ends within the ratio of it. */
  lemma {:induction false} ShortJobEnds(jobs: seq<real>, k: nat, workers: nat, others: seq<real>, chosen: seq<nat>,
                                        best: real)
    requires workers >= 1 && k < |jobs| && Nonnegative(jobs) && multiset(jobs) == multiset(others)
    requires Assignment(chosen, |others|, workers)
    requires best == AssignedTime(others, workers, chosen) && 3.0 * jobs[k] <= best
    ensures LeastBefore(jobs, k, workers) + jobs[k] <= Ratio(workers) * best
  {
    LeastIsLow(jobs, k, workers);
    SumPermuted(jobs, others);
    AssignedMean(others, workers, chosen);
    ThirdAtMost(workers, LeastBefore(jobs, k, workers), jobs[k], Sum(jobs), best);
  }

  /** Every job ends within the ratio of the time of any other schedule of the same jobs. */
  lemma {:induction false} JobEnds(jobs: seq<real>, k: nat, workers: nat, others: seq<real>, chosen: seq<nat>,
                                   best: real)
    requires workers >= 1 && k < |jobs| && Falling(jobs) && Nonnegative(jobs) && multiset(jobs) == multiset(others)
    requires Nonnegative(others) && Assignment(chosen, |others|, workers)
    requires best == AssignedTime(others, workers, chosen)
    ensures LeastBefore(jobs, k, workers) + jobs[k] <= Ratio(workers) * best
  {
    if 3.0 * jobs[k] <= best {
      ShortJobEnds(jobs, k, workers, others, chosen, best);
    } else {
      AssignedLongest(others, workers, chosen);
      assert jobs[k] in multiset(others);
      LongJobEnds(jobs, k, workers, others, chosen, best);
      RatioOverOne(workers, best);
    }
  }

  lemma {:induction false} LoadsWithin(jobs: seq<real>, k: nat, workers: nat, bound: real)
    requires workers >= 1 && k <= |jobs| && 0.0 <= bound
    requires forall i :: 0 <= i < |jobs| ==> LeastBefore(jobs, i, workers) + jobs[i] <= bound
    ensures AtMost(Run(Idle(workers), jobs[..k]), bound)
  {
    if k > 0 {
      LoadsWithin(jobs, k - 1, workers, bound);
      RunToNext(jobs, k - 1, workers);
      assert LeastBefore(jobs, k - 1, workers) + jobs[k - 1] <= bound;
    }
  }

  /**
   * Graham's bound for the longest job first: its time is at most 4/3 - 1/(3 * workers) times that of
   * any assignment of the same jobs, in any order.
   */
  lemma {:induction false} LongestFirstRatio(jobs: seq<real>, workers: nat, others: seq<real>, chosen: seq<nat>)
    requires workers >= 1 && Falling(jobs) && Nonnegative(jobs) && multiset(jobs) == multiset(others)
    requires Nonnegative(others) && Assignment(chosen, |others|, workers)
    ensures Makespan(jobs, workers) <= Ratio(workers) * AssignedTime(others, workers, chosen)
  {
    var best := AssignedTime(others, workers, chosen);
    forall k | 0 <= k < |jobs|
      ensures LeastBefore(jobs, k, workers) + jobs[k] <= Ratio(workers) * best
    {
      JobEnds(jobs, k, workers, others, chosen, best);
    }
    AssignedLongest(others, workers, chosen);
    RatioOverOne(workers, best);
    LoadsWithin(jobs, |jobs|, workers, Ratio(workers) * best);
    assert jobs[..|jobs|] == jobs;
  }

  // ---- The cut with one worker for each part --------------------------------------------------

  function Totals(out: seq<seq<string>>, seconds: string -> real): (r: seq<real>)
    ensures |r| == |out| && forall i :: 0 <= i < |r| ==> r[i] == Total(out[i], seconds)
  {
    seq(|out|, i requires 0 <= i < |out| => Total(out[i], seconds))
  }

  /** With one worker, a part takes the total of its files. */
  lemma OneWorkerTime(part: seq<string>, seconds: string -> real, workers: nat)
    requires workers == 1
    ensures PartTime(part, seconds, workers) == Total(part, seconds)
  {
    OneWorker(Times(Sort(TextLe, part), seconds));
    TotalSort(TextLe, part, seconds);
  }

  lemma KeyOfOne(part: seq<string>, file: string, seconds: string -> real, workers: nat)
    requires workers == 1
    ensures KeyOf(part, file, seconds, workers) == (Total(part, seconds) + seconds(file), Total(part, seconds))
  {
    OneWorkerTime(part + [file], seconds, workers);
    TotalAppend(part, file, seconds);
  }

  /** The keys of the parts, when they are their totals with one more job and without. */
  ghost predicate OneWorkerKeys(keys: seq<Key>, totals: seq<real>, job: real) {
    |keys| == |totals| && forall i :: 0 <= i < |keys| ==> keys[i] == (totals[i] + job, totals[i])
  }

  lemma OneMoreKey(keys: seq<Key>, totals: seq<real>, job: real, total: real)
    requires OneWorkerKeys(keys, totals, job)
    ensures OneWorkerKeys([(total + job, total)] + keys, [total] + totals, job)
  {
  }

  lemma TotalsFirst(out: seq<seq<string>>, seconds: string -> real)
    requires out != []
    ensures Totals(out, seconds) == [Total(out[0], seconds)] + Totals(out[1..], seconds)
  {
  }

  lemma KeyThenKeys(out: seq<seq<string>>, file: string, seconds: string -> real, workers: nat, key: Key)
    requires workers >= 1 && out != [] && key == KeyOf(out[0], file, seconds, workers)
    ensures KeysOf(out, file, seconds, workers) == [key] + KeysOf(out[1..], file, seconds, workers)
  {
  }

  lemma {:induction false} KeysOfOne(out: seq<seq<string>>, file: string, seconds: string -> real, workers: nat,
                                     keys: seq<Key>)
    requires workers == 1 && keys == KeysOf(out, file, seconds, workers)
    ensures OneWorkerKeys(keys, Totals(out, seconds), seconds(file))
  {
    if out != [] {
      var key, rest := KeyOf(out[0], file, seconds, workers), KeysOf(out[1..], file, seconds, workers);
      KeysOfOne(out[1..], file, seconds, workers, rest);
      KeyThenKeys(out, file, seconds, workers, key);
      KeyOfOne(out[0], file, seconds, workers);
      TotalsFirst(out, seconds);
      OneMoreKey(rest, Totals(out[1..], seconds), seconds(file), Total(out[0], seconds));
    }
  }

  lemma FirstLeastIsFree(keys: seq<Key>, totals: seq<real>, job: real, best: nat)
    requires OneWorkerKeys(keys, totals, job) && FirstLeast(keys, |keys|, best)
    ensures best == Free(totals)
  {
    forall i | 0 <= i < |totals|
      ensures totals[best] <= totals[i] && (i < best ==> totals[i] != totals[best])
    {
      assert !KeyLess(keys[i], keys[best]) && (i < best ==> KeyLess(keys[best], keys[i]));
    }
    FirstIsFree(totals, best);
  }

  /** The part a file goes to is the first of those that hold the least. */
  lemma {:induction false} BestIsFree(out: seq<seq<string>>, file: string, seconds: string -> real, workers: nat)
    requires workers == 1 && out != []
    ensures BestOf(KeysOf(out, file, seconds, workers)) == Free(Totals(out, seconds))
  {
    var keys := KeysOf(out, file, seconds, workers);
    BestIsFirstLeast(keys);
    KeysOfOne(out, file, seconds, workers, keys);
    FirstLeastIsFree(keys, Totals(out, seconds), seconds(file), BestOf(keys));
  }

  lemma {:induction false} TotalsUpdate(out: seq<seq<string>>, k: nat, file: string, seconds: string -> real)
    requires k < |out|
    ensures Totals(out[k := out[k] + [file]], seconds)
         == Totals(out, seconds)[k := Totals(out, seconds)[k] + seconds(file)]
  {
    TotalAppend(out[k], file, seconds);
  }

  lemma PutAt(out: seq<seq<string>>, file: string, seconds: string -> real, workers: nat, best: nat)
    requires workers >= 1 && out != [] && best == BestOf(KeysOf(out, file, seconds, workers))
    ensures best < |out| && Put(out, file, seconds, workers) == out[best := out[best] + [file]]
  {
  }

  lemma PlaceAt(busy: seq<real>, job: real, k: nat)
    requires busy != [] && k == Free(busy)
    ensures Place(busy, job) == busy[k := busy[k] + job]
  {
  }

  lemma {:induction false} NextTotals(out: seq<seq<string>>, next: seq<seq<string>>, k: nat, file: string,
                                      seconds: string -> real)
    requires out != [] && k == Free(Totals(out, seconds)) && next == out[k := out[k] + [file]]
    ensures Totals(next, seconds) == Place(Totals(out, seconds), seconds(file))
  {
    TotalsUpdate(out, k, file, seconds);
    PlaceAt(Totals(out, seconds), seconds(file), k);
  }

  lemma {:induction false} PutTotals(out: seq<seq<string>>, file: string, seconds: string -> real, workers: nat)
    requires workers == 1 && out != []
    ensures Totals(Put(out, file, seconds, workers), seconds) == Place(Totals(out, seconds), seconds(file))
  {
    var k := Free(Totals(out, seconds));
    BestIsFree(out, file, seconds, workers);
    PutAt(out, file, seconds, workers, k);
    NextTotals(out, Put(out, file, seconds, workers), k, file, seconds);
  }

  lemma RunFirst(busy: seq<real>, next: seq<real>, files: seq<string>, seconds: string -> real)
    requires busy != [] && files != [] && next == Place(busy, seconds(files[0]))
    ensures Run(busy, Times(files, seconds)) == Run(next, Times(files[1..], seconds))
  {
    assert Times(files, seconds)[1..] == Times(files[1..], seconds);
  }

  lemma {:induction false} PutAllTotals(out: seq<seq<string>>, files: seq<string>, seconds: string -> real,
                                        workers: nat)
    requires workers == 1 && out != []
    ensures Totals(PutAll(out, files, seconds, workers), seconds) == Run(Totals(out, seconds), Times(files, seconds))
    decreases |files|
  {
    if files != [] {
      var next := Put(out, files[0], seconds, workers);
      PutTotals(out, files[0], seconds, workers);
      PutAllTotals(next, files[1..], seconds, workers);
      RunFirst(Totals(out, seconds), Totals(next, seconds), files, seconds);
    }
  }

  /** The cut is the schedule of its files, the longest first, on as many workers as parts. */
  lemma {:induction false} CutIsSchedule(files: seq<string>, durations: map<string, real>, parts: nat,
                                         collate: (string, string) -> bool, i: nat)
    requires i < parts
    ensures var seconds := SecondsOf(files, durations);
            PartTime(Parts(files, durations, parts, 1, collate)[i], seconds, 1)
            <= Makespan(Times(Order(files, durations, collate), seconds), parts)
  {
    var seconds, cut := SecondsOf(files, durations), Cut(files, durations, parts, 1, collate);
    PutAllTotals(EmptyParts(parts), Order(files, durations, collate), seconds, 1);
    assert Totals(EmptyParts(parts), seconds) == Idle(parts);
    SortedPartTime(cut[i], seconds, 1);
    OneWorkerTime(cut[i], seconds, 1);
    assert Totals(cut, seconds)[i] == Total(cut[i], seconds);
  }

  lemma TimesHead(s: seq<string>, seconds: string -> real)
    requires s != []
    ensures multiset(Times(s, seconds)) == multiset(Times(s[1..], seconds)) + multiset{seconds(s[0])}
  {
    assert Times(s, seconds) == [seconds(s[0])] + Times(s[1..], seconds);
  }

  lemma TimesSplit(s: seq<string>, k: nat, seconds: string -> real)
    requires k < |s|
    ensures multiset(Times(s, seconds)) == multiset(Times(s[..k] + s[k + 1..], seconds)) + multiset{seconds(s[k])}
  {
    SplitAt(Times(s, seconds), k);
    assert Times(s, seconds)[..k] + Times(s, seconds)[k + 1..] == Times(s[..k] + s[k + 1..], seconds);
  }

  lemma {:induction false} TimesPermuted(a: seq<string>, b: seq<string>, seconds: string -> real)
    requires multiset(a) == multiset(b)
    ensures multiset(Times(a, seconds)) == multiset(Times(b, seconds))
  {
    if a == [] {
      assert |multiset(b)| == 0;
    } else {
      var k := PlaceOfHead(a, b);
      PermutedRest(a, b, k);
      TimesPermuted(a[1..], b[..k] + b[k + 1..], seconds);
      TimesHead(a, seconds);
      TimesSplit(b, k, seconds);
    }
  }

  lemma FallingOrder(files: seq<string>, durations: map<string, real>, collate: (string, string) -> bool)
    requires TotalOrder(collate) && Timed(files, SecondsOf(files, durations))
    ensures var times := Times(Order(files, durations, collate), SecondsOf(files, durations));
            Falling(times) && Nonnegative(times)
  {
    OrderSame(files, durations, collate);
  }

  lemma {:induction false} OrderRatio(files: seq<string>, order: seq<string>, seconds: string -> real, parts: nat,
                                      chosen: seq<nat>, best: real, time: real)
    requires parts >= 1 && multiset(order) == multiset(files) && Timed(files, seconds)
    requires Falling(Times(order, seconds)) && Nonnegative(Times(order, seconds))
    requires Assignment(chosen, |files|, parts) && best == AssignedTime(Times(files, seconds), parts, chosen)
    requires time <= Makespan(Times(order, seconds), parts)
    ensures time <= Ratio(parts) * best
  {
    TimesPermuted(order, files, seconds);
    LongestFirstRatio(Times(order, seconds), parts, Times(files, seconds), chosen);
  }

  /**
   * With one worker for each part, no part takes more than 4/3 - 1/(3 * parts) times `best`, the longest
   * part of any other way to cut the suite. `chosen[i]` is the part that way gives `files[i]`.
   */
  lemma {:induction false} LongestFirstApproximation(files: seq<string>, durations: map<string, real>, parts: nat,
                                                     collate: (string, string) -> bool, chosen: seq<nat>, best: real,
                                                     i: nat)
    requires i < parts && TotalOrder(collate)
    requires forall f :: f in files && f in durations ==> 0.0 <= durations[f]
    requires Assignment(chosen, |files|, parts)
    requires best == AssignedTime(Times(files, SecondsOf(files, durations)), parts, chosen)
    ensures PartTime(Parts(files, durations, parts, 1, collate)[i], SecondsOf(files, durations), 1)
         <= Ratio(parts) * best
  {
    KnownTotal(files, durations);
    FallingOrder(files, durations, collate);
    CutIsSchedule(files, durations, parts, collate, i);
    OrderRatio(files, Order(files, durations, collate), SecondsOf(files, durations), parts, chosen, best,
               PartTime(Parts(files, durations, parts, 1, collate)[i], SecondsOf(files, durations), 1));
  }
}
