/**
 * List scheduling: jobs in a given order, each on the first worker that is free the earliest. The
 * times are exact reals.
 */
module ListScheduling {

  function Sum(s: seq<real>): real {
    if s == [] then 0.0 else s[0] + Sum(s[1..])
  }

  function Least(s: seq<real>): (m: real)
    requires s != []
    ensures m in s && forall i :: 0 <= i < |s| ==> m <= s[i]
  {
    if |s| == 1 then s[0]
    else
      var rest := Least(s[1..]);
      if s[0] <= rest then s[0] else rest
  }

  function Busiest(s: seq<real>): (m: real)
    requires s != []
    ensures m in s && forall i :: 0 <= i < |s| ==> s[i] <= m
  {
    if |s| == 1 then s[0]
    else
      var rest := Busiest(s[1..]);
      if rest <= s[0] then s[0] else rest
  }

  /** The place of the first `x` of a list that holds one. */
  function IndexOf(s: seq<real>, x: real): (k: nat)
    requires x in s
    ensures k < |s| && s[k] == x && forall i :: 0 <= i < k ==> s[i] != x
  {
    if s[0] == x then 0 else IndexOf(s[1..], x) + 1
  }

  /** The worker that gets the next job. */
  function Free(busy: seq<real>): (k: nat)
    requires busy != []
    ensures k < |busy| && forall i :: 0 <= i < |busy| ==> busy[k] <= busy[i]
  {
    IndexOf(busy, Least(busy))
  }

  function Place(busy: seq<real>, job: real): (r: seq<real>)
    requires busy != []
    ensures |r| == |busy|
  {
    busy[Free(busy) := busy[Free(busy)] + job]
  }

  function Run(busy: seq<real>, jobs: seq<real>): (r: seq<real>)
    requires busy != []
    ensures |r| == |busy|
    decreases |jobs|
  {
    if jobs == [] then busy else Run(Place(busy, jobs[0]), jobs[1..])
  }

  function Idle(workers: nat): (r: seq<real>)
    ensures |r| == workers && forall i :: 0 <= i < workers ==> r[i] == 0.0
  {
    seq(workers, _ => 0.0)
  }

  /** When the last worker ends. */
  function Makespan(jobs: seq<real>, workers: nat): real
    requires workers >= 1
  {
    Busiest(Run(Idle(workers), jobs))
  }

  /** The loads of workers that got each job from `chosen`, any assignment at all. */
  function Assigned(busy: seq<real>, jobs: seq<real>, chosen: seq<nat>): (r: seq<real>)
    requires |jobs| == |chosen| && forall i :: 0 <= i < |chosen| ==> chosen[i] < |busy|
    ensures |r| == |busy|
    decreases |jobs|
  {
    if jobs == [] then busy
    else Assigned(busy[chosen[0] := busy[chosen[0]] + jobs[0]], jobs[1..], chosen[1..])
  }

  ghost predicate Nonnegative(s: seq<real>) {
    forall i :: 0 <= i < |s| ==> 0.0 <= s[i]
  }

  ghost predicate AtMost(s: seq<real>, longest: real) {
    forall i :: 0 <= i < |s| ==> s[i] <= longest
  }

  lemma {:induction false} RunAppend(busy: seq<real>, a: seq<real>, b: seq<real>)
    requires busy != []
    ensures Run(busy, a + b) == Run(Run(busy, a), b)
    decreases |a|
  {
    if a == [] {
      assert a + b == b;
    } else {
      assert (a + b)[1..] == a[1..] + b;
      RunAppend(Place(busy, a[0]), a[1..], b);
    }
  }

  lemma RunToNext(jobs: seq<real>, k: nat, workers: nat)
    requires workers >= 1 && k < |jobs|
    ensures Run(Idle(workers), jobs[..k + 1]) == Place(Run(Idle(workers), jobs[..k]), jobs[k])
  {
    assert jobs[..k + 1] == jobs[..k] + [jobs[k]];
    RunAppend(Idle(workers), jobs[..k], [jobs[k]]);
    assert [jobs[k]][1..] == [];
  }

  // ---- Sums -----------------------------------------------------------------------------------

  lemma {:induction false} SumUpdate(s: seq<real>, k: nat, x: real)
    requires k < |s|
    ensures Sum(s[k := x]) == Sum(s) - s[k] + x
  {
    if k > 0 {
      assert s[k := x][1..] == s[1..][k - 1 := x];
      SumUpdate(s[1..], k - 1, x);
    } else {
      assert s[k := x][1..] == s[1..];
    }
  }

  lemma {:induction false} SumAppend(a: seq<real>, b: seq<real>)
    ensures Sum(a + b) == Sum(a) + Sum(b)
  {
    if a == [] {
      assert a + b == b;
    } else {
      assert (a + b)[1..] == a[1..] + b;
      SumAppend(a[1..], b);
    }
  }

  /** `n` times `x`, as a sum: it keeps the products out of the proofs that do not need them. */
  function Scaled(n: nat, x: real): real {
    if n == 0 then 0.0 else x + Scaled(n - 1, x)
  }

  lemma {:induction false} ScaledProduct(n: nat, x: real)
    ensures Scaled(n, x) == n as real * x
  {
    if n > 0 {
      ScaledProduct(n - 1, x);
      assert n as real * x == x + (n - 1) as real * x;
    }
  }

  lemma {:induction false} SumAtLeast(s: seq<real>, floor: real)
    requires forall i :: 0 <= i < |s| ==> floor <= s[i]
    ensures Scaled(|s|, floor) <= Sum(s)
  {
    if s != [] {
      SumAtLeast(s[1..], floor);
    }
  }

  lemma {:induction false} SumAtMost(s: seq<real>, top: real)
    requires forall i :: 0 <= i < |s| ==> s[i] <= top
    ensures Sum(s) <= Scaled(|s|, top)
  {
    if s != [] {
      SumAtMost(s[1..], top);
    }
  }

  /** One element at the top and the others at least at `floor`. */
  lemma SumWithTop(s: seq<real>, k: nat, floor: real)
    requires k < |s| && forall i :: 0 <= i < |s| ==> floor <= s[i]
    ensures s[k] + Scaled(|s| - 1, floor) <= Sum(s)
  {
    var others := s[..k] + s[k + 1..];
    SumAtLeast(others, floor);
    assert s == s[..k] + [s[k]] + s[k + 1..];
    SumAppend(s[..k] + [s[k]], s[k + 1..]);
    SumAppend(s[..k], [s[k]]);
    SumAppend(s[..k], s[k + 1..]);
    assert Sum([s[k]]) == s[k];
  }

  lemma {:induction false} SumIdle(s: seq<real>)
    requires forall i :: 0 <= i < |s| ==> s[i] == 0.0
    ensures Sum(s) == 0.0
  {
    if s != [] {
      SumIdle(s[1..]);
    }
  }

  lemma {:induction false} RunSum(busy: seq<real>, jobs: seq<real>)
    requires busy != []
    ensures Sum(Run(busy, jobs)) == Sum(busy) + Sum(jobs)
    decreases |jobs|
  {
    if jobs != [] {
      SumUpdate(busy, Free(busy), busy[Free(busy)] + jobs[0]);
      RunSum(Place(busy, jobs[0]), jobs[1..]);
    }
  }

  lemma {:induction false} AssignedSum(busy: seq<real>, jobs: seq<real>, chosen: seq<nat>)
    requires |jobs| == |chosen| && forall i :: 0 <= i < |chosen| ==> chosen[i] < |busy|
    ensures Sum(Assigned(busy, jobs, chosen)) == Sum(busy) + Sum(jobs)
    decreases |jobs|
  {
    if jobs != [] {
      var next := busy[chosen[0] := busy[chosen[0]] + jobs[0]];
      SumUpdate(busy, chosen[0], busy[chosen[0]] + jobs[0]);
      AssignedSum(next, jobs[1..], chosen[1..]);
    }
  }

  // ---- The bound ------------------------------------------------------------------------------

  /** The loads stay within one longest job of each other, and only grow. */
  lemma {:induction false} RunBalanced(busy: seq<real>, jobs: seq<real>, longest: real)
    requires busy != [] && Nonnegative(jobs) && AtMost(jobs, longest)
    requires forall i, j :: 0 <= i < |busy| && 0 <= j < |busy| ==> busy[i] - busy[j] <= longest
    ensures var r := Run(busy, jobs); forall i, j :: 0 <= i < |r| && 0 <= j < |r| ==> r[i] - r[j] <= longest
    ensures var r := Run(busy, jobs); forall i :: 0 <= i < |r| ==> busy[i] <= r[i]
    decreases |jobs|
  {
    if jobs != [] {
      RunBalanced(Place(busy, jobs[0]), jobs[1..], longest);
    }
  }

  /** Some worker runs the job `k` whole. */
  lemma {:induction false} RunHolds(busy: seq<real>, jobs: seq<real>, k: nat)
    requires busy != [] && Nonnegative(jobs) && Nonnegative(busy) && k < |jobs|
    ensures jobs[k] <= Busiest(Run(busy, jobs))
    decreases |jobs|
  {
    var next := Place(busy, jobs[0]);
    if k == 0 {
      RunGrows(next, jobs[1..], Free(busy));
    } else {
      RunHolds(next, jobs[1..], k - 1);
    }
  }

  lemma {:induction false} RunGrows(busy: seq<real>, jobs: seq<real>, k: nat)
    requires busy != [] && Nonnegative(jobs) && k < |busy|
    ensures busy[k] <= Run(busy, jobs)[k]
    decreases |jobs|
  {
    if jobs != [] {
      RunGrows(Place(busy, jobs[0]), jobs[1..], k);
    }
  }

  lemma {:induction false} AssignedGrows(busy: seq<real>, jobs: seq<real>, chosen: seq<nat>, k: nat)
    requires |jobs| == |chosen| && forall i :: 0 <= i < |chosen| ==> chosen[i] < |busy|
    requires Nonnegative(jobs) && k < |busy|
    ensures busy[k] <= Assigned(busy, jobs, chosen)[k]
    decreases |jobs|
  {
    if jobs != [] {
      AssignedGrows(busy[chosen[0] := busy[chosen[0]] + jobs[0]], jobs[1..], chosen[1..], k);
    }
  }

  lemma {:induction false} AssignedHolds(busy: seq<real>, jobs: seq<real>, chosen: seq<nat>, k: nat)
    requires |jobs| == |chosen| && forall i :: 0 <= i < |chosen| ==> chosen[i] < |busy|
    requires Nonnegative(jobs) && Nonnegative(busy) && k < |jobs|
    ensures jobs[k] <= Busiest(Assigned(busy, jobs, chosen))
    decreases |jobs|
  {
    var next := busy[chosen[0] := busy[chosen[0]] + jobs[0]];
    if k == 0 {
      AssignedGrows(next, jobs[1..], chosen[1..], chosen[0]);
    } else {
      AssignedHolds(next, jobs[1..], chosen[1..], k - 1);
    }
  }

  lemma MakespanMean(jobs: seq<real>, workers: nat)
    requires workers >= 1
    ensures Sum(jobs) <= Scaled(workers, Makespan(jobs, workers))
  {
    SumIdle(Idle(workers));
    RunSum(Idle(workers), jobs);
    SumAtMost(Run(Idle(workers), jobs), Makespan(jobs, workers));
  }

  lemma MakespanHolds(jobs: seq<real>, workers: nat, k: nat)
    requires workers >= 1 && Nonnegative(jobs) && k < |jobs|
    ensures jobs[k] <= Makespan(jobs, workers)
  {
    RunHolds(Idle(workers), jobs, k);
  }

  lemma {:induction false} ScaledMinus(n: nat, x: real, y: real)
    ensures Scaled(n, x - y) == Scaled(n, x) - Scaled(n, y)
  {
    if n > 0 {
      ScaledMinus(n - 1, x, y);
    }
  }

  /** The busiest worker is at most one longest job over every other one. */
  lemma LoadsSpread(jobs: seq<real>, workers: nat, longest: real)
    requires workers >= 1 && Nonnegative(jobs) && AtMost(jobs, longest) && 0.0 <= longest
    ensures forall i :: 0 <= i < workers ==> Makespan(jobs, workers) - longest <= Run(Idle(workers), jobs)[i]
  {
    RunBalanced(Idle(workers), jobs, longest);
  }

  lemma TopAndMean(s: seq<real>, longest: real)
    requires s != [] && forall i :: 0 <= i < |s| ==> Busiest(s) - longest <= s[i]
    ensures Scaled(|s|, Busiest(s)) <= Sum(s) + Scaled(|s| - 1, longest)
  {
    var k :| 0 <= k < |s| && s[k] == Busiest(s);
    SumWithTop(s, k, Busiest(s) - longest);
    ScaledMinus(|s| - 1, Busiest(s), longest);
  }

  /** List scheduling passes the mean load by less than one longest job. */
  lemma MakespanAtMost(jobs: seq<real>, workers: nat, longest: real)
    requires workers >= 1 && Nonnegative(jobs) && AtMost(jobs, longest) && 0.0 <= longest
    ensures Scaled(workers, Makespan(jobs, workers)) <= Sum(jobs) + Scaled(workers - 1, longest)
  {
    LoadsSpread(jobs, workers, longest);
    TopAndMean(Run(Idle(workers), jobs), longest);
    SumIdle(Idle(workers));
    RunSum(Idle(workers), jobs);
  }

  ghost predicate Assignment(chosen: seq<nat>, jobs: nat, workers: nat) {
    |chosen| == jobs && forall i :: 0 <= i < |chosen| ==> chosen[i] < workers
  }

  /** The busiest worker of an assignment. */
  function AssignedTime(jobs: seq<real>, workers: nat, chosen: seq<nat>): real
    requires workers >= 1 && Assignment(chosen, |jobs|, workers)
  {
    Busiest(Assigned(Idle(workers), jobs, chosen))
  }

  /** Any assignment keeps some worker busy for the mean load. */
  lemma AssignedMean(jobs: seq<real>, workers: nat, chosen: seq<nat>)
    requires workers >= 1 && Assignment(chosen, |jobs|, workers)
    ensures Sum(jobs) <= Scaled(workers, AssignedTime(jobs, workers, chosen))
  {
    SumIdle(Idle(workers));
    AssignedSum(Idle(workers), jobs, chosen);
    SumAtMost(Assigned(Idle(workers), jobs, chosen), AssignedTime(jobs, workers, chosen));
  }

  /** Any assignment keeps some worker busy for the longest job. */
  lemma AssignedLongest(jobs: seq<real>, workers: nat, chosen: seq<nat>)
    requires workers >= 1 && Nonnegative(jobs) && Assignment(chosen, |jobs|, workers)
    ensures 0.0 <= AssignedTime(jobs, workers, chosen)
    ensures AtMost(jobs, AssignedTime(jobs, workers, chosen))
  {
    AssignedGrows(Idle(workers), jobs, chosen, 0);
    forall k | 0 <= k < |jobs|
      ensures jobs[k] <= AssignedTime(jobs, workers, chosen)
    {
      AssignedHolds(Idle(workers), jobs, chosen, k);
    }
  }

  /** From the mean and the longest job to the ratio. */
  lemma RatioForm(time: real, workers: nat, total: real, best: real)
    requires workers >= 1
    requires Scaled(workers, time) <= total + Scaled(workers - 1, best) && total <= Scaled(workers, best)
    ensures time <= (2.0 - 1.0 / workers as real) * best
  {
    var w := workers as real;
    ScaledProduct(workers, time);
    ScaledProduct(workers, best);
    assert w * time <= 2.0 * (w * best) - best;
    assert 2.0 * (w * best) - best == (2.0 * w - 1.0) * best;
  }

  /** A time within one longest job of the mean is within the ratio of any assignment. */
  lemma RatioToAny(time: real, jobs: seq<real>, workers: nat, chosen: seq<nat>)
    requires workers >= 1 && Nonnegative(jobs) && Assignment(chosen, |jobs|, workers)
    requires Scaled(workers, time) <= Sum(jobs) + Scaled(workers - 1, AssignedTime(jobs, workers, chosen))
    ensures time <= (2.0 - 1.0 / workers as real) * AssignedTime(jobs, workers, chosen)
  {
    AssignedMean(jobs, workers, chosen);
    RatioForm(time, workers, Sum(jobs), AssignedTime(jobs, workers, chosen));
  }

  // ---- Monotonicity ---------------------------------------------------------------------------

  function CountAbove(s: seq<real>, level: real): (n: nat)
    ensures n <= |s|
  {
    if s == [] then 0 else (if s[0] > level then 1 else 0) + CountAbove(s[1..], level)
  }

  /** At every level, no more workers of `u` than of `v` are above it: the sorted loads are dominated. */
  ghost predicate Dominated(u: seq<real>, v: seq<real>) {
    |u| == |v| && forall level: real :: CountAbove(u, level) <= CountAbove(v, level)
  }

  lemma {:induction false} CountUpdate(s: seq<real>, k: nat, x: real, level: real)
    requires k < |s|
    ensures CountAbove(s[k := x], level)
         == CountAbove(s, level) - (if s[k] > level then 1 else 0) + (if x > level then 1 else 0)
  {
    if k > 0 {
      assert s[k := x][1..] == s[1..][k - 1 := x];
      CountUpdate(s[1..], k - 1, x, level);
    } else {
      assert s[k := x][1..] == s[1..];
    }
  }

  lemma {:induction false} CountEnds(s: seq<real>, level: real)
    ensures CountAbove(s, level) == |s| <==> forall i :: 0 <= i < |s| ==> s[i] > level
    ensures CountAbove(s, level) == 0 <==> forall i :: 0 <= i < |s| ==> s[i] <= level
  {
    if s != [] {
      CountEnds(s[1..], level);
      assert s == [s[0]] + s[1..];
    }
  }

  lemma FreeDominated(u: seq<real>, v: seq<real>)
    requires u != [] && Dominated(u, v)
    ensures u[Free(u)] <= v[Free(v)]
  {
    var high := v[Free(v)];
    CountEnds(u, high);
    CountEnds(v, high);
    assert CountAbove(u, high) <= CountAbove(v, high);
  }

  /** What one job does to the count of the workers above a level. */
  lemma PlaceCount(u: seq<real>, job: real, level: real)
    requires u != [] && 0.0 <= job
    ensures u[Free(u)] > level ==> CountAbove(u, level) == |u| == CountAbove(Place(u, job), level)
    ensures u[Free(u)] <= level ==>
              && CountAbove(u, level) < |u|
              && CountAbove(Place(u, job), level)
                 == CountAbove(u, level) + (if u[Free(u)] + job > level then 1 else 0)
  {
    CountUpdate(u, Free(u), u[Free(u)] + job, level);
    CountEnds(u, level);
  }

  lemma {:induction false} PlaceDominatedAt(u: seq<real>, v: seq<real>, less: real, more: real, level: real)
    requires u != [] && |u| == |v| && 0.0 <= less <= more && u[Free(u)] <= v[Free(v)]
    requires CountAbove(u, level) <= CountAbove(v, level)
    ensures CountAbove(Place(u, less), level) <= CountAbove(Place(v, more), level)
  {
    PlaceCount(u, less, level);
    PlaceCount(v, more, level);
  }

  lemma PlaceDominated(u: seq<real>, v: seq<real>, less: real, more: real)
    requires u != [] && Dominated(u, v) && 0.0 <= less <= more
    ensures Dominated(Place(u, less), Place(v, more))
  {
    FreeDominated(u, v);
    forall level: real
      ensures CountAbove(Place(u, less), level) <= CountAbove(Place(v, more), level)
    {
      PlaceDominatedAt(u, v, less, more, level);
    }
  }

  lemma PlaceDominates(u: seq<real>, job: real)
    requires u != [] && 0.0 <= job
    ensures Dominated(u, Place(u, job))
  {
    forall level: real
      ensures CountAbove(u, level) <= CountAbove(Place(u, job), level)
    {
      CountUpdate(u, Free(u), u[Free(u)] + job, level);
    }
  }

  lemma {:induction false} RunDominated(u: seq<real>, v: seq<real>, less: seq<real>, more: seq<real>)
    requires u != [] && Dominated(u, v) && |less| == |more| && Nonnegative(less)
    requires forall i :: 0 <= i < |less| ==> less[i] <= more[i]
    ensures Dominated(Run(u, less), Run(v, more))
    decreases |less|
  {
    if less != [] {
      PlaceDominated(u, v, less[0], more[0]);
      RunDominated(Place(u, less[0]), Place(v, more[0]), less[1..], more[1..]);
    }
  }

  lemma BusiestDominated(u: seq<real>, v: seq<real>)
    requires u != [] && Dominated(u, v)
    ensures Busiest(u) <= Busiest(v)
  {
    CountEnds(u, Busiest(v));
    CountEnds(v, Busiest(v));
    assert CountAbove(u, Busiest(v)) <= CountAbove(v, Busiest(v));
  }

  /** Longer jobs, in the same order, never end earlier. */
  lemma LongerJobs(less: seq<real>, more: seq<real>, workers: nat)
    requires workers >= 1 && |less| == |more| && Nonnegative(less)
    requires forall i :: 0 <= i < |less| ==> less[i] <= more[i]
    ensures Makespan(less, workers) <= Makespan(more, workers)
  {
    RunDominated(Idle(workers), Idle(workers), less, more);
    BusiestDominated(Run(Idle(workers), less), Run(Idle(workers), more));
  }

  /** The loads of workers that all began `delay` later. */
  function Later(busy: seq<real>, delay: real): (r: seq<real>)
    ensures |r| == |busy| && forall i :: 0 <= i < |r| ==> r[i] == busy[i] + delay
  {
    seq(|busy|, i requires 0 <= i < |busy| => busy[i] + delay)
  }

  lemma PlaceLater(busy: seq<real>, job: real, delay: real)
    requires busy != []
    ensures Place(Later(busy, delay), job) == Later(Place(busy, job), delay)
  {
    var k := Free(busy);
    FirstIsFree(Later(busy, delay), k);
    assert Place(Later(busy, delay), job) == Later(busy, delay)[k := busy[k] + delay + job];
    assert Place(busy, job) == busy[k := busy[k] + job];
  }

  /** The free worker is the first of those that end the earliest. */
  lemma FirstIsFree(busy: seq<real>, k: nat)
    requires k < |busy| && forall i :: 0 <= i < |busy| ==> busy[k] <= busy[i]
    requires forall i :: 0 <= i < k ==> busy[i] != busy[k]
    ensures Free(busy) == k
  {
  }

  lemma {:induction false} RunLater(busy: seq<real>, jobs: seq<real>, delay: real)
    requires busy != []
    ensures Run(Later(busy, delay), jobs) == Later(Run(busy, jobs), delay)
    decreases |jobs|
  {
    if jobs != [] {
      PlaceLater(busy, jobs[0], delay);
      RunLater(Place(busy, jobs[0]), jobs[1..], delay);
    }
  }

  lemma {:induction false} CountPointwise(u: seq<real>, v: seq<real>, level: real)
    requires |u| == |v| && forall i :: 0 <= i < |u| ==> u[i] <= v[i]
    ensures CountAbove(u, level) <= CountAbove(v, level)
  {
    if u != [] {
      CountPointwise(u[1..], v[1..], level);
    }
  }

  /** A job on one worker does less than a delay of its length for all of them. */
  lemma PlaceWithinLater(busy: seq<real>, job: real)
    requires busy != [] && 0.0 <= job
    ensures Dominated(Place(busy, job), Later(busy, job))
  {
    forall level: real
      ensures CountAbove(Place(busy, job), level) <= CountAbove(Later(busy, job), level)
    {
      CountPointwise(Place(busy, job), Later(busy, job), level);
    }
  }

  lemma {:induction false} RunWithOneMore(before: seq<real>, job: real, after: seq<real>, workers: nat)
    requires workers >= 1
    ensures var loads := Run(Idle(workers), before);
            && Makespan(before + after, workers) == Busiest(Run(loads, after))
            && Makespan(before + [job] + after, workers) == Busiest(Run(Place(loads, job), after))
  {
    var idle := Idle(workers);
    var loads := Run(idle, before);
    RunAppend(idle, before, after);
    RunAppend(idle, before + [job], after);
    RunAppend(idle, before, [job]);
    assert Run(loads, [job]) == Place(loads, job) by {
      assert [job][1..] == [];
    }
  }

  /** One more job, anywhere in the order, never ends earlier, and later by its own length at most. */
  lemma OneMoreJob(before: seq<real>, job: real, after: seq<real>, workers: nat)
    requires workers >= 1 && 0.0 <= job && Nonnegative(after)
    ensures Makespan(before + after, workers) <= Makespan(before + [job] + after, workers)
    ensures Makespan(before + [job] + after, workers) <= Makespan(before + after, workers) + job
  {
    var loads := Run(Idle(workers), before);
    RunWithOneMore(before, job, after, workers);
    PlaceDominates(loads, job);
    RunDominated(loads, Place(loads, job), after, after);
    BusiestDominated(Run(loads, after), Run(Place(loads, job), after));
    PlaceWithinLater(loads, job);
    RunDominated(Place(loads, job), Later(loads, job), after, after);
    RunLater(loads, after, job);
    BusiestDominated(Run(Place(loads, job), after), Later(Run(loads, after), job));
  }

  /** One worker runs all the jobs, one after another. */
  lemma OneWorker(jobs: seq<real>)
    ensures Makespan(jobs, 1) == Sum(jobs)
  {
    var loads := Run(Idle(1), jobs);
    RunSum(Idle(1), jobs);
    assert loads == [loads[0]] && Idle(1) == [0.0];
  }

  /** A shorter job after a longer one takes another worker, and no more time. */
  lemma ShorterSecond(long: real, short: real, workers: nat)
    requires workers >= 2 && 0.0 <= short <= long
    ensures Makespan([long, short], workers) == long
  {
    var idle := Idle(workers);
    var loads := Place(idle, long);
    assert [long, short][1..] == [short] && [short][1..] == [];
    assert Run(loads, [short]) == Place(loads, short);
    var other := if Free(idle) == 0 then 1 else 0;
    assert loads[Free(loads)] <= loads[other] == 0.0;
    assert Place(loads, short)[Free(idle)] >= long;
  }

  // ---- Any worker that is least busy ----------------------------------------------------------

  ghost predicate LeastBusy(loads: seq<real>, k: nat) {
    k < |loads| && forall i :: 0 <= i < |loads| ==> loads[k] <= loads[i]
  }

  /** Each job, in turn, goes to a worker that is least busy then; `chosen` says which, any one of them. */
  ghost predicate HandedOut(jobs: seq<real>, workers: nat, chosen: seq<nat>) {
    && Assignment(chosen, |jobs|, workers)
    && forall k :: 0 <= k < |jobs| ==> LeastBusy(Assigned(Idle(workers), jobs[..k], chosen[..k]), chosen[k])
  }

  /** What the workers got that have the same number. */
  function SharesOf(jobs: seq<real>, chosen: seq<nat>, worker: nat): seq<real>
    requires |jobs| == |chosen|
  {
    if jobs == [] then []
    else (if chosen[0] == worker then [jobs[0]] else []) + SharesOf(jobs[1..], chosen[1..], worker)
  }

  /** The load of a worker is what it had and the sum of the jobs it was chosen for. */
  lemma {:induction false} AssignedLoad(busy: seq<real>, jobs: seq<real>, chosen: seq<nat>, worker: nat)
    requires Assignment(chosen, |jobs|, |busy|) && worker < |busy|
    ensures Assigned(busy, jobs, chosen)[worker] == busy[worker] + Sum(SharesOf(jobs, chosen, worker))
    decreases |jobs|
  {
    if jobs != [] {
      AssignedLoad(busy[chosen[0] := busy[chosen[0]] + jobs[0]], jobs[1..], chosen[1..], worker);
      var rest := SharesOf(jobs[1..], chosen[1..], worker);
      assert ([jobs[0]] + rest)[1..] == rest && [] + rest == rest;
    }
  }

  lemma {:induction false} AssignedLast(busy: seq<real>, jobs: seq<real>, chosen: seq<nat>, job: real, worker: nat)
    requires Assignment(chosen, |jobs|, |busy|) && worker < |busy|
    ensures var loads := Assigned(busy, jobs, chosen);
            Assigned(busy, jobs + [job], chosen + [worker]) == loads[worker := loads[worker] + job]
    decreases |jobs|
  {
    if jobs == [] {
      assert jobs + [job] == [job] && chosen + [worker] == [worker] && [job][1..] == [];
    } else {
      assert (jobs + [job])[1..] == jobs[1..] + [job] && (chosen + [worker])[1..] == chosen[1..] + [worker];
      AssignedLast(busy[chosen[0] := busy[chosen[0]] + jobs[0]], jobs[1..], chosen[1..], job, worker);
    }
  }

  lemma AssignedNext(jobs: seq<real>, workers: nat, chosen: seq<nat>, k: nat)
    requires Assignment(chosen, |jobs|, workers) && k < |jobs|
    ensures var loads := Assigned(Idle(workers), jobs[..k], chosen[..k]);
            Assigned(Idle(workers), jobs[..k + 1], chosen[..k + 1])
            == loads[chosen[k] := loads[chosen[k]] + jobs[k]]
  {
    assert jobs[..k + 1] == jobs[..k] + [jobs[k]] && chosen[..k + 1] == chosen[..k] + [chosen[k]];
    AssignedLast(Idle(workers), jobs[..k], chosen[..k], jobs[k], chosen[k]);
  }

  lemma SameLeast(u: seq<real>, v: seq<real>, k: nat)
    requires u != [] && Dominated(u, v) && Dominated(v, u) && LeastBusy(v, k)
    ensures u[Free(u)] == v[k]
  {
    FreeDominated(u, v);
    FreeDominated(v, u);
  }

  lemma {:induction false} CountsPlaced(u: seq<real>, v: seq<real>, k: nat, job: real, level: real)
    requires u != [] && k < |v| && u[Free(u)] == v[k] && CountAbove(u, level) == CountAbove(v, level)
    ensures CountAbove(Place(u, job), level) == CountAbove(v[k := v[k] + job], level)
  {
    CountUpdate(u, Free(u), u[Free(u)] + job, level);
    CountUpdate(v, k, v[k] + job, level);
  }

  /** Which of the least busy workers gets a job does not change how many workers are above any load. */
  lemma {:induction false} PlacedAlike(u: seq<real>, v: seq<real>, k: nat, job: real)
    requires u != [] && Dominated(u, v) && Dominated(v, u) && LeastBusy(v, k)
    ensures Dominated(Place(u, job), v[k := v[k] + job]) && Dominated(v[k := v[k] + job], Place(u, job))
  {
    SameLeast(u, v, k);
    forall level: real
      ensures CountAbove(Place(u, job), level) == CountAbove(v[k := v[k] + job], level)
    {
      assert CountAbove(u, level) <= CountAbove(v, level) <= CountAbove(u, level);
      CountsPlaced(u, v, k, job, level);
    }
  }

  lemma {:induction false} HandedOutAlike(jobs: seq<real>, workers: nat, chosen: seq<nat>, k: nat)
    requires workers >= 1 && HandedOut(jobs, workers, chosen) && k <= |jobs|
    ensures var run, loads := Run(Idle(workers), jobs[..k]), Assigned(Idle(workers), jobs[..k], chosen[..k]);
            Dominated(run, loads) && Dominated(loads, run)
  {
    if k > 0 {
      var m: nat := k - 1;
      HandedOutAlike(jobs, workers, chosen, m);
      AssignedNext(jobs, workers, chosen, m);
      RunToNext(jobs, m, workers);
      PlacedAlike(Run(Idle(workers), jobs[..m]), Assigned(Idle(workers), jobs[..m], chosen[..m]), chosen[m], jobs[m]);
    }
  }

  /** However ties between the least busy workers are broken, the last worker ends at the same time. */
  lemma {:induction false} AnyLeastBusy(jobs: seq<real>, workers: nat, chosen: seq<nat>)
    requires workers >= 1 && HandedOut(jobs, workers, chosen)
    ensures Makespan(jobs, workers) == AssignedTime(jobs, workers, chosen)
  {
    HandedOutAlike(jobs, workers, chosen, |jobs|);
    assert jobs[..|jobs|] == jobs && chosen[..|jobs|] == chosen;
    BusiestDominated(Run(Idle(workers), jobs), Assigned(Idle(workers), jobs, chosen));
    BusiestDominated(Assigned(Idle(workers), jobs, chosen), Run(Idle(workers), jobs));
  }

  /** Jobs can be handed out that way. */
  lemma {:induction false} SomeHandOut(jobs: seq<real>, workers: nat) returns (chosen: seq<nat>)
    requires workers >= 1
    ensures HandedOut(jobs, workers, chosen)
  {
    if jobs == [] {
      chosen := [];
    } else {
      var n := |jobs| - 1;
      var before := SomeHandOut(jobs[..n], workers);
      var worker := Free(Assigned(Idle(workers), jobs[..n], before));
      chosen := before + [worker];
      forall k | 0 <= k < |jobs|
        ensures LeastBusy(Assigned(Idle(workers), jobs[..k], chosen[..k]), chosen[k])
      {
        assert chosen[..k] == before[..k] && jobs[..k] == jobs[..n][..k];
        assert k == n ==> before[..k] == before;
      }
    }
  }
}
