/** The cut of the suite meets the rule that `tools/ci/test-parts.ts` sets for the parts of a suite. */
module ShardCertificate {
  import opened Decimals
  import opened Options
  import opened Ordering
  import opened Shards
  import opened ShardProperties
  import opened TestParts

  lemma {:induction false} RunsWithinContents(parts: seq<seq<string>>, f: string)
    ensures RunsOf(parts, f) <= Contents(parts)[f]
    ensures RunsOf(parts, f) == 0 <==> Contents(parts)[f] == 0
  {
    if parts != [] {
      RunsWithinContents(parts[1..], f);
      assert f in parts[0] <==> f in multiset(parts[0]);
    }
  }

  /** Parts that conserve distinct files are an exact cut once none is empty. */
  lemma ConservedCut(files: seq<string>, out: seq<seq<string>>)
    requires Distinct(files) && Contents(out) == multiset(files)
    ensures ExactCut(files, out) <==> NoneEmpty(out)
  {
    DistinctOnce(files);
    forall f
      ensures RunsOf(out, f) == if f in files then 1 else 0
    {
      RunsWithinContents(out, f);
      assert f in files <==> f in multiset(files);
    }
    forall i, f | 0 <= i < |out| && f in out[i]
      ensures f in files
    {
      RanSomewhere(out, f);
    }
  }

  /** The greedy cut passes the check exactly when there are files enough for its parts. */
  lemma {:induction false} GreedyPasses(files: seq<string>, durations: map<string, real>, parts: nat, workers: nat,
                                        collate: (string, string) -> bool, v: Verdict)
    requires workers >= 1 && parts >= 1 && TotalOrder(collate) && Distinct(files)
    requires forall f :: f in files && f in durations ==> 0.0 <= durations[f]
    requires Judges(v, files, Parts(files, durations, parts, workers, collate))
    ensures Passes(v) <==> parts <= |files| && parts - 1 <= PositiveCount(files, SecondsOf(files, durations))
  {
    PassesExactly(v, files, Parts(files, durations, parts, workers, collate));
    NoPartEmpty(files, durations, parts, workers, collate);
    FilesConserved(files, durations, parts, workers, collate);
    ConservedCut(files, Parts(files, durations, parts, workers, collate));
  }

  /** With parts of a matrix and durations above zero, one file for each part is all it takes to pass. */
  lemma {:induction false} GreedyPassesWhenPositive(files: seq<string>, durations: map<string, real>, parts: nat,
                                                    workers: nat, collate: (string, string) -> bool, v: Verdict)
    requires workers >= 1 && parts >= 1 && TotalOrder(collate) && Distinct(files)
    requires forall f :: f in files && f in durations ==> 0.0 < durations[f]
    requires Judges(v, files, Parts(files, durations, parts, workers, collate))
    ensures Passes(v) <==> parts <= |files|
  {
    GreedyPasses(files, durations, parts, workers, collate, v);
    NoPartEmpty(files, durations, parts, workers, collate);
    NoPartEmptyWhenPositive(files, durations, parts, workers, collate);
  }

  // ---- The jobs of a matrix -------------------------------------------------------------------

  lemma {:induction false} SlashSplits(left: string, right: string)
    requires IsDigits(left)
    ensures SlashOf(left + "/" + right) == |left|
  {
    if left == [] {
      assert (left + "/" + right)[0] == '/';
    } else {
      assert left[0] in DIGITS && '/' !in DIGITS;
      assert (left + "/" + right)[1..] == left[1..] + "/" + right;
      SlashSplits(left[1..], right);
    }
  }

  /** The name of a job reads back as its part, exactly for the parts there are. */
  lemma {:induction false} ShardReadsBack(index: nat, total: nat)
    ensures ShardOf(Decimal(index) + "/" + Decimal(total)) == if 1 <= index <= total then Some((index, total)) else None
  {
    var left, right := Decimal(index), Decimal(total);
    var value := left + "/" + right;
    SlashSplits(left, right);
    ReadsBack(index);
    ReadsBack(total);
    assert value[..|left|] == left && value[|left| + 1..] == right;
  }

  /** Digits, one slash, digits, and a part that there is. */
  ghost predicate NamesPart(value: string, left: string, right: string) {
    && value == left + "/" + right && left != [] && right != [] && IsDigits(left) && IsDigits(right)
    && 1 <= NumberOf(left) <= NumberOf(right)
  }

  lemma PartIsRead(value: string, left: string, right: string)
    requires NamesPart(value, left, right)
    ensures ShardOf(value) == Some((NumberOf(left), NumberOf(right)))
  {
    SlashSplits(left, right);
    assert value[..|left|] == left && value[|left| + 1..] == right;
  }

  /** Every other text is refused. */
  lemma OthersRefused(value: string)
    ensures ShardOf(value) == None <==> forall left, right :: !NamesPart(value, left, right)
  {
    if ShardOf(value) != None {
      var k := SlashOf(value);
      assert value == value[..k] + "/" + value[k + 1..];
      assert NamesPart(value, value[..k], value[k + 1..]);
    } else {
      forall left, right
        ensures !NamesPart(value, left, right)
      {
        if NamesPart(value, left, right) {
          PartIsRead(value, left, right);
        }
      }
    }
  }

  lemma {:induction false} RanOnce(parts: seq<seq<string>>, f: string) returns (k: nat)
    requires RunsOf(parts, f) == 1
    ensures k < |parts| && forall i :: 0 <= i < |parts| ==> (f in parts[i] <==> i == k)
  {
    if f in parts[0] {
      k := 0;
      forall i | 1 <= i < |parts|
        ensures f !in parts[i]
      {
        RanSomewhere(parts[1..], f);
        assert parts[i] == parts[1..][i - 1];
      }
    } else {
      var rest := RanOnce(parts[1..], f);
      k := rest + 1;
      assert forall i :: 1 <= i < |parts| ==> parts[i] == parts[1..][i - 1];
    }
  }

  lemma JobIsPart(files: seq<string>, durations: map<string, real>, total: nat, workers: nat,
                  collate: (string, string) -> bool, i: nat)
    requires workers >= 1 && 1 <= i <= total
    ensures FilesOfShard(Decimal(i) + "/" + Decimal(total), files, durations, workers, collate)
         == Some(FilesOfJob(i, total, files, durations, workers, collate))
  {
    ShardReadsBack(i, total);
  }

  lemma OnePart(files: seq<string>, durations: map<string, real>, total: nat, workers: nat,
                collate: (string, string) -> bool, f: string) returns (k: nat)
    requires workers >= 1 && total >= 1 && Distinct(files) && f in files
    ensures k < total
    ensures forall i :: 0 <= i < total ==> (f in Parts(files, durations, total, workers, collate)[i] <==> i == k)
  {
    var out := Parts(files, durations, total, workers, collate);
    FilesConserved(files, durations, total, workers, collate);
    RunsWithinContents(out, f);
    DistinctOnce(files);
    assert f in multiset(files);
    k := RanOnce(out, f);
  }

  /** The jobs `1/total` to `total/total` run every file of the folder, each in one job. */
  lemma EveryFileInOneJob(files: seq<string>, durations: map<string, real>, total: nat, workers: nat,
                          collate: (string, string) -> bool, f: string) returns (job: nat)
    requires workers >= 1 && total >= 1 && Distinct(files) && f in files
    ensures 1 <= job <= total
    ensures forall i :: 1 <= i <= total ==>
              var run := FilesOfShard(Decimal(i) + "/" + Decimal(total), files, durations, workers, collate);
              run.Some? && (f in run.value <==> i == job)
  {
    var k := OnePart(files, durations, total, workers, collate, f);
    job := k + 1;
    forall i | 1 <= i <= total
      ensures var run := FilesOfShard(Decimal(i) + "/" + Decimal(total), files, durations, workers, collate);
        run.Some? && (f in run.value <==> i == job)
    {
      JobIsPart(files, durations, total, workers, collate, i);
    }
  }

  /** The job `i/n` runs the part `i` of the cut in `n`, and a job of any other name runs nothing. */
  lemma {:induction false} JobRunsItsPart(files: seq<string>, durations: map<string, real>, workers: nat,
                                          collate: (string, string) -> bool, value: string, left: string, right: string)
    requires workers >= 1
    ensures NamesPart(value, left, right) ==>
              FilesOfShard(value, files, durations, workers, collate)
              == Some(Parts(files, durations, NumberOf(right), workers, collate)[NumberOf(left) - 1])
    ensures (forall one, other :: !NamesPart(value, one, other)) ==>
              FilesOfShard(value, files, durations, workers, collate) == None
  {
    if NamesPart(value, left, right) {
      PartIsRead(value, left, right);
    }
    OthersRefused(value);
  }
}
