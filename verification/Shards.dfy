/** The parts of a test suite, cut by the duration of its files. */
module Shards {
  import opened Decimals
  import opened Ordering
  import opened ListScheduling
  import opened Options

  function Times(files: seq<string>, seconds: string -> real): (r: seq<real>)
    ensures |r| == |files| && forall i :: 0 <= i < |files| ==> r[i] == seconds(files[i])
  {
    seq(|files|, i requires 0 <= i < |files| => seconds(files[i]))
  }

  function Total(files: seq<string>, seconds: string -> real): real {
    Sum(Times(files, seconds))
  }

  /** When the last worker of a part ends, with its files sorted by path and handed out in that order. */
  function PartTime(files: seq<string>, seconds: string -> real, workers: nat): real
    requires workers >= 1
  {
    Makespan(Times(Sort(TextLe, files), seconds), workers)
  }

  lemma RunNext(busy: seq<real>, files: seq<string>, i: nat, seconds: string -> real)
    requires busy != [] && i < |files|
    ensures Run(busy, Times(files[i..], seconds))
         == Run(Place(busy, seconds(files[i])), Times(files[i + 1..], seconds))
  {
    assert Times(files[i..], seconds)[1..] == Times(files[i + 1..], seconds);
  }

  method AddToFree(busy: array<real>, job: real)
    requires busy.Length >= 1
    modifies busy
    ensures busy[..] == Place(old(busy[..]), job)
  {
    var free := IndexOf(busy[..], Least(busy[..]));
    busy[free] := busy[free] + job;
  }

  method PartSeconds(files: seq<string>, seconds: string -> real, workers: nat) returns (time: real)
    requires workers >= 1
    ensures time == PartTime(files, seconds, workers)
  {
    var busy := new real[workers](_ => 0.0);
    var sorted := Sort(TextLe, files);
    ghost var all := Run(Idle(workers), Times(sorted, seconds));
    assert busy[..] == Idle(workers) && sorted[0..] == sorted;
    for i := 0 to |sorted|
      invariant Run(busy[..], Times(sorted[i..], seconds)) == all
    {
      RunNext(busy[..], sorted, i, seconds);
      AddToFree(busy, seconds(sorted[i]));
    }
    assert Times(sorted[|sorted|..], seconds) == [];
    time := Busiest(busy[..]);
  }

  // ---- The greedy cut -------------------------------------------------------------------------

  type Key = (real, real)

  predicate KeyLess(a: Key, b: Key) {
    a.0 < b.0 || (a.0 == b.0 && a.1 < b.1)
  }

  /** Of the first `n` keys, `k` is the least one, and the first of those. */
  ghost predicate FirstLeast(keys: seq<Key>, n: nat, k: nat) {
    && k < n <= |keys|
    && (forall j :: 0 <= j < n ==> !KeyLess(keys[j], keys[k]))
    && (forall j :: 0 <= j < k ==> KeyLess(keys[k], keys[j]))
  }

  function BestOf(keys: seq<Key>): (k: nat)
    requires keys != []
    ensures k < |keys|
  {
    if |keys| == 1 then 0
    else
      var rest := BestOf(keys[1..]);
      if KeyLess(keys[1..][rest], keys[0]) then rest + 1 else 0
  }

  function KeyOf(part: seq<string>, file: string, seconds: string -> real, workers: nat): Key
    requires workers >= 1
  {
    (PartTime(part + [file], seconds, workers), Total(part, seconds))
  }

  function KeysOf(out: seq<seq<string>>, file: string, seconds: string -> real, workers: nat): (r: seq<Key>)
    requires workers >= 1
    ensures |r| == |out|
  {
    if out == [] then []
    else [KeyOf(out[0], file, seconds, workers)] + KeysOf(out[1..], file, seconds, workers)
  }

  lemma {:induction false} KeysAt(out: seq<seq<string>>, file: string, seconds: string -> real, workers: nat, i: nat)
    requires workers >= 1 && i < |out|
    ensures KeysOf(out, file, seconds, workers)[i] == KeyOf(out[i], file, seconds, workers)
  {
    if i > 0 {
      KeysAt(out[1..], file, seconds, workers, i - 1);
    }
  }

  function Put(out: seq<seq<string>>, file: string, seconds: string -> real, workers: nat): (r: seq<seq<string>>)
    requires workers >= 1
    ensures |r| == |out|
  {
    if out == [] then out
    else
      var best := BestOf(KeysOf(out, file, seconds, workers));
      out[best := out[best] + [file]]
  }

  function PutAll(out: seq<seq<string>>, files: seq<string>, seconds: string -> real, workers: nat)
    : (r: seq<seq<string>>)
    requires workers >= 1
    ensures |r| == |out|
    decreases |files|
  {
    if files == [] then out else PutAll(Put(out, files[0], seconds, workers), files[1..], seconds, workers)
  }

  function Known(files: seq<string>, durations: map<string, real>): seq<string> {
    if files == [] then []
    else (if files[0] in durations then [files[0]] else []) + Known(files[1..], durations)
  }

  function Lookup(durations: map<string, real>, mean: real): string -> real {
    file => if file in durations then durations[file] else mean
  }

  function Mean(files: seq<string>, durations: map<string, real>): real {
    var known := Known(files, durations);
    if known == [] then 1.0 else Total(known, Lookup(durations, 0.0)) / |known| as real
  }

  /** The seconds of a file: what it took, or the mean of the files that a run measured. */
  function SecondsOf(files: seq<string>, durations: map<string, real>): string -> real {
    Lookup(durations, Mean(files, durations))
  }

  /** The longest first; `collate` breaks a tie, and stands for the order of `localeCompare`. */
  function LongestFirst(seconds: string -> real, collate: (string, string) -> bool): (string, string) -> bool {
    (a, b) => seconds(a) > seconds(b) || (seconds(a) == seconds(b) && collate(a, b))
  }

  function SortedParts(out: seq<seq<string>>): (r: seq<seq<string>>)
    ensures |r| == |out| && forall i :: 0 <= i < |out| ==> r[i] == Sort(TextLe, out[i])
  {
    if out == [] then [] else [Sort(TextLe, out[0])] + SortedParts(out[1..])
  }

  function EmptyParts(parts: nat): (r: seq<seq<string>>)
    ensures |r| == parts && forall i :: 0 <= i < parts ==> r[i] == []
  {
    seq(parts, _ => [])
  }

  function Order(files: seq<string>, durations: map<string, real>, collate: (string, string) -> bool): seq<string> {
    Sort(LongestFirst(SecondsOf(files, durations), collate), files)
  }

  /** The parts before each is sorted. */
  function Cut(files: seq<string>, durations: map<string, real>, parts: nat, workers: nat,
               collate: (string, string) -> bool): (r: seq<seq<string>>)
    requires workers >= 1
    ensures |r| == parts
  {
    PutAll(EmptyParts(parts), Order(files, durations, collate), SecondsOf(files, durations), workers)
  }

  function Parts(files: seq<string>, durations: map<string, real>, parts: nat, workers: nat,
                 collate: (string, string) -> bool): (r: seq<seq<string>>)
    requires workers >= 1
    ensures |r| == parts
  {
    SortedParts(Cut(files, durations, parts, workers, collate))
  }

  lemma FirstLeastUnique(keys: seq<Key>, n: nat, a: nat, b: nat)
    requires FirstLeast(keys, n, a) && FirstLeast(keys, n, b)
    ensures a == b
  {
    assert !KeyLess(keys[a], keys[b]) && !KeyLess(keys[b], keys[a]);
  }

  lemma FirstLeastNext(keys: seq<Key>, n: nat, k: nat)
    requires n < |keys| && FirstLeast(keys, n, k)
    ensures FirstLeast(keys, n + 1, if KeyLess(keys[n], keys[k]) then n else k)
  {
  }

  /** What the best part is: the first of those with the least key. */
  lemma {:induction false} BestIsFirstLeast(keys: seq<Key>)
    requires keys != []
    ensures FirstLeast(keys, |keys|, BestOf(keys))
  {
    if |keys| > 1 {
      var rest := keys[1..];
      BestIsFirstLeast(rest);
      var k := BestOf(rest);
      assert keys[k + 1] == rest[k];
      forall j | 1 <= j < |keys| ensures keys[j] == rest[j - 1] {
      }
    }
  }

  method MeasureKey(part: seq<string>, file: string, seconds: string -> real, workers: nat) returns (key: Key)
    requires workers >= 1
    ensures key == KeyOf(part, file, seconds, workers)
  {
    var time := PartSeconds(part + [file], seconds, workers);
    key := (time, Total(part, seconds));
  }

  /** The scan of the parts for one file: the first part with the least key. */
  method Choose(out: seq<seq<string>>, file: string, seconds: string -> real, workers: nat) returns (best: nat)
    requires workers >= 1
    ensures out == [] ==> best == 0
    ensures out != [] ==> best == BestOf(KeysOf(out, file, seconds, workers))
  {
    best := 0;
    var bestKey: Option<Key> := None;
    ghost var keys := KeysOf(out, file, seconds, workers);
    for index := 0 to |out|
      invariant index == 0 ==> best == 0 && bestKey == None
      invariant index > 0 ==> FirstLeast(keys, index, best) && bestKey == Some(keys[best])
    {
      var key := MeasureKey(out[index], file, seconds, workers);
      KeysAt(out, file, seconds, workers, index);
      if index > 0 {
        FirstLeastNext(keys, index, best);
      }
      if bestKey == None || KeyLess(key, bestKey.value) {
        best := index;
        bestKey := Some(key);
      }
    }
    if out != [] {
      BestIsFirstLeast(keys);
      FirstLeastUnique(keys, |out|, best, BestOf(keys));
    }
  }

  method PartsOf(files: seq<string>, durations: map<string, real>, parts: nat, workers: nat,
                 collate: (string, string) -> bool) returns (out: seq<seq<string>>)
    requires workers >= 1
    ensures out == Parts(files, durations, parts, workers, collate)
  {
    var seconds := SecondsOf(files, durations);
    var longestFirst := Sort(LongestFirst(seconds, collate), files);
    out := seq(parts, _ => []);
    assert out == EmptyParts(parts) && longestFirst[0..] == longestFirst;
    for i := 0 to |longestFirst|
      invariant |out| == parts
      invariant PutAll(out, longestFirst[i..], seconds, workers) == Cut(files, durations, parts, workers, collate)
    {
      var file := longestFirst[i];
      assert longestFirst[i..][1..] == longestFirst[i + 1..];
      var best := Choose(out, file, seconds, workers);
      if best < |out| {
        out := out[best := out[best] + [file]];
      }
    }
    out := SortedParts(out);
  }

  // ---- One job of the matrix ------------------------------------------------------------------

  /** The place of the first `/`, or the length of the text. */
  function SlashOf(value: string): (k: nat)
    ensures k <= |value| && (forall i :: 0 <= i < k ==> value[i] != '/') && (k < |value| ==> value[k] == '/')
  {
    if value == [] || value[0] == '/' then 0 else SlashOf(value[1..]) + 1
  }

  /** `2/3` names the second part of three; nothing else but `<part>/<parts>` with 1 <= part <= parts names one. */
  function ShardOf(value: string): Option<(nat, nat)> {
    var k := SlashOf(value);
    if k == 0 || k + 1 >= |value| || !IsDigits(value[..k]) || !IsDigits(value[k + 1..]) then None
    else
      var index, total := NumberOf(value[..k]), NumberOf(value[k + 1..]);
      if index < 1 || total < 1 || index > total then None else Some((index, total))
  }

  /** The files of one job of the matrix: its part of the whole cut. */
  function FilesOfJob(index: nat, total: nat, files: seq<string>, durations: map<string, real>, workers: nat,
                      collate: (string, string) -> bool): seq<string>
    requires workers >= 1 && 1 <= index <= total
  {
    Parts(files, durations, total, workers, collate)[index - 1]
  }

  /** The files that the job `value` runs, of a folder that lists `files`; `None` for a refused value. */
  function FilesOfShard(value: string, files: seq<string>, durations: map<string, real>, workers: nat,
                        collate: (string, string) -> bool): Option<seq<string>>
    requires workers >= 1
  {
    match ShardOf(value)
    case None => None
    case Some(shard) => Some(FilesOfJob(shard.0, shard.1, files, durations, workers, collate))
  }
}
