/** The check of what the parts of a suite ran against the files of the suite. */
module TestParts {
  import opened Ordering

  datatype Verdict = Verdict(missing: seq<string>, twice: seq<(string, nat)>, unknown: seq<string>, empty: seq<nat>)

  /** A verdict with nothing to report. */
  predicate Passes(v: Verdict) {
    v.missing == [] && v.twice == [] && v.unknown == [] && v.empty == []
  }

  /** In how many parts a file ran; a part that names it twice ran it once. */
  function RunsOf(parts: seq<seq<string>>, file: string): nat {
    if parts == [] then 0 else (if file in parts[0] then 1 else 0) + RunsOf(parts[1..], file)
  }

  function Kept(files: seq<string>, keep: string -> bool): (r: seq<string>)
    ensures forall f :: f in r <==> f in files && keep(f)
  {
    if files == [] then []
    else
      assert files == [files[0]] + files[1..];
      (if keep(files[0]) then [files[0]] else []) + Kept(files[1..], keep)
  }

  /** What a verdict says of the parts, member by member. */
  ghost predicate Judges(v: Verdict, files: seq<string>, parts: seq<seq<string>>) {
    && v.missing == Kept(files, f => RunsOf(parts, f) == 0)
    && Sorted(TextLe, Names(v.twice)) && Distinct(Names(v.twice))
    && (forall f, n :: (f, n) in v.twice <==> n == RunsOf(parts, f) && n > 1)
    && Sorted(TextLe, v.unknown) && Distinct(v.unknown)
    && (forall f :: f in v.unknown <==> RunsOf(parts, f) > 0 && f !in files)
    && (forall i, j :: 0 <= i < j < |v.empty| ==> v.empty[i] < v.empty[j])
    && (forall k :: k in v.empty <==> 1 <= k <= |parts| && parts[k - 1] == [])
  }

  function Names(twice: seq<(string, nat)>): (r: seq<string>)
    ensures |r| == |twice| && forall i :: 0 <= i < |r| ==> r[i] == twice[i].0
  {
    seq(|twice|, i requires 0 <= i < |twice| => twice[i].0)
  }

  /** Each file in one part, no file that is not of the suite, and no part with nothing to run. */
  ghost predicate ExactCut(files: seq<string>, parts: seq<seq<string>>) {
    && (forall f :: f in files ==> RunsOf(parts, f) == 1)
    && (forall i, f :: 0 <= i < |parts| && f in parts[i] ==> f in files)
    && (forall i :: 0 <= i < |parts| ==> parts[i] != [])
  }

  lemma {:induction false} RanSomewhere(parts: seq<seq<string>>, file: string)
    ensures RunsOf(parts, file) > 0 <==> exists i :: 0 <= i < |parts| && file in parts[i]
  {
    if parts != [] {
      RanSomewhere(parts[1..], file);
      if RunsOf(parts[1..], file) > 0 {
        var i :| 0 <= i < |parts[1..]| && file in parts[1..][i];
        assert file in parts[i + 1];
      }
    }
  }

  /** A verdict passes exactly when the parts are an exact cut of the suite. */
  lemma PassesExactly(v: Verdict, files: seq<string>, parts: seq<seq<string>>)
    requires Judges(v, files, parts)
    ensures Passes(v) <==> ExactCut(files, parts)
  {
    if ExactCut(files, parts) {
      forall f
        ensures RunsOf(parts, f) > 0 ==> f in files
      {
        RanSomewhere(parts, f);
      }
      NoMembers(v.missing);
      NoMembers(v.unknown);
      NoMembers(v.empty);
      NoMembers(v.twice);
    } else if Passes(v) {
      forall f | f in files
        ensures RunsOf(parts, f) == 1
      {
        assert (f, RunsOf(parts, f)) !in v.twice;
        assert f !in v.missing;
      }
      forall i, f | 0 <= i < |parts| && f in parts[i]
        ensures f in files
      {
        RanSomewhere(parts, f);
        assert f !in v.unknown;
      }
      forall i | 0 <= i < |parts|
        ensures parts[i] != []
      {
        assert i + 1 !in v.empty;
      }
    }
  }

  lemma {:induction false} RunsAppend(a: seq<seq<string>>, part: seq<string>, file: string)
    ensures RunsOf(a + [part], file) == RunsOf(a, file) + (if file in part then 1 else 0)
  {
    if a == [] {
      assert a + [part] == [part];
    } else {
      assert (a + [part])[1..] == a[1..] + [part];
      RunsAppend(a[1..], part, file);
    }
  }

  lemma {:induction false} SortedNames(s: seq<string>)
    requires Distinct(s)
    ensures var r := Sort(TextLe, s); Sorted(TextLe, r) && Distinct(r) && forall f :: f in r <==> f in s
  {
    TextOrder();
    SortSorted(TextLe, s);
    SortMembers(TextLe, s);
    SortDistinct(TextLe, s);
  }

  /** How many runs each file has, with the files in the order they were first run. */
  method CountRuns(parts: seq<seq<string>>) returns (runs: map<string, nat>, ran: seq<string>)
    ensures Distinct(ran) && (forall f :: f in ran <==> f in runs)
    ensures forall f :: f in runs <==> RunsOf(parts, f) > 0
    ensures forall f :: f in runs ==> runs[f] == RunsOf(parts, f)
  {
    runs, ran := map[], [];
    for i := 0 to |parts|
      invariant Distinct(ran) && (forall f :: f in ran <==> f in runs)
      invariant forall f :: f in runs <==> RunsOf(parts[..i], f) > 0
      invariant forall f :: f in runs ==> runs[f] == RunsOf(parts[..i], f)
    {
      var part := parts[i];
      ghost var before := runs;
      var seen: set<string> := {};
      for j := 0 to |part|
        invariant Distinct(ran) && (forall f :: f in ran <==> f in runs)
        invariant forall f :: f in seen <==> f in part[..j]
        invariant forall f :: f in runs <==> f in before || f in seen
        invariant forall f :: f in runs ==>
          runs[f] == (if f in before then before[f] else 0) + (if f in seen then 1 else 0)
      {
        var file := part[j];
        assert part[..j + 1] == part[..j] + [file];
        if file !in seen {
          seen := seen + {file};
          if file !in runs {
            ran := ran + [file];
          }
          runs := runs[file := (if file in runs then runs[file] else 0) + 1];
        }
      }
      assert part[..|part|] == part && parts[..i + 1] == parts[..i] + [part];
      forall f
        ensures RunsOf(parts[..i + 1], f) == RunsOf(parts[..i], f) + (if f in part then 1 else 0)
      {
        RunsAppend(parts[..i], part, f);
      }
    }
    assert parts[..|parts|] == parts;
  }

  /** The parts that ran nothing, counted from 1. */
  method EmptyOf(parts: seq<seq<string>>) returns (empty: seq<nat>)
    ensures forall i, j :: 0 <= i < j < |empty| ==> empty[i] < empty[j]
    ensures forall k :: k in empty <==> 1 <= k <= |parts| && parts[k - 1] == []
  {
    empty := [];
    for i := 0 to |parts|
      invariant forall i, j :: 0 <= i < j < |empty| ==> empty[i] < empty[j]
      invariant forall k :: k in empty <==> 1 <= k <= i && parts[k - 1] == []
    {
      if parts[i] == [] {
        assert forall j :: 0 <= j < |empty| ==> empty[j] in empty;
        empty := empty + [i + 1];
      }
    }
  }

  lemma {:induction false} KeptDistinct(files: seq<string>, keep: string -> bool)
    requires Distinct(files)
    ensures Distinct(Kept(files, keep))
  {
    if files != [] {
      KeptDistinct(files[1..], keep);
    }
  }

  /** The files of a list that a test keeps, each once, by name. */
  method SortedKept(ran: seq<string>, keep: string -> bool) returns (names: seq<string>)
    requires Distinct(ran)
    ensures Sorted(TextLe, names) && Distinct(names)
    ensures forall f :: f in names <==> f in ran && keep(f)
  {
    KeptDistinct(ran, keep);
    SortedNames(Kept(ran, keep));
    names := Sort(TextLe, Kept(ran, keep));
  }

  method PairsOf(names: seq<string>, runs: map<string, nat>) returns (pairs: seq<(string, nat)>)
    requires forall f :: f in names ==> f in runs
    ensures Names(pairs) == names
    ensures forall f, n :: (f, n) in pairs <==> f in names && n == runs[f]
  {
    pairs := [];
    for i := 0 to |names|
      invariant Names(pairs) == names[..i]
      invariant forall f, n :: (f, n) in pairs <==> f in names[..i] && n == runs[f]
    {
      assert names[..i + 1] == names[..i] + [names[i]];
      assert names[i] in names;
      pairs := pairs + [(names[i], runs[names[i]])];
    }
    assert names[..|names|] == names;
  }

  method VerdictOf(files: seq<string>, parts: seq<seq<string>>) returns (v: Verdict)
    ensures Judges(v, files, parts)
  {
    var runs, ran := CountRuns(parts);
    var missing := Kept(files, f => f !in runs);
    KeptSame(files, f => f !in runs, f => RunsOf(parts, f) == 0);
    var often := SortedKept(ran, f => f in runs && runs[f] > 1);
    var twice := PairsOf(often, runs);
    var unknown := SortedKept(ran, f => f !in files);
    var empty := EmptyOf(parts);
    v := Verdict(missing, twice, unknown, empty);
  }

  lemma {:induction false} KeptSame(files: seq<string>, a: string -> bool, b: string -> bool)
    requires forall f :: f in files ==> a(f) == b(f)
    ensures Kept(files, a) == Kept(files, b)
  {
    if files != [] {
      KeptSame(files[1..], a, b);
    }
  }

  lemma {:induction false} PlacesOf(parts: seq<seq<string>>, file: string) returns (places: set<nat>)
    ensures forall i: nat :: i in places <==> i < |parts| && file in parts[i]
    ensures RunsOf(parts, file) == |places|
  {
    if parts == [] {
      places := {};
    } else {
      var n: nat := |parts| - 1;
      var before := PlacesOf(parts[..n], file);
      assert parts == parts[..n] + [parts[n]];
      RunsAppend(parts[..n], parts[n], file);
      places := if file in parts[n] then before + {n} else before;
    }
  }

  /** The runs of a file are the places of the parts that hold it, counted. */
  lemma {:induction false} RunsExactly(parts: seq<seq<string>>, file: string, places: set<nat>)
    requires forall i: nat :: i in places <==> i < |parts| && file in parts[i]
    ensures RunsOf(parts, file) == |places|
  {
    var same := PlacesOf(parts, file);
    assert same == places;
  }

  /** What is missing is listed in the order of the files, as often as they list it. */
  lemma {:induction false} KeptInTurn(files: seq<string>, file: string, keep: string -> bool)
    ensures Kept([], keep) == [] && Kept(files + [file], keep) == Kept(files, keep) + if keep(file) then [file] else []
  {
    if files == [] {
      assert files + [file] == [file] && [file][1..] == [];
    } else {
      assert (files + [file])[1..] == files[1..] + [file];
      KeptInTurn(files[1..], file, keep);
    }
  }
}
