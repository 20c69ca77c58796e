/** What the screen of the statuses writes, and what its list shows once that is written. */
module StatusStore {
  import opened Options
  import opened Ordering
  import opened SiteStatuses

  predicate IsOf(row: Row, source: string, key: string) {
    row.source == source && row.key == key
  }

  function Without(rows: seq<Row>, source: string, key: string): (r: seq<Row>)
    ensures forall row :: row in r <==> row in rows && !IsOf(row, source, key)
  {
    if rows == [] then []
    else
      assert rows == [rows[0]] + rows[1..];
      (if IsOf(rows[0], source, key) then [] else [rows[0]]) + Without(rows[1..], source, key)
  }

  /** A row that was kept takes the place of the one its status had, at the end of the rows. */
  function Saved(rows: seq<Row>, row: Row): seq<Row> {
    Without(rows, row.source, row.key) + [row]
  }

  function SavedAll(rows: seq<Row>, saves: seq<Row>): seq<Row>
    decreases |saves|
  {
    if saves == [] then rows else SavedAll(Saved(rows, saves[0]), saves[1..])
  }

  /** The statuses of a list that have no row. */
  function Unkept(list: seq<Status>): (r: seq<Status>)
    ensures forall status :: status in r <==> status in list && !status.kept
  {
    if list == [] then []
    else
      assert list == [list[0]] + list[1..];
      (if list[0].kept then [] else [list[0]]) + Unkept(list[1..])
  }

  function PlaceIn(next: seq<Status>, source: string, key: string): (r: Option<nat>)
    ensures r != None ==> r.value < |next| && IsOf(next[r.value].row, source, key)
    ensures r == None ==> forall i :: 0 <= i < |next| ==> !IsOf(next[i].row, source, key)
  {
    if next == [] then None
    else if IsOf(next[0].row, source, key) then Some(0)
    else match PlaceIn(next[1..], source, key) case None => None case Some(i) => Some(i + 1)
  }

  function Placed(row: Row, next: seq<Status>): Row {
    match PlaceIn(next, row.source, row.key) case None => row case Some(i) => row.(position := i)
  }

  /** The rows once the order of a list was kept: each at its place there. */
  function Ordered(rows: seq<Row>, next: seq<Status>): (r: seq<Row>)
    ensures |r| == |rows| && forall i :: 0 <= i < |r| ==> r[i] == Placed(rows[i], next)
  {
    seq(|rows|, i requires 0 <= i < |rows| => Placed(rows[i], next))
  }

  /** The rows after a move: a row for each status that has none, then the places of the list. */
  function RowsMoved(rows: seq<Row>, next: seq<Status>): seq<Row> {
    Ordered(SavedAll(rows, RowsOf(Unkept(next))), next)
  }

  /** The writes of a move, one after another. */
  method WriteMove(rows: seq<Row>, next: seq<Status>) returns (written: seq<Row>)
    ensures written == RowsMoved(rows, next)
  {
    var saves := RowsOf(Unkept(next));
    written := rows;
    assert saves[0..] == saves;
    for i := 0 to |saves|
      invariant SavedAll(written, saves[i..]) == SavedAll(rows, saves)
    {
      assert saves[i..][1..] == saves[i + 1..];
      written := Saved(written, saves[i]);
    }
    assert saves[|saves|..] == [];
    written := Ordered(written, next);
  }

  // ---- What is read once a row is saved -------------------------------------------------------

  lemma {:induction false} MineWithout(rows: seq<Row>, source: string, key: string)
    ensures Mine(Without(rows, source, key), source) == Without(Mine(rows, source), source, key)
  {
    if rows != [] {
      MineWithout(rows[1..], source, key);
      var mine, rest := Mine(rows[1..], source), Without(rows[1..], source, key);
      assert ([rows[0]] + mine)[1..] == mine && ([rows[0]] + rest)[1..] == rest;
      assert [] + mine == mine && [] + rest == rest;
    }
  }

  lemma {:induction false} MineSaved(rows: seq<Row>, row: Row)
    ensures Mine(Saved(rows, row), row.source) == Without(Mine(rows, row.source), row.source, row.key) + [row]
  {
    MineAppend(Without(rows, row.source, row.key), [row], row.source);
    MineWithout(rows, row.source, row.key);
    assert Mine([row], row.source) == [row];
  }

  lemma {:induction false} FindAppend(a: seq<Row>, b: seq<Row>, key: string)
    ensures Find(a + b, key) == if Find(a, key) != None then Find(a, key) else Find(b, key)
  {
    if a == [] {
      assert a + b == b;
    } else {
      assert (a + b)[1..] == a[1..] + b;
      FindAppend(a[1..], b, key);
    }
  }

  lemma {:induction false} FindWithout(mine: seq<Row>, source: string, gone: string, key: string)
    requires forall one :: one in mine ==> one.source == source
    ensures Find(Without(mine, source, gone), key) == if key == gone then None else Find(mine, key)
  {
    if mine != [] {
      assert mine == [mine[0]] + mine[1..];
      FindWithout(mine[1..], source, gone, key);
      var rest := Without(mine[1..], source, gone);
      assert [] + rest == rest && ([mine[0]] + rest)[1..] == rest;
    }
  }

  lemma {:induction false} FindSaved(mine: seq<Row>, row: Row, key: string)
    requires forall one :: one in mine ==> one.source == row.source
    ensures Find(Without(mine, row.source, row.key) + [row], key)
         == if key == row.key then Some(row) else Find(mine, key)
  {
    FindAppend(Without(mine, row.source, row.key), [row], key);
    FindWithout(mine, row.source, row.key, key);
    assert Find([row], key) == if key == row.key then Some(row) else None;
  }

  lemma {:induction false} UnknownWithout(rows: seq<Row>, defaults: seq<Status>, source: string, key: string)
    ensures Unknown(Without(rows, source, key), defaults) == Without(Unknown(rows, defaults), source, key)
  {
    if rows != [] {
      UnknownWithout(rows[1..], defaults, source, key);
      var unknown, rest := Unknown(rows[1..], defaults), Without(rows[1..], source, key);
      assert ([rows[0]] + unknown)[1..] == unknown && ([rows[0]] + rest)[1..] == rest;
      assert [] + unknown == unknown && [] + rest == rest;
    }
  }

  lemma {:induction false} WithoutNone(rows: seq<Row>, source: string, key: string)
    requires forall row :: row in rows ==> !IsOf(row, source, key)
    ensures Without(rows, source, key) == rows
  {
    if rows != [] {
      assert rows == [rows[0]] + rows[1..];
      WithoutNone(rows[1..], source, key);
    }
  }

  lemma {:induction false} UnknownSaved(mine: seq<Row>, defaults: seq<Status>, row: Row)
    ensures Unknown(Without(mine, row.source, row.key) + [row], defaults)
         == Without(Unknown(mine, defaults), row.source, row.key) + (if HasKey(defaults, row.key) then [] else [row])
  {
    UnknownAppend(Without(mine, row.source, row.key), [row], defaults);
    UnknownWithout(mine, defaults, row.source, row.key);
    assert KnownKey(defaults, row.key) <==> HasKey(defaults, row.key);
  }

  lemma {:induction false} MergedSaved(defaults: seq<Status>, mine: seq<Row>, row: Row)
    requires forall one :: one in mine ==> one.source == row.source
    ensures Merged(defaults, Without(mine, row.source, row.key) + [row]) == Merged(Merged(defaults, mine), [row])
  {
    forall i | 0 <= i < |defaults|
      ensures Merge(defaults[i], Without(mine, row.source, row.key) + [row]) == Merge(Merge(defaults[i], mine), [row])
    {
      FindSaved(mine, row, defaults[i].row.key);
    }
  }

  lemma {:induction false} AddedUntouched(rows: seq<Row>, from: nat, row: Row)
    requires forall one :: one in rows ==> one.key != row.key
    ensures Merged(Added(rows, from), [row]) == Added(rows, from)
  {
    forall i | 0 <= i < |rows|
      ensures Merge(Added(rows, from)[i], [row]) == Added(rows, from)[i]
    {
      assert rows[i] in rows;
    }
  }

  lemma {:induction false} MergedAppend(a: seq<Status>, b: seq<Status>, rows: seq<Row>)
    ensures Merged(a + b, rows) == Merged(a, rows) + Merged(b, rows)
  {
  }

  lemma {:induction false} ListedSaved(kind: ListKind, defaults: seq<Status>, mine: seq<Row>, row: Row)
    requires forall one :: one in mine ==> one.source == row.source
    requires HasKey(defaults, row.key)
    ensures Listed(kind, defaults, Without(mine, row.source, row.key) + [row])
         == Merged(Listed(kind, defaults, mine), [row])
  {
    var unknown := Unknown(mine, defaults);
    UnknownSaved(mine, defaults, row);
    WithoutNone(unknown, row.source, row.key);
    assert Without(unknown, row.source, row.key) + [] == unknown;
    MergedSaved(defaults, mine, row);
    var added := if kind == Own then Added(unknown, |defaults|) else [];
    MergedAppend(Merged(defaults, mine), added, [row]);
    AddedUntouched(unknown, |defaults|, row);
  }

  /** A row of a default is merged with it, and nothing else changes. */
  lemma {:induction false} DefaultSaved(kind: ListKind, source: string, rows: seq<Row>, states: seq<TrackerState>,
                                        row: Row)
    requires row.source == source && HasKey(DefaultsOf(kind, source, states), row.key)
    ensures Unsorted(kind, source, Saved(rows, row), states) == Merged(Unsorted(kind, source, rows, states), [row])
  {
    MineSaved(rows, row);
    ListedSaved(kind, DefaultsOf(kind, source, states), Mine(rows, source), row);
  }

  // ---- The order of the list ------------------------------------------------------------------

  ghost predicate RanksApart(list: seq<Status>) {
    forall i, j :: 0 <= i < j < |list| ==> list[i].rank != list[j].rank
  }

  lemma {:induction false} RanksUntied(list: seq<Status>)
    requires RanksApart(list)
    ensures Untied(Before, list)
  {
  }

  lemma {:induction false} UntiedPermuted(a: seq<Status>, b: seq<Status>)
    requires multiset(a) == multiset(b) && Untied(Before, a)
    ensures Untied(Before, b)
  {
    forall x | x in b
      ensures x in a
    {
      assert x in multiset(b);
    }
  }

  /** A change of the statuses that keeps their order is the same before and after the sort. */
  lemma {:induction false} ChangeThenSort(all: seq<Status>, f: Status -> Status, after: seq<Status>)
    requires multiset(after) == multiset(Each(f, all)) && RanksApart(after)
    requires Sorted(Before, Each(f, Sort(Before, all)))
    ensures Sort(Before, after) == Each(f, Sort(Before, all))
  {
    BeforeOrder();
    EachPermuted(f, all, Sort(Before, all));
    RanksUntied(after);
    UntiedPermuted(after, Each(f, Sort(Before, all)));
    SortIs(Before, after, Each(f, Sort(Before, all)));
  }

  lemma {:induction false} KeptInOrder(list: seq<Status>, f: Status -> Status)
    requires Sorted(Before, list)
    requires forall s :: s in list ==> PlaceOf(f(s)) == PlaceOf(s) && f(s).rank == s.rank
    ensures Sorted(Before, Each(f, list))
  {
  }

  lemma {:induction false} MergedEach(list: seq<Status>, rows: seq<Row>, f: Status -> Status)
    requires forall s :: f(s) == Merge(s, rows)
    ensures Merged(list, rows) == Each(f, list)
  {
  }

  lemma {:induction false} MergedStays(s: Status, row: Row)
    requires s.row.key == row.key ==> PlaceOf(s) == row.position
    ensures PlaceOf(Merge(s, [row])) == PlaceOf(s) && Merge(s, [row]).rank == s.rank
  {
    assert Find([row], s.row.key) == if s.row.key == row.key then Some(row) else None;
  }

  lemma {:induction false} MergedInOrder(all: seq<Status>, row: Row)
    requires RanksApart(all)
    requires forall s :: s in all && s.row.key == row.key ==> PlaceOf(s) == row.position
    ensures Sort(Before, Merged(all, [row])) == Merged(Sort(Before, all), [row])
  {
    var f := (s: Status) => Merge(s, [row]);
    var list := Sort(Before, all);
    BeforeOrder();
    SortSorted(Before, all);
    SortMembers(Before, all);
    MergedEach(all, [row], f);
    MergedEach(list, [row], f);
    forall s | s in list
      ensures PlaceOf(f(s)) == PlaceOf(s) && f(s).rank == s.rank
    {
      MergedStays(s, row);
    }
    KeptInOrder(list, f);
    ChangeThenSort(all, f, Merged(all, [row]));
  }

  /** A status with its row, as it is read once that row is kept. */
  function WithRow(status: Status, row: Row): Status {
    status.(row := row, kept := true)
  }

  lemma {:induction false} MergedOne(list: seq<Status>, p: nat, row: Row)
    requires DistinctKeys(list) && p < |list| && list[p].row.key == row.key
    ensures Merged(list, [row]) == list[p := WithRow(list[p], row)]
  {
    assert forall key :: Find([row], key) == if key == row.key then Some(row) else None;
  }

  /** A default with no row stands at its rank. */
  lemma {:induction false} PlacesOfRows(kind: ListKind, source: string, rows: seq<Row>, states: seq<TrackerState>)
    ensures forall i :: 0 <= i < |Unsorted(kind, source, rows, states)| ==>
              PlaceOf(Unsorted(kind, source, rows, states)[i]) == Unsorted(kind, source, rows, states)[i].row.position
  {
  }

  lemma {:induction false} ShownAt(all: seq<Status>, list: seq<Status>, p: nat)
    requires list == Sort(Before, all) && p < |list| && forall i :: 0 <= i < |all| ==> all[i].rank == i
    ensures |all| == |list| && list[p].rank < |all| && all[list[p].rank] == list[p]
    ensures DistinctKeys(list) ==> DistinctKeys(all)
  {
    SortMembers(Before, all);
    assert list[p] in list;
    var i :| 0 <= i < |all| && all[i] == list[p];
    if DistinctKeys(list) {
      UnsortedApart(list, all);
    }
  }

  /** What the list that is shown says of the one before the sort. */
  lemma {:induction false} ListShown(kind: ListKind, source: string, rows: seq<Row>, states: seq<TrackerState>, p: nat)
    requires p < |StatusesOf(kind, source, rows, states)|
    ensures var all, list := Unsorted(kind, source, rows, states), StatusesOf(kind, source, rows, states);
            && RanksApart(all) && |all| == |list|
            && list[p].rank < |all| && all[list[p].rank] == list[p]
            && PlaceOf(list[p]) == list[p].row.position && list[p].row.source == source
            && (DistinctKeys(list) ==> DistinctKeys(all))
  {
    UnsortedRanks(kind, source, rows, states);
    PlacesOfRows(kind, source, rows, states);
    ShownAt(Unsorted(kind, source, rows, states), StatusesOf(kind, source, rows, states), p);
  }

  /**
   * A default that is saved at its place, whatever was changed in it: the list is the one that was
   * read, with that status in place, and every other one as it was, with a row or without.
   */
  lemma {:induction false} DefaultReadsBack(kind: ListKind, source: string, rows: seq<Row>, states: seq<TrackerState>,
                                            p: nat, row: Row)
    requires p < |StatusesOf(kind, source, rows, states)| && DistinctKeys(StatusesOf(kind, source, rows, states))
    requires StatusesOf(kind, source, rows, states)[p].rank < |DefaultsOf(kind, source, states)|
    requires row.source == source && row.key == StatusesOf(kind, source, rows, states)[p].row.key
    requires row.position == StatusesOf(kind, source, rows, states)[p].row.position
    ensures var list := StatusesOf(kind, source, rows, states);
            StatusesOf(kind, source, Saved(rows, row), states) == list[p := WithRow(list[p], row)]
  {
    var all, list := Unsorted(kind, source, rows, states), StatusesOf(kind, source, rows, states);
    ListShown(kind, source, rows, states, p);
    assert all[list[p].rank].row.key == DefaultsOf(kind, source, states)[list[p].rank].row.key;
    DefaultSaved(kind, source, rows, states, row);
    OnePlace(all, list[p].rank, row);
    MergedInOrder(all, row);
    MergedOne(list, p, row);
  }

  lemma {:induction false} OnePlace(all: seq<Status>, k: nat, row: Row)
    requires DistinctKeys(all) && k < |all| && all[k].row.key == row.key && PlaceOf(all[k]) == row.position
    ensures forall s :: s in all && s.row.key == row.key ==> PlaceOf(s) == row.position
  {
  }

  /** A default that is reset is back to what it was, in place, and every other status as it was. */
  lemma {:induction false} ResetReadsBack(kind: ListKind, source: string, rows: seq<Row>, states: seq<TrackerState>,
                                          p: nat)
    requires p < |StatusesOf(kind, source, rows, states)| && DistinctKeys(StatusesOf(kind, source, rows, states))
    requires StatusesOf(kind, source, rows, states)[p].rank < |DefaultsOf(kind, source, states)|
    ensures var list := StatusesOf(kind, source, rows, states);
            StatusesOf(kind, source, Saved(rows, ResetOf(list[p]).row), states)
            == list[p := ResetOf(list[p]).(kept := true)]
  {
    var list := StatusesOf(kind, source, rows, states);
    ListShown(kind, source, rows, states, p);
    DefaultReadsBack(kind, source, rows, states, p, ResetOf(list[p]).row);
  }

  // ---- A status the team added ----------------------------------------------------------------

  /** The statuses, once the row of the one at `k` comes last. */
  function LastNow(all: seq<Status>, k: nat, row: Row): (r: seq<Status>)
    requires k < |all|
    ensures |r| == |all| && r[|all| - 1] == Status(row, row.stage, false, true, |all| - 1, None, None)
    ensures forall i :: 0 <= i < |r| - 1 ==> r[i] == if i < k then all[i] else all[i + 1].(rank := i)
  {
    seq(|all|, i requires 0 <= i < |all| =>
      if i == |all| - 1 then Status(row, row.stage, false, true, i, None, None)
      else if i < k then all[i] else all[i + 1].(rank := i))
  }

  /** The rows of the statuses the team added, once the one at `j` is saved. */
  function RowsNow(rows: seq<Row>, j: nat, row: Row): (r: seq<Row>)
    requires j < |rows|
    ensures |r| == |rows| && r[|rows| - 1] == row
    ensures forall i :: 0 <= i < |r| - 1 ==> r[i] == if i < j then rows[i] else rows[i + 1]
  {
    seq(|rows|, i requires 0 <= i < |rows| =>
      if i == |rows| - 1 then row else if i < j then rows[i] else rows[i + 1])
  }

  lemma {:induction false} WithoutOne(rows: seq<Row>, j: nat, source: string)
    requires KeysApart(rows) && j < |rows| && forall row :: row in rows ==> row.source == source
    ensures Without(rows, source, rows[j].key) == rows[..j] + rows[j + 1..]
  {
    var first, rest := rows[0], rows[1..];
    assert rows == [first] + rest;
    if j == 0 {
      WithoutNone(rest, source, first.key);
    } else {
      WithoutOne(rest, j - 1, source);
      FirstStays(rows, j);
    }
  }

  lemma {:induction false} FirstStays(rows: seq<Row>, j: nat)
    requires 0 < j < |rows|
    ensures rows[..j] + rows[j + 1..] == [rows[0]] + (rows[1..][..j - 1] + rows[1..][j..])
  {
  }

  lemma {:induction false} UnknownNow(defaults: seq<Status>, mine: seq<Row>, j: nat, row: Row)
    requires forall one :: one in mine ==> one.source == row.source
    requires KeysApart(Unknown(mine, defaults)) && j < |Unknown(mine, defaults)|
    requires Unknown(mine, defaults)[j].key == row.key
    ensures var unknown := Unknown(mine, defaults);
            Unknown(Without(mine, row.source, row.key) + [row], defaults) == RowsNow(unknown, j, row)
  {
    NotADefault(Unknown(mine, defaults), defaults, mine, j);
    UnknownSaved(mine, defaults, row);
    WithoutOne(Unknown(mine, defaults), j, row.source);
    NowInParts(Unknown(mine, defaults), j, row);
  }

  lemma {:induction false} NowInParts(rows: seq<Row>, j: nat, row: Row)
    requires j < |rows|
    ensures RowsNow(rows, j, row) == rows[..j] + rows[j + 1..] + [row]
  {
  }

  lemma {:induction false} AddedNow(first: seq<Status>, unknown: seq<Row>, j: nat, row: Row)
    requires j < |unknown|
    ensures first + Added(RowsNow(unknown, j, row), |first|)
         == LastNow(first + Added(unknown, |first|), |first| + j, row)
  {
    var all, now := first + Added(unknown, |first|), first + Added(RowsNow(unknown, j, row), |first|);
    forall i | 0 <= i < |all|
      ensures now[i] == LastNow(all, |first| + j, row)[i]
    {
      AddedAt(first, unknown, i);
      AddedAt(first, RowsNow(unknown, j, row), i);
      if i < |all| - 1 {
        AddedAt(first, unknown, i + 1);
      }
    }
  }

  lemma {:induction false} AddedAt(first: seq<Status>, unknown: seq<Row>, i: nat)
    requires i < |first| + |unknown|
    ensures (first + Added(unknown, |first|))[i]
         == if i < |first| then first[i]
            else Status(unknown[i - |first|], unknown[i - |first|].stage, false, true, i, None, None)
  {
  }

  lemma {:induction false} OwnList(defaults: seq<Status>, mine: seq<Row>, first: seq<Status>, unknown: seq<Row>)
    requires first == Merged(defaults, mine) && unknown == Unknown(mine, defaults)
    ensures Listed(Own, defaults, mine) == first + Added(unknown, |first|)
  {
  }

  /** Saving an added status takes it out of the statuses the team added, and puts it after them. */
  lemma {:induction false} ListedAdded(defaults: seq<Status>, mine: seq<Row>, j: nat, row: Row, saved: seq<Row>)
    requires forall one :: one in mine ==> one.source == row.source
    requires KeysApart(Unknown(mine, defaults)) && j < |Unknown(mine, defaults)|
    requires Unknown(mine, defaults)[j].key == row.key
    requires saved == Without(mine, row.source, row.key) + [row]
    ensures |defaults| + j < |Listed(Own, defaults, mine)|
    ensures Listed(Own, defaults, saved) == LastNow(Listed(Own, defaults, mine), |defaults| + j, row)
  {
    var unknown := Unknown(mine, defaults);
    NotADefault(unknown, defaults, mine, j);
    UnknownNow(defaults, mine, j, row);
    MergedElsewhere(defaults, mine, row);
    OwnListNow(defaults, mine, saved, unknown, j, row);
  }

  lemma {:induction false} OwnListNow(defaults: seq<Status>, mine: seq<Row>, saved: seq<Row>, unknown: seq<Row>,
                                      j: nat, row: Row)
    requires unknown == Unknown(mine, defaults) && j < |unknown| && Unknown(saved, defaults) == RowsNow(unknown, j, row)
    requires Merged(defaults, saved) == Merged(defaults, mine)
    ensures |defaults| + j < |Listed(Own, defaults, mine)|
    ensures Listed(Own, defaults, saved) == LastNow(Listed(Own, defaults, mine), |defaults| + j, row)
  {
    var first := Merged(defaults, mine);
    OwnList(defaults, mine, first, unknown);
    OwnList(defaults, saved, first, RowsNow(unknown, j, row));
    AddedNow(first, unknown, j, row);
  }

  lemma {:induction false} NotADefault(unknown: seq<Row>, defaults: seq<Status>, mine: seq<Row>, j: nat)
    requires unknown == Unknown(mine, defaults) && j < |unknown|
    ensures !HasKey(defaults, unknown[j].key)
  {
    assert unknown[j] in unknown;
  }

  lemma {:induction false} MergedElsewhere(defaults: seq<Status>, mine: seq<Row>, row: Row)
    requires forall one :: one in mine ==> one.source == row.source
    requires !HasKey(defaults, row.key)
    ensures Merged(defaults, Without(mine, row.source, row.key) + [row]) == Merged(defaults, mine)
  {
    forall i | 0 <= i < |defaults|
      ensures Merge(defaults[i], Without(mine, row.source, row.key) + [row]) == Merge(defaults[i], mine)
    {
      FindSaved(mine, row, defaults[i].row.key);
    }
  }

  /** What becomes of each status when the one of rank `k` comes last of `n`. */
  function Shifted(s: Status, k: nat, row: Row, n: nat): Status {
    if s.rank == k then Status(row, row.stage, false, true, if n == 0 then 0 else n - 1, None, None)
    else if s.rank > k then s.(rank := s.rank - 1)
    else s
  }

  lemma {:induction false} LastIsShifted(all: seq<Status>, k: nat, row: Row)
    requires k < |all| && forall i :: 0 <= i < |all| ==> all[i].rank == i
    ensures multiset(LastNow(all, k, row)) == multiset(Each((s: Status) => Shifted(s, k, row, |all|), all))
  {
    TakenLast(Each((s: Status) => Shifted(s, k, row, |all|), all), k, LastNow(all, k, row));
  }

  lemma {:induction false} LastRanks(all: seq<Status>, k: nat, row: Row)
    requires k < |all| && forall i :: 0 <= i < |all| ==> all[i].rank == i
    ensures RanksApart(LastNow(all, k, row))
  {
    assert forall i :: 0 <= i < |all| ==> LastNow(all, k, row)[i].rank == i;
  }

  /** No status stands at the same place after the one at `p`. */
  predicate NoTieAfter(list: seq<Status>, p: nat)
    requires p < |list|
  {
    p + 1 == |list| || PlaceOf(list[p + 1]) != PlaceOf(list[p])
  }

  lemma {:induction false} ShiftedPair(s: Status, t: Status, k: nat, row: Row, n: nat)
    requires Before(s, t) && s.rank != t.rank && s.rank < n && t.rank < n
    requires s.rank == k ==> row.position == PlaceOf(s) < PlaceOf(t)
    requires t.rank == k ==> row.position == PlaceOf(t)
    requires (s.rank > k ==> s.kept) && (t.rank > k ==> t.kept)
    ensures Before(Shifted(s, k, row, n), Shifted(t, k, row, n))
  {
  }

  lemma {:induction false} PlacesAfter(list: seq<Status>, p: nat, j: nat)
    requires Sorted(Before, list) && p < j < |list| && NoTieAfter(list, p)
    ensures PlaceOf(list[p]) < PlaceOf(list[j])
  {
    assert Before(list[p], list[p + 1]);
    assert p + 1 < j ==> Before(list[p + 1], list[j]);
  }

  lemma {:induction false} ShiftedInOrder(list: seq<Status>, p: nat, row: Row)
    requires Sorted(Before, list) && RanksApart(list) && p < |list| && NoTieAfter(list, p)
    requires row.position == PlaceOf(list[p])
    requires forall i :: 0 <= i < |list| ==> list[i].rank < |list| && (list[i].rank > list[p].rank ==> list[i].kept)
    ensures Sorted(Before, Each((s: Status) => Shifted(s, list[p].rank, row, |list|), list))
  {
    forall i, j | 0 <= i < j < |list|
      ensures Before(Shifted(list[i], list[p].rank, row, |list|), Shifted(list[j], list[p].rank, row, |list|))
    {
      assert Before(list[i], list[j]) && list[i].rank != list[j].rank;
      assert i != p ==> list[i].rank != list[p].rank;
      assert j != p ==> list[j].rank != list[p].rank;
      if i == p {
        PlacesAfter(list, p, j);
      }
      ShiftedPair(list[i], list[j], list[p].rank, row, |list|);
    }
  }

  /** What holds of the statuses of a source before they are sorted. */
  ghost predicate InRanks(all: seq<Status>) {
    && (forall i :: 0 <= i < |all| ==> all[i].rank == i)
    && DistinctKeys(all)
  }

  lemma {:induction false} ListRanks(all: seq<Status>)
    requires InRanks(all)
    ensures var list := Sort(Before, all);
            && |list| == |all| && Sorted(Before, list) && RanksApart(list)
            && forall i :: 0 <= i < |list| ==> list[i].rank < |all| && list[i] == all[list[i].rank]
  {
    var list := Sort(Before, all);
    BeforeOrder();
    SortSorted(Before, all);
    SortMembers(Before, all);
    SortDistinct(Before, all);
    forall i | 0 <= i < |list|
      ensures list[i].rank < |all| && list[i] == all[list[i].rank]
    {
      assert list[i] in list;
    }
  }

  lemma {:induction false} ShiftedRows(list: seq<Status>, p: nat, row: Row)
    requires p < |list| && RanksApart(list)
    ensures RowsOf(Each((s: Status) => Shifted(s, list[p].rank, row, |list|), list)) == RowsOf(list)[p := row]
  {
    forall i | 0 <= i < |list|
      ensures Shifted(list[i], list[p].rank, row, |list|).row == RowsOf(list)[p := row][i]
    {
      assert i != p ==> list[i].rank != list[p].rank;
    }
  }

  lemma {:induction false} SavedInOrder(all: seq<Status>, p: nat, row: Row)
    requires InRanks(all) && p < |Sort(Before, all)| && NoTieAfter(Sort(Before, all), p)
    requires var s := Sort(Before, all)[p]; s.rank < |all| && row.position == PlaceOf(s)
    requires forall i :: Sort(Before, all)[p].rank < i < |all| ==> all[i].kept
    ensures RowsOf(Sort(Before, LastNow(all, Sort(Before, all)[p].rank, row))) == RowsOf(Sort(Before, all))[p := row]
  {
    var list := Sort(Before, all);
    var k := list[p].rank;
    ListRanks(all);
    ShiftedInOrder(list, p, row);
    LastIsShifted(all, k, row);
    LastRanks(all, k, row);
    ChangeThenSort(all, (s: Status) => Shifted(s, k, row, |list|), LastNow(all, k, row));
    ShiftedRows(list, p, row);
  }

  /** The status that was saved has the highest rank, so none of its place is read after it. */
  lemma {:induction false} LastIsLast(now: seq<Status>, after: seq<Status>, p: nat, q: nat)
    requires InRanks(now) && after == Sort(Before, now) && p < q < |after| && now != []
    requires after[p] == now[|now| - 1]
    ensures PlaceOf(after[q]) != PlaceOf(now[|now| - 1])
  {
    ListRanks(now);
    assert Before(after[p], after[q]) && after[p].rank != after[q].rank;
  }

  lemma {:induction false} SavedKeys(all: seq<Status>, k: nat, row: Row)
    requires InRanks(all) && k < |all| && row.key == all[k].row.key
    ensures InRanks(LastNow(all, k, row))
    ensures forall i :: 0 <= i < |all| - 1 ==> LastNow(all, k, row)[i].row.key != row.key
    ensures forall i :: 0 <= i < |all| - 1 ==> LastNow(all, k, row)[i].row == all[if i < k then i else i + 1].row
  {
  }

  /** After a tie, the status that was saved is no longer read before the one it was read before. */
  lemma {:induction false} SavedOutOfOrder(all: seq<Status>, p: nat, row: Row)
    requires InRanks(all) && p < |Sort(Before, all)| && !NoTieAfter(Sort(Before, all), p)
    requires var s := Sort(Before, all)[p]; s.rank < |all| && row.position == PlaceOf(s) && row.key == s.row.key
    requires forall i :: 0 <= i < |all| ==> PlaceOf(all[i]) == all[i].row.position
    ensures RowsOf(Sort(Before, LastNow(all, Sort(Before, all)[p].rank, row))) != RowsOf(Sort(Before, all))[p := row]
  {
    var list := Sort(Before, all);
    var k := list[p].rank;
    var now := LastNow(all, k, row);
    var after := Sort(Before, now);
    ListRanks(all);
    SavedKeys(all, k, row);
    ListRanks(now);
    if RowsOf(after) == RowsOf(list)[p := row] {
      assert after[p].row == RowsOf(after)[p] == row && after[p + 1].row == RowsOf(after)[p + 1] == list[p + 1].row;
      assert after[p] == now[|now| - 1];
      LastIsLast(now, after, p, p + 1);
      PlacesNow(all, k, row, after[p + 1]);
      assert false;
    }
  }

  lemma {:induction false} PlacesNow(all: seq<Status>, k: nat, row: Row, s: Status)
    requires k < |all| && s in LastNow(all, k, row)
    requires forall i :: 0 <= i < |all| ==> all[i].rank == i && PlaceOf(all[i]) == all[i].row.position
    requires s.kept || s.rank < k
    ensures PlaceOf(s) == s.row.position
  {
  }

  /** What holds of the statuses of a source when the one at `p` of their list was added by the team. */
  lemma {:induction false} AddedAmong(kind: ListKind, source: string, rows: seq<Row>, states: seq<TrackerState>)
    requires DistinctKeys(StatusesOf(kind, source, rows, states))
    ensures var all := Unsorted(kind, source, rows, states);
            && InRanks(all)
            && (forall i :: 0 <= i < |all| ==> PlaceOf(all[i]) == all[i].row.position)
            && (forall i :: |DefaultsOf(kind, source, states)| <= i < |all| ==> all[i].kept)
  {
    UnsortedRanks(kind, source, rows, states);
    PlacesOfRows(kind, source, rows, states);
    SortMembers(Before, Unsorted(kind, source, rows, states));
    UnsortedApart(StatusesOf(kind, source, rows, states), Unsorted(kind, source, rows, states));
  }

  lemma {:induction false} UnknownApartHere(defaults: seq<Status>, mine: seq<Row>, j: nat)
    requires DistinctKeys(Listed(Own, defaults, mine)) && |defaults| + j < |Listed(Own, defaults, mine)|
    ensures KeysApart(Unknown(mine, defaults)) && j < |Unknown(mine, defaults)|
    ensures Unknown(mine, defaults)[j] == Listed(Own, defaults, mine)[|defaults| + j].row
  {
    var unknown, all := Unknown(mine, defaults), Listed(Own, defaults, mine);
    assert forall a :: 0 <= a < |unknown| ==>
        all[|defaults| + a].row == Added(unknown, |defaults|)[a].row == unknown[a];
    ApartAfter(all, |defaults|, unknown);
  }

  lemma {:induction false} ApartAfter(all: seq<Status>, from: nat, rows: seq<Row>)
    requires DistinctKeys(all) && from + |rows| <= |all|
    requires forall a :: 0 <= a < |rows| ==> all[from + a].row == rows[a]
    ensures KeysApart(rows)
  {
    forall a, b | 0 <= a < b < |rows|
      ensures rows[a].key != rows[b].key
    {
      assert all[from + a].row == rows[a] && all[from + b].row == rows[b];
    }
  }

  lemma {:induction false} AddedSavedAt(source: string, rows: seq<Row>, states: seq<TrackerState>, j: nat, row: Row)
    requires row.source == source
    requires var unknown := Unknown(Mine(rows, source), DefaultsOf(Own, source, states));
             KeysApart(unknown) && j < |unknown| && row.key == unknown[j].key
    ensures var k := |DefaultsOf(Own, source, states)| + j;
            && k < |Unsorted(Own, source, rows, states)|
            && Unsorted(Own, source, Saved(rows, row), states) == LastNow(Unsorted(Own, source, rows, states), k, row)
  {
    MineSaved(rows, row);
    ListedAdded(DefaultsOf(Own, source, states), Mine(rows, source), j, row, Mine(Saved(rows, row), source));
  }

  lemma {:induction false} OnlyOwnAdds(kind: ListKind, source: string, rows: seq<Row>, states: seq<TrackerState>)
    requires |DefaultsOf(kind, source, states)| < |Unsorted(kind, source, rows, states)|
    ensures kind == Own
  {
  }

  /** What a saved row of an added status makes of the statuses: that status last of all. */
  lemma {:induction false} AddedSaved(kind: ListKind, source: string, rows: seq<Row>, states: seq<TrackerState>,
                                      k: nat, row: Row)
    requires DistinctKeys(Unsorted(kind, source, rows, states))
    requires |DefaultsOf(kind, source, states)| <= k < |Unsorted(kind, source, rows, states)|
    requires row.source == source && row.key == Unsorted(kind, source, rows, states)[k].row.key
    ensures Unsorted(kind, source, Saved(rows, row), states) == LastNow(Unsorted(kind, source, rows, states), k, row)
  {
    OnlyOwnAdds(kind, source, rows, states);
    var j := k - |DefaultsOf(kind, source, states)|;
    UnknownApartHere(DefaultsOf(kind, source, states), Mine(rows, source), j);
    AddedSavedAt(source, rows, states, j, row);
  }

  /**
   * A status that is saved at its place, whatever was changed in it: the list reads back in its order,
   * with the row in place, exactly when it is a default, or none stands at the same place after it.
   */
  lemma {:induction false} SaveReadsBackExactly(kind: ListKind, source: string, rows: seq<Row>,
                                                states: seq<TrackerState>, p: nat, row: Row)
    requires p < |StatusesOf(kind, source, rows, states)| && DistinctKeys(StatusesOf(kind, source, rows, states))
    requires row.source == source && row.key == StatusesOf(kind, source, rows, states)[p].row.key
    requires row.position == StatusesOf(kind, source, rows, states)[p].row.position
    ensures var list := StatusesOf(kind, source, rows, states);
            RowsOf(StatusesOf(kind, source, Saved(rows, row), states)) == RowsOf(list)[p := row]
            <==> list[p].rank < |DefaultsOf(kind, source, states)| || NoTieAfter(list, p)
  {
    var list := StatusesOf(kind, source, rows, states);
    if list[p].rank < |DefaultsOf(kind, source, states)| {
      DefaultReadsBack(kind, source, rows, states, p, row);
    } else {
      ListShown(kind, source, rows, states, p);
      AddedAmong(kind, source, rows, states);
      AddedSaved(kind, source, rows, states, list[p].rank, row);
      if NoTieAfter(list, p) {
        SavedInOrder(Unsorted(kind, source, rows, states), p, row);
      } else {
        SavedOutOfOrder(Unsorted(kind, source, rows, states), p, row);
      }
    }
  }

  // ---- A new status ---------------------------------------------------------------------------

  function NewStatus(row: Row, rank: nat): Status {
    Status(row, row.stage, false, true, rank, None, None)
  }

  lemma {:induction false} AddedOneMore(first: seq<Status>, unknown: seq<Row>, row: Row)
    ensures var all := first + Added(unknown, |first|);
            first + Added(unknown + [row], |first|) == all + [NewStatus(row, |all|)]
  {
  }

  lemma {:induction false} SavedApart(defaults: seq<Status>, mine: seq<Row>, row: Row)
    requires forall one :: one in mine ==> one.key != row.key
    requires !HasKey(defaults, row.key)
    ensures Unknown(Without(mine, row.source, row.key) + [row], defaults) == Unknown(mine, defaults) + [row]
  {
    WithoutNone(mine, row.source, row.key);
    UnknownAppend(mine, [row], defaults);
    assert Unknown([row], defaults) == [row];
  }

  /** A row with a key of its own is one more status, after those the team added before. */
  lemma {:induction false} ListedNew(defaults: seq<Status>, mine: seq<Row>, row: Row, saved: seq<Row>)
    requires forall one :: one in mine ==> one.source == row.source && one.key != row.key
    requires !HasKey(defaults, row.key) && saved == Without(mine, row.source, row.key) + [row]
    ensures var all := Listed(Own, defaults, mine);
            Listed(Own, defaults, saved) == all + [NewStatus(row, |all|)]
  {
    var first, unknown := Merged(defaults, mine), Unknown(mine, defaults);
    var now := unknown + [row];
    SavedApart(defaults, mine, row);
    MergedElsewhere(defaults, mine, row);
    AddedOneMore(first, unknown, row);
    OwnList(defaults, mine, first, unknown);
    OwnList(defaults, saved, first, now);
  }

  /** Every row of the worker's store is a status of its list. */
  lemma {:induction false} RowIsListed(defaults: seq<Status>, mine: seq<Row>, one: Row)
    requires one in mine
    ensures HasKey(Listed(Own, defaults, mine), one.key)
  {
    var all, unknown := Listed(Own, defaults, mine), Unknown(mine, defaults);
    if i :| 0 <= i < |defaults| && defaults[i].row.key == one.key {
      assert all[i].row.key == one.key;
    } else {
      assert one in unknown;
      var i :| 0 <= i < |unknown| && unknown[i] == one;
      assert all[|defaults| + i].row == one;
    }
  }

  lemma {:induction false} DefaultIsListed(defaults: seq<Status>, mine: seq<Row>, key: string)
    requires HasKey(defaults, key)
    ensures HasKey(Listed(Own, defaults, mine), key)
  {
    var i :| 0 <= i < |defaults| && defaults[i].row.key == key;
    assert Listed(Own, defaults, mine)[i].row.key == key;
  }

  lemma {:induction false} NewSaved(source: string, rows: seq<Row>, states: seq<TrackerState>, row: Row)
    requires row.source == source && !HasKey(Unsorted(Own, source, rows, states), row.key)
    ensures var all := Unsorted(Own, source, rows, states);
            Unsorted(Own, source, Saved(rows, row), states) == all + [NewStatus(row, |all|)]
  {
    var defaults, mine := DefaultsOf(Own, source, states), Mine(rows, source);
    forall one | one in mine
      ensures one.key != row.key
    {
      RowIsListed(defaults, mine, one);
    }
    if HasKey(defaults, row.key) {
      DefaultIsListed(defaults, mine, row.key);
    }
    MineSaved(rows, row);
    ListedNew(defaults, mine, row, Mine(Saved(rows, row), source));
  }

  lemma {:induction false} SortedThenLast(list: seq<Status>, last: Status)
    requires Sorted(Before, list) && RanksApart(list)
    requires forall i :: 0 <= i < |list| ==> PlaceOf(list[i]) <= PlaceOf(last) && list[i].rank < last.rank
    ensures Sorted(Before, list + [last]) && RanksApart(list + [last])
  {
  }

  lemma {:induction false} PermutedThenLast(all: seq<Status>, list: seq<Status>, last: Status)
    requires multiset(all) == multiset(list)
    ensures multiset(all + [last]) == multiset(list + [last])
  {
  }

  lemma {:induction false} LastInOrder(all: seq<Status>, list: seq<Status>, row: Row)
    requires InRanks(all) && list == Sort(Before, all)
    requires forall i :: 0 <= i < |list| ==> PlaceOf(list[i]) <= row.position
    ensures Sort(Before, all + [NewStatus(row, |all|)]) == list + [NewStatus(row, |all|)]
  {
    var last := NewStatus(row, |all|);
    ListRanks(all);
    SortedThenLast(list, last);
    RanksUntied(list + [last]);
    PermutedThenLast(all, list, last);
    BeforeOrder();
    SortIs(Before, all + [last], list + [last]);
  }

  lemma {:induction false} NowInRanks(all: seq<Status>, row: Row)
    requires InRanks(all) && !HasKey(all, row.key)
    ensures InRanks(all + [NewStatus(row, |all|)])
  {
    assert forall i :: 0 <= i < |all| ==> all[i].row.key != row.key;
  }

  lemma {:induction false} PlaceAfterSort(all: seq<Status>, k: nat) returns (q: nat)
    requires k < |all|
    ensures q < |Sort(Before, all)| && Sort(Before, all)[q] == all[k]
  {
    SortMembers(Before, all);
    assert all[k] in Sort(Before, all);
    q :| 0 <= q < |Sort(Before, all)| && Sort(Before, all)[q] == all[k];
  }

  /** In a sorted list, none stands at a higher place than the last. */
  lemma {:induction false} NoneHigher(list: seq<Status>, q: nat)
    requires Sorted(Before, list) && q < |list|
    ensures PlaceOf(list[q]) <= PlaceOf(list[|list| - 1])
  {
    assert q < |list| - 1 ==> Before(list[q], list[|list| - 1]);
  }

  /** With a status at a higher place, the one of the highest rank is not read last. */
  lemma {:induction false} OtherIsLast(now: seq<Status>, k: nat, n: nat)
    requires InRanks(now) && |now| == n + 1 && k < n && PlaceOf(now[k]) > PlaceOf(now[n])
    ensures |Sort(Before, now)| == n + 1 && Sort(Before, now)[n].row.key != now[n].row.key
  {
    var after := Sort(Before, now);
    ListRanks(now);
    var q := PlaceAfterSort(now, k);
    NoneHigher(after, q);
    assert after[n].rank != n;
  }

  /** A status with a higher place is not read before the new one. */
  lemma {:induction false} LastOutOfOrder(all: seq<Status>, row: Row, k: nat)
    requires InRanks(all) && k < |all| && PlaceOf(all[k]) > row.position && !HasKey(all, row.key)
    ensures RowsOf(Sort(Before, all + [NewStatus(row, |all|)])) != RowsOf(Sort(Before, all)) + [row]
  {
    var now := all + [NewStatus(row, |all|)];
    NowInRanks(all, row);
    OtherIsLast(now, k, |all|);
    SortMembers(Before, all);
    var a, b := RowsOf(Sort(Before, now)), RowsOf(Sort(Before, all)) + [row];
    assert a[|all|] != row && b[|all|] == row;
  }

  lemma {:induction false} SameListed(list: seq<Status>, all: seq<Status>, key: string)
    requires forall s :: s in list <==> s in all
    ensures HasKey(list, key) <==> HasKey(all, key)
  {
    if i :| 0 <= i < |list| && list[i].row.key == key {
      assert list[i] in all;
    }
    if i :| 0 <= i < |all| && all[i].row.key == key {
      assert all[i] in list;
    }
  }

  /** A status that is added with a key of its own comes last exactly when no other stands at a higher place. */
  lemma {:induction false} NewComesLastExactly(source: string, rows: seq<Row>, states: seq<TrackerState>, row: Row)
    requires DistinctKeys(StatusesOf(Own, source, rows, states))
    requires row.source == source && !HasKey(StatusesOf(Own, source, rows, states), row.key)
    ensures var list := StatusesOf(Own, source, rows, states);
            RowsOf(StatusesOf(Own, source, Saved(rows, row), states)) == RowsOf(list) + [row]
            <==> forall i :: 0 <= i < |list| ==> list[i].row.position <= row.position
  {
    var all, list := Unsorted(Own, source, rows, states), StatusesOf(Own, source, rows, states);
    AddedAmong(Own, source, rows, states);
    SortMembers(Before, all);
    SameListed(list, all, row.key);
    NewSaved(source, rows, states, row);
    NewAfterSort(all, list, row);
  }

  lemma {:induction false} NewAfterSort(all: seq<Status>, list: seq<Status>, row: Row)
    requires InRanks(all) && list == Sort(Before, all) && !HasKey(all, row.key)
    requires forall i :: 0 <= i < |all| ==> PlaceOf(all[i]) == all[i].row.position
    ensures RowsOf(Sort(Before, all + [NewStatus(row, |all|)])) == RowsOf(list) + [row]
            <==> forall i :: 0 <= i < |list| ==> list[i].row.position <= row.position
  {
    ListRanks(all);
    if forall i :: 0 <= i < |list| ==> list[i].row.position <= row.position {
      LastInOrder(all, list, row);
      RowsThenLast(list, NewStatus(row, |all|));
    } else {
      var i :| 0 <= i < |list| && list[i].row.position > row.position;
      LastOutOfOrder(all, row, list[i].rank);
    }
  }

  lemma {:induction false} RowsThenLast(list: seq<Status>, last: Status)
    ensures RowsOf(list + [last]) == RowsOf(list) + [last.row]
  {
  }

  // ---- A move ---------------------------------------------------------------------------------

  lemma {:induction false} MergedTwice(all: seq<Status>, row: Row, rest: seq<Row>)
    requires forall one :: one in rest ==> one.key != row.key
    ensures Merged(Merged(all, [row]), rest) == Merged(all, [row] + rest)
  {
    assert ([row] + rest)[1..] == rest;
    forall i | 0 <= i < |all|
      ensures Merge(Merge(all[i], [row]), rest) == Merge(all[i], [row] + rest)
    {
      assert Find([row], all[i].row.key) == if all[i].row.key == row.key then Some(row) else None;
    }
  }

  lemma {:induction false} MergedNone(all: seq<Status>)
    ensures Merged(all, []) == all
  {
  }

  lemma {:induction false} DefaultsSaved(kind: ListKind, source: string, rows: seq<Row>, states: seq<TrackerState>,
                                         saves: seq<Row>)
    requires forall row :: row in saves ==> row.source == source && HasKey(DefaultsOf(kind, source, states), row.key)
    requires KeysApart(saves)
    ensures Unsorted(kind, source, SavedAll(rows, saves), states) == Merged(Unsorted(kind, source, rows, states), saves)
    decreases |saves|
  {
    if saves == [] {
      MergedNone(Unsorted(kind, source, rows, states));
    } else {
      var row, rest := saves[0], saves[1..];
      assert saves == [row] + rest;
      DefaultSaved(kind, source, rows, states, row);
      DefaultsSaved(kind, source, Saved(rows, row), states, rest);
      MergedTwice(Unsorted(kind, source, rows, states), row, rest);
    }
  }

  lemma {:induction false} FindOrdered(rows: seq<Row>, next: seq<Status>, key: string)
    ensures Find(Ordered(rows, next), key)
         == match Find(rows, key) case None => None case Some(row) => Some(Placed(row, next))
  {
    if rows == [] {
      assert Ordered(rows, next) == [];
    } else {
      assert Ordered(rows, next)[1..] == Ordered(rows[1..], next);
      FindOrdered(rows[1..], next, key);
    }
  }

  lemma {:induction false} UnknownFirst(row: Row, rest: seq<Row>, defaults: seq<Status>)
    ensures Unknown([row] + rest, defaults)
         == (if KnownKey(defaults, row.key) then [] else [row]) + Unknown(rest, defaults)
  {
    assert ([row] + rest)[1..] == rest;
  }

  lemma {:induction false} OrderedAppend(a: seq<Row>, b: seq<Row>, next: seq<Status>)
    ensures Ordered(a + b, next) == Ordered(a, next) + Ordered(b, next)
  {
  }

  lemma {:induction false} MineFirst(row: Row, rest: seq<Row>, source: string)
    ensures Mine([row] + rest, source) == (if row.source == source then [row] else []) + Mine(rest, source)
  {
    assert ([row] + rest)[1..] == rest;
  }

  lemma {:induction false} MineOrdered(rows: seq<Row>, next: seq<Status>, source: string)
    ensures Mine(Ordered(rows, next), source) == Ordered(Mine(rows, source), next)
  {
    if rows == [] {
      assert Ordered(rows, next) == [];
    } else {
      var row, rest := rows[0], rows[1..];
      assert rows == [row] + rest && Ordered([row], next) == [Placed(row, next)];
      OrderedAppend([row], rest, next);
      MineOrdered(rest, next, source);
      MineFirst(row, rest, source);
      MineFirst(Placed(row, next), Ordered(rest, next), source);
      OrderedAppend(if row.source == source then [row] else [], Mine(rest, source), next);
    }
  }

  lemma {:induction false} UnknownOrdered(rows: seq<Row>, next: seq<Status>, defaults: seq<Status>)
    ensures Unknown(Ordered(rows, next), defaults) == Ordered(Unknown(rows, defaults), next)
  {
    if rows == [] {
      assert Ordered(rows, next) == [];
    } else {
      var row, rest := rows[0], rows[1..];
      assert rows == [row] + rest && Ordered([row], next) == [Placed(row, next)];
      OrderedAppend([row], rest, next);
      UnknownOrdered(rest, next, defaults);
      UnknownFirst(row, rest, defaults);
      UnknownFirst(Placed(row, next), Ordered(rest, next), defaults);
      OrderedAppend(if KnownKey(defaults, row.key) then [] else [row], Unknown(rest, defaults), next);
    }
  }

  /** A status whose row is given its place in a list; one with no row has none to give. */
  function PutIn(status: Status, next: seq<Status>): Status {
    if status.kept then status.(row := Placed(status.row, next)) else status
  }

  lemma {:induction false} MergedOrdered(defaults: seq<Status>, mine: seq<Row>, next: seq<Status>)
    requires forall i :: 0 <= i < |defaults| ==> !defaults[i].kept
    ensures Merged(defaults, Ordered(mine, next)) == Each((s: Status) => PutIn(s, next), Merged(defaults, mine))
  {
    forall i | 0 <= i < |defaults|
      ensures Merge(defaults[i], Ordered(mine, next)) == PutIn(Merge(defaults[i], mine), next)
    {
      FindOrdered(mine, next, defaults[i].row.key);
    }
  }

  lemma {:induction false} AddedOrdered(unknown: seq<Row>, from: nat, next: seq<Status>)
    ensures Added(Ordered(unknown, next), from) == Each((s: Status) => PutIn(s, next), Added(unknown, from))
  {
  }

  lemma {:induction false} ListedOrdered(kind: ListKind, defaults: seq<Status>, mine: seq<Row>, next: seq<Status>)
    requires forall i :: 0 <= i < |defaults| ==> !defaults[i].kept
    ensures Listed(kind, defaults, Ordered(mine, next))
         == Each((s: Status) => PutIn(s, next), Listed(kind, defaults, mine))
  {
    var f := (s: Status) => PutIn(s, next);
    var added := if kind == Own then Added(Unknown(mine, defaults), |defaults|) else [];
    MergedOrdered(defaults, mine, next);
    UnknownOrdered(mine, next, defaults);
    AddedOrdered(Unknown(mine, defaults), |defaults|, next);
    EachAppend(f, Merged(defaults, mine), added);
  }

  lemma {:induction false} WritesOfMove(kind: ListKind, source: string, rows: seq<Row>, states: seq<TrackerState>,
                                        next: seq<Status>)
    requires forall row :: row in RowsOf(Unkept(next)) ==>
               row.source == source && HasKey(DefaultsOf(kind, source, states), row.key)
    requires KeysApart(RowsOf(Unkept(next)))
    ensures Unsorted(kind, source, RowsMoved(rows, next), states)
         == Each((s: Status) => PutIn(s, next), Merged(Unsorted(kind, source, rows, states), RowsOf(Unkept(next))))
  {
    var saved := SavedAll(rows, RowsOf(Unkept(next)));
    DefaultsSaved(kind, source, rows, states, RowsOf(Unkept(next)));
    MineOrdered(saved, next, source);
    ListedOrdered(kind, DefaultsOf(kind, source, states), Mine(saved, source), next);
  }

  /** A status of a list finds the row that is saved for it, which is there when it had none. */
  lemma {:induction false} FoundSave(next: seq<Status>, j: nat)
    requires DistinctKeys(next) && j < |next|
    ensures Find(RowsOf(Unkept(next)), next[j].row.key) == if next[j].kept then None else Some(next[j].row)
  {
    var saves := RowsOf(Unkept(next));
    var found := Find(saves, next[j].row.key);
    if !next[j].kept {
      assert next[j] in next && next[j] in Unkept(next);
      var i :| 0 <= i < |Unkept(next)| && Unkept(next)[i] == next[j];
      assert saves[i] in saves;
    }
    if found != None {
      var k := KeptFrom(next, found.value);
    }
  }

  lemma {:induction false} PlaceInAt(next: seq<Status>, source: string, j: nat)
    requires DistinctKeys(next) && OfSource(next, source) && j < |next|
    ensures PlaceIn(next, source, next[j].row.key) == Some(j)
  {
    assert IsOf(next[j].row, source, next[j].row.key);
  }

  /** A status of the order, with the row that is saved for it and its place there. */
  lemma {:induction false} KeptAtPlace(next: seq<Status>, order: seq<Status>, source: string, j: nat)
    requires next == Renumbered(order) && DistinctKeys(next) && OfSource(next, source) && j < |next|
    ensures PutIn(Merge(order[j], RowsOf(Unkept(next))), next) == next[j].(kept := true)
  {
    FoundSave(next, j);
    PlaceInAt(next, source, j);
  }

  lemma {:induction false} KeptFrom(next: seq<Status>, row: Row) returns (k: nat)
    requires row in RowsOf(Unkept(next))
    ensures k < |next| && !next[k].kept && next[k].row == row
  {
    var i :| 0 <= i < |Unkept(next)| && RowsOf(Unkept(next))[i] == row;
    assert Unkept(next)[i] in Unkept(next);
    k :| 0 <= k < |next| && next[k] == Unkept(next)[i];
  }

  lemma {:induction false} OrderWritten(order: seq<Status>, next: seq<Status>, source: string, f: Status -> Status)
    requires next == Renumbered(order) && DistinctKeys(next) && OfSource(next, source)
    requires forall s :: f(s) == PutIn(Merge(s, RowsOf(Unkept(next))), next)
    ensures Each(f, order) == KeptAll(next)
  {
    forall j | 0 <= j < |next|
      ensures f(order[j]) == KeptAll(next)[j]
    {
      KeptAtPlace(next, order, source, j);
    }
  }

  /** The statuses before the sort and those of the list are changed alike by the writes. */
  lemma {:induction false} WrittenAlike(all: seq<Status>, order: seq<Status>, next: seq<Status>, source: string)
    requires multiset(all) == multiset(order) && next == Renumbered(order)
    requires DistinctKeys(next) && OfSource(next, source)
    ensures multiset(Each((s: Status) => PutIn(s, next), Merged(all, RowsOf(Unkept(next)))))
         == multiset(KeptAll(next))
  {
    var saves := RowsOf(Unkept(next));
    var f := (s: Status) => PutIn(Merge(s, saves), next);
    assert Each((s: Status) => PutIn(s, next), Merged(all, saves)) == Each(f, all);
    OrderWritten(order, next, source, f);
    EachPermuted(f, all, order);
  }

  /** A list as it is read once each of its statuses has a row. */
  function KeptAll(list: seq<Status>): (r: seq<Status>)
    ensures |r| == |list| && forall i :: 0 <= i < |r| ==> r[i] == list[i].(kept := true)
  {
    seq(|list|, i requires 0 <= i < |list| => list[i].(kept := true))
  }

  lemma {:induction false} SortedAtPlaces(written: seq<Status>, next: seq<Status>)
    requires multiset(written) == multiset(KeptAll(next)) && forall i :: 0 <= i < |next| ==> next[i].row.position == i
    ensures Sort(Before, written) == KeptAll(next)
  {
    BeforeOrder();
    SortIs(Before, written, KeptAll(next));
  }

  lemma {:induction false} UnkeptAreDefaults(kind: ListKind, source: string, rows: seq<Row>, states: seq<TrackerState>,
                                             swapped: seq<Status>, next: seq<Status>)
    requires multiset(swapped) == multiset(Unsorted(kind, source, rows, states)) && next == Renumbered(swapped)
    ensures OfSource(next, source)
    ensures forall row :: row in RowsOf(Unkept(next)) ==>
              row.source == source && HasKey(DefaultsOf(kind, source, states), row.key)
  {
    var all, defaults := Unsorted(kind, source, rows, states), DefaultsOf(kind, source, states);
    UnsortedRanks(kind, source, rows, states);
    forall i | 0 <= i < |next|
      ensures next[i].row.source == source && (!next[i].kept ==> HasKey(defaults, next[i].row.key))
    {
      assert swapped[i] in multiset(all);
      var k :| 0 <= k < |all| && all[k] == swapped[i];
      assert k < |defaults| ==> all[k].row.key == defaults[k].row.key;
    }
    forall row | row in RowsOf(Unkept(next))
      ensures row.source == source && HasKey(defaults, row.key)
    {
      var k := KeptFrom(next, row);
    }
  }

  lemma {:induction false} UnkeptApart(list: seq<Status>)
    requires DistinctKeys(list)
    ensures DistinctKeys(Unkept(list)) && KeysApart(RowsOf(Unkept(list)))
  {
    if list != [] {
      UnkeptApart(list[1..]);
      var rest := Unkept(list[1..]);
      forall s | s in rest
        ensures s.row.key != list[0].row.key
      {
        var i :| 0 <= i < |list[1..]| && list[1..][i] == s;
        assert list[i + 1] == s;
      }
    }
  }

  lemma {:induction false} RenumberedApart(list: seq<Status>)
    requires DistinctKeys(list)
    ensures DistinctKeys(Renumbered(list))
  {
  }

  /** Any order of the statuses, once it is written and read again, is the list in that order, each with a row. */
  lemma {:induction false} OrderReadsBack(kind: ListKind, source: string, rows: seq<Row>, states: seq<TrackerState>,
                                          order: seq<Status>)
    requires multiset(order) == multiset(Unsorted(kind, source, rows, states)) && DistinctKeys(order)
    ensures StatusesOf(kind, source, RowsMoved(rows, Renumbered(order)), states) == KeptAll(Renumbered(order))
  {
    var next := Renumbered(order);
    RenumberedApart(order);
    UnkeptAreDefaults(kind, source, rows, states, order, next);
    UnkeptApart(next);
    WritesOfMove(kind, source, rows, states, next);
    WrittenAlike(Unsorted(kind, source, rows, states), order, next, source);
    SortedAtPlaces(Unsorted(kind, source, RowsMoved(rows, next), states), next);
  }

  lemma {:induction false} MovedIsOrder(list: seq<Status>, index: int, step: int) returns (order: seq<Status>)
    requires DistinctKeys(list) && Moved(list, index, step) != None
    ensures multiset(order) == multiset(list) && DistinctKeys(order)
    ensures Moved(list, index, step) == Some(Renumbered(order))
  {
    order := list[index := list[index + step]][index + step := list[index]];
    SwapKeys(list, index, index + step);
    MoveKeeps(list, index, step);
  }

  /** What is written for a move, and read again, is the list that the screen showed, each with a row. */
  lemma {:induction false} MoveReadsBack(kind: ListKind, source: string, rows: seq<Row>, states: seq<TrackerState>,
                                         index: int, step: int, next: seq<Status>)
    requires DistinctKeys(StatusesOf(kind, source, rows, states))
    requires Moved(StatusesOf(kind, source, rows, states), index, step) == Some(next)
    ensures StatusesOf(kind, source, RowsMoved(rows, next), states) == KeptAll(next)
  {
    var order := MovedIsOrder(StatusesOf(kind, source, rows, states), index, step);
    OrderReadsBack(kind, source, rows, states, order);
  }
}
