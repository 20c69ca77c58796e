/** The statuses of a site as a screen holds them: the rows the worker keeps, merged with the defaults. */
module SiteStatuses {
  import opened Options
  import opened Ordering

  datatype Stage = New | Todo | Progress | Done | Closed

  datatype Origin = Tracker | Team

  datatype Row = Row(
    source: string,
    key: string,
    name: Option<string>,
    stage: Stage,
    color: Option<string>,
    textColor: Option<string>,
    position: int,
    origin: Origin,
    hidden: bool)

  /** A status of the screen: its row, and what it is without it. */
  datatype Status = Status(
    row: Row,
    defaultStage: Stage,
    builtIn: bool,
    kept: bool,
    rank: nat,
    trackerName: Option<string>,
    trackerColor: Option<string>)

  datatype TrackerState = TrackerState(id: string, name: string, stage: Stage, color: Option<string>)

  datatype ListKind = Own | GitHub | Linear

  const OWN := "own"

  const NOTE_STAGES := [("new", New), ("todo", Todo), ("progress", Progress), ("done", Done), ("closed", Closed)]

  const GITHUB_STATES := [("open", New), ("closed:completed", Done), ("closed:not_planned", Closed),
                         ("closed:duplicate", Closed)]

  function Blank(source: string, key: string, stage: Stage, rank: nat, builtIn: bool): Status {
    Status(Row(source, key, None, stage, None, None, rank, if builtIn || source != OWN then Tracker else Team, false),
           stage, builtIn, false, rank, None, None)
  }

  function Fixed(source: string, states: seq<(string, Stage)>, builtIn: bool): (r: seq<Status>)
    ensures |r| == |states|
    ensures forall i :: 0 <= i < |r| ==> r[i] == Blank(source, states[i].0, states[i].1, i, builtIn)
  {
    seq(|states|, i requires 0 <= i < |states| => Blank(source, states[i].0, states[i].1, i, builtIn))
  }

  /** What a source shows before anything was saved for it. */
  function DefaultsOf(kind: ListKind, source: string, states: seq<TrackerState>): (r: seq<Status>)
    ensures forall i :: 0 <= i < |r| ==> r[i].rank == i && r[i].row.source == source && !r[i].kept
  {
    match kind
    case Own => Fixed(source, NOTE_STAGES, true)
    case GitHub => Fixed(source, GITHUB_STATES, false)
    case Linear =>
      seq(|states|, i requires 0 <= i < |states| =>
        Blank(source, states[i].id, states[i].stage, i, false)
          .(trackerName := Some(states[i].name), trackerColor := states[i].color))
  }

  function Mine(rows: seq<Row>, source: string): (r: seq<Row>)
    ensures forall row :: row in r <==> row in rows && row.source == source
  {
    if rows == [] then []
    else
      assert rows == [rows[0]] + rows[1..];
      (if rows[0].source == source then [rows[0]] else []) + Mine(rows[1..], source)
  }

  function Find(rows: seq<Row>, key: string): (r: Option<Row>)
    ensures r == None <==> forall row :: row in rows ==> row.key != key
    ensures r != None ==> r.value in rows && r.value.key == key
  {
    if rows == [] then None
    else
      assert rows == [rows[0]] + rows[1..];
      if rows[0].key == key then Some(rows[0]) else Find(rows[1..], key)
  }

  function Merge(status: Status, rows: seq<Row>): Status {
    match Find(rows, status.row.key)
    case None => status
    case Some(row) => status.(row := row, kept := true)
  }

  function Merged(defaults: seq<Status>, rows: seq<Row>): (r: seq<Status>)
    ensures |r| == |defaults| && forall i :: 0 <= i < |r| ==> r[i] == Merge(defaults[i], rows)
  {
    seq(|defaults|, i requires 0 <= i < |defaults| => Merge(defaults[i], rows))
  }

  ghost predicate HasKey(list: seq<Status>, key: string) {
    exists i :: 0 <= i < |list| && list[i].row.key == key
  }

  predicate KnownKey(list: seq<Status>, key: string)
    ensures KnownKey(list, key) <==> HasKey(list, key)
  {
    exists i :: 0 <= i < |list| && list[i].row.key == key
  }

  function Unknown(rows: seq<Row>, defaults: seq<Status>): (r: seq<Row>)
    ensures forall row :: row in r <==> row in rows && !HasKey(defaults, row.key)
  {
    if rows == [] then []
    else
      assert rows == [rows[0]] + rows[1..];
      (if KnownKey(defaults, rows[0].key) then [] else [rows[0]]) + Unknown(rows[1..], defaults)
  }

  /** The statuses the team added, after the defaults. */
  function Added(rows: seq<Row>, from: nat): (r: seq<Status>)
    ensures |r| == |rows|
    ensures forall i :: 0 <= i < |r| ==> r[i] == Status(rows[i], rows[i].stage, false, true, from + i, None, None)
  {
    seq(|rows|, i requires 0 <= i < |rows| => Status(rows[i], rows[i].stage, false, true, from + i, None, None))
  }

  function PlaceOf(status: Status): int {
    if status.kept then status.row.position else status.rank
  }

  predicate Before(one: Status, other: Status) {
    PlaceOf(one) < PlaceOf(other) || (PlaceOf(one) == PlaceOf(other) && one.rank <= other.rank)
  }

  /** The defaults with the rows of their source, then the statuses the team added. */
  function Listed(kind: ListKind, defaults: seq<Status>, mine: seq<Row>): seq<Status> {
    Merged(defaults, mine) + (if kind == Own then Added(Unknown(mine, defaults), |defaults|) else [])
  }

  function Unsorted(kind: ListKind, source: string, rows: seq<Row>, states: seq<TrackerState>): seq<Status> {
    Listed(kind, DefaultsOf(kind, source, states), Mine(rows, source))
  }

  function StatusesOf(kind: ListKind, source: string, rows: seq<Row>, states: seq<TrackerState>): seq<Status> {
    Sort(Before, Unsorted(kind, source, rows, states))
  }

  function RowsOf(list: seq<Status>): (r: seq<Row>)
    ensures |r| == |list| && forall i :: 0 <= i < |r| ==> r[i] == list[i].row
  {
    seq(|list|, i requires 0 <= i < |list| => list[i].row)
  }

  function ResetOf(status: Status): Status {
    status.(row := status.row.(name := None, color := None, textColor := None, stage := status.defaultStage))
  }

  function At(status: Status, position: int): Status {
    status.(row := status.row.(position := position))
  }

  function Renumbered(list: seq<Status>): (r: seq<Status>)
    ensures |r| == |list| && forall i :: 0 <= i < |r| ==> r[i] == At(list[i], i)
  {
    seq(|list|, i requires 0 <= i < |list| => At(list[i], i))
  }

  /** The list with one status moved by `step` places, each at its new position. */
  function Moved(list: seq<Status>, index: int, step: int): Option<seq<Status>> {
    var target := index + step;
    if index < 0 || index >= |list| || target < 0 || target >= |list| then None
    else Some(Renumbered(list[index := list[target]][target := list[index]]))
  }

  method Move(list: seq<Status>, index: int, step: int) returns (r: Option<seq<Status>>)
    ensures r == Moved(list, index, step)
  {
    var target := index + step;
    if index < 0 || index >= |list| || target < 0 || target >= |list| {
      return None;
    }
    var next := new Status[|list|](i requires 0 <= i < |list| => list[i]);
    next[index], next[target] := next[target], next[index];
    assert next[..] == list[index := list[target]][target := list[index]];
    r := Some(Renumbered(next[..]));
  }

  // ---- What a list written and read again shows -----------------------------------------------

  ghost predicate DistinctKeys(list: seq<Status>) {
    forall i, j :: 0 <= i < j < |list| ==> list[i].row.key != list[j].row.key
  }

  ghost predicate OfSource(list: seq<Status>, source: string) {
    forall i :: 0 <= i < |list| ==> list[i].row.source == source
  }

  /** The list shows every default, and a key of its own for the worker's store only. */
  ghost predicate Covers(list: seq<Status>, kind: ListKind, defaults: seq<Status>) {
    && (forall key :: HasKey(defaults, key) ==> HasKey(list, key))
    && (kind != Own ==> forall key :: HasKey(list, key) ==> HasKey(defaults, key))
  }

  lemma BeforeOrder()
    ensures Preorder(Before)
  {
  }

  lemma SortedByPlace(list: seq<Status>)
    requires forall i :: 0 <= i < |list| ==> list[i].kept
    ensures var r := Sort(Before, list); forall i, j :: 0 <= i < j < |r| ==> r[i].row.position <= r[j].row.position
  {
    BeforeOrder();
    SortSorted(Before, list);
    SortMembers(Before, list);
    var r := Sort(Before, list);
    forall i, j | 0 <= i < j < |r|
      ensures r[i].row.position <= r[j].row.position
    {
      assert Before(r[i], r[j]) && r[i] in list && r[j] in list;
    }
  }

  ghost predicate Climbs(rows: seq<Row>) {
    forall i, j :: 0 <= i < j < |rows| ==> rows[i].position < rows[j].position
  }

  lemma TailOfClimb(rows: seq<Row>, row: Row)
    requires Climbs(rows) && rows != []
    ensures row in rows[1..] <==> row in rows && row != rows[0]
  {
    assert rows == [rows[0]] + rows[1..];
    assert forall i :: 1 <= i < |rows| ==> rows[i] != rows[0];
  }

  /** Two lists of the same rows, each by strictly growing position, are the same list. */
  lemma {:induction false} SameRows(a: seq<Row>, b: seq<Row>)
    requires Climbs(a) && Climbs(b)
    requires forall row :: row in a <==> row in b
    ensures a == b
  {
    if a == [] {
      NoMembers(b);
    } else {
      assert a[0] in b && b != [] && b[0] in a;
      var i :| 0 <= i < |b| && b[i] == a[0];
      var j :| 0 <= j < |a| && a[j] == b[0];
      assert a[0] == b[0];
      forall row
        ensures row in a[1..] <==> row in b[1..]
      {
        TailOfClimb(a, row);
        TailOfClimb(b, row);
      }
      SameRows(a[1..], b[1..]);
    }
  }

  ghost predicate KeysApart(rows: seq<Row>) {
    forall i, j :: 0 <= i < j < |rows| ==> rows[i].key != rows[j].key
  }

  lemma {:induction false} UnknownApart(rows: seq<Row>, defaults: seq<Status>)
    requires KeysApart(rows)
    ensures KeysApart(Unknown(rows, defaults))
  {
    if rows != [] {
      UnknownApart(rows[1..], defaults);
    }
  }

  lemma OneRowForKey(rows: seq<Row>, one: Row, other: Row)
    requires KeysApart(rows) && one in rows && other in rows && one.key == other.key
    ensures one == other
  {
  }

  /** A list of one source, in the order of its positions, which covers the defaults. */
  ghost predicate Held(list: seq<Status>, kind: ListKind, source: string, states: seq<TrackerState>) {
    && OfSource(list, source) && DistinctKeys(list)
    && Climbs(RowsOf(list))
    && Covers(list, kind, DefaultsOf(kind, source, states)) && DistinctKeys(DefaultsOf(kind, source, states))
  }

  /** The store of the worker holds the rows of the list, in any order, beside the rows of other sources. */
  ghost predicate Stored(list: seq<Status>, store: seq<Row>, source: string) {
    && KeysApart(Mine(store, source))
    && forall row :: row in Mine(store, source) <==> row in RowsOf(list)
  }

  lemma DefaultIsRead(rows: seq<Row>, defaults: seq<Status>, row: Row) returns (i: nat)
    requires KeysApart(rows) && row in rows && HasKey(defaults, row.key)
    ensures i < |defaults| && Merged(defaults, rows)[i].row == row
  {
    i :| 0 <= i < |defaults| && defaults[i].row.key == row.key;
    var found := Find(rows, row.key);
    OneRowForKey(rows, row, found.value);
  }

  lemma {:induction false} RowIsRead(list: seq<Status>, store: seq<Row>, kind: ListKind, source: string,
                                     states: seq<TrackerState>, row: Row)
    requires Held(list, kind, source, states) && Stored(list, store, source) && row in RowsOf(list)
    ensures row in RowsOf(Unsorted(kind, source, store, states))
  {
    var rows := Mine(store, source);
    var defaults := DefaultsOf(kind, source, states);
    var read := Unsorted(kind, source, store, states);
    if HasKey(defaults, row.key) {
      var i := DefaultIsRead(rows, defaults, row);
      assert RowsOf(read)[i] == row;
    } else {
      WroteOwn(list, kind, defaults, row);
      var unknown := Unknown(rows, defaults);
      var i :| 0 <= i < |unknown| && unknown[i] == row;
      assert RowsOf(read)[|defaults| + i] == row;
    }
  }

  /** What is read before it is sorted: the rows that were written, each once. */
  lemma {:induction false} ReadRows(list: seq<Status>, store: seq<Row>, kind: ListKind, source: string,
                                    states: seq<TrackerState>)
    requires Held(list, kind, source, states) && Stored(list, store, source)
    ensures var read := Unsorted(kind, source, store, states);
            && (forall i :: 0 <= i < |read| ==> read[i].kept && read[i].row in RowsOf(list))
            && (forall row :: row in RowsOf(list) ==> row in RowsOf(read))
  {
    var defaults := DefaultsOf(kind, source, states);
    var read := Unsorted(kind, source, store, states);
    forall i | 0 <= i < |defaults|
      ensures read[i].kept && read[i].row in RowsOf(list) && read[i].row.key == defaults[i].row.key
    {
      WasWritten(list, store, source, defaults, i);
    }
    forall row | row in RowsOf(list)
      ensures row in RowsOf(read)
    {
      RowIsRead(list, store, kind, source, states, row);
    }
  }

  lemma WasWritten(list: seq<Status>, store: seq<Row>, source: string, defaults: seq<Status>, i: nat)
    requires Stored(list, store, source)
    requires i < |defaults| && forall key :: HasKey(defaults, key) ==> HasKey(list, key)
    ensures Find(Mine(store, source), defaults[i].row.key) != None
  {
    var key := defaults[i].row.key;
    assert HasKey(defaults, key);
    var j :| 0 <= j < |list| && list[j].row.key == key;
    assert RowsOf(list)[j] in RowsOf(list);
  }

  lemma WroteOwn(list: seq<Status>, kind: ListKind, defaults: seq<Status>, row: Row)
    requires Covers(list, kind, defaults) && row in RowsOf(list) && !HasKey(defaults, row.key)
    ensures kind == Own
  {
    var j :| 0 <= j < |list| && RowsOf(list)[j] == row;
    assert list[j].row.key == row.key;
    assert HasKey(list, row.key);
  }

  lemma {:induction false} ReadApart(list: seq<Status>, store: seq<Row>, kind: ListKind, source: string,
                                     states: seq<TrackerState>)
    requires Held(list, kind, source, states) && Stored(list, store, source)
    ensures DistinctKeys(Unsorted(kind, source, store, states))
  {
    var rows := Mine(store, source);
    var defaults := DefaultsOf(kind, source, states);
    var read := Unsorted(kind, source, store, states);
    UnknownApart(rows, defaults);
    forall i, j | 0 <= i < j < |read|
      ensures read[i].row.key != read[j].row.key
    {
      if i < |defaults| {
        WasWritten(list, store, source, defaults, i);
        assert read[i].row.key == defaults[i].row.key;
        if j < |defaults| {
          WasWritten(list, store, source, defaults, j);
        } else {
          assert read[j].row in Unknown(rows, defaults);
          assert !HasKey(defaults, read[j].row.key);
        }
      }
    }
  }

  lemma SortApart(list: seq<Status>)
    requires DistinctKeys(list)
    ensures DistinctKeys(Sort(Before, list))
  {
    var r := Sort(Before, list);
    SortDistinct(Before, list);
    SortMembers(Before, list);
    forall i, j | 0 <= i < j < |r|
      ensures r[i].row.key != r[j].row.key
    {
      assert r[i] in list && r[j] in list && r[i] != r[j];
    }
  }

  /**
   * The round trip: a list of the screen, whatever was renamed, recoloured, hidden, reset, added or
   * moved in it, reads back in the same order with the same rows once every row of it is written,
   * whatever the store holds of other sources.
   */
  lemma WriteThenRead(list: seq<Status>, store: seq<Row>, kind: ListKind, source: string, states: seq<TrackerState>)
    requires Held(list, kind, source, states) && Stored(list, store, source)
    ensures RowsOf(StatusesOf(kind, source, store, states)) == RowsOf(list)
  {
    ReadRows(list, store, kind, source, states);
    ReadApart(list, store, kind, source, states);
    ReadSorted(list, Unsorted(kind, source, store, states));
  }

  lemma ReadSorted(list: seq<Status>, read: seq<Status>)
    requires Climbs(RowsOf(list))
    requires forall i :: 0 <= i < |read| ==> read[i].kept && read[i].row in RowsOf(list)
    requires forall row :: row in RowsOf(list) ==> row in RowsOf(read)
    requires DistinctKeys(read)
    ensures RowsOf(Sort(Before, read)) == RowsOf(list)
  {
    var sorted := Sort(Before, read);
    SortApart(read);
    SortedByPlace(read);
    SortMembers(Before, read);
    SortedRows(list, read, sorted);
    SameRows(RowsOf(sorted), RowsOf(list));
  }

  lemma SortedRows(list: seq<Status>, read: seq<Status>, sorted: seq<Status>)
    requires Climbs(RowsOf(list))
    requires forall i :: 0 <= i < |read| ==> read[i].row in RowsOf(list)
    requires forall row :: row in RowsOf(list) ==> row in RowsOf(read)
    requires DistinctKeys(sorted) && forall status :: status in sorted <==> status in read
    requires forall i, j :: 0 <= i < j < |sorted| ==> sorted[i].row.position <= sorted[j].row.position
    ensures Climbs(RowsOf(sorted)) && forall row :: row in RowsOf(sorted) <==> row in RowsOf(list)
  {
    forall i | 0 <= i < |sorted|
      ensures sorted[i].row in RowsOf(list)
    {
      assert sorted[i] in sorted;
      var k :| 0 <= k < |read| && read[k] == sorted[i];
    }
    forall i, j | 0 <= i < j < |sorted|
      ensures sorted[i].row.position < sorted[j].row.position
    {
      var a :| 0 <= a < |list| && RowsOf(list)[a] == sorted[i].row;
      var b :| 0 <= b < |list| && RowsOf(list)[b] == sorted[j].row;
      assert a != b;
    }
    forall row | row in RowsOf(list)
      ensures row in RowsOf(sorted)
    {
      var k :| 0 <= k < |read| && RowsOf(read)[k] == row;
      assert read[k] in read;
      var i :| 0 <= i < |sorted| && sorted[i] == read[k];
      assert RowsOf(sorted)[i] == row;
    }
  }

  // ---- Moves ----------------------------------------------------------------------------------

  lemma UnsortedRanks(kind: ListKind, source: string, rows: seq<Row>, states: seq<TrackerState>)
    ensures var all := Unsorted(kind, source, rows, states);
            && (forall i :: 0 <= i < |all| ==> all[i].rank == i)
            && OfSource(all, source)
            && Covers(all, kind, DefaultsOf(kind, source, states))
  {
    var defaults := DefaultsOf(kind, source, states);
    var all := Unsorted(kind, source, rows, states);
    assert forall i :: 0 <= i < |defaults| ==> all[i].row.key == defaults[i].row.key;
    var unknown := Unknown(Mine(rows, source), defaults);
    forall i | |defaults| <= i < |all|
      ensures all[i].row.source == source
    {
      assert all[i].row == unknown[i - |defaults|];
      assert unknown[i - |defaults|] in unknown;
    }
  }

  lemma UnsortedApart(list: seq<Status>, all: seq<Status>)
    requires DistinctKeys(list) && forall status :: status in list <==> status in all
    requires forall i :: 0 <= i < |all| ==> all[i].rank == i
    ensures DistinctKeys(all)
  {
    forall i, j | 0 <= i < j < |all|
      ensures all[i].row.key != all[j].row.key
    {
      assert all[i] in list && all[j] in list;
      var a :| 0 <= a < |list| && list[a] == all[i];
      var b :| 0 <= b < |list| && list[b] == all[j];
      assert a != b;
    }
  }

  /** A move keeps the statuses, and changes the place of two. */
  lemma MoveKeeps(list: seq<Status>, index: int, step: int)
    requires Moved(list, index, step) != None
    ensures var swapped := list[index := list[index + step]][index + step := list[index]];
            multiset(swapped) == multiset(list) && Moved(list, index, step) == Some(Renumbered(swapped))
  {
  }

  /** A move and its inverse give the order back, each status at its place. */
  lemma MoveThenBack(list: seq<Status>, index: int, step: int)
    requires Moved(list, index, step) != None
    ensures Moved(Moved(list, index, step).value, index + step, -step) == Some(Renumbered(list))
  {
    var target := index + step;
    var moved := Moved(list, index, step).value;
    var back := moved[target := moved[index]][index := moved[target]];
    forall i | 0 <= i < |list|
      ensures Renumbered(back)[i] == Renumbered(list)[i]
    {
    }
    assert Renumbered(back) == Renumbered(list);
  }

  lemma SwapKeys(list: seq<Status>, a: nat, b: nat)
    requires a < |list| && b < |list| && DistinctKeys(list)
    ensures DistinctKeys(list[a := list[b]][b := list[a]])
  {
  }

  // ---- What a list shows ----------------------------------------------------------------------

  /** What a status is when nobody changed anything of it. */
  predicate Untouched(status: Status, source: string, key: string, stage: Stage, rank: nat, builtIn: bool) {
    && status.row.source == source && status.row.key == key && status.row.stage == stage == status.defaultStage
    && status.row.name == None && status.row.color == None && status.row.textColor == None
    && status.row.position == rank == status.rank && !status.row.hidden
    && status.row.origin == (if builtIn || source != "own" then Tracker else Team)
    && status.builtIn == builtIn && !status.kept
  }

  /** The worker's own store shows five statuses, GitHub four, and Linear the states of the team. */
  lemma {:induction false} DefaultsExactly(source: string, states: seq<TrackerState>)
    ensures var own := DefaultsOf(Own, source, states);
            && |own| == 5
            && Untouched(own[0], source, "new", New, 0, true) && Untouched(own[1], source, "todo", Todo, 1, true)
            && Untouched(own[2], source, "progress", Progress, 2, true)
            && Untouched(own[3], source, "done", Done, 3, true)
            && Untouched(own[4], source, "closed", Closed, 4, true)
            && forall i :: 0 <= i < 5 ==> own[i].trackerName == None && own[i].trackerColor == None
    ensures var hub := DefaultsOf(GitHub, source, states);
            && |hub| == 4
            && Untouched(hub[0], source, "open", New, 0, false)
            && Untouched(hub[1], source, "closed:completed", Done, 1, false)
            && Untouched(hub[2], source, "closed:not_planned", Closed, 2, false)
            && Untouched(hub[3], source, "closed:duplicate", Closed, 3, false)
            && forall i :: 0 <= i < 4 ==> hub[i].trackerName == None && hub[i].trackerColor == None
    ensures var linear := DefaultsOf(Linear, source, states);
            && |linear| == |states|
            && forall i :: 0 <= i < |states| ==>
                 && Untouched(linear[i], source, states[i].id, states[i].stage, i, false)
                 && linear[i].trackerName == Some(states[i].name) && linear[i].trackerColor == states[i].color
  {
  }

  /** A reset gives a status its default look and stage back, and leaves it where it is. */
  lemma {:induction false} ResetExactly(status: Status)
    ensures var reset := ResetOf(status);
            && reset.row.name == None && reset.row.color == None && reset.row.textColor == None
            && reset.row.stage == status.defaultStage
            && reset.row.source == status.row.source && reset.row.key == status.row.key
            && reset.row.position == status.row.position && reset.row.origin == status.row.origin
            && reset.row.hidden == status.row.hidden
            && reset == status.(row := reset.row)
  {
  }

  /** The first row of a status that the worker keeps is the row `k`. */
  ghost predicate FirstRow(rows: seq<Row>, source: string, key: string, k: nat) {
    && k < |rows| && rows[k].source == source && rows[k].key == key
    && forall j :: 0 <= j < k ==> rows[j].source != source || rows[j].key != key
  }

  /** A default, with the first row of it when the worker keeps one. */
  ghost predicate Shows(status: Status, default: Status, rows: seq<Row>, source: string) {
    && (forall k: nat :: FirstRow(rows, source, default.row.key, k) ==>
          status == default.(row := rows[k], kept := true))
    && ((forall k: nat :: !FirstRow(rows, source, default.row.key, k)) ==> status == default)
  }

  lemma {:induction false} MineAppend(a: seq<Row>, b: seq<Row>, source: string)
    ensures Mine(a + b, source) == Mine(a, source) + Mine(b, source)
  {
    if a == [] {
      assert a + b == b;
    } else {
      assert (a + b)[1..] == a[1..] + b;
      MineAppend(a[1..], b, source);
    }
  }

  lemma {:induction false} UnknownAppend(a: seq<Row>, b: seq<Row>, defaults: seq<Status>)
    ensures Unknown(a + b, defaults) == Unknown(a, defaults) + Unknown(b, defaults)
  {
    if a == [] {
      assert a + b == b;
    } else {
      assert (a + b)[1..] == a[1..] + b;
      UnknownAppend(a[1..], b, defaults);
    }
  }

  lemma {:induction false} FindFirst(rows: seq<Row>, source: string, key: string)
    ensures match Find(Mine(rows, source), key)
            case None => forall k: nat :: !FirstRow(rows, source, key, k)
            case Some(row) => exists k: nat :: FirstRow(rows, source, key, k) && rows[k] == row
  {
    if rows != [] {
      var rest := rows[1..];
      FindFirst(rest, source, key);
      FindOne(rows[0], Mine(rest, source), source, key);
      assert Mine(rows, source) == (if rows[0].source == source then [rows[0]] else []) + Mine(rest, source);
      FirstRowLater(rows, source, key);
      if rows[0].source == source && rows[0].key == key {
        assert FirstRow(rows, source, key, 0);
      } else if Find(Mine(rest, source), key) != None {
        var k: nat :| FirstRow(rest, source, key, k) && Some(rest[k]) == Find(Mine(rest, source), key);
        assert FirstRow(rows, source, key, k + 1);
      }
    }
  }

  lemma FindOne(first: Row, mine: seq<Row>, source: string, key: string)
    ensures Find((if first.source == source then [first] else []) + mine, key)
         == if first.source == source && first.key == key then Some(first) else Find(mine, key)
  {
    assert [] + mine == mine && ([first] + mine)[1..] == mine;
  }

  lemma FirstRowLater(rows: seq<Row>, source: string, key: string)
    requires rows != []
    ensures rows[0].source == source && rows[0].key == key ==>
              forall k: nat :: FirstRow(rows, source, key, k) ==> k == 0
    ensures !(rows[0].source == source && rows[0].key == key) ==>
              forall k: nat :: FirstRow(rows, source, key, k) <==> k > 0 && FirstRow(rows[1..], source, key, k - 1)
  {
  }

  lemma {:induction false} MergeShows(status: Status, default: Status, rows: seq<Row>, source: string)
    requires Shows(status, default, rows, source)
    ensures status == Merge(default, Mine(rows, source))
  {
    FindFirst(rows, source, default.row.key);
  }

  /** The row `k` is of the source, and of none of its defaults. */
  ghost predicate IsOther(rows: seq<Row>, source: string, defaults: seq<Status>, k: nat) {
    k < |rows| && rows[k].source == source && !HasKey(defaults, rows[k].key)
  }

  /** The places of the rows that are of no default, in their order. */
  ghost predicate OthersAre(others: seq<nat>, rows: seq<Row>, source: string, defaults: seq<Status>) {
    && (forall a, b :: 0 <= a < b < |others| ==> others[a] < others[b])
    && forall k: nat :: k in others <==> IsOther(rows, source, defaults, k)
  }

  function RowsAt(rows: seq<Row>, places: seq<nat>): (r: seq<Row>)
    requires forall a :: 0 <= a < |places| ==> places[a] < |rows|
    ensures |r| == |places| && forall a :: 0 <= a < |r| ==> r[a] == rows[places[a]]
  {
    seq(|places|, a requires 0 <= a < |places| => rows[places[a]])
  }

  lemma {:induction false} UnknownFront(rows: seq<Row>, source: string, defaults: seq<Status>)
    requires rows != []
    ensures var n := |rows| - 1;
            Unknown(Mine(rows, source), defaults)
            == Unknown(Mine(rows[..n], source), defaults)
               + if IsOther(rows, source, defaults, n) then [rows[n]] else []
  {
    var n := |rows| - 1;
    var front, last := rows[..n], rows[n];
    assert rows == front + [last];
    MineAppend(front, [last], source);
    UnknownAppend(Mine(front, source), Mine([last], source), defaults);
    assert Mine([last], source) == if last.source == source then [last] else [];
    assert Unknown([last], defaults) == if HasKey(defaults, last.key) then [] else [last];
  }

  /** Without the greatest of them, if it is there. */
  lemma {:induction false} WithoutLast(others: seq<nat>, n: nat) returns (front: seq<nat>)
    requires forall a, b :: 0 <= a < b < |others| ==> others[a] < others[b]
    requires forall a :: 0 <= a < |others| ==> others[a] <= n
    ensures others == front + if n in others then [n] else []
    ensures n !in front && forall k :: k in front <==> k in others && k != n
    ensures forall a, b :: 0 <= a < b < |front| ==> front[a] < front[b]
  {
    if n in others {
      var a :| 0 <= a < |others| && others[a] == n;
      var x, y := others[a], others[|others| - 1];
      assert a == |others| - 1 || x < y;
      front := others[..a];
      assert others == front + [n];
    } else {
      front := others;
      assert others == front + [];
    }
  }

  lemma {:induction false} OthersBefore(others: seq<nat>, rows: seq<Row>, source: string, defaults: seq<Status>)
    returns (front: seq<nat>)
    requires rows != [] && OthersAre(others, rows, source, defaults)
    ensures OthersAre(front, rows[..|rows| - 1], source, defaults)
    ensures others == front + if IsOther(rows, source, defaults, |rows| - 1) then [|rows| - 1] else []
  {
    var n: nat := |rows| - 1;
    forall a | 0 <= a < |others|
      ensures others[a] <= n
    {
      assert others[a] in others;
    }
    front := WithoutLast(others, n);
    forall k: nat
      ensures k in front <==> IsOther(rows[..n], source, defaults, k)
    {
      assert k < n ==> (IsOther(rows[..n], source, defaults, k) <==> IsOther(rows, source, defaults, k));
    }
  }

  lemma {:induction false} NoOthers(others: seq<nat>, source: string, defaults: seq<Status>)
    requires OthersAre(others, [], source, defaults)
    ensures others == []
  {
    NoMembers(others);
  }

  /** The rows of no default, in their order, are the rows at those places. */
  ghost predicate OthersRead(others: seq<nat>, rows: seq<Row>, unknown: seq<Row>) {
    && (forall a :: 0 <= a < |others| ==> others[a] < |rows|)
    && unknown == RowsAt(rows, others)
  }

  lemma OneMoreRead(front: seq<nat>, before: seq<Row>, unknown: seq<Row>, row: Row, more: bool)
    requires OthersRead(front, before, unknown)
    ensures OthersRead(front + (if more then [|before|] else []), before + [row],
                       unknown + (if more then [row] else []))
  {
  }

  lemma {:induction false} UnknownAre(others: seq<nat>, rows: seq<Row>, source: string, defaults: seq<Status>)
    requires OthersAre(others, rows, source, defaults)
    ensures OthersRead(others, rows, Unknown(Mine(rows, source), defaults))
    decreases |rows|
  {
    if rows == [] {
      NoOthers(others, source, defaults);
    } else {
      var n: nat := |rows| - 1;
      var before, row := rows[..n], rows[n];
      var front := OthersBefore(others, rows, source, defaults);
      UnknownAre(front, before, source, defaults);
      UnknownFront(rows, source, defaults);
      OneMoreRead(front, before, Unknown(Mine(before, source), defaults), row, IsOther(rows, source, defaults, n));
      assert rows == before + [row];
    }
  }

  /** What is shown of a source, in any order: each default, and of the own store the others in their order. */
  ghost predicate AllShown(all: seq<Status>, kind: ListKind, source: string, rows: seq<Row>,
                           states: seq<TrackerState>, others: seq<nat>)
  {
    var defaults := DefaultsOf(kind, source, states);
    && OthersAre(others, rows, source, defaults)
    && |all| == |defaults| + (if kind == Own then |others| else 0)
    && (forall i :: 0 <= i < |defaults| ==> Shows(all[i], defaults[i], rows, source))
    && (kind == Own ==> forall a :: 0 <= a < |others| ==>
          others[a] < |rows|
          && all[|defaults| + a]
             == Status(rows[others[a]], rows[others[a]].stage, false, true, |defaults| + a, None, None))
  }

  lemma {:induction false} AllIs(all: seq<Status>, kind: ListKind, source: string, rows: seq<Row>,
                                 states: seq<TrackerState>, others: seq<nat>)
    requires AllShown(all, kind, source, rows, states, others)
    ensures all == Unsorted(kind, source, rows, states)
  {
    var defaults := DefaultsOf(kind, source, states);
    var first := Merged(defaults, Mine(rows, source));
    forall i | 0 <= i < |defaults|
      ensures all[i] == first[i]
    {
      MergeShows(all[i], defaults[i], rows, source);
    }
    UnknownAre(others, rows, source, defaults);
    if kind == Own {
      AddedAre(all, first, Unknown(Mine(rows, source), defaults));
    } else {
      assert all == first + [];
    }
  }

  lemma AddedAre(all: seq<Status>, first: seq<Status>, unknown: seq<Row>)
    requires |all| == |first| + |unknown| && forall i :: 0 <= i < |first| ==> all[i] == first[i]
    requires forall a :: 0 <= a < |unknown| ==>
               all[|first| + a] == Status(unknown[a], unknown[a].stage, false, true, |first| + a, None, None)
    ensures all == first + Added(unknown, |first|)
  {
    assert forall a :: 0 <= a < |unknown| ==> all[|first| + a] == Added(unknown, |first|)[a];
  }

  /** In the order of the positions that are kept and of the ranks of the others, ties by rank. */
  ghost predicate InOrder(list: seq<Status>) {
    forall i, j :: 0 <= i < j < |list| ==>
      var one, other := list[i], list[j];
      var place := if one.kept then one.row.position else one.rank;
      var otherPlace := if other.kept then other.row.position else other.rank;
      place < otherPlace || (place == otherPlace && one.rank < other.rank)
  }

  /** Whatever list shows that, in that order, is the list of the screen. */
  lemma {:induction false} ListExactly(kind: ListKind, source: string, rows: seq<Row>, states: seq<TrackerState>,
                                       others: seq<nat>, all: seq<Status>, list: seq<Status>)
    requires AllShown(all, kind, source, rows, states, others)
    requires multiset(list) == multiset(all) && InOrder(list)
    ensures StatusesOf(kind, source, rows, states) == list
  {
    AllIs(all, kind, source, rows, states, others);
    BeforeOrder();
    assert Sorted(Before, list);
    ListUntied(list);
    SortIs(Before, all, list);
  }

  lemma {:induction false} ListUntied(list: seq<Status>)
    requires InOrder(list)
    ensures Untied(Before, list)
  {
    forall a, b | a in list && b in list && Before(a, b) && Before(b, a)
      ensures a == b
    {
      var i :| 0 <= i < |list| && list[i] == a;
      var j :| 0 <= j < |list| && list[j] == b;
      assert i == j;
    }
  }
}
