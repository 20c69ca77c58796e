/** The columns of the board: every note shown, each in the column of its status or of its stage. */
module BoardColumns {
  import opened Options
  import opened Ordering
  import SiteStatuses

  type Stage = SiteStatuses.Stage

  datatype Note = Note(id: string, stage: Stage, status: Option<string>)

  datatype Choice = Choice(key: string, stage: Stage, hidden: bool)

  datatype Column = Column(key: string, stage: Stage, status: Option<Choice>, notes: seq<Note>)

  datatype Place = OfStatus(key: string) | OfStage(stage: Stage)

  const STAGES: seq<Stage> := [SiteStatuses.New, SiteStatuses.Todo, SiteStatuses.Progress, SiteStatuses.Done,
                               SiteStatuses.Closed]

  function StageWord(stage: Stage): string {
    match stage
    case New => "new"
    case Todo => "todo"
    case Progress => "progress"
    case Done => "done"
    case Closed => "closed"
  }

  // ---------- the statuses, as a map by key ----------

  /** The keys in the order a map keeps them: where each comes first. */
  function Keys(statuses: seq<Choice>): seq<string> {
    if statuses == [] then []
    else
      var front := Keys(statuses[..|statuses| - 1]);
      var key := statuses[|statuses| - 1].key;
      if key in front then front else front + [key]
  }

  lemma {:induction false} KeysMean(statuses: seq<Choice>)
    ensures Distinct(Keys(statuses))
    ensures forall i :: 0 <= i < |statuses| ==> statuses[i].key in Keys(statuses)
  {
    if statuses != [] {
      KeysMean(statuses[..|statuses| - 1]);
    }
  }

  /** What the map holds for a key: the last status of that key. */
  function ChoiceOf(statuses: seq<Choice>, key: string): (r: Choice)
    requires key in Keys(statuses)
    ensures r.key == key && r in statuses
  {
    var last := statuses[|statuses| - 1];
    if last.key == key then last else ChoiceOf(statuses[..|statuses| - 1], key)
  }

  /** The first status that is shown, of a stage and, when `builtIn`, with the key of the built-in one. */
  function FirstShown(statuses: seq<Choice>, stage: Stage, builtIn: bool): (r: Option<string>)
    ensures r.Some? ==> exists status :: status in statuses && !status.hidden && status.key == r.value
  {
    if statuses == [] then None
    else if !statuses[0].hidden
         && (if builtIn then statuses[0].key == "own:" + StageWord(stage) else statuses[0].stage == stage)
    then Some(statuses[0].key)
    else
      var rest := FirstShown(statuses[1..], stage, builtIn);
      rest
  }

  function ShownKey(statuses: seq<Choice>, stage: Stage): Option<string> {
    var builtIn := FirstShown(statuses, stage, true);
    if builtIn.Some? then builtIn else FirstShown(statuses, stage, false)
  }

  /** Where a note goes: its status when the site has it, else a shown status of its stage, else its stage. */
  function PlaceOf(statuses: seq<Choice>, note: Note): Place {
    if note.status.Some? && note.status.value in Keys(statuses) then OfStatus(note.status.value)
    else
      match ShownKey(statuses, note.stage)
      case Some(key) => OfStatus(key)
      case None => OfStage(note.stage)
  }

  lemma PlaceIsThere(statuses: seq<Choice>, note: Note)
    ensures match PlaceOf(statuses, note)
            case OfStatus(key) => key in Keys(statuses)
            case OfStage(stage) => stage == note.stage
  {
    KeysMean(statuses);
  }

  /** The notes of a place, in their order. */
  function NotesAt(notes: seq<Note>, statuses: seq<Choice>, place: Place): seq<Note> {
    if notes == [] then []
    else
      var last := notes[|notes| - 1];
      NotesAt(notes[..|notes| - 1], statuses, place) + if PlaceOf(statuses, last) == place then [last] else []
  }

  function NotesOfStage(notes: seq<Note>, stage: Stage): seq<Note> {
    if notes == [] then []
    else
      var last := notes[|notes| - 1];
      NotesOfStage(notes[..|notes| - 1], stage) + if last.stage == stage then [last] else []
  }

  // ---------- the board ----------

  function StageColumn(stage: Stage, notes: seq<Note>): Column {
    Column("stage:" + StageWord(stage), stage, None, notes)
  }

  /** Without statuses, a column for each stage, also an empty one. */
  function StageColumns(notes: seq<Note>, stages: seq<Stage>): seq<Column>
    decreases |stages|
  {
    if stages == [] then []
    else
      var stage := stages[|stages| - 1];
      StageColumns(notes, stages[..|stages| - 1])
      + [StageColumn(stage, NotesOfStage(notes, stage))]
  }

  /** The column of a status of the site; none when it is hidden and no note is in it. */
  function StatusColumn(statuses: seq<Choice>, key: string, notes: seq<Note>): seq<Column> {
    if key !in Keys(statuses) then []
    else
      var choice := ChoiceOf(statuses, key);
      if choice.hidden && notes == [] then [] else [Column(key, choice.stage, Some(choice), notes)]
  }

  function ExtraColumn(stage: Stage, notes: seq<Note>): seq<Column> {
    if notes == [] then [] else [StageColumn(stage, notes)]
  }

  function PlaceColumn(statuses: seq<Choice>, place: Place, notes: seq<Note>): seq<Column> {
    match place
    case OfStatus(key) => StatusColumn(statuses, key, notes)
    case OfStage(stage) => ExtraColumn(stage, notes)
  }

  function OfStatuses(keys: seq<string>): seq<Place> {
    seq(|keys|, i requires 0 <= i < |keys| => OfStatus(keys[i]))
  }

  function OfStages(stages: seq<Stage>): seq<Place> {
    seq(|stages|, i requires 0 <= i < |stages| => OfStage(stages[i]))
  }

  /** The places of a board: its statuses, then the stages. */
  function Places(statuses: seq<Choice>): (r: seq<Place>)
    ensures |r| == |Keys(statuses)| + |STAGES|
    ensures forall i :: 0 <= i < |r| && r[i].OfStatus? ==> r[i].key in Keys(statuses)
  {
    OfStatuses(Keys(statuses)) + OfStages(STAGES)
  }

  function ColumnsOf(notes: seq<Note>, statuses: seq<Choice>, places: seq<Place>): seq<Column>
    decreases |places|
  {
    if places == [] then []
    else
      var place := places[|places| - 1];
      ColumnsOf(notes, statuses, places[..|places| - 1])
      + PlaceColumn(statuses, place, NotesAt(notes, statuses, place))
  }

  function BoardOf(notes: seq<Note>, statuses: Option<seq<Choice>>): seq<Column> {
    if statuses.None? || statuses.value == [] then StageColumns(notes, STAGES)
    else ColumnsOf(notes, statuses.value, Places(statuses.value))
  }

  function NotesIn(extra: map<Stage, seq<Note>>, stage: Stage): seq<Note> {
    if stage in extra then extra[stage] else []
  }

  /** What the two maps of the loop hold, once it put `notes`. */
  ghost predicate Put(held: map<string, seq<Note>>, extra: map<Stage, seq<Note>>, notes: seq<Note>,
                      statuses: seq<Choice>)
  {
    && (forall key :: key in held <==> key in Keys(statuses))
    && (forall key :: key in held ==> held[key] == NotesAt(notes, statuses, OfStatus(key)))
    && (forall stage :: NotesIn(extra, stage) == NotesAt(notes, statuses, OfStage(stage)))
  }

  lemma NextAt(notes: seq<Note>, note: Note, statuses: seq<Choice>, place: Place)
    ensures NotesAt(notes + [note], statuses, place) ==
      NotesAt(notes, statuses, place) + if PlaceOf(statuses, note) == place then [note] else []
  {
    assert (notes + [note])[..|notes|] == notes;
  }

  lemma PutHeld(held: map<string, seq<Note>>, extra: map<Stage, seq<Note>>, notes: seq<Note>,
                statuses: seq<Choice>, note: Note, key: string)
    requires Put(held, extra, notes, statuses) && key in held && PlaceOf(statuses, note) == OfStatus(key)
    ensures Put(held[key := held[key] + [note]], extra, notes + [note], statuses)
  {
    forall other | other in held
      ensures NotesAt(notes + [note], statuses, OfStatus(other)) == held[other] + if other == key then [note] else []
    {
      NextAt(notes, note, statuses, OfStatus(other));
    }
    forall stage
      ensures NotesAt(notes + [note], statuses, OfStage(stage)) == NotesIn(extra, stage)
    {
      NextAt(notes, note, statuses, OfStage(stage));
    }
  }

  lemma PutExtra(held: map<string, seq<Note>>, extra: map<Stage, seq<Note>>, notes: seq<Note>,
                 statuses: seq<Choice>, note: Note, own: Stage)
    requires Put(held, extra, notes, statuses) && PlaceOf(statuses, note) == OfStage(own)
    ensures Put(held, extra[own := NotesIn(extra, own) + [note]], notes + [note], statuses)
  {
    var next := extra[own := NotesIn(extra, own) + [note]];
    forall key | key in held
      ensures held[key] == NotesAt(notes + [note], statuses, OfStatus(key))
    {
      NextAt(notes, note, statuses, OfStatus(key));
    }
    forall stage
      ensures NotesIn(next, stage) == NotesAt(notes + [note], statuses, OfStage(stage))
    {
      NextAt(notes, note, statuses, OfStage(stage));
      InNext(extra, own, NotesIn(extra, own) + [note], stage);
    }
  }

  lemma InNext(extra: map<Stage, seq<Note>>, own: Stage, notes: seq<Note>, stage: Stage)
    ensures NotesIn(extra[own := notes], stage) == if stage == own then notes else NotesIn(extra, stage)
  {
  }

  /** The loop over the notes: each is pushed to the notes of its status, or of a stage beside them. */
  method PutNotes(notes: seq<Note>, statuses: seq<Choice>)
    returns (held: map<string, seq<Note>>, extra: map<Stage, seq<Note>>)
    ensures Put(held, extra, notes, statuses)
  {
    held := map key | key in Keys(statuses) :: [];
    extra := map[];
    for i := 0 to |notes|
      invariant Put(held, extra, notes[..i], statuses)
    {
      var note := notes[i];
      assert notes[..i + 1] == notes[..i] + [note];
      PlaceIsThere(statuses, note);
      var own := note.status.Some? && note.status.value in held;
      var key := if own then note.status else ShownKey(statuses, note.stage);
      if key.Some? {
        PutHeld(held, extra, notes[..i], statuses, note, key.value);
        held := held[key.value := held[key.value] + [note]];
      } else {
        PutExtra(held, extra, notes[..i], statuses, note, note.stage);
        extra := extra[note.stage := NotesIn(extra, note.stage) + [note]];
      }
    }
    assert notes[..|notes|] == notes;
  }

  lemma NextColumn(notes: seq<Note>, statuses: seq<Choice>, places: seq<Place>, i: nat)
    requires i < |places|
    ensures ColumnsOf(notes, statuses, places[..i + 1]) ==
      ColumnsOf(notes, statuses, places[..i])
      + PlaceColumn(statuses, places[i], NotesAt(notes, statuses, places[i]))
  {
    assert places[..i + 1][..i] == places[..i];
  }

  /** The notes the loop put in a place. */
  function NotesOf(held: map<string, seq<Note>>, extra: map<Stage, seq<Note>>, place: Place): seq<Note> {
    match place
    case OfStatus(key) => if key in held then held[key] else []
    case OfStage(stage) => NotesIn(extra, stage)
  }

  lemma PutAt(held: map<string, seq<Note>>, extra: map<Stage, seq<Note>>, notes: seq<Note>, statuses: seq<Choice>,
              place: Place)
    requires Put(held, extra, notes, statuses) && (place.OfStatus? ==> place.key in Keys(statuses))
    ensures NotesOf(held, extra, place) == NotesAt(notes, statuses, place)
  {
  }

  /** The columns of the places, from the notes the loop put. */
  method ShowPlaces(held: map<string, seq<Note>>, extra: map<Stage, seq<Note>>, ghost notes: seq<Note>,
                    statuses: seq<Choice>)
    returns (columns: seq<Column>)
    requires Put(held, extra, notes, statuses)
    ensures columns == ColumnsOf(notes, statuses, Places(statuses))
  {
    var places := Places(statuses);
    columns := [];
    for i := 0 to |places|
      invariant columns == ColumnsOf(notes, statuses, places[..i])
    {
      NextColumn(notes, statuses, places, i);
      PutAt(held, extra, notes, statuses, places[i]);
      columns := columns + PlaceColumn(statuses, places[i], NotesOf(held, extra, places[i]));
    }
    assert places[..|places|] == places;
  }

  method Board(notes: seq<Note>, statuses: Option<seq<Choice>>) returns (columns: seq<Column>)
    ensures columns == BoardOf(notes, statuses)
  {
    if statuses.None? || statuses.value == [] {
      return StageColumns(notes, STAGES);
    }
    var held, extra := PutNotes(notes, statuses.value);
    columns := ShowPlaces(held, extra, notes, statuses.value);
  }

  // ---------- no note is lost ----------

  function AllNotes(columns: seq<Column>): seq<Note> {
    if columns == [] then []
    else AllNotes(columns[..|columns| - 1]) + columns[|columns| - 1].notes
  }

  lemma AllNotesAppend(columns: seq<Column>, more: seq<Column>)
    requires |more| <= 1
    ensures AllNotes(columns + more) == AllNotes(columns) + if more == [] then [] else more[0].notes
  {
    if more == [] {
      assert columns + more == columns;
    } else {
      assert (columns + more)[..|columns|] == columns;
    }
  }

  lemma ColumnHolds(statuses: seq<Choice>, place: Place, notes: seq<Note>)
    requires place.OfStatus? ==> place.key in Keys(statuses)
    ensures var column := PlaceColumn(statuses, place, notes);
      |column| <= 1 && notes == if column == [] then [] else column[0].notes
  {
  }

  /** The notes of some places, one place after another. */
  function NotesOver(notes: seq<Note>, statuses: seq<Choice>, places: seq<Place>): seq<Note>
    decreases |places|
  {
    if places == [] then []
    else
      NotesOver(notes, statuses, places[..|places| - 1]) + NotesAt(notes, statuses, places[|places| - 1])
  }

  lemma {:induction false} ColumnsHold(notes: seq<Note>, statuses: seq<Choice>, places: seq<Place>)
    requires forall i :: 0 <= i < |places| && places[i].OfStatus? ==> places[i].key in Keys(statuses)
    ensures AllNotes(ColumnsOf(notes, statuses, places)) == NotesOver(notes, statuses, places)
    decreases |places|
  {
    if places != [] {
      var front := places[..|places| - 1];
      var place := places[|places| - 1];
      ColumnsHold(notes, statuses, front);
      ColumnHolds(statuses, place, NotesAt(notes, statuses, place));
      AllNotesAppend(ColumnsOf(notes, statuses, front),
                     PlaceColumn(statuses, place, NotesAt(notes, statuses, place)));
    }
  }

  /** One note more is one more in its own place, and nowhere else. */
  lemma {:induction false} OneMore(notes: seq<Note>, note: Note, statuses: seq<Choice>, places: seq<Place>)
    requires Distinct(places)
    ensures multiset(NotesOver(notes + [note], statuses, places)) ==
      multiset(NotesOver(notes, statuses, places))
      + if PlaceOf(statuses, note) in places then multiset{note} else multiset{}
    decreases |places|
  {
    if places != [] {
      var n := |places| - 1;
      assert places == places[..n] + [places[n]];
      OneMore(notes, note, statuses, places[..n]);
      OverNext(notes, statuses, places);
      OverNext(notes + [note], statuses, places);
      NextAt(notes, note, statuses, places[n]);
      OnceMore(NotesAt(notes, statuses, places[n]), note);
      assert places[n] !in places[..n];
    }
  }

  lemma OnceMore(notes: seq<Note>, note: Note)
    ensures multiset(notes + [note]) == multiset(notes) + multiset{note}
  {
  }

  ghost predicate HoldsAll(notes: seq<Note>, statuses: seq<Choice>, places: seq<Place>) {
    multiset(NotesOver(notes, statuses, places)) == multiset(notes)
  }

  lemma {:induction false} NotesAreOver(notes: seq<Note>, statuses: seq<Choice>, places: seq<Place>)
    requires Distinct(places) && forall note :: PlaceOf(statuses, note) in places
    ensures HoldsAll(notes, statuses, places)
  {
    if notes == [] {
      NothingOver(statuses, places);
    } else {
      var n := |notes| - 1;
      var front, note := notes[..n], notes[n];
      assert front + [note] == notes;
      NotesAreOver(front, statuses, places);
      NoteIsOver(front, note, statuses, places);
    }
  }

  lemma NoteIsOver(notes: seq<Note>, note: Note, statuses: seq<Choice>, places: seq<Place>)
    requires Distinct(places) && PlaceOf(statuses, note) in places
    requires HoldsAll(notes, statuses, places)
    ensures HoldsAll(notes + [note], statuses, places)
  {
    OneMore(notes, note, statuses, places);
    OnceMore(notes, note);
  }

  lemma {:induction false} NothingOver(statuses: seq<Choice>, places: seq<Place>)
    ensures NotesOver([], statuses, places) == []
    decreases |places|
  {
    if places != [] {
      NothingOver(statuses, places[..|places| - 1]);
    }
  }

  lemma PlacesMean(statuses: seq<Choice>)
    ensures Distinct(Places(statuses))
    ensures forall note :: PlaceOf(statuses, note) in Places(statuses)
  {
    var places := Places(statuses);
    var keys := Keys(statuses);
    KeysMean(statuses);
    forall note: Note
      ensures PlaceOf(statuses, note) in places
    {
      PlaceIsThere(statuses, note);
      match PlaceOf(statuses, note) {
        case OfStatus(key) =>
          var i :| 0 <= i < |keys| && keys[i] == key;
          assert places[i] == OfStatus(key);
        case OfStage(stage) =>
          var i := StageIndex(stage);
          assert places[|keys| + i] == OfStage(stage);
      }
    }
  }

  lemma StageIndex(stage: Stage) returns (i: nat)
    ensures i < |STAGES| && STAGES[i] == stage
  {
    i := match stage case New => 0 case Todo => 1 case Progress => 2 case Done => 3 case Closed => 4;
  }

  lemma {:induction false} StageIsPlace(notes: seq<Note>, stage: Stage)
    ensures NotesOfStage(notes, stage) == NotesAt(notes, [], OfStage(stage))
  {
    if notes != [] {
      StageIsPlace(notes[..|notes| - 1], stage);
    }
  }

  lemma {:induction false} StageColumnsHold(notes: seq<Note>, stages: seq<Stage>)
    ensures AllNotes(StageColumns(notes, stages)) == NotesOver(notes, [], OfStages(stages))
    decreases |stages|
  {
    if stages != [] {
      var n := |stages| - 1;
      StageColumnsHold(notes, stages[..n]);
      StageIsPlace(notes, stages[n]);
      StageNext(notes, stages);
      OverNext(notes, [], OfStages(stages));
      assert OfStages(stages)[..n] == OfStages(stages[..n]);
    }
  }

  lemma StageNext(notes: seq<Note>, stages: seq<Stage>)
    requires stages != []
    ensures var n := |stages| - 1;
      AllNotes(StageColumns(notes, stages)) ==
        AllNotes(StageColumns(notes, stages[..n])) + NotesOfStage(notes, stages[n])
  {
    var n := |stages| - 1;
    AllNotesAppend(StageColumns(notes, stages[..n]), [StageColumn(stages[n], NotesOfStage(notes, stages[n]))]);
  }

  lemma OverNext(notes: seq<Note>, statuses: seq<Choice>, places: seq<Place>)
    requires places != []
    ensures var n := |places| - 1;
      NotesOver(notes, statuses, places) ==
        NotesOver(notes, statuses, places[..n]) + NotesAt(notes, statuses, places[n])
  {
  }

  lemma NoStatuses(notes: seq<Note>)
    ensures multiset(AllNotes(StageColumns(notes, STAGES))) == multiset(notes)
  {
    assert Places([]) == OfStages(STAGES);
    StageColumnsHold(notes, STAGES);
    PlacesHold(notes, []);
  }

  lemma PlacesHold(notes: seq<Note>, statuses: seq<Choice>)
    ensures multiset(NotesOver(notes, statuses, Places(statuses))) == multiset(notes)
  {
    PlacesMean(statuses);
    NotesAreOver(notes, statuses, Places(statuses));
  }

  /** Whatever the statuses: the columns together hold the notes that are shown, each once. */
  lemma BoardConserves(notes: seq<Note>, statuses: Option<seq<Choice>>)
    ensures multiset(AllNotes(BoardOf(notes, statuses))) == multiset(notes)
  {
    if statuses.None? || statuses.value == [] {
      NoStatuses(notes);
    } else {
      ColumnsHold(notes, statuses.value, Places(statuses.value));
      PlacesHold(notes, statuses.value);
    }
  }

  // ---------- hidden statuses ----------

  predicate KeysApart(statuses: seq<Choice>) {
    forall i, j :: 0 <= i < j < |statuses| ==> statuses[i].key != statuses[j].key
  }

  lemma {:induction false} AtPlace(notes: seq<Note>, statuses: seq<Choice>, place: Place)
    ensures forall note :: note in NotesAt(notes, statuses, place) ==> PlaceOf(statuses, note) == place
  {
    if notes != [] {
      AtPlace(notes[..|notes| - 1], statuses, place);
    }
  }

  lemma {:induction false} ColumnFrom(notes: seq<Note>, statuses: seq<Choice>, places: seq<Place>, i: nat)
    returns (place: Place)
    requires i < |ColumnsOf(notes, statuses, places)|
    ensures PlaceColumn(statuses, place, NotesAt(notes, statuses, place)) == [ColumnsOf(notes, statuses, places)[i]]
    decreases |places|
  {
    var front := places[..|places| - 1];
    if i < |ColumnsOf(notes, statuses, front)| {
      place := ColumnFrom(notes, statuses, front, i);
    } else {
      place := places[|places| - 1];
    }
  }

  /**
   * A hidden status has a column only when a note is in it, and only the notes that say so themselves
   * are: none is put there for its stage. The keys of the statuses are unlike each other.
   */
  lemma HiddenByChoice(notes: seq<Note>, statuses: seq<Choice>, i: nat)
    requires statuses != [] && KeysApart(statuses)
    requires i < |BoardOf(notes, Some(statuses))|
    ensures var column := BoardOf(notes, Some(statuses))[i];
      column.status.Some? && column.status.value.hidden ==>
        column.notes != [] && forall note :: note in column.notes ==> note.status == Some(column.key)
  {
    var place := ColumnFrom(notes, statuses, Places(statuses), i);
    var column := BoardOf(notes, Some(statuses))[i];
    AtPlace(notes, statuses, place);
    if column.status.Some? && column.status.value.hidden {
      forall note | note in column.notes
        ensures note.status == Some(column.key)
      {
        NotByStage(statuses, note, column.status.value);
      }
    }
  }

  lemma NotByStage(statuses: seq<Choice>, note: Note, choice: Choice)
    requires KeysApart(statuses) && choice in statuses && choice.hidden
    requires PlaceOf(statuses, note) == OfStatus(choice.key)
    ensures note.status == Some(choice.key)
  {
    if note.status != Some(choice.key) {
      ShownIsNotHidden(statuses, note.stage, choice);
    }
  }

  lemma ShownIsNotHidden(statuses: seq<Choice>, stage: Stage, choice: Choice)
    requires KeysApart(statuses) && choice in statuses && ShownKey(statuses, stage) == Some(choice.key)
    ensures !choice.hidden
  {
    var shown :| shown in statuses && !shown.hidden && shown.key == choice.key;
    var i :| 0 <= i < |statuses| && statuses[i] == choice;
    var j :| 0 <= j < |statuses| && statuses[j] == shown;
  }

  // ---------- where a note is put ----------

  /** The status `i` is shown and takes the notes of a stage; `builtIn`: as the built-in one of that stage. */
  predicate Takes(statuses: seq<Choice>, i: nat, stage: Stage, builtIn: bool) {
    && i < |statuses| && !statuses[i].hidden
    && (if builtIn then statuses[i].key == "own:" + StageWord(stage) else statuses[i].stage == stage)
  }

  ghost predicate FirstTakes(statuses: seq<Choice>, i: nat, stage: Stage, builtIn: bool) {
    Takes(statuses, i, stage, builtIn) && forall j: nat :: j < i ==> !Takes(statuses, j, stage, builtIn)
  }

  lemma {:induction false} FirstShownMeans(statuses: seq<Choice>, stage: Stage, builtIn: bool)
    ensures match FirstShown(statuses, stage, builtIn)
            case None => forall i: nat :: !Takes(statuses, i, stage, builtIn)
            case Some(key) => exists i: nat :: FirstTakes(statuses, i, stage, builtIn) && statuses[i].key == key
  {
    if statuses != [] {
      var rest := statuses[1..];
      FirstShownMeans(rest, stage, builtIn);
      assert forall i: nat :: i > 0 ==> (Takes(statuses, i, stage, builtIn) <==> Takes(rest, i - 1, stage, builtIn));
      if Takes(statuses, 0, stage, builtIn) {
        assert FirstTakes(statuses, 0, stage, builtIn);
      } else if FirstShown(statuses, stage, builtIn) != None {
        var i: nat :| FirstTakes(rest, i, stage, builtIn)
                      && Some(rest[i].key) == FirstShown(statuses, stage, builtIn);
        assert FirstTakes(statuses, i + 1, stage, builtIn);
      }
    }
  }

  lemma {:induction false} KeyIsThere(statuses: seq<Choice>, key: string)
    ensures key in Keys(statuses) <==> exists i :: 0 <= i < |statuses| && statuses[i].key == key
  {
    if statuses != [] {
      var n := |statuses| - 1;
      KeyIsThere(statuses[..n], key);
    }
  }

  /** A note that names a status of the site. */
  ghost predicate NamesStatus(statuses: seq<Choice>, note: Note) {
    note.status.Some? && exists i :: 0 <= i < |statuses| && statuses[i].key == note.status.value
  }

  /**
   * A note stands with the status it names when the site has it. Else it stands with the built-in status
   * of its stage that is shown, else with the first one of its stage that is shown, else by itself.
   */
  lemma {:induction false} PlaceExactly(statuses: seq<Choice>, note: Note)
    ensures NamesStatus(statuses, note) ==> PlaceOf(statuses, note) == OfStatus(note.status.value)
    ensures !NamesStatus(statuses, note) ==>
              match PlaceOf(statuses, note)
              case OfStatus(key) =>
                || (exists i: nat :: FirstTakes(statuses, i, note.stage, true) && statuses[i].key == key)
                || ((forall i: nat :: !Takes(statuses, i, note.stage, true))
                    && exists i: nat :: FirstTakes(statuses, i, note.stage, false) && statuses[i].key == key)
              case OfStage(stage) =>
                stage == note.stage
                && forall i: nat :: !Takes(statuses, i, note.stage, true) && !Takes(statuses, i, note.stage, false)
  {
    if note.status.Some? {
      KeyIsThere(statuses, note.status.value);
    }
    FirstShownMeans(statuses, note.stage, true);
    FirstShownMeans(statuses, note.stage, false);
  }

  /** Notes stand in a place in the order of the list, each that is put there and no other. */
  lemma {:induction false} NotesInTurn(notes: seq<Note>, note: Note, statuses: seq<Choice>, place: Place)
    ensures NotesAt([], statuses, place) == []
    ensures NotesAt(notes + [note], statuses, place)
         == NotesAt(notes, statuses, place) + if PlaceOf(statuses, note) == place then [note] else []
  {
    NextAt(notes, note, statuses, place);
  }

  // ---------- which columns there are ----------

  lemma {:induction false} KeysInOrder(statuses: seq<Choice>)
    requires KeysApart(statuses)
    ensures |Keys(statuses)| == |statuses|
    ensures forall i :: 0 <= i < |statuses| ==> Keys(statuses)[i] == statuses[i].key
  {
    if statuses != [] {
      var n := |statuses| - 1;
      KeysInOrder(statuses[..n]);
      KeyIsThere(statuses[..n], statuses[n].key);
    }
  }

  lemma {:induction false} ChoiceAt(statuses: seq<Choice>, i: nat)
    requires KeysApart(statuses) && i < |statuses|
    ensures statuses[i].key in Keys(statuses) && ChoiceOf(statuses, statuses[i].key) == statuses[i]
  {
    KeyIsThere(statuses, statuses[i].key);
    var choice := ChoiceOf(statuses, statuses[i].key);
    var j :| 0 <= j < |statuses| && statuses[j] == choice;
  }

  /** The column of the status `i`, with the notes that are put there. */
  function ColumnAt(notes: seq<Note>, statuses: seq<Choice>, i: nat): Column
    requires i < |statuses|
  {
    Column(statuses[i].key, statuses[i].stage, Some(statuses[i]), NotesAt(notes, statuses, OfStatus(statuses[i].key)))
  }

  /** A status has a column when it is shown, or a note is in it. */
  predicate HasColumn(notes: seq<Note>, statuses: seq<Choice>, i: nat)
    requires i < |statuses|
  {
    !statuses[i].hidden || NotesAt(notes, statuses, OfStatus(statuses[i].key)) != []
  }

  lemma {:induction false} PlacesAt(statuses: seq<Choice>)
    requires KeysApart(statuses)
    ensures |Places(statuses)| == |statuses| + 5
    ensures forall i :: 0 <= i < |statuses| ==> Places(statuses)[i] == OfStatus(statuses[i].key)
    ensures forall i :: 0 <= i < 5 ==> Places(statuses)[|statuses| + i] == OfStage(STAGES[i])
  {
    KeysInOrder(statuses);
  }

  lemma {:induction false} StatusPart(notes: seq<Note>, statuses: seq<Choice>, n: nat)
    requires KeysApart(statuses) && n < |statuses| && n < |Places(statuses)|
    ensures ColumnsOf(notes, statuses, Places(statuses)[..n + 1])
         == ColumnsOf(notes, statuses, Places(statuses)[..n])
            + if HasColumn(notes, statuses, n) then [ColumnAt(notes, statuses, n)] else []
  {
    PlacesAt(statuses);
    ChoiceAt(statuses, n);
    NextColumn(notes, statuses, Places(statuses), n);
  }

  /** The columns of the first statuses that have one, in the order of the site. */
  function ColumnsTo(notes: seq<Note>, statuses: seq<Choice>, n: nat): seq<Column>
    requires n <= |statuses|
  {
    if n == 0 then []
    else
      ColumnsTo(notes, statuses, n - 1)
      + if HasColumn(notes, statuses, n - 1) then [ColumnAt(notes, statuses, n - 1)] else []
  }

  /** The columns of the first stages with notes that no status takes. */
  function ExtrasTo(notes: seq<Note>, statuses: seq<Choice>, n: nat): seq<Column>
    requires n <= 5
  {
    if n == 0 then []
    else
      var stage := [SiteStatuses.New, SiteStatuses.Todo, SiteStatuses.Progress, SiteStatuses.Done,
                    SiteStatuses.Closed][n - 1];
      var extra := NotesAt(notes, statuses, OfStage(stage));
      ExtrasTo(notes, statuses, n - 1)
      + if extra == [] then [] else [Column("stage:" + StageWord(stage), stage, None, extra)]
  }

  lemma {:induction false} StatusParts(notes: seq<Note>, statuses: seq<Choice>, n: nat)
    requires KeysApart(statuses) && n <= |statuses| <= |Places(statuses)|
    ensures ColumnsOf(notes, statuses, Places(statuses)[..n]) == ColumnsTo(notes, statuses, n)
  {
    if n > 0 {
      StatusParts(notes, statuses, n - 1);
      StatusPart(notes, statuses, n - 1);
    }
  }

  lemma {:induction false} ColumnsAppend(notes: seq<Note>, statuses: seq<Choice>, a: seq<Place>, b: seq<Place>)
    ensures ColumnsOf(notes, statuses, a + b) == ColumnsOf(notes, statuses, a) + ColumnsOf(notes, statuses, b)
    decreases |b|
  {
    if b == [] {
      assert a + b == a;
    } else {
      var front, last := b[..|b| - 1], b[|b| - 1];
      assert b == front + [last];
      ColumnsAppend(notes, statuses, a, front);
      AppendLast(notes, statuses, a, front, last);
    }
  }

  lemma AppendLast(notes: seq<Note>, statuses: seq<Choice>, a: seq<Place>, front: seq<Place>, last: Place)
    requires ColumnsOf(notes, statuses, a + front) == ColumnsOf(notes, statuses, a) + ColumnsOf(notes, statuses, front)
    ensures ColumnsOf(notes, statuses, a + (front + [last]))
         == ColumnsOf(notes, statuses, a) + ColumnsOf(notes, statuses, front + [last])
  {
    LastOfBoth(a, front, last);
    ColumnsLast(notes, statuses, front, last);
    ColumnsLast(notes, statuses, a + front, last);
    Regroup(ColumnsOf(notes, statuses, a + front), ColumnsOf(notes, statuses, a), ColumnsOf(notes, statuses, front),
            ColumnsOf(notes, statuses, (a + front) + [last]), ColumnsOf(notes, statuses, front + [last]),
            PlaceColumn(statuses, last, NotesAt(notes, statuses, last)));
  }

  lemma LastOfBoth(a: seq<Place>, front: seq<Place>, last: Place)
    ensures a + (front + [last]) == (a + front) + [last]
  {
  }

  lemma Regroup(before: seq<Column>, first: seq<Column>, extras: seq<Column>, after: seq<Column>, more: seq<Column>,
                one: seq<Column>)
    requires before == first + extras && after == before + one && more == extras + one
    ensures after == first + more
  {
  }

  lemma ColumnsLast(notes: seq<Note>, statuses: seq<Choice>, places: seq<Place>, last: Place)
    ensures ColumnsOf(notes, statuses, places + [last])
         == ColumnsOf(notes, statuses, places) + PlaceColumn(statuses, last, NotesAt(notes, statuses, last))
  {
    assert (places + [last])[..|places|] == places;
  }

  lemma StagesFront(n: nat)
    requires 0 < n <= 5
    ensures var places := OfStages(STAGES[..n]);
      && |places| == n && places[..n - 1] == OfStages(STAGES[..n - 1]) && places[n - 1] == OfStage(STAGES[n - 1])
  {
  }

  lemma {:induction false} StageParts(notes: seq<Note>, statuses: seq<Choice>, n: nat)
    requires n <= 5
    ensures ColumnsOf(notes, statuses, OfStages(STAGES[..n])) == ExtrasTo(notes, statuses, n)
  {
    if n > 0 {
      StagesFront(n);
      StageParts(notes, statuses, n - 1);
      ExtrasNext(notes, statuses, n);
    }
  }

  lemma {:induction false} ExtrasNext(notes: seq<Note>, statuses: seq<Choice>, n: nat)
    requires 0 < n <= 5
    ensures var stage := STAGES[n - 1];
      var extra := NotesAt(notes, statuses, OfStage(stage));
      ExtrasTo(notes, statuses, n)
      == ExtrasTo(notes, statuses, n - 1) + ExtraColumn(stage, extra)
  {
  }

  /**
   * With statuses of one site: a column for each that is shown or holds a note, in the order of the
   * site, then one for each stage with notes that no status takes, in the order of the stages.
   */
  lemma {:induction false} BoardExactly(notes: seq<Note>, statuses: seq<Choice>)
    requires statuses != [] && KeysApart(statuses)
    ensures BoardOf(notes, Some(statuses)) == ColumnsTo(notes, statuses, |statuses|) + ExtrasTo(notes, statuses, 5)
  {
    PlacesAt(statuses);
    ColumnsAppend(notes, statuses, OfStatuses(Keys(statuses)), OfStages(STAGES));
    StatusParts(notes, statuses, |statuses|);
    assert Places(statuses)[..|statuses|] == OfStatuses(Keys(statuses));
    StageParts(notes, statuses, 5);
    assert STAGES[..5] == STAGES;
  }

  /** Without statuses: a column for each of the five stages, with its notes in their order, or none. */
  lemma {:induction false} StagesExactly(notes: seq<Note>)
    ensures BoardOf(notes, None) == BoardOf(notes, Some([])) == [
      Column("stage:new", SiteStatuses.New, None, NotesOfStage(notes, SiteStatuses.New)),
      Column("stage:todo", SiteStatuses.Todo, None, NotesOfStage(notes, SiteStatuses.Todo)),
      Column("stage:progress", SiteStatuses.Progress, None, NotesOfStage(notes, SiteStatuses.Progress)),
      Column("stage:done", SiteStatuses.Done, None, NotesOfStage(notes, SiteStatuses.Done)),
      Column("stage:closed", SiteStatuses.Closed, None, NotesOfStage(notes, SiteStatuses.Closed))]
  {
    FiveColumns(notes);
    StageKeys();
  }

  lemma StageKeys()
    ensures "stage:" + StageWord(SiteStatuses.New) == "stage:new"
    ensures "stage:" + StageWord(SiteStatuses.Todo) == "stage:todo"
    ensures "stage:" + StageWord(SiteStatuses.Progress) == "stage:progress"
    ensures "stage:" + StageWord(SiteStatuses.Done) == "stage:done"
    ensures "stage:" + StageWord(SiteStatuses.Closed) == "stage:closed"
  {
  }

  lemma {:induction false} FiveColumns(notes: seq<Note>)
    ensures StageColumns(notes, STAGES) == [
      StageColumn(SiteStatuses.New, NotesOfStage(notes, SiteStatuses.New)),
      StageColumn(SiteStatuses.Todo, NotesOfStage(notes, SiteStatuses.Todo)),
      StageColumn(SiteStatuses.Progress, NotesOfStage(notes, SiteStatuses.Progress)),
      StageColumn(SiteStatuses.Done, NotesOfStage(notes, SiteStatuses.Done)),
      StageColumn(SiteStatuses.Closed, NotesOfStage(notes, SiteStatuses.Closed))]
  {
    StageColumnsTo(notes, 1);
    StageColumnsTo(notes, 2);
    StageColumnsTo(notes, 3);
    StageColumnsTo(notes, 4);
    StageColumnsTo(notes, 5);
    assert STAGES[..5] == STAGES && STAGES[..0] == [];
    assert StageColumns(notes, STAGES[..0]) == [];
  }

  lemma {:induction false} StageColumnsTo(notes: seq<Note>, n: nat)
    requires 0 < n <= |STAGES|
    ensures StageColumns(notes, STAGES[..n])
         == StageColumns(notes, STAGES[..n - 1]) + [StageColumn(STAGES[n - 1], NotesOfStage(notes, STAGES[n - 1]))]
  {
    assert STAGES[..n][..n - 1] == STAGES[..n - 1];
  }

  /** The notes of a stage, in the order of the list. */
  lemma {:induction false} StageNotesInTurn(notes: seq<Note>, note: Note, stage: Stage)
    ensures NotesOfStage([], stage) == []
    ensures NotesOfStage(notes + [note], stage)
         == NotesOfStage(notes, stage) + if note.stage == stage then [note] else []
  {
    assert (notes + [note])[..|notes|] == notes;
  }

  // ---------- statuses of one key ----------

  /** Of the statuses of one key, the last one is on the board. */
  lemma {:induction false} LastOfKey(statuses: seq<Choice>, i: nat)
    requires i < |statuses| && forall j :: i < j < |statuses| ==> statuses[j].key != statuses[i].key
    ensures statuses[i].key in Keys(statuses) && ChoiceOf(statuses, statuses[i].key) == statuses[i]
  {
    KeysMean(statuses);
    if i < |statuses| - 1 {
      LastOfKey(statuses[..|statuses| - 1], i);
    }
  }

  /** It stands where the first one was: a key comes before another one exactly when it was met before. */
  lemma {:induction false} KeysByFirst(statuses: seq<Choice>, i: nat, j: nat, q: nat)
    requires i < j < |Keys(statuses)| && q < |statuses| && statuses[q].key == Keys(statuses)[j]
    ensures exists p :: 0 <= p < q && statuses[p].key == Keys(statuses)[i]
  {
    var n := |statuses| - 1;
    var front := Keys(statuses[..n]);
    KeysMean(statuses);
    if j < |front| {
      if q < n {
        KeysByFirst(statuses[..n], i, j, q);
      } else {
        KeyMet(statuses[..n], front[i]);
      }
    } else {
      KeysMean(statuses[..n]);
      assert forall p :: 0 <= p < n ==> statuses[..n][p].key == statuses[p].key;
      KeyMet(statuses[..n], front[i]);
    }
  }

  lemma {:induction false} KeyMet(statuses: seq<Choice>, key: string)
    requires key in Keys(statuses)
    ensures exists p :: 0 <= p < |statuses| && statuses[p].key == key
  {
    var n := |statuses| - 1;
    if statuses[n].key != key {
      KeyMet(statuses[..n], key);
      var p :| 0 <= p < n && statuses[..n][p].key == key;
      assert statuses[p].key == key;
    }
  }
}
