/**
 * The language of the screens: the map of a language is loaded when it is asked for, and the last
 * choice wins. `Vars` are the variables of the module; each function is one piece of code that runs
 * with no wait. A map holds the same words each time it is loaded, so a set says which maps are there.
 */
module LocaleLoader {
  import opened Options

  type Tag = string

  /** `Came`: the map arrived, or its load failed, and the code after the wait has not run. */
  datatype Progress = InFlight | Came(ok: bool) | Settled(ok: bool)

  /** `forScreen`: asked for by `setLocale`, which shows the language once its map is there. */
  datatype Load = Load(tag: Tag, forScreen: bool, progress: Progress)

  /**
   * `ready`: the load that `ready()` waits for, if it waits. `heard`: of each listener, the language
   * it found on the screens each time it was called. `needless`: the languages that need no map.
   */
  datatype Vars = Vars(
    needless: set<Tag>,
    current: Tag,
    wanted: Tag,
    catalogs: set<Tag>,
    ready: Option<nat>,
    loads: seq<Load>,
    heard: map<nat, seq<Tag>>)

  function Opened(needless: set<Tag>, first: Tag): Vars {
    Vars(needless, first, first, {}, None, [], map[])
  }

  predicate Loaded(v: Vars, tag: Tag) {
    tag in v.needless || tag in v.catalogs
  }

  function CallAll(heard: map<nat, seq<Tag>>, tag: Tag): map<nat, seq<Tag>> {
    map listener | listener in heard :: heard[listener] + [tag]
  }

  function Show(v: Vars, tag: Tag): Vars {
    if tag == v.current then v else v.(current := tag, heard := CallAll(v.heard, tag))
  }

  function SetLocale(v: Vars, tag: Tag): Vars {
    var asked := v.(wanted := tag);
    if Loaded(v, tag) then Show(asked, tag).(ready := None)
    else asked.(ready := Some(|v.loads|), loads := v.loads + [Load(tag, true, InFlight)])
  }

  function LoadLocale(v: Vars, tag: Tag): Vars {
    if Loaded(v, tag) then v else v.(loads := v.loads + [Load(tag, false, InFlight)])
  }

  /** A load ends: its map is there from now on, unless it failed. */
  function Arrive(v: Vars, id: nat, ok: bool): Vars
    requires id < |v.loads|
  {
    var load := v.loads[id];
    v.(loads := v.loads[id := load.(progress := Came(ok))],
       catalogs := if ok then v.catalogs + {load.tag} else v.catalogs)
  }

  /** The code of `setLocale` after its load. */
  function Settle(v: Vars, id: nat): Vars
    requires id < |v.loads| && v.loads[id].progress.Came?
  {
    var load := v.loads[id];
    var settled := v.(loads := v.loads[id := load.(progress := Settled(load.progress.ok))]);
    if load.progress.ok && v.wanted == load.tag then Show(settled, load.tag) else settled
  }

  function Listen(v: Vars, listener: nat): Vars {
    if listener in v.heard then v else v.(heard := v.heard[listener := []])
  }

  function Unlisten(v: Vars, listener: nat): Vars {
    v.(heard := v.heard - {listener})
  }

  /** The variables themselves, changed in place. */
  class Screens {
    const needless: set<Tag>
    var current: Tag
    var wanted: Tag
    var catalogs: set<Tag>
    var ready: Option<nat>
    var loads: seq<Load>
    var heard: map<nat, seq<Tag>>

    ghost function Now(): Vars
      reads this
    {
      Vars(needless, current, wanted, catalogs, ready, loads, heard)
    }

    constructor (needless: set<Tag>, first: Tag)
      ensures Now() == Opened(needless, first)
    {
      this.needless := needless;
      current, wanted, catalogs, ready, loads, heard := first, first, {}, None, [], map[];
    }

    predicate HasWords(tag: Tag)
      reads this
    {
      tag in needless || tag in catalogs
    }

    method ShowLanguage(tag: Tag)
      modifies this
      ensures Now() == Show(old(Now()), tag)
    {
      if tag == current {
        return;
      }
      current := tag;
      var rest := heard.Keys;
      while rest != {}
        invariant rest <= heard.Keys == old(heard.Keys)
        invariant forall l :: l in heard ==> heard[l] == if l in rest then old(heard)[l] else old(heard)[l] + [tag]
        invariant Now() == old(Now()).(current := tag, heard := heard)
        decreases rest
      {
        var listener :| listener in rest;
        heard := heard[listener := heard[listener] + [current]];
        rest := rest - {listener};
      }
      assert heard == CallAll(old(heard), tag);
    }

    method Choose(tag: Tag)
      modifies this
      ensures Now() == SetLocale(old(Now()), tag)
    {
      wanted := tag;
      if HasWords(tag) {
        ShowLanguage(tag);
        ready := None;
        return;
      }
      ready := Some(|loads|);
      loads := loads + [Load(tag, true, InFlight)];
    }

    method LoadOnly(tag: Tag)
      modifies this
      ensures Now() == LoadLocale(old(Now()), tag)
    {
      if !HasWords(tag) {
        loads := loads + [Load(tag, false, InFlight)];
      }
    }

    method MapCame(id: nat, ok: bool)
      requires id < |loads|
      modifies this
      ensures Now() == Arrive(old(Now()), id, ok)
    {
      var load := loads[id];
      if ok {
        catalogs := catalogs + {load.tag};
      }
      loads := loads[id := load.(progress := Came(ok))];
    }

    method AfterLoad(id: nat)
      requires id < |loads| && loads[id].progress.Came?
      modifies this
      ensures Now() == Settle(old(Now()), id)
    {
      var load := loads[id];
      loads := loads[id := load.(progress := Settled(load.progress.ok))];
      if load.progress.ok && wanted == load.tag {
        ShowLanguage(load.tag);
      }
    }
  }

  // ---------- every run ----------

  datatype Event =
    | Choosing(tag: Tag)
    | Loading(tag: Tag)
    | Arriving(id: nat, ok: bool)
    | Settling(id: nat)
    | Listening(listener: nat)
    | Leaving(listener: nat)

  /** Whether code of `setLocale` waits to run after the load. */
  predicate Continues(v: Vars, id: nat) {
    id < |v.loads| && v.loads[id].forScreen && v.loads[id].progress.Came?
  }

  /** What happens at one moment; an event that cannot happen then changes nothing. */
  function Step(v: Vars, e: Event): Vars {
    match e
    case Choosing(tag) => SetLocale(v, tag)
    case Loading(tag) => LoadLocale(v, tag)
    case Arriving(id, ok) => if id < |v.loads| && v.loads[id].progress.InFlight? then Arrive(v, id, ok) else v
    case Settling(id) =>
      if Continues(v, id) then Settle(v, id) else v
    case Listening(listener) => Listen(v, listener)
    case Leaving(listener) => Unlisten(v, listener)
  }

  function Run(v: Vars, events: seq<Event>): Vars
    decreases |events|
  {
    if events == [] then v else Run(Step(v, events[0]), events[1..])
  }

  /** The languages the screens change to, in turn. */
  function Changes(v: Vars, events: seq<Event>): seq<Tag>
    decreases |events|
  {
    if events == [] then []
    else
      var next := Step(v, events[0]);
      (if next.current == v.current then [] else [next.current]) + Changes(next, events[1..])
  }

  /** The load that `ready()` waits for is of the language wanted, and its code has not run with a map. */
  ghost predicate Awaited(v: Vars) {
    && v.ready.Some? && v.ready.value < |v.loads|
    && v.loads[v.ready.value].forScreen && v.loads[v.ready.value].tag == v.wanted
    && v.loads[v.ready.value].progress != Settled(true)
  }

  ghost predicate Good(v: Vars) {
    && Loaded(v, v.current)
    && (v.current == v.wanted || Awaited(v))
    && forall id :: 0 <= id < |v.loads| && v.loads[id].progress in {Came(true), Settled(true)} ==>
         Loaded(v, v.loads[id].tag)
  }

  lemma StepGood(v: Vars, e: Event)
    requires Good(v)
    ensures Good(Step(v, e))
    ensures Step(v, e).current != v.current ==> Step(v, e).current == Step(v, e).wanted
    ensures Step(v, e).wanted == if e.Choosing? then e.tag else v.wanted
  {
    match e {
      case Choosing(tag) => ChoosingGood(v, tag);
      case Loading(tag) =>
      case Arriving(id, ok) =>
      case Settling(id) =>
        if Continues(v, id) {
          SettlingGood(v, id);
        }
      case Listening(listener) =>
      case Leaving(listener) =>
    }
  }

  lemma ChoosingGood(v: Vars, tag: Tag)
    requires Good(v)
    ensures Good(SetLocale(v, tag))
  {
  }

  lemma SettlingGood(v: Vars, id: nat)
    requires Good(v) && Continues(v, id)
    ensures Good(Settle(v, id))
  {
  }

  lemma {:induction false} RunGood(v: Vars, events: seq<Event>)
    requires Good(v)
    ensures Good(Run(v, events))
    decreases |events|
  {
    if events != [] {
      StepGood(v, events[0]);
      RunGood(Step(v, events[0]), events[1..]);
    }
  }

  /** A screen never shows a language without its words. */
  lemma ShownIsLoaded(needless: set<Tag>, first: Tag, events: seq<Event>)
    requires first in needless
    ensures var v := Run(Opened(needless, first), events); Loaded(v, v.current)
  {
    RunGood(Opened(needless, first), events);
  }

  predicate IsReady(v: Vars) {
    v.ready.None? || (v.ready.value < |v.loads| && v.loads[v.ready.value].progress.Settled?)
  }

  /** The load of the last choice failed. */
  predicate LastFailed(v: Vars) {
    v.ready.Some? && v.ready.value < |v.loads| && v.loads[v.ready.value].progress == Settled(false)
  }

  /** When `ready()` is done, the screens show the last choice, or its load failed. */
  lemma ReadyShowsChoice(needless: set<Tag>, first: Tag, events: seq<Event>)
    requires first in needless
    ensures var v := Run(Opened(needless, first), events);
      IsReady(v) ==> v.current == v.wanted || LastFailed(v)
  {
    RunGood(Opened(needless, first), events);
  }

  /** With nothing on its way for the screens and no failure of the language wanted, it is the one shown. */
  lemma QuietShowsChoice(needless: set<Tag>, first: Tag, events: seq<Event>)
    requires first in needless
    requires var v := Run(Opened(needless, first), events);
      forall id :: 0 <= id < |v.loads| && v.loads[id].forScreen && v.loads[id].tag == v.wanted ==>
        v.loads[id].progress == Settled(true)
    ensures var v := Run(Opened(needless, first), events); v.current == v.wanted
  {
    RunGood(Opened(needless, first), events);
  }

  /**
   * The last choice wins, whatever loads end and whenever: the screens change at most once more, to
   * that choice. A map of a language chosen before is never shown.
   */
  lemma {:induction false} LastChoiceWins(v: Vars, events: seq<Event>)
    requires Good(v)
    requires forall i :: 0 <= i < |events| ==> !events[i].Choosing?
    ensures var last := Run(v, events);
      && last.wanted == v.wanted
      && ((last.current == v.current && Changes(v, events) == [])
          || (last.current == v.wanted != v.current && Changes(v, events) == [v.wanted]))
    decreases |events|
  {
    if events != [] {
      var next := Step(v, events[0]);
      StepGood(v, events[0]);
      LastChoiceWins(next, events[1..]);
      var rest := Changes(next, events[1..]);
      assert Changes(v, events) == if next.current == v.current then rest else [next.current] + rest;
    }
  }

  predicate Stays(events: seq<Event>, listener: nat) {
    forall i :: 0 <= i < |events| ==> events[i] != Leaving(listener)
  }

  lemma StepHeard(v: Vars, e: Event, listener: nat)
    requires listener in v.heard && e != Leaving(listener)
    ensures var next := Step(v, e);
      && listener in next.heard
      && next.heard[listener] ==
           v.heard[listener] + if next.current == v.current then [] else [next.current]
  {
  }

  /** A listener is called once for each change while it listens, and never without one. */
  lemma {:induction false} HeardIsChanges(v: Vars, events: seq<Event>, listener: nat)
    requires listener in v.heard && Stays(events, listener)
    ensures var last := Run(v, events);
      listener in last.heard && last.heard[listener] == v.heard[listener] + Changes(v, events)
    decreases |events|
  {
    if events != [] {
      var next := Step(v, events[0]);
      StepHeard(v, events[0], listener);
      HeardIsChanges(next, events[1..], listener);
      var change := if next.current == v.current then [] else [next.current];
      var rest := Changes(next, events[1..]);
      assert Changes(v, events) == change + rest;
      assert v.heard[listener] + change + rest == v.heard[listener] + (change + rest);
    }
  }

  /** The changes follow on from one another, and end on the language shown. */
  lemma {:induction false} ChangesAlternate(v: Vars, events: seq<Event>)
    ensures var all := [v.current] + Changes(v, events);
      && all[|all| - 1] == Run(v, events).current
      && forall i :: 0 < i < |all| ==> all[i - 1] != all[i]
    decreases |events|
  {
    if events != [] {
      var next := Step(v, events[0]);
      var rest := [next.current] + Changes(next, events[1..]);
      ChangesAlternate(next, events[1..]);
      var all := [v.current] + Changes(v, events);
      if next.current == v.current {
        assert all == rest;
      } else {
        assert all == [v.current] + rest;
      }
    }
  }

  // ---------- what is loaded, and who listens ----------

  /** A language is asked for exactly when its map is not there: by a choice, and by a reader of its own. */
  lemma {:induction false} AsksExactly(v: Vars, tag: Tag)
    ensures var needed := tag !in v.needless && tag !in v.catalogs;
      && Step(v, Loading(tag)).loads == v.loads + (if needed then [Load(tag, false, InFlight)] else [])
      && Step(v, Choosing(tag)).loads == v.loads + (if needed then [Load(tag, true, InFlight)] else [])
      && Step(v, Choosing(tag)).current == (if needed then v.current else tag)
      && Step(v, Choosing(tag)).ready == (if needed then Some(|v.loads|) else None)
      && Step(v, Loading(tag)) == v.(loads := Step(v, Loading(tag)).loads)
  {
  }

  /** A load that ends is settled, well or not; its language is shown when it came well and is still wanted. */
  lemma {:induction false} SettlesExactly(v: Vars, id: nat)
    requires id < |v.loads| && v.loads[id].forScreen && v.loads[id].progress.Came?
    ensures var after, load := Step(v, Settling(id)), v.loads[id];
      && after.loads == v.loads[id := load.(progress := Settled(load.progress.ok))]
      && after.current == (if load.progress.ok && v.wanted == load.tag then load.tag else v.current)
      && after.wanted == v.wanted && after.ready == v.ready && after.catalogs == v.catalogs
  {
  }

  /** The load `id` is of a language, and its map came. */
  ghost predicate CameWell(v: Vars, id: nat, tag: Tag) {
    id < |v.loads| && v.loads[id].tag == tag && v.loads[id].progress in {Came(true), Settled(true)}
  }

  ghost predicate CatalogsRight(v: Vars) {
    forall tag :: tag in v.catalogs <==> exists id: nat :: CameWell(v, id, tag)
  }

  lemma {:induction false} LoadsGrow(v: Vars, after: Vars)
    requires after.catalogs == v.catalogs && v.loads <= after.loads
    requires forall id :: |v.loads| <= id < |after.loads| ==> after.loads[id].progress.InFlight?
    requires CatalogsRight(v)
    ensures CatalogsRight(after)
  {
    forall tag
      ensures tag in after.catalogs <==> exists id: nat :: CameWell(after, id, tag)
    {
      if id: nat :| CameWell(v, id, tag) {
        assert CameWell(after, id, tag);
      }
      if id: nat :| CameWell(after, id, tag) {
        assert CameWell(v, id, tag);
      }
    }
  }

  lemma {:induction false} LoadMoves(v: Vars, after: Vars, id: nat, ok: bool)
    requires id < |v.loads| == |after.loads| && after.loads == v.loads[id := after.loads[id]]
    requires after.loads[id].tag == v.loads[id].tag && CatalogsRight(v)
    requires (v.loads[id].progress == InFlight && after.loads[id].progress == Came(ok)
              && after.catalogs == if ok then v.catalogs + {v.loads[id].tag} else v.catalogs)
             || (v.loads[id].progress == Came(ok) && after.loads[id].progress == Settled(ok)
                 && after.catalogs == v.catalogs)
    ensures CatalogsRight(after)
  {
    forall tag
      ensures tag in after.catalogs <==> exists k: nat :: CameWell(after, k, tag)
    {
      if k: nat :| CameWell(v, k, tag) {
        assert CameWell(after, k, tag);
      }
      if k: nat :| CameWell(after, k, tag) {
        assert k != id ==> CameWell(v, k, tag);
        assert k == id && !ok ==> false;
        assert k == id && v.loads[id].progress.Came? ==> CameWell(v, k, tag);
      }
      if ok && tag == v.loads[id].tag {
        assert CameWell(after, id, tag);
      }
    }
  }

  lemma {:induction false} StepCatalogs(v: Vars, e: Event)
    requires CatalogsRight(v)
    ensures CatalogsRight(Step(v, e))
  {
    match e
    case Arriving(id, ok) =>
      if id < |v.loads| && v.loads[id].progress.InFlight? {
        LoadMoves(v, Step(v, e), id, ok);
      }
    case Settling(id) =>
      if Continues(v, id) {
        LoadMoves(v, Step(v, e), id, v.loads[id].progress.ok);
      }
    case _ => LoadsGrow(v, Step(v, e));
  }

  lemma {:induction false} RunCatalogs(v: Vars, events: seq<Event>)
    requires CatalogsRight(v)
    ensures CatalogsRight(Run(v, events))
    decreases |events|
  {
    if events != [] {
      StepCatalogs(v, events[0]);
      RunCatalogs(Step(v, events[0]), events[1..]);
    }
  }

  /** In every run, a map is there exactly when a load of its language came well. */
  lemma {:induction false} CatalogsExactly(needless: set<Tag>, first: Tag, events: seq<Event>, tag: Tag)
    ensures var v := Run(Opened(needless, first), events);
      tag in v.catalogs <==> exists id: nat :: CameWell(v, id, tag)
  {
    RunCatalogs(Opened(needless, first), events);
  }

  /** Who listens, and what each was told: a new listener was told nothing yet, and one that left is told no more. */
  lemma {:induction false} ListensExactly(v: Vars, listener: nat)
    ensures var after := Step(v, Listening(listener));
      && after == v.(heard := after.heard)
      && (forall other :: other in after.heard <==> other == listener || other in v.heard)
      && (forall other :: other in v.heard ==> after.heard[other] == v.heard[other])
      && (listener !in v.heard ==> after.heard[listener] == [])
    ensures var after := Step(v, Leaving(listener));
      && after == v.(heard := after.heard)
      && (forall other :: other in after.heard <==> other != listener && other in v.heard)
      && (forall other :: other in after.heard ==> after.heard[other] == v.heard[other])
  {
  }
}
