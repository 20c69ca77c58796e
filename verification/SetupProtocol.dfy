/**
 * Tabs of one browser that resolve the setup of one person at the same time. The worker handles a
 * request at any moment after it was sent, and its answer comes at any later moment, or never.
 */
module SetupProtocol {
  import opened Options
  import opened SetupStage

  /** Where a tab is. `seen`, `landed`: what the worker did with the request on its way. */
  datatype Phase =
    | AskingMe(seen: Option<seq<Workspace>>)
    | AskingInvitations
    | WantsLock
    | AskingAgain(seen: Option<seq<Workspace>>)
    | Creating(landed: Option<Workspace>)
    | AskingSites(workspace: Workspace)
    | Finished(stage: Stage)

  datatype Tab = Tab(phase: Phase, heard: Heard)

  /**
   * `strays`: requests to make a workspace that no tab waits for, and that the worker can still handle.
   * `blind`, `abandoned`: how many were sent after a refused reading under the lock, and how many were
   * given up before the worker handled them.
   */
  datatype World = World(
    locks: bool,
    workspaces: seq<Workspace>,
    holder: Option<nat>,
    tabs: map<nat, Tab>,
    strays: nat,
    blind: nat,
    abandoned: nat)

  datatype Event =
    | Open(tab: nat)
    | Serve(tab: nat, id: string)
    | AnswerMe(tab: nat, lost: Option<nat>)
    | AnswerInvitations(tab: nat, invitations: Answer<nat>)
    | TakeLock(tab: nat)
    | AnswerAgain(tab: nat, lost: Option<nat>)
    | AnswerCreate(tab: nat, lost: Option<nat>, late: bool)
    | AnswerSites(tab: nat, sites: Answer<seq<string>>)
    | Retry(tab: nat)
    | Close(tab: nat, late: bool)
    | Land(id: string)

  function Start(locks: bool, workspaces: seq<Workspace>): World {
    World(locks, workspaces, None, map[], 0, 0, 0)
  }

  function Put(w: World, tab: nat, phase: Phase, heard: Heard): World {
    w.(tabs := w.tabs[tab := Tab(phase, heard)])
  }

  function Release(w: World): World {
    w.(holder := None)
  }

  predicate In(w: World, tab: nat) {
    tab in w.tabs
  }

  /** The answer of a read: what the worker showed, or a refusal. `None` while neither came. */
  function Answered<T>(seen: Option<T>, lost: Option<nat>): Option<Answer<T>> {
    match (lost, seen)
    case (Some(status), _) => Some(Failed(status))
    case (None, Some(data)) => Some(Ok(data))
    case (None, None) => None
  }

  function Give(w: World, late: bool): World {
    if late then w.(strays := w.strays + 1, abandoned := w.abandoned + 1) else w
  }

  predicate Inside(phase: Phase) {
    phase.AskingAgain? || phase.Creating?
  }

  function Step(w: World, e: Event): World {
    match e
    case Open(t) => if In(w, t) then w else Put(w, t, AskingMe(None), UNHEARD)
    case Serve(t, id) =>
      if !In(w, t) then w
      else
        var heard := w.tabs[t].heard;
        (match w.tabs[t].phase
         case AskingMe(_) => Put(w, t, AskingMe(Some(w.workspaces)), heard)
         case AskingAgain(_) => Put(w, t, AskingAgain(Some(w.workspaces)), heard)
         case Creating(None) =>
           var made := Workspace(id, true);
           Put(w.(workspaces := w.workspaces + [made]), t, Creating(Some(made)), heard)
         case _ => w)
    case AnswerMe(t, lost) =>
      if !In(w, t) || !w.tabs[t].phase.AskingMe? then w
      else
        (match Answered(w.tabs[t].phase.seen, lost)
         case None => w
         case Some(me) =>
           var heard := w.tabs[t].heard.(me := Some(me));
           if me.Failed? then Put(w, t, Finished(Email), heard)
           else if me.data != [] then Put(w, t, AskingSites(me.data[0]), heard)
           else Put(w, t, AskingInvitations, heard))
    case AnswerInvitations(t, invitations) =>
      if !In(w, t) || w.tabs[t].phase != AskingInvitations then w
      else
        var heard := w.tabs[t].heard.(invitations := Some(invitations));
        if invitations.Failed? && invitations.status != 404 then Put(w, t, Finished(Unchecked), heard)
        else if invitations.Ok? && invitations.data > 0 then Put(w, t, Finished(Invited), heard)
        else Put(w, t, WantsLock, heard)
    case TakeLock(t) =>
      if !In(w, t) || w.tabs[t].phase != WantsLock || (w.locks && w.holder != None) then w
      else Put(w.(holder := if w.locks then Some(t) else None), t, AskingAgain(None), w.tabs[t].heard)
    case AnswerAgain(t, lost) =>
      if !In(w, t) || !w.tabs[t].phase.AskingAgain? then w
      else
        (match Answered(w.tabs[t].phase.seen, lost)
         case None => w
         case Some(again) =>
           var heard := w.tabs[t].heard.(again := Some(again));
           if again.Failed? then Put(w.(blind := w.blind + 1), t, Creating(None), heard)
           else if again.data != [] then Put(Release(w), t, AskingSites(again.data[0]), heard)
           else Put(w, t, Creating(None), heard))
    case AnswerCreate(t, lost, late) =>
      if !In(w, t) || !w.tabs[t].phase.Creating? then w
      else
        (match Answered(w.tabs[t].phase.landed, lost)
         case None => w
         case Some(created) =>
           var heard := w.tabs[t].heard.(created := Some(created));
           if created.Ok? then Put(Release(w), t, AskingSites(created.data), heard)
           else
             Put(Give(Release(w), late && w.tabs[t].phase.landed == None), t, Finished(Unnamed(created.status)), heard))
    case AnswerSites(t, sites) =>
      if !In(w, t) || !w.tabs[t].phase.AskingSites? then w
      else
        Put(w, t, Finished(SiteStage(w.tabs[t].phase.workspace, sites)), w.tabs[t].heard.(sites := Some(sites)))
    case Retry(t) =>
      if !In(w, t) || !w.tabs[t].phase.Finished? || !w.tabs[t].phase.stage.Unnamed? then w
      else Put(w, t, WantsLock, w.tabs[t].heard.(again := None, created := None))
    case Close(t, late) =>
      if !In(w, t) then w
      else
        var phase := w.tabs[t].phase;
        var gone := Give(w.(tabs := w.tabs - {t}), late && phase == Creating(None));
        if Inside(phase) then Release(gone) else gone
    case Land(id) =>
      if w.strays == 0 then w
      else w.(workspaces := w.workspaces + [Workspace(id, true)], strays := w.strays - 1)
  }

  function Run(w: World, events: seq<Event>): World
    decreases |events|
  {
    if events == [] then w else Run(Step(w, events[0]), events[1..])
  }

  /** The answers that led a tab to its phase: what the sequential reading of the code allows there. */
  ghost predicate Led(tab: Tab) {
    var heard := tab.heard;
    match tab.phase
    case AskingMe(_) => heard == UNHEARD
    case AskingInvitations => heard == UNHEARD.(me := Some(Ok([])))
    case WantsLock => Cleared(heard) && heard.again == None && heard.created == None && heard.sites == None
    case AskingAgain(_) => Cleared(heard) && heard.again == None && heard.created == None && heard.sites == None
    case Creating(_) =>
      && Cleared(heard) && heard.again != None && FirstOf(heard.again.value) == None
      && heard.created == None && heard.sites == None
    case AskingSites(workspace) => heard.sites == None && Chosen(heard) == Some(workspace)
    case Finished(stage) => ResolveStage(heard) == Some(stage)
                            && (stage.Unnamed? ==> Cleared(heard) && heard.sites == None)
  }

  /** `/console/me` showed no workspace, and no invitation waits. */
  ghost predicate Cleared(heard: Heard) {
    heard.me == Some(Ok([])) && heard.invitations != None && ClearOfInvitations(heard.invitations.value)
  }

  /** The workspace whose sites are read. */
  ghost function Chosen(heard: Heard): Option<Workspace> {
    if heard.me == None || heard.me.value.Failed? then None
    else if heard.me.value.data != [] then Some(heard.me.value.data[0])
    else if !Cleared(heard) then None
    else
      match FirstWorkspace(heard)
      case Some(Made(workspace)) => Some(workspace)
      case _ => None
  }

  /** Every tab is where its answers lead. */
  ghost predicate AllLed(w: World) {
    forall t :: t in w.tabs ==> Led(w.tabs[t])
  }

  lemma OpeningLed(w: World, e: Event)
    requires AllLed(w) && (e.Open? || e.Close? || e.Land?)
    ensures AllLed(Step(w, e))
  {
  }

  lemma AskingLed(w: World, e: Event)
    requires AllLed(w) && (e.AnswerMe? || e.AnswerInvitations?)
    ensures AllLed(Step(w, e))
  {
  }

  lemma AgainLed(w: World, e: Event)
    requires AllLed(w) && (e.AnswerAgain?)
    ensures AllLed(Step(w, e))
  {
  }

  lemma CreatingLed(w: World, e: Event)
    requires AllLed(w) && (e.AnswerCreate?)
    ensures AllLed(Step(w, e))
  {
  }

  lemma StepLed(w: World, e: Event)
    requires AllLed(w)
    ensures AllLed(Step(w, e))
  {
    match e
    case Open(_) => OpeningLed(w, e);
    case Serve(_, _) =>
    case AnswerMe(_, _) => AskingLed(w, e);
    case AnswerInvitations(_, _) => AskingLed(w, e);
    case TakeLock(_) =>
    case AnswerAgain(_, _) => AgainLed(w, e);
    case AnswerCreate(_, _, _) => CreatingLed(w, e);
    case AnswerSites(_, _) =>
    case Retry(_) =>
    case Close(_, _) => OpeningLed(w, e);
    case Land(_) => OpeningLed(w, e);
  }

  /** At every moment of every run, a tab that finished shows the stage its own answers say. */
  lemma {:induction false} StagesFollowAnswers(w: World, events: seq<Event>)
    requires AllLed(w)
    ensures AllLed(Run(w, events))
    ensures forall t :: t in Run(w, events).tabs && Run(w, events).tabs[t].phase.Finished? ==>
              ResolveStage(Run(w, events).tabs[t].heard) == Some(Run(w, events).tabs[t].phase.stage)
    decreases |events|
  {
    if events == [] {
      assert forall t :: t in w.tabs ==> Led(w.tabs[t]);
    } else {
      StepLed(w, events[0]);
      StagesFollowAnswers(Step(w, events[0]), events[1..]);
    }
  }

  /** A request to make a workspace is on its way only for somebody with none, whom no invitation waits for. */
  lemma CreatesOnlyWhenClear(locks: bool, workspaces: seq<Workspace>, events: seq<Event>, t: nat)
    requires t in Run(Start(locks, workspaces), events).tabs
    requires Run(Start(locks, workspaces), events).tabs[t].phase.Creating?
    ensures Cleared(Run(Start(locks, workspaces), events).tabs[t].heard)
  {
    StagesFollowAnswers(Start(locks, workspaces), events);
    assert Led(Run(Start(locks, workspaces), events).tabs[t]);
  }

  // ---- How many workspaces are made -----------------------------------------------------------

  /** The tab in the lock is about to make a workspace that the worker did not make yet. */
  ghost predicate AboutToMake(w: World) {
    w.holder != None && w.holder.value in w.tabs && w.tabs[w.holder.value].phase == Creating(None)
  }

  /** It read nothing under the lock, and was answered. */
  ghost predicate SawNone(w: World) {
    && w.holder != None && w.holder.value in w.tabs
    && var tab := w.tabs[w.holder.value];
       (tab.phase == AskingAgain(Some([])) || (tab.phase == Creating(None) && tab.heard.again == Some(Ok([]))))
  }

  ghost predicate BlindlyMaking(w: World) {
    AboutToMake(w) && w.tabs[w.holder.value].heard.again != Some(Ok([]))
  }

  /** `before`: how many workspaces there were when the tabs were opened. */
  ghost predicate Counted(w: World, before: nat) {
    && w.locks
    && before <= |w.workspaces|
    && (forall t :: t in w.tabs && Inside(w.tabs[t].phase) ==> w.holder == Some(t))
    && (w.holder != None ==> w.holder.value in w.tabs && Inside(w.tabs[w.holder.value].phase))
    && |w.workspaces| - before + w.strays + (if BlindlyMaking(w) then 1 else 0)
       <= (if before == 0 then 1 else 0) + w.blind + w.abandoned
    && (SawNone(w) ==> before == 0 && |w.workspaces| + w.strays <= w.abandoned)
    && w.strays <= w.abandoned
    && (forall t :: t in w.tabs && w.tabs[t].phase == Creating(None) ==>
          w.tabs[t].heard.again != None && (w.tabs[t].heard.again.value.Ok? ==> w.tabs[t].heard.again == Some(Ok([]))))
  }

  lemma OpeningCounted(w: World, e: Event, before: nat)
    requires Counted(w, before) && AllLed(w) && (e.Open? || e.Close? || e.Land?)
    ensures Counted(Step(w, e), before)
  {
  }

  lemma ServingCounted(w: World, e: Event, before: nat)
    requires Counted(w, before) && AllLed(w) && (e.Serve?)
    ensures Counted(Step(w, e), before)
  {
  }

  lemma AskingCounted(w: World, e: Event, before: nat)
    requires Counted(w, before) && AllLed(w) && (e.AnswerMe? || e.AnswerInvitations?)
    ensures Counted(Step(w, e), before)
  {
  }

  lemma AgainCounted(w: World, e: Event, before: nat)
    requires Counted(w, before) && AllLed(w) && (e.AnswerAgain?)
    ensures Counted(Step(w, e), before)
  {
  }

  lemma CreatingCounted(w: World, e: Event, before: nat)
    requires Counted(w, before) && AllLed(w) && (e.AnswerCreate?)
    ensures Counted(Step(w, e), before)
  {
  }

  lemma {:induction false} StepCounted(w: World, e: Event, before: nat)
    requires Counted(w, before) && AllLed(w)
    ensures Counted(Step(w, e), before)
  {
    match e
    case Open(_) => OpeningCounted(w, e, before);
    case Serve(_, _) => ServingCounted(w, e, before);
    case AnswerMe(_, _) => AskingCounted(w, e, before);
    case AnswerInvitations(_, _) => AskingCounted(w, e, before);
    case TakeLock(_) =>
    case AnswerAgain(_, _) => AgainCounted(w, e, before);
    case AnswerCreate(_, _, _) => CreatingCounted(w, e, before);
    case AnswerSites(_, _) =>
    case Retry(_) =>
    case Close(_, _) => OpeningCounted(w, e, before);
    case Land(_) => OpeningCounted(w, e, before);
  }

  lemma {:induction false} RunCounted(w: World, events: seq<Event>, before: nat)
    requires Counted(w, before) && AllLed(w)
    ensures Counted(Run(w, events), before) && AllLed(Run(w, events))
    decreases |events|
  {
    if events != [] {
      StepLed(w, events[0]);
      StepCounted(w, events[0], before);
      RunCounted(Step(w, events[0]), events[1..], before);
    }
  }

  /** Nobody is on the way to the lock, as somebody has a workspace already. */
  ghost predicate OnlyRead(w: World, workspaces: seq<Workspace>) {
    && w.workspaces == workspaces && w.strays == 0
    && forall t :: t in w.tabs ==>
         match w.tabs[t].phase
         case AskingMe(seen) => seen == None || seen == Some(workspaces)
         case AskingSites(_) => true
         case Finished(stage) => !stage.Unnamed?
         case _ => false
  }

  lemma StepOnlyReads(w: World, e: Event, workspaces: seq<Workspace>)
    requires workspaces != [] && OnlyRead(w, workspaces)
    ensures OnlyRead(Step(w, e), workspaces)
  {
  }

  /** Nothing is made for somebody who has a workspace when the tabs open, whatever fails and with any lock. */
  lemma {:induction false} NoneForOwners(w: World, events: seq<Event>, workspaces: seq<Workspace>)
    requires workspaces != [] && OnlyRead(w, workspaces)
    ensures Run(w, events).workspaces == workspaces
    decreases |events|
  {
    if events != [] {
      StepOnlyReads(w, events[0], workspaces);
      NoneForOwners(Step(w, events[0]), events[1..], workspaces);
    }
  }

  /**
   * Over every run of any number of tabs with the lock of the browser: the tabs make one workspace at
   * most for somebody who has none, but for one more for each refused reading under the lock and for
   * each request given up before the worker handled it. They make none for somebody who has one.
   */
  lemma {:induction false} WorkspacesMade(workspaces: seq<Workspace>, events: seq<Event>)
    ensures var w := Run(Start(true, workspaces), events);
            && (workspaces == [] ==> |w.workspaces| <= 1 + w.blind + w.abandoned)
            && (workspaces != [] ==> w.workspaces == workspaces)
  {
    if workspaces == [] {
      RunCounted(Start(true, workspaces), events, 0);
    } else {
      NoneForOwners(Start(true, workspaces), events, workspaces);
    }
  }

  // ---- Which workspace the tabs show ----------------------------------------------------------

  /** The workspace a tab goes on with. */
  function Shown(phase: Phase): Option<Workspace> {
    match phase
    case AskingSites(workspace) => Some(workspace)
    case Creating(landed) => landed
    case Finished(Unread(workspace)) => Some(workspace)
    case Finished(Install(workspace, _)) => Some(workspace)
    case Finished(SiteForm(workspace)) => Some(workspace)
    case Finished(Waiting(workspace)) => Some(workspace)
    case _ => None
  }

  function Seen(phase: Phase): seq<Workspace> {
    match phase
    case AskingMe(Some(seen)) => seen
    case AskingAgain(Some(seen)) => seen
    case _ => []
  }

  /** The tabs read and show the first workspace of the worker, and no other. */
  ghost predicate ShowFirst(w: World) {
    forall t :: t in w.tabs ==>
      && (Shown(w.tabs[t].phase) != None ==> w.workspaces != [] && Shown(w.tabs[t].phase) == Some(w.workspaces[0]))
      && (Seen(w.tabs[t].phase) != [] ==> w.workspaces != [] && Seen(w.tabs[t].phase)[0] == w.workspaces[0])
  }

  /** The workspace that a request under the lock makes is the first one. */
  lemma MadeIsFirst(w: World, e: Event, before: nat)
    requires Counted(w, before) && w.blind == 0 && w.abandoned == 0
    requires e.Serve? && e.tab in w.tabs && w.tabs[e.tab].phase == Creating(None)
    ensures w.workspaces == []
  {
    assert w.holder == Some(e.tab);
    assert !BlindlyMaking(w) ==> SawNone(w);
  }

  lemma ServeShowsFirst(w: World, e: Event, before: nat)
    requires Counted(w, before) && ShowFirst(w) && e.Serve? && w.blind == 0 && w.abandoned == 0
    ensures ShowFirst(Step(w, e))
  {
    if e.tab in w.tabs && w.tabs[e.tab].phase == Creating(None) {
      MadeIsFirst(w, e, before);
    }
  }

  lemma ReadShowsFirst(w: World, e: Event)
    requires ShowFirst(w) && (e.AnswerMe? || e.AnswerAgain?)
    ensures ShowFirst(Step(w, e))
  {
  }

  lemma AnswerShowsFirst(w: World, e: Event)
    requires ShowFirst(w) && (e.AnswerCreate? || e.AnswerSites?)
    ensures ShowFirst(Step(w, e))
  {
  }

  lemma LeaveShowsFirst(w: World, e: Event)
    requires ShowFirst(w) && (e.Open? || e.Close? || (e.Land? && w.strays == 0))
    ensures ShowFirst(Step(w, e))
  {
  }

  lemma WaitShowsFirst(w: World, e: Event)
    requires ShowFirst(w) && (e.AnswerInvitations? || e.TakeLock? || e.Retry?)
    ensures ShowFirst(Step(w, e))
  {
  }

  lemma StepShowsFirst(w: World, e: Event, before: nat)
    requires Counted(w, before) && ShowFirst(w) && w.blind == 0 && w.abandoned == 0
    ensures ShowFirst(Step(w, e))
  {
    match e
    case Serve(_, _) => ServeShowsFirst(w, e, before);
    case AnswerMe(_, _) => ReadShowsFirst(w, e);
    case AnswerAgain(_, _) => ReadShowsFirst(w, e);
    case AnswerCreate(_, _, _) => AnswerShowsFirst(w, e);
    case AnswerSites(_, _) => AnswerShowsFirst(w, e);
    case Open(_) => LeaveShowsFirst(w, e);
    case Close(_, _) => LeaveShowsFirst(w, e);
    case Land(_) => LeaveShowsFirst(w, e);
    case _ => WaitShowsFirst(w, e);
  }

  lemma StepKeepsCounts(w: World, e: Event)
    ensures w.blind <= Step(w, e).blind && w.abandoned <= Step(w, e).abandoned
  {
  }

  lemma {:induction false} CountsGrow(w: World, events: seq<Event>)
    ensures w.blind <= Run(w, events).blind && w.abandoned <= Run(w, events).abandoned
    decreases |events|
  {
    if events != [] {
      StepKeepsCounts(w, events[0]);
      CountsGrow(Step(w, events[0]), events[1..]);
    }
  }

  lemma {:induction false} RunShowsFirst(w: World, events: seq<Event>, before: nat)
    requires Counted(w, before) && AllLed(w) && ShowFirst(w)
    requires Run(w, events).blind == 0 && Run(w, events).abandoned == 0
    ensures ShowFirst(Run(w, events))
    decreases |events|
  {
    if events != [] {
      CountsGrow(w, events);
      StepShowsFirst(w, events[0], before);
      StepLed(w, events[0]);
      StepCounted(w, events[0], before);
      RunShowsFirst(Step(w, events[0]), events[1..], before);
    }
  }

  /**
   * In a run where every reading under the lock was answered and no request was given up: somebody
   * with no workspace gets one at most, and every tab that has a workspace has that one.
   */
  lemma OneWorkspaceForAllTabs(workspaces: seq<Workspace>, events: seq<Event>)
    requires Run(Start(true, workspaces), events).blind == 0 && Run(Start(true, workspaces), events).abandoned == 0
    ensures var w := Run(Start(true, workspaces), events);
            && |w.workspaces| <= (if workspaces == [] then 1 else |workspaces|)
            && forall t :: t in w.tabs && Shown(w.tabs[t].phase) != None ==>
                 w.workspaces != [] && Shown(w.tabs[t].phase) == Some(w.workspaces[0])
  {
    WorkspacesMade(workspaces, events);
    RunShowsFirst(Start(true, workspaces), events, |workspaces|);
    assert ShowFirst(Run(Start(true, workspaces), events));
  }

  // ---- Where the lock is not enough -----------------------------------------------------------

  lemma {:induction false} RunSplit(w: World, a: seq<Event>, b: seq<Event>)
    ensures Run(w, a + b) == Run(Run(w, a), b)
    decreases |a|
  {
    if a == [] {
      assert a + b == b;
    } else {
      assert (a + b)[1..] == a[1..] + b;
      RunSplit(Step(w, a[0]), a[1..], b);
    }
  }

  const READ_NONE := UNHEARD.(me := Some(Ok([])), invitations := Some(Ok(0)))

  /** A tab on its way to the lock, and in it, answered that there is none. */
  function ToLock(t: nat): seq<Event> {
    [Open(t), Serve(t, ""), AnswerMe(t, None), AnswerInvitations(t, Ok(0))]
  }

  function InLock(t: nat): seq<Event> {
    [TakeLock(t), Serve(t, ""), AnswerAgain(t, None)]
  }

  lemma RunFirst(w: World, events: seq<Event>)
    requires events != []
    ensures Run(w, events) == Run(Step(w, events[0]), events[1..])
  {
  }

  lemma LockReached(w: World, t: nat)
    requires t !in w.tabs && w.workspaces == []
    ensures Run(w, ToLock(t)) == w.(tabs := w.tabs[t := Tab(WantsLock, READ_NONE)])
  {
    var s := ToLock(t);
    var w1 := Step(w, s[0]);
    var w2 := Step(w1, s[1]);
    var w3 := Step(w2, s[2]);
    var w4 := Step(w3, s[3]);
    RunFirst(w, s);
    RunFirst(w1, s[1..]);
    RunFirst(w2, s[2..]);
    RunFirst(w3, s[3..]);
    assert s[1..][1..] == s[2..] && s[2..][1..] == s[3..] && s[3..][1..] == [];
    assert w4.tabs == w.tabs[t := Tab(WantsLock, READ_NONE)];
  }

  lemma NoneRead(w: World, t: nat)
    requires t in w.tabs && w.tabs[t] == Tab(WantsLock, READ_NONE) && w.workspaces == [] && w.holder == None
    ensures Run(w, InLock(t)) == w.(holder := if w.locks then Some(t) else None,
                                    tabs := w.tabs[t := Tab(Creating(None), READ_NONE.(again := Some(Ok([]))))])
  {
    var s := InLock(t);
    var w1 := Step(w, s[0]);
    var w2 := Step(w1, s[1]);
    var w3 := Step(w2, s[2]);
    RunFirst(w, s);
    RunFirst(w1, s[1..]);
    RunFirst(w2, s[2..]);
    assert s[1..][1..] == s[2..] && s[2..][1..] == [];
    assert w3.tabs == w.tabs[t := Tab(Creating(None), READ_NONE.(again := Some(Ok([]))))];
  }

  lemma RunThen(w: World, events: seq<Event>, e: Event)
    ensures Run(w, events + [e]) == Step(Run(w, events), e)
  {
    RunSplit(w, events, [e]);
    assert [e][1..] == [];
  }

  /** A tab alone: it waits for the lock, and some of its requests were given up or followed a refused reading. */
  function Alone(workspaces: seq<Workspace>, phase: Phase, again: Option<Answer<seq<Workspace>>>, strays: nat,
                 blind: nat, abandoned: nat): World {
    World(true, workspaces, if Inside(phase) then Some(0) else None, map[0 := Tab(phase, READ_NONE.(again := again))],
          strays, blind, abandoned)
  }

  /** The request is given up, `late` when the worker can still handle it, and the person tries again. */
  lemma GivenUp(w: World, events: seq<Event>, landed: Option<Workspace>, again: Answer<seq<Workspace>>, late: bool)
    returns (next: seq<Event>)
    requires late ==> landed == None
    requires Run(w, events)
          == var v := Run(w, events); Alone(v.workspaces, Creating(landed), Some(again), v.strays, v.blind, v.abandoned)
    ensures var v, more := Run(w, events), if late then 1 else 0;
            Run(w, next) == Alone(v.workspaces, WantsLock, None, v.strays + more, v.blind, v.abandoned + more)
  {
    RunThen(w, events, AnswerCreate(0, Some(0), late));
    next := events + [AnswerCreate(0, Some(0), late)];
    RunThen(w, next, Retry(0));
    next := next + [Retry(0)];
    TriedAgain(Run(w, events), landed, again, late);
  }

  lemma TriedAgain(v: World, landed: Option<Workspace>, again: Answer<seq<Workspace>>, late: bool)
    requires v == Alone(v.workspaces, Creating(landed), Some(again), v.strays, v.blind, v.abandoned)
    requires late ==> landed == None
    ensures var more := if late then 1 else 0;
            Step(Step(v, AnswerCreate(0, Some(0), late)), Retry(0))
            == Alone(v.workspaces, WantsLock, None, v.strays + more, v.blind, v.abandoned + more)
  {
    assert Step(Step(v, AnswerCreate(0, Some(0), late)), Retry(0)).tabs == map[0 := Tab(WantsLock, READ_NONE)];
  }

  /** A tab alone, at the lock, after so many requests that were given up and are still on their way. */
  lemma {:induction false} Abandons(abandoned: nat) returns (events: seq<Event>)
    ensures Run(Start(true, []), events) == Alone([], WantsLock, None, abandoned, 0, abandoned)
  {
    var start := Start(true, []);
    if abandoned == 0 {
      LockReached(start, 0);
      events := ToLock(0);
    } else {
      events := Abandons(abandoned - 1);
      RunSplit(start, events, InLock(0));
      NoneRead(Run(start, events), 0);
      events := GivenUp(start, events + InLock(0), None, Ok([]), true);
    }
  }

  /** It makes its first workspace, but the answer is lost. */
  lemma FirstMade(abandoned: nat) returns (events: seq<Event>)
    ensures Run(Start(true, []), events) == Alone([Workspace("", true)], WantsLock, None, abandoned, 0, abandoned)
  {
    var start := Start(true, []);
    events := Abandons(abandoned);
    RunSplit(start, events, InLock(0));
    NoneRead(Run(start, events), 0);
    events := events + InLock(0);
    RunThen(start, events, Serve(0, ""));
    events := GivenUp(start, events + [Serve(0, "")], Some(Workspace("", true)), Ok([]), false);
  }

  /** Each refused reading under the lock makes one more. */
  lemma {:induction false} BlindlyMade(blind: nat, abandoned: nat)
    returns (events: seq<Event>, workspaces: seq<Workspace>)
    ensures |workspaces| == 1 + blind
    ensures Run(Start(true, []), events) == Alone(workspaces, WantsLock, None, abandoned, blind, abandoned)
  {
    var start := Start(true, []);
    if blind == 0 {
      events := FirstMade(abandoned);
      workspaces := [Workspace("", true)];
    } else {
      events, workspaces := BlindlyMade(blind - 1, abandoned);
      RunThen(start, events, TakeLock(0));
      events := events + [TakeLock(0)];
      RunThen(start, events, AnswerAgain(0, Some(0)));
      events := events + [AnswerAgain(0, Some(0))];
      RunThen(start, events, Serve(0, ""));
      workspaces := workspaces + [Workspace("", true)];
      events := GivenUp(start, events + [Serve(0, "")], Some(Workspace("", true)), Failed(0), false);
    }
  }

  /** The requests on their way are handled one after another. */
  lemma {:induction false} StraysLand(w: World) returns (events: seq<Event>)
    ensures var v := Run(w, events);
            |v.workspaces| == |w.workspaces| + w.strays && v.blind == w.blind && v.abandoned == w.abandoned
    decreases w.strays
  {
    if w.strays == 0 {
      events := [];
    } else {
      var rest := StraysLand(Step(w, Land("")));
      events := [Land("")] + rest;
      assert events[1..] == rest;
    }
  }

  /** The bound is reached for every count of refused readings and of requests given up, by one tab alone. */
  lemma {:induction false} BoundReached(blind: nat, abandoned: nat) returns (events: seq<Event>)
    ensures var w := Run(Start(true, []), events);
            |w.workspaces| == 1 + blind + abandoned && w.blind == blind && w.abandoned == abandoned
  {
    var start := Start(true, []);
    var before, _ := BlindlyMade(blind, abandoned);
    var after := StraysLand(Run(start, before));
    RunSplit(start, before, after);
    events := before + after;
  }

  /** With so many of each, one workspace at most is guaranteed exactly when there is none of either. */
  lemma {:induction false} OneAtMostExactly(blind: nat, abandoned: nat)
    ensures (forall events :: var w := Run(Start(true, []), events);
               w.blind == blind && w.abandoned == abandoned ==> |w.workspaces| <= 1)
            <==> blind + abandoned == 0
  {
    if blind + abandoned == 0 {
      forall events: seq<Event>
        ensures var w := Run(Start(true, []), events);
                w.blind == blind && w.abandoned == abandoned ==> |w.workspaces| <= 1
      {
        WorkspacesMade([], events);
      }
    } else {
      var events := BoundReached(blind, abandoned);
    }
  }

  /** The tabs from 0, all alike. */
  function Everyone(tabs: nat, tab: Tab): (r: map<nat, Tab>)
    ensures forall t: nat :: t in r <==> t < tabs
    ensures forall t :: t in r ==> r[t] == tab
  {
    if tabs == 0 then map[] else Everyone(tabs - 1, tab)[tabs - 1 := tab]
  }

  /** Any number of tabs of a browser with no lock, all about to make the first workspace. */
  lemma {:induction false} AllAsked(tabs: nat) returns (events: seq<Event>)
    ensures var asked := Tab(Creating(None), READ_NONE.(again := Some(Ok([]))));
            Run(Start(false, []), events) == World(false, [], None, Everyone(tabs, asked), 0, 0, 0)
  {
    var start := Start(false, []);
    if tabs == 0 {
      events := [];
    } else {
      events := AllAsked(tabs - 1);
      var before, t := Run(start, events), tabs - 1;
      RunSplit(start, events, ToLock(t) + InLock(t));
      RunSplit(before, ToLock(t), InLock(t));
      LockReached(before, t);
      NoneRead(Run(before, ToLock(t)), t);
      events := events + (ToLock(t) + InLock(t));
    }
  }

  /** Without the lock of the browser, any number of tabs make one each, with every reading answered. */
  lemma NoLockMakesMany(tabs: nat) returns (events: seq<Event>)
    ensures var w := Run(Start(false, []), events); |w.workspaces| == tabs && w.blind == 0 && w.abandoned == 0
  {
    var start := Start(false, []);
    events := AllAsked(tabs);
    for t := 0 to tabs
      invariant var w := Run(start, events);
                && |w.workspaces| == t && w.blind == 0 && w.abandoned == 0
                && forall k: nat :: t <= k < tabs ==> k in w.tabs && w.tabs[k].phase == Creating(None)
    {
      RunThen(start, events, Serve(t, ""));
      events := events + [Serve(t, "")];
    }
  }
}
