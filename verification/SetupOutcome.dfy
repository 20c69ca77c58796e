/** Where a tab of the setup ends, told from the answers it had, and what each answer leads to. */
module SetupOutcome {
  import opened Options
  import opened SetupStage
  import opened SetupProtocol

  /** The worker shows no workspace, and no invitation waits, or it knows of none. */
  predicate NoneShown(heard: Heard) {
    && heard.me == Some(Ok([]))
    && (heard.invitations == Some(Ok(0)) || heard.invitations == Some(Failed(404)))
  }

  /** Under the lock, the worker shows none either, or does not answer. */
  predicate NoneUnderLock(heard: Heard) {
    NoneShown(heard) && heard.again != None && (heard.again.value.Ok? ==> heard.again.value.data == [])
  }

  /** The workspace of a tab: the first one shown, then the first one shown under the lock, then the one made. */
  predicate HasWorkspace(heard: Heard, workspace: Workspace) {
    || (heard.me != None && heard.me.value.Ok? && heard.me.value.data != [] && heard.me.value.data[0] == workspace)
    || (NoneShown(heard) && heard.again != None && heard.again.value.Ok? && heard.again.value.data != []
        && heard.again.value.data[0] == workspace)
    || (NoneUnderLock(heard) && heard.created == Some(Ok(workspace)))
  }

  /** What a tab shows once it is done, case by case. */
  predicate Shows(heard: Heard, stage: Stage) {
    match stage
    case Email => heard.me != None && heard.me.value.Failed?
    case Invited => heard.me == Some(Ok([])) && heard.invitations != None
                    && heard.invitations.value.Ok? && heard.invitations.value.data > 0
    case Unchecked => heard.me == Some(Ok([])) && heard.invitations != None
                      && heard.invitations.value.Failed? && heard.invitations.value.status != 404
    case Unnamed(problem) => NoneUnderLock(heard) && heard.created == Some(Failed(problem))
    case Unread(workspace) => HasWorkspace(heard, workspace) && heard.sites != None && heard.sites.value.Failed?
    case Install(workspace, site) =>
      HasWorkspace(heard, workspace) && heard.sites != None && heard.sites.value.Ok?
      && heard.sites.value.data != [] && heard.sites.value.data[0] == site
    case SiteForm(workspace) => HasWorkspace(heard, workspace) && heard.sites == Some(Ok([])) && workspace.manages
    case Waiting(workspace) => HasWorkspace(heard, workspace) && heard.sites == Some(Ok([])) && !workspace.manages
  }

  /** One workspace at most, and one stage at most, is right for any answers. */
  lemma {:induction false} OneStage(heard: Heard, one: Stage, other: Stage)
    requires Shows(heard, one) && Shows(heard, other)
    ensures one == other
  {
  }

  lemma {:induction false} ResolvedShows(heard: Heard, stage: Stage)
    requires ResolveStage(heard) == Some(stage)
    ensures Shows(heard, stage)
  {
  }

  /**
   * In every run, with the lock or without, a tab that is done shows a stage exactly when that is the
   * right one for the answers it had.
   */
  lemma {:induction false} FinishedExactly(locks: bool, workspaces: seq<Workspace>, events: seq<Event>, t: nat,
                                           stage: Stage)
    requires t in Run(Start(locks, workspaces), events).tabs
    requires Run(Start(locks, workspaces), events).tabs[t].phase.Finished?
    ensures var tab := Run(Start(locks, workspaces), events).tabs[t];
            tab.phase.stage == stage <==> Shows(tab.heard, stage)
  {
    var tab := Run(Start(locks, workspaces), events).tabs[t];
    StagesFollowAnswers(Start(locks, workspaces), events);
    ResolvedShows(tab.heard, tab.phase.stage);
    if Shows(tab.heard, stage) {
      OneStage(tab.heard, tab.phase.stage, stage);
    }
  }

  // ---- What each answer leads to --------------------------------------------------------------

  /** What the worker showed to a read, or the refusal of it. */
  predicate Gave<T(==)>(seen: Option<T>, lost: Option<nat>, answer: Answer<T>) {
    if lost != None then answer == Failed(lost.value) else seen != None && answer == Ok(seen.value)
  }

  /** The first read: what the worker shows at some moment is what the answer holds, if it comes. */
  lemma {:induction false} MeAnswered(w: World, t: nat, id: string, lost: Option<nat>)
    requires t in w.tabs && w.tabs[t].phase.AskingMe? && w.tabs[t].heard == UNHEARD
    ensures var seen := Step(w, Serve(t, id)); t in seen.tabs && seen.tabs[t].phase == AskingMe(Some(w.workspaces))
    ensures w.tabs[t].phase.seen == None && lost == None ==> Step(w, AnswerMe(t, lost)) == w
    ensures w.tabs[t].phase.seen != None || lost != None ==>
              var tab := Step(w, AnswerMe(t, lost)).tabs[t];
              && tab.heard.me != None && Gave(w.tabs[t].phase.seen, lost, tab.heard.me.value)
              && tab.heard == UNHEARD.(me := tab.heard.me)
              && (if tab.heard.me.value.Failed? then tab.phase == Finished(Email)
                  else if tab.heard.me.value.data == [] then tab.phase == AskingInvitations
                  else tab.phase == AskingSites(tab.heard.me.value.data[0]))
  {
  }

  /** The invitations: some send the tab away, a refusal other than 404 too, and else it goes for the lock. */
  lemma {:induction false} InvitationsAnswered(w: World, t: nat, invitations: Answer<nat>)
    requires t in w.tabs && w.tabs[t].phase == AskingInvitations
    ensures var tab := Step(w, AnswerInvitations(t, invitations)).tabs[t];
            && tab.heard == w.tabs[t].heard.(invitations := Some(invitations))
            && (if invitations == Ok(0) || invitations == Failed(404) then tab.phase == WantsLock
                else tab.phase == Finished(if invitations.Ok? then Invited else Unchecked))
  {
  }

  /** The lock is taken exactly when nobody has it, and a browser with none makes nobody wait. */
  lemma {:induction false} LockTaken(w: World, t: nat)
    requires t in w.tabs && w.tabs[t].phase == WantsLock
    ensures var after := Step(w, TakeLock(t));
            if w.locks && w.holder != None then after == w
            else && t in after.tabs && after.tabs[t] == Tab(AskingAgain(None), w.tabs[t].heard)
                 && (w.locks ==> after.holder == Some(t))
  {
  }

  /** Under the lock: a workspace is taken as it is found, and the lock is free again; else one is asked for. */
  lemma {:induction false} AgainAnswered(w: World, t: nat, id: string, lost: Option<nat>)
    requires t in w.tabs && w.tabs[t].phase.AskingAgain?
    ensures var seen := Step(w, Serve(t, id)); t in seen.tabs && seen.tabs[t].phase == AskingAgain(Some(w.workspaces))
    ensures w.tabs[t].phase.seen != None || lost != None ==>
              var after := Step(w, AnswerAgain(t, lost));
              var tab := after.tabs[t];
              && tab.heard.again != None && Gave(w.tabs[t].phase.seen, lost, tab.heard.again.value)
              && tab.heard == w.tabs[t].heard.(again := tab.heard.again)
              && (if tab.heard.again.value.Ok? && tab.heard.again.value.data != []
                  then tab.phase == AskingSites(tab.heard.again.value.data[0]) && after.holder == None
                  else tab.phase == Creating(None) && after.holder == w.holder)
  {
  }

  /** The request to make one: the worker makes it once, and its answer or its refusal frees the lock. */
  lemma {:induction false} CreateAnswered(w: World, t: nat, id: string, lost: Option<nat>, late: bool)
    requires t in w.tabs && w.tabs[t].phase.Creating?
    ensures w.tabs[t].phase.landed == None ==>
              var made := Step(w, Serve(t, id));
              && made.workspaces == w.workspaces + [Workspace(id, true)]
              && t in made.tabs && made.tabs[t].phase == Creating(Some(Workspace(id, true)))
    ensures w.tabs[t].phase.landed != None ==> Step(w, Serve(t, id)) == w
    ensures w.tabs[t].phase.landed != None || lost != None ==>
              var after := Step(w, AnswerCreate(t, lost, late));
              var tab := after.tabs[t];
              && after.holder == None && after.workspaces == w.workspaces
              && tab.heard.created != None && Gave(w.tabs[t].phase.landed, lost, tab.heard.created.value)
              && tab.heard == w.tabs[t].heard.(created := tab.heard.created)
              && tab.phase == (if tab.heard.created.value.Ok? then AskingSites(tab.heard.created.value.data)
                               else Finished(Unnamed(tab.heard.created.value.status)))
  {
  }

  /** The sites: every answer ends the resolution, at the stage that is right for it. */
  lemma {:induction false} SitesAnswered(w: World, t: nat, sites: Answer<seq<string>>)
    requires t in w.tabs && w.tabs[t].phase.AskingSites?
    ensures var tab := Step(w, AnswerSites(t, sites)).tabs[t];
            var workspace := w.tabs[t].phase.workspace;
            && tab.heard == w.tabs[t].heard.(sites := Some(sites))
            && tab.phase.Finished?
            && (sites.Failed? ==> tab.phase.stage == Unread(workspace))
            && (sites.Ok? && sites.data != [] ==> tab.phase.stage == Install(workspace, sites.data[0]))
            && (sites == Ok([]) && workspace.manages ==> tab.phase.stage == SiteForm(workspace))
            && (sites == Ok([]) && !workspace.manages ==> tab.phase.stage == Waiting(workspace))
  {
  }

  /** A person tries again only after no workspace could be made, from the lock on. */
  lemma {:induction false} TriesAgain(w: World, t: nat)
    requires t in w.tabs
    ensures var after := Step(w, Retry(t));
            if w.tabs[t].phase.Finished? && w.tabs[t].phase.stage.Unnamed?
            then t in after.tabs
                 && after.tabs[t] == Tab(WantsLock, w.tabs[t].heard.(again := None, created := None))
            else after == w
  {
  }

  /** Tabs come with nothing heard, and go with the lock they held; a request they leave can still be handled. */
  lemma {:induction false} ComesAndGoes(w: World, t: nat, late: bool, id: string)
    ensures t !in w.tabs ==> Step(w, Open(t)) == w.(tabs := w.tabs[t := Tab(AskingMe(None), UNHEARD)])
    ensures t in w.tabs ==>
              var after, phase := Step(w, Close(t, late)), w.tabs[t].phase;
              && after.tabs == w.tabs - {t} && after.workspaces == w.workspaces
              && after.holder == (if phase.AskingAgain? || phase.Creating? then None else w.holder)
              && after.strays == w.strays + (if late && phase == Creating(None) then 1 else 0)
    ensures w.strays > 0 ==>
              var after := Step(w, Land(id));
              after.workspaces == w.workspaces + [Workspace(id, true)] && after.strays == w.strays - 1
  {
  }
}
