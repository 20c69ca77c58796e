/**
 * Every run of a tab: its calls, its checks and its sign-ins wait for answers in any order, and each
 * answer is any answer at all, since other tabs change who the browser is signed in as.
 */
module TabProtocol {
  import opened Options
  import opened TabAccount

  /** What a request asks: a call, the question of `checkTab`, a link, a sign-in, a sign-out. */
  datatype Kind = Call(me: bool, quiet: bool) | Check | Link | Redeem | SignOut

  datatype Op =
    | Held(check: nat, me: bool, quiet: bool)  // begun while a check was pending, and not sent
    | Sent(kind: Kind)
    | Arrived(kind: Kind, reply: Reply)        // its status was heard, and its body is being read
    | Answered(answer: Answer)                 // a check whose answer is not judged yet
    | Judged                                   // a check that is judged, and still pending
    | Done(answer: Answer)

  /** `settled`: the checks that ended. `delivered`: the accounts of the `/console/me` given to screens. */
  datatype World = World(
    vars: Vars,
    ops: map<nat, Op>,
    next: nat,
    sent: seq<nat>,
    settled: set<nat>,
    delivered: seq<string>)

  const FRESH := World(OPENED, map[], 0, [], {}, [])

  datatype Event =
    | CheckTab
    | BeginCall(me: bool, quiet: bool)
    | Resume(id: nat)
    | Begin(kind: Kind)
    | Arrive(id: nat, reply: Reply)
    | ReadBody(id: nat)
    | JudgeCheck(id: nat)
    | EndCheck(id: nat)

  /** A request that leaves now, or is answered `TabLeft` when the tab stopped. */
  function Ask(w: World, id: nat, kind: Kind): World {
    if w.vars.left != None then w.(ops := w.ops[id := Done(TabLeft)])
    else w.(ops := w.ops[id := Sent(kind)], sent := w.sent + [id])
  }

  function Settle(w: World, id: nat, vars: Vars, op: Op): World {
    w.(vars := vars, ops := w.ops[id := op])
  }

  function Step(w: World, e: Event): World {
    match e
    case CheckTab =>
      if !Asks(w.vars) then w
      else Ask(w, w.next, Check).(vars := w.vars.(checking := Some(w.next)), next := w.next + 1)
    case BeginCall(me, quiet) =>
      (match w.vars.checking
       case Some(check) => w.(ops := w.ops[w.next := Held(check, me, quiet)])
       case None => Ask(w, w.next, Call(me, quiet))).(next := w.next + 1)
    case Resume(id) =>
      if id in w.ops && w.ops[id].Held? && w.ops[id].check in w.settled
      then Ask(w, id, Call(w.ops[id].me, w.ops[id].quiet)) else w
    case Begin(kind) =>
      if kind.Call? || kind.Check? then w else Ask(w, w.next, kind).(next := w.next + 1)
    case Arrive(id, reply) =>
      if id !in w.ops || !w.ops[id].Sent? then w
      else
        (match w.ops[id].kind
         case Call(me, quiet) => Settle(w, id, Hear(w.vars, reply, quiet), Arrived(Call(me, quiet), reply))
         case Check => Settle(w, id, Hear(w.vars, reply, true), Arrived(Check, reply))
         case Link => Settle(w, id, w.vars, Done(AnswerOf(reply)))
         case Redeem => Settle(w, id, w.vars, Arrived(Redeem, reply))
         case SignOut => Settle(w, id, SignedOut(w.vars, reply), Done(AnswerOf(reply))))
    case ReadBody(id) =>
      if id !in w.ops || !w.ops[id].Arrived? then w
      else
        var reply := w.ops[id].reply;
        (match w.ops[id].kind
         case Call(me, quiet) =>
           var read := Read(w.vars, me, reply);
           Deliver(Settle(w, id, read.0, Done(read.1)), me, read.1)
         case Check =>
           var read := Read(w.vars, true, reply);
           Settle(w, id, read.0, Answered(read.1))
         case Redeem => Settle(w, id, SignedIn(w.vars, reply), Done(AnswerOf(reply)))
         case _ => w)
    case JudgeCheck(id) =>
      if id in w.ops && w.ops[id].Answered? then Settle(w, id, Judge(w.vars, w.ops[id].answer), Judged) else w
    case EndCheck(id) =>
      if id in w.ops && w.ops[id].Judged?
      then Settle(w, id, w.vars.(checking := None), Done(Data(None))).(settled := w.settled + {id}) else w
  }

  function Deliver(w: World, me: bool, answer: Answer): World {
    if me && answer.Data? && answer.me != None then w.(delivered := w.delivered + [answer.me.value.account]) else w
  }

  function Run(w: World, events: seq<Event>): World
    decreases |events|
  {
    if events == [] then w else Run(Step(w, events[0]), events[1..])
  }

  /** An operation of `checkTab` that is not over. */
  predicate Pending(op: Op) {
    (op.Sent? && op.kind.Check?) || (op.Arrived? && op.kind.Check?) || op.Answered? || op.Judged?
  }

  /** What every run keeps. */
  ghost predicate Sound(w: World) {
    && (forall id :: id in w.ops ==> id < w.next)
    && (forall id :: id in w.sent ==> id in w.ops && !w.ops[id].Held?)
    && (forall id :: id in w.ops && Pending(w.ops[id]) ==> w.vars.checking == Some(id))
    && (w.vars.checking != None ==> w.vars.checking.value in w.ops && Pending(w.ops[w.vars.checking.value]))
    && (forall id :: id in w.settled ==> id in w.ops && w.ops[id].Done?)
    && (forall id :: id in w.ops && w.ops[id].Held? ==>
          w.ops[id].check in w.settled || w.vars.checking == Some(w.ops[id].check))
    && ToldOnce(w.vars)
  }

  ghost predicate Grows(w: World, after: World) {
    w.next <= after.next && w.settled <= after.settled && w.sent <= after.sent
  }

  ghost predicate ToldOnce(v: Vars) {
    v.told == if v.left == None then [] else [v.left.value]
  }

  /** An operation moves on, and no check begins or ends. */
  lemma SettleSound(w: World, id: nat, vars: Vars, op: Op)
    requires Sound(w) && id in w.ops && !w.ops[id].Held? && !w.ops[id].Done?
    requires vars.checking == w.vars.checking && ToldOnce(vars)
    requires !op.Held? && Pending(op) == Pending(w.ops[id])
    ensures Sound(Settle(w, id, vars, op)) && Grows(w, Settle(w, id, vars, op))
  {
  }

  lemma BeginSound(w: World, e: Event)
    requires Sound(w) && (e.BeginCall? || e.Begin?)
    ensures Sound(Step(w, e)) && Grows(w, Step(w, e))
  {
  }

  lemma ResumeSound(w: World, e: Event)
    requires Sound(w) && (e.Resume?)
    ensures Sound(Step(w, e)) && Grows(w, Step(w, e))
  {
  }

  lemma ArriveSound(w: World, e: Event)
    requires Sound(w) && e.Arrive?
    ensures Sound(Step(w, e)) && Grows(w, Step(w, e))
  {
    if e.id in w.ops && w.ops[e.id].Sent? {
      var kind := w.ops[e.id].kind;
      var after := Step(w, e);
      SettleSound(w, e.id, after.vars, after.ops[e.id]);
    }
  }

  lemma ReadSound(w: World, e: Event)
    requires Sound(w) && e.ReadBody?
    ensures Sound(Step(w, e)) && Grows(w, Step(w, e))
  {
    if e.id in w.ops && w.ops[e.id].Arrived?
       && (w.ops[e.id].kind.Call? || w.ops[e.id].kind.Check? || w.ops[e.id].kind.Redeem?) {
      var op := w.ops[e.id];
      var after := Step(w, e);
      SettleSound(w, e.id, after.vars, after.ops[e.id]);
      assert after == Settle(w, e.id, after.vars, after.ops[e.id]).(delivered := after.delivered);
    }
  }

  lemma EndSound(w: World, e: Event)
    requires Sound(w) && (e.JudgeCheck? || e.EndCheck?)
    ensures Sound(Step(w, e)) && Grows(w, Step(w, e))
  {
  }

  lemma {:induction false} StepSound(w: World, e: Event)
    requires Sound(w)
    ensures Sound(Step(w, e)) && Grows(w, Step(w, e))
  {
    match e
    case CheckTab =>
    case BeginCall(_, _) => BeginSound(w, e);
    case Resume(_) => ResumeSound(w, e);
    case Begin(_) => BeginSound(w, e);
    case Arrive(_, _) => ArriveSound(w, e);
    case ReadBody(_) => ReadSound(w, e);
    case JudgeCheck(_) => EndSound(w, e);
    case EndCheck(_) => EndSound(w, e);
  }

  lemma {:induction false} RunSound(w: World, events: seq<Event>)
    requires Sound(w)
    ensures Sound(Run(w, events))
    decreases |events|
  {
    if events != [] {
      StepSound(w, events[0]);
      RunSound(Step(w, events[0]), events[1..]);
    }
  }

  lemma {:induction false} RunSplit(w: World, a: seq<Event>, b: seq<Event>)
    ensures Run(w, a + b) == Run(Run(w, a), b)
    decreases |a|
  {
    if a == [] {
      assert a + b == b;
    } else {
      assert (a + b)[1..] == a[1..] + b;
      RunSplit(Step(w, a[0]), a[1..], b);
    }
  }

  // ---- A tab that stopped ---------------------------------------------------------------------

  lemma StepStopped(w: World, e: Event)
    requires w.vars.left != None
    ensures var after := Step(w, e);
            after.vars.left == w.vars.left && after.vars.told == w.vars.told && after.sent == w.sent
  {
  }

  /** Once the tab stopped: it stays stopped for the same reason, told once, sends nothing and knows nobody. */
  lemma {:induction false} StoppedForGood(w: World, events: seq<Event>)
    requires w.vars.left != None
    ensures var after := Run(w, events);
            && after.vars.left == w.vars.left && after.vars.told == w.vars.told
            && after.sent == w.sent && KnownMe(after.vars) == None
    decreases |events|
  {
    if events != [] {
      StepStopped(w, events[0]);
      StoppedForGood(Step(w, events[0]), events[1..]);
    }
  }

  // ---- A call begun while a check is pending ---------------------------------------------------

  /** A held call leaves only once its check is over, and only of a tab that goes on. */
  lemma HeldStep(w: World, e: Event, id: nat)
    requires Sound(w) && id in w.ops && w.ops[id].Held?
    ensures var after := Step(w, e);
            && id in after.ops
            && (after.ops[id] == w.ops[id]
                || (w.ops[id].check in w.settled && after.ops[id].Sent? && w.vars.left == None)
                || (after.ops[id] == Done(TabLeft) && w.vars.left != None))
            && (id in after.sent ==> w.ops[id].check in w.settled && w.vars.left == None)
  {
  }

  /**
   * A call begun while a check was pending went out only if, at some moment of the run, that check was
   * over and the tab still went on.
   */
  lemma {:induction false} HeldCallWaits(w: World, events: seq<Event>, id: nat) returns (k: nat)
    requires Sound(w) && id in w.ops && w.ops[id].Held? && id in Run(w, events).sent
    ensures k < |events| && w.ops[id].check in Run(w, events[..k]).settled && Run(w, events[..k]).vars.left == None
    decreases |events|
  {
    var next := Step(w, events[0]);
    HeldStep(w, events[0], id);
    StepSound(w, events[0]);
    assert events[..0] == [];
    if next.ops[id] == w.ops[id] {
      var rest := HeldCallWaits(next, events[1..], id);
      k := rest + 1;
      assert events[..k][1..] == events[1..][..rest];
    } else if w.ops[id].check in w.settled && w.vars.left == None {
      k := 0;
    } else {
      StepStopped(w, events[0]);
      StoppedForGood(next, events[1..]);
      assert false;
    }
  }

  /** A check that ended never comes back, so no call is held twice. */
  lemma {:induction false} SettledForGood(w: World, events: seq<Event>, check: nat)
    requires Sound(w) && check in w.settled
    ensures check in Run(w, events).settled && Run(w, events).vars.checking != Some(check)
    decreases |events|
  {
    if events != [] {
      StepSound(w, events[0]);
      SettledForGood(Step(w, events[0]), events[1..], check);
    }
  }

  /** While the check is pending, the call stays where it is. */
  lemma {:induction false} HeldWhilePending(w: World, events: seq<Event>, id: nat)
    requires Sound(w) && id in w.ops && w.ops[id].Held?
    requires Run(w, events).vars.checking == Some(w.ops[id].check)
    ensures id in Run(w, events).ops && Run(w, events).ops[id] == w.ops[id] && id !in Run(w, events).sent
    decreases |events|
  {
    if events != [] {
      if w.ops[id].check in w.settled {
        SettledForGood(w, events, w.ops[id].check);
      }
      HeldStep(w, events[0], id);
      StepSound(w, events[0]);
      if Step(w, events[0]).ops[id] == w.ops[id] {
        HeldWhilePending(Step(w, events[0]), events[1..], id);
      } else {
        assert w.vars.left != None;
        StepStopped(w, events[0]);
        PendingResume(w, events[0], id);
      }
    }
  }

  lemma PendingResume(w: World, e: Event, id: nat)
    requires Sound(w) && id in w.ops && w.ops[id].Held? && w.ops[id].check !in w.settled
    ensures Step(w, e).ops[id] == w.ops[id]
  {
  }

  /** The answer of a check that stops the tab: another account, or a session that ended unseen. */
  ghost predicate Stops(w: World, check: nat, e: Event) {
    && check in w.ops && w.vars.checking == Some(check) && w.vars.left == None
    && ((w.ops[check].Arrived? && e == ReadBody(check) && Foreign(w.vars, true, w.ops[check].reply))
        || (w.ops[check] == Answered(Refused(401)) && e == JudgeCheck(check) && !w.vars.endSeen))
  }

  /** When the check finds another account, or a session that ended, no call it held is ever sent. */
  lemma HeldCallsDie(w: World, check: nat, e: Event, id: nat, events: seq<Event>)
    requires Sound(w) && Stops(w, check, e)
    requires id in w.ops && w.ops[id].Held? && w.ops[id].check == check
    ensures id !in Run(Step(w, e), events).sent
    ensures Run(Step(w, e), events).vars.left == Some(if e.ReadBody? then Changed else Ended)
  {
    assert id !in w.sent;
    assert Step(w, e).sent == w.sent;
    StoppedForGood(Step(w, e), events);
  }

  // ---- One account for a tab ------------------------------------------------------------------

  /** No sign-in and no sign-out of this tab is on its way or begun. */
  ghost predicate Settled(w: World) {
    forall id :: id in w.ops && (w.ops[id].Sent? || w.ops[id].Arrived?) ==>
      !w.ops[id].kind.Redeem? && !w.ops[id].kind.SignOut?
  }

  ghost predicate NoSignIn(events: seq<Event>) {
    forall i :: 0 <= i < |events| ==> events[i].Begin? ==> !events[i].kind.Redeem? && !events[i].kind.SignOut?
  }

  lemma OneAccountStep(w: World, e: Event, account: string)
    requires Settled(w) && (e.Begin? ==> !e.kind.Redeem? && !e.kind.SignOut?)
    requires w.vars.tabAccount == Some(account)
    ensures var after := Step(w, e);
            && Settled(after) && after.vars.tabAccount == w.vars.tabAccount
            && (after.delivered == w.delivered || after.delivered == w.delivered + [account])
  {
  }

  /**
   * Between its own sign-ins and sign-outs, a tab is of one account: every `/console/me` it gives to a
   * screen names the account it began with, whoever the browser is signed in as.
   */
  lemma {:induction false} OneAccount(w: World, events: seq<Event>, account: string)
    requires Settled(w) && NoSignIn(events) && w.vars.tabAccount == Some(account)
    ensures var after := Run(w, events);
            && after.vars.tabAccount == Some(account)
            && |w.delivered| <= |after.delivered| && after.delivered[..|w.delivered|] == w.delivered
            && forall i :: |w.delivered| <= i < |after.delivered| ==> after.delivered[i] == account
    decreases |events|
  {
    if events != [] {
      OneAccountStep(w, events[0], account);
      OneAccount(Step(w, events[0]), events[1..], account);
    }
  }

  // ---- What the tab draws at once -------------------------------------------------------------

  /** What the tab draws of its last `/console/me` is of the account the tab is of. */
  ghost predicate OwnMe(v: Vars) {
    KnownMe(v) != None ==> v.tabAccount == Some(KnownMe(v).value.account)
  }

  /** A sign-in in the tab itself that is answered while the tab knows somebody else. */
  ghost predicate StaleSignIn(w: World, e: Event) {
    && e.ReadBody? && e.id in w.ops && w.ops[e.id].Arrived? && w.ops[e.id].kind.Redeem? && Fine(w.ops[e.id].reply)
    && KnownMe(w.vars) != None
    && (w.ops[e.id].reply.me == None || w.ops[e.id].reply.me.value.account != KnownMe(w.vars).value.account)
  }

  lemma OwnMeStep(w: World, e: Event)
    requires OwnMe(w.vars)
    ensures OwnMe(Step(w, e).vars) <==> !StaleSignIn(w, e)
  {
  }

  /**
   * The tab draws its own account at every moment of a run exactly when no sign-in of the run is
   * answered while the tab knows somebody else: `redeemLink` changes the account, and not what it knows.
   */
  lemma OwnMeExactly(w: World, events: seq<Event>)
    requires OwnMe(w.vars)
    ensures (forall k :: 0 <= k <= |events| ==> OwnMe(Run(w, events[..k]).vars))
            <==> (forall k :: 0 <= k < |events| ==> !StaleSignIn(Run(w, events[..k]), events[k]))
    decreases |events|
  {
    forall k | 0 <= k < |events|
      ensures Run(w, events[..k + 1]) == Step(Run(w, events[..k]), events[k])
    {
      RunLast(w, events, k);
    }
    if forall k :: 0 <= k <= |events| ==> OwnMe(Run(w, events[..k]).vars) {
      forall k | 0 <= k < |events|
        ensures !StaleSignIn(Run(w, events[..k]), events[k])
      {
        OwnMeStep(Run(w, events[..k]), events[k]);
        assert OwnMe(Run(w, events[..k + 1]).vars);
      }
    }
    if forall k :: 0 <= k < |events| ==> !StaleSignIn(Run(w, events[..k]), events[k]) {
      var n := 0;
      assert events[..0] == [];
      while n < |events|
        invariant n <= |events|
        invariant forall k :: 0 <= k <= n ==> OwnMe(Run(w, events[..k]).vars)
      {
        OwnMeStep(Run(w, events[..n]), events[n]);
        n := n + 1;
      }
    }
  }

  lemma RunLast(w: World, events: seq<Event>, k: nat)
    requires k < |events|
    ensures Run(w, events[..k + 1]) == Step(Run(w, events[..k]), events[k])
  {
    assert events[..k + 1] == events[..k] + [events[k]];
    RunSplit(w, events[..k], [events[k]]);
    assert [events[k]][1..] == [];
  }

  /** Nobody known, and no `/console/me` on its way. */
  ghost predicate Blank(w: World) {
    && w.vars.lastMe == None
    && forall id :: id in w.ops ==>
         && (w.ops[id].Held? ==> !w.ops[id].me)
         && (w.ops[id].Sent? || w.ops[id].Arrived? ==>
               w.ops[id].kind != Check && !(w.ops[id].kind.Call? && w.ops[id].kind.me))
  }

  /** A sign-in of this tab is on its way, or its body is being read. */
  ghost predicate SigningIn(w: World) {
    exists id :: id in w.ops && (w.ops[id].Sent? || w.ops[id].Arrived?) && w.ops[id].kind.Redeem?
  }

  /** A sign-in is begun with nobody known and nobody asked for, and nobody is asked for until it is answered. */
  ghost predicate Careful(w: World, e: Event) {
    && (e == Begin(Redeem) ==> Blank(w))
    && (SigningIn(w) ==> e != CheckTab && !(e.BeginCall? && e.me))
  }

  lemma {:induction false} StaysBlank(w: World, e: Event)
    requires Blank(w) && e != CheckTab && !(e.BeginCall? && e.me)
    ensures Blank(Step(w, e))
  {
  }

  /** Only its own beginning puts a sign-in on its way. */
  lemma SignInBegins(w: World, e: Event)
    requires !SigningIn(w) && e != Begin(Redeem)
    ensures !SigningIn(Step(w, e))
  {
  }

  lemma CarefulStep(w: World, e: Event)
    requires OwnMe(w.vars) && (SigningIn(w) ==> Blank(w)) && Careful(w, e)
    ensures OwnMe(Step(w, e).vars) && (SigningIn(Step(w, e)) ==> Blank(Step(w, e)))
  {
    if SigningIn(w) || e == Begin(Redeem) {
      StaysBlank(w, e);
    } else {
      OwnMeStep(w, e);
      SignInBegins(w, e);
    }
  }

  /**
   * A tab whose sign-ins are careful draws its own account at every moment of the run, whatever it
   * calls before and after them, and whatever is answered.
   */
  lemma {:induction false} CarefulSignIns(events: seq<Event>)
    requires forall k :: 0 <= k < |events| ==> Careful(Run(FRESH, events[..k]), events[k])
    ensures forall k :: 0 <= k <= |events| ==> OwnMe(Run(FRESH, events[..k]).vars)
  {
    var n := 0;
    assert events[..0] == [];
    while n < |events|
      invariant n <= |events|
      invariant forall k :: 0 <= k <= n ==> OwnMe(Run(FRESH, events[..k]).vars)
      invariant var w := Run(FRESH, events[..n]); SigningIn(w) ==> Blank(w)
    {
      CarefulStep(Run(FRESH, events[..n]), events[n]);
      RunLast(FRESH, events, n);
      n := n + 1;
    }
  }

  /** Whatever a sign-in answers, the tab draws itself after it, exactly when it knows nobody by then. */
  lemma SafeToSignIn(v: Vars)
    requires OwnMe(v)
    ensures (forall reply :: OwnMe(SignedIn(v, reply))) <==> KnownMe(v) == None
  {
    var nobody := Reply(200, None);
    assert KnownMe(v) != None ==> !OwnMe(SignedIn(v, nobody));
  }

  const ANA := Reply(200, Some(Me("ana", [])))
  const BOB := Reply(200, Some(Me("bob", [])))

  /** Somebody known, before any sign-in. */
  lemma AnaKnown() returns (events: seq<Event>)
    ensures |events| == 3
    ensures Run(FRESH, events) == World(OPENED.(tabAccount := Some("ana"), lastMe := Some(Me("ana", []))),
                                        map[0 := Done(Data(Some(Me("ana", []))))], 1, [0], {}, ["ana"])
  {
    events := [BeginCall(true, false), Arrive(0, ANA), ReadBody(0)];
    RunThree(FRESH, events);
  }

  /** A sign-in over a known account: the tab is of Bob, and draws the rail of Ana. */
  lemma SignInOverKnown() returns (events: seq<Event>)
    ensures var v := Run(FRESH, events).vars;
            KnownMe(v) == Some(Me("ana", [])) && v.tabAccount == Some("bob") && !OwnMe(v)
  {
    var before := AnaKnown();
    var after := [Begin(Redeem), Arrive(1, BOB), ReadBody(1)];
    events := before + after;
    RunSplit(FRESH, before, after);
    RunThree(Run(FRESH, before), after);
  }

  /** Nobody known when the sign-in begins, and a read on its way, answered first. */
  lemma AnaOnHerWay() returns (events: seq<Event>)
    ensures |events| == 3 && events[1] == Begin(Redeem) && Run(FRESH, events[..1]).vars.lastMe == None
    ensures Run(FRESH, events)
         == World(OPENED, map[0 := Arrived(Call(true, false), ANA), 1 := Sent(Redeem)], 2, [0, 1], {}, [])
  {
    events := [BeginCall(true, false), Begin(Redeem), Arrive(0, ANA)];
    RunThree(FRESH, events);
    assert events[..1] == [BeginCall(true, false)] && events[..1][1..] == [];
  }

  /** Knowing nobody when the sign-in begins is not enough: the answer of a read asked before can come first. */
  lemma SignInWithReadOnItsWay() returns (events: seq<Event>)
    ensures |events| == 6 && events[1] == Begin(Redeem) && Run(FRESH, events[..1]).vars.lastMe == None
    ensures var v := Run(FRESH, events).vars;
            KnownMe(v) == Some(Me("ana", [])) && v.tabAccount == Some("bob") && !OwnMe(v)
  {
    var before := AnaOnHerWay();
    var after := [ReadBody(0), Arrive(1, BOB), ReadBody(1)];
    events := before + after;
    RunSplit(FRESH, before, after);
    RunThree(Run(FRESH, before), after);
    assert events[..1] == before[..1];
  }

  // ---- After a sign-out -----------------------------------------------------------------------

  ghost predicate OfNobody(v: Vars) {
    v.tabAccount == None && KnownMe(v) == None
  }

  /** The answer of such a request can name an account. */
  predicate MayName(kind: Kind) {
    kind.Check? || kind.Redeem? || (kind.Call? && kind.me)
  }

  /** An operation that can still make the tab of somebody. */
  predicate BringsBack(op: Op) {
    match op
    case Held(_, me, _) => me
    case Sent(kind) => MayName(kind)
    case Arrived(kind, reply) => MayName(kind) && Fine(reply) && reply.me != None
    case _ => false
  }

  ghost predicate SomebodyMayCome(w: World) {
    exists id :: id in w.ops && BringsBack(w.ops[id])
  }

  /** No call asks who is there, and no sign-in is begun. */
  ghost predicate NobodyAsks(events: seq<Event>) {
    forall i :: 0 <= i < |events| ==> !(events[i].BeginCall? && events[i].me) && events[i] != Begin(Redeem)
  }

  /** A check refused by the session, with no call that has seen it: the tab is about to stop. */
  predicate RefusedUnseen(w: World, check: nat) {
    && !w.vars.endSeen && check in w.ops
    && (w.ops[check] == Answered(Refused(401))
        || (w.ops[check].Arrived? && w.ops[check].kind.Check? && Unauthorized(w.ops[check].reply)))
  }

  lemma {:induction false} NobodyStep(w: World, e: Event)
    requires w.vars.tabAccount == None && w.vars.lastMe == None && !SomebodyMayCome(w) && NobodyAsks([e])
    ensures var after := Step(w, e);
            after.vars.tabAccount == None && after.vars.lastMe == None && !SomebodyMayCome(after)
  {
    assert [e][0] == e;
  }

  lemma {:induction false} NobodyComes(w: World, events: seq<Event>)
    requires w.vars.tabAccount == None && w.vars.lastMe == None && !SomebodyMayCome(w) && NobodyAsks(events)
    ensures OfNobody(Run(w, events).vars)
    decreases |events|
  {
    if events != [] {
      assert NobodyAsks([events[0]]);
      NobodyStep(w, events[0]);
      NobodyComes(Step(w, events[0]), events[1..]);
    }
  }

  /** What is left of a check before it is over. */
  function StepsLeft(op: Op): nat {
    match op case Arrived(_, _) => 3 case Answered(_) => 2 case Judged => 1 case _ => 0
  }

  /** The next event of a check that was answered. */
  function NextOf(check: nat, op: Op): Event {
    match op case Arrived(_, _) => ReadBody(check) case Answered(_) => JudgeCheck(check) case _ => EndCheck(check)
  }

  /** A check that was answered, and not by a refusal unseen, goes on to its end and stops nothing. */
  lemma CheckGoesOn(w: World, check: nat)
    requires Sound(w) && w.vars.left == None && OfNobody(w.vars) && !RefusedUnseen(w, check)
    requires check in w.ops && Pending(w.ops[check]) && !BringsBack(w.ops[check])
    ensures var after := Step(w, NextOf(check, w.ops[check]));
            && after.vars.left == None && OfNobody(after.vars) && !RefusedUnseen(after, check)
            && check in after.ops && StepsLeft(after.ops[check]) < StepsLeft(w.ops[check])
            && !BringsBack(after.ops[check])
            && forall id :: id in w.ops && id != check ==> id in after.ops && after.ops[id] == w.ops[id]
  {
  }

  lemma ArrivedComes(w: World, id: nat) returns (events: seq<Event>)
    requires w.vars.left == None && OfNobody(w.vars)
    requires id in w.ops && BringsBack(w.ops[id]) && w.ops[id].Arrived?
    ensures NobodyAsks(events) && !OfNobody(Run(w, events).vars)
  {
    events := [ReadBody(id)];
    assert events[1..] == [];
  }

  lemma FirstThen(w: World, e: Event, rest: seq<Event>)
    requires NobodyAsks([e]) && NobodyAsks(rest)
    ensures NobodyAsks([e] + rest) && Run(w, [e] + rest) == Run(Step(w, e), rest)
  {
    assert [e][0] == e && ([e] + rest)[1..] == rest;
  }

  lemma SentComes(w: World, id: nat) returns (events: seq<Event>)
    requires w.vars.left == None && OfNobody(w.vars)
    requires id in w.ops && BringsBack(w.ops[id]) && w.ops[id].Sent?
    ensures NobodyAsks(events) && !OfNobody(Run(w, events).vars)
  {
    var rest := ArrivedComes(Step(w, Arrive(id, ANA)), id);
    FirstThen(w, Arrive(id, ANA), rest);
    events := [Arrive(id, ANA)] + rest;
  }

  /** A call that was held is sent once its check is over, and that check goes on to its end. */
  lemma {:induction false} HeldComes(w: World, id: nat) returns (events: seq<Event>)
    requires Sound(w) && w.vars.left == None && OfNobody(w.vars)
    requires id in w.ops && w.ops[id].Held? && w.ops[id].me && !RefusedUnseen(w, w.ops[id].check)
    ensures NobodyAsks(events) && !OfNobody(Run(w, events).vars)
    decreases var check := w.ops[id].check; if check in w.ops then StepsLeft(w.ops[check]) else 0
  {
    var check := w.ops[id].check;
    var e := if check in w.settled then Resume(id) else NextOf(check, w.ops[check]);
    var rest: seq<Event>;
    if check in w.settled {
      rest := SentComes(Step(w, e), id);
    } else if w.ops[check].Sent? {
      events := SentComes(w, check);
      return;
    } else if BringsBack(w.ops[check]) {
      events := ArrivedComes(w, check);
      return;
    } else {
      CheckGoesOn(w, check);
      StepSound(w, e);
      rest := HeldComes(Step(w, e), id);
    }
    FirstThen(w, e, rest);
    events := [e] + rest;
  }

  /** An operation that can bring somebody back does, with the right answers. */
  lemma Comes(w: World, id: nat) returns (events: seq<Event>)
    requires Sound(w) && w.vars.left == None && OfNobody(w.vars)
    requires id in w.ops && BringsBack(w.ops[id]) && (w.ops[id].Held? ==> !RefusedUnseen(w, w.ops[id].check))
    ensures NobodyAsks(events) && !OfNobody(Run(w, events).vars)
  {
    match w.ops[id]
    case Arrived(_, _) => events := ArrivedComes(w, id);
    case Sent(_) => events := SentComes(w, id);
    case Held(_, _, _) => events := HeldComes(w, id);
  }

  /**
   * After a sign-out that the worker confirmed, the tab stays of nobody, whatever is answered and while
   * nobody asks who is there, exactly when no answer that can name an account was on its way. A call
   * held by a check that the session refused is left aside: that check stops the tab.
   */
  lemma {:induction false} SignedOutExactly(w: World, id: nat, reply: Reply)
    requires Sound(w) && w.vars.left == None
    requires forall k :: k in w.ops && w.ops[k].Held? && w.ops[k].me ==> !RefusedUnseen(w, w.ops[k].check)
    requires id in w.ops && w.ops[id] == Sent(SignOut) && Fine(reply)
    ensures (forall events :: NobodyAsks(events) ==> OfNobody(Run(Step(w, Arrive(id, reply)), events).vars))
            <==> !SomebodyMayCome(w)
  {
    var after := Step(w, Arrive(id, reply));
    assert forall k :: k in after.ops ==> k in w.ops && (k != id ==> after.ops[k] == w.ops[k]);
    if k :| k in w.ops && BringsBack(w.ops[k]) {
      StepSound(w, Arrive(id, reply));
      var events := Comes(after, k);
    } else {
      forall events | NobodyAsks(events)
        ensures OfNobody(Run(after, events).vars)
      {
        NobodyComes(after, events);
      }
    }
  }

  /** A read that arrived before the sign-out, and whose body is read after it, brings the account back. */
  lemma SignOutWithReadOnItsWay() returns (events: seq<Event>)
    ensures |events| == 5 && events[2] == Begin(SignOut) && events[3] == Arrive(1, Reply(200, None))
    ensures OfNobody(Run(FRESH, events[..4]).vars)
    ensures var v := Run(FRESH, events).vars; KnownMe(v) == Some(Me("ana", [])) && v.tabAccount == Some("ana")
  {
    events := [BeginCall(true, false), Arrive(0, ANA), Begin(SignOut), Arrive(1, Reply(200, None)), ReadBody(0)];
    RunThree(FRESH, events[..3]);
    RunLast(FRESH, events, 3);
    RunLast(FRESH, events, 4);
    assert events[..5] == events;
  }

  lemma RunThree(w: World, events: seq<Event>)
    requires |events| == 3
    ensures Run(w, events) == Step(Step(Step(w, events[0]), events[1]), events[2])
  {
    RunLast(w, events, 2);
    RunTwo(w, events[..2]);
    assert events[..3] == events;
  }

  lemma RunTwo(w: World, events: seq<Event>)
    requires |events| == 2
    ensures Run(w, events) == Step(Step(w, events[0]), events[1])
  {
    RunLast(w, events, 0);
    RunLast(w, events, 1);
    assert events[..0] == [] && events[..2] == events;
  }
}
