/**
 * What a tab knows, who it is of and why it stopped, told from the events of its run alone; and what
 * becomes of each of its calls.
 */
module TabHistory {
  import opened Options
  import opened TabAccount
  import opened TabProtocol

  predicate AsksWho(kind: Kind) {
    kind.Check? || (kind.Call? && kind.me)
  }

  predicate Good(reply: Reply) {
    reply.Reply? && 200 <= reply.status <= 299
  }

  /** The body of a good answer to `GET /console/me` is read, and names an account. */
  predicate Reads(w: World, e: Event, me: Me) {
    && e.ReadBody? && e.id in w.ops && w.ops[e.id].Arrived? && AsksWho(w.ops[e.id].kind)
    && Good(w.ops[e.id].reply) && w.ops[e.id].reply.me == Some(me)
  }

  /** It is of the account of the tab, or of the first one the tab hears of. */
  predicate NamesTab(w: World, e: Event, me: Me) {
    Reads(w, e, me) && (w.vars.tabAccount == None || w.vars.tabAccount == Some(me.account))
  }

  predicate NamesOther(w: World, e: Event, me: Me) {
    Reads(w, e, me) && w.vars.tabAccount != None && w.vars.tabAccount != Some(me.account)
  }

  /** The session is refused to a call, or to a check. */
  predicate Refuses(w: World, e: Event) {
    && e.Arrive? && e.id in w.ops && w.ops[e.id].Sent? && (w.ops[e.id].kind.Call? || w.ops[e.id].kind.Check?)
    && e.reply.Reply? && e.reply.status == 401
  }

  /** It is refused to a call that says so on the screen. */
  predicate RefusesAloud(w: World, e: Event) {
    Refuses(w, e) && w.ops[e.id].kind.Call? && !w.ops[e.id].kind.quiet
  }

  predicate SignsIn(w: World, e: Event) {
    e.ReadBody? && e.id in w.ops && w.ops[e.id].Arrived? && w.ops[e.id].kind.Redeem? && Good(w.ops[e.id].reply)
  }

  predicate SignsOut(w: World, e: Event) {
    e.Arrive? && e.id in w.ops && w.ops[e.id].Sent? && w.ops[e.id].kind.SignOut? && Good(e.reply)
  }

  /** A check was refused by a session whose end no call had seen. */
  predicate FindsEnd(w: World, e: Event) {
    e.JudgeCheck? && e.id in w.ops && w.ops[e.id] == Answered(Refused(401)) && !w.vars.endSeen
  }

  ghost predicate NamesSome(w: World, e: Event) {
    exists me :: NamesTab(w, e, me)
  }

  ghost predicate NamesAnother(w: World, e: Event) {
    exists me :: NamesOther(w, e, me)
  }

  ghost predicate Stop(w: World, e: Event, why: Left) {
    (why == Changed && NamesAnother(w, e)) || (why == Ended && FindsEnd(w, e))
  }

  ghost predicate AnyStop(w: World, e: Event) {
    NamesAnother(w, e) || FindsEnd(w, e)
  }

  /** The account of an answer, if it names one. */
  function AccountIn(reply: Reply): Option<string> {
    if reply.Reply? && reply.me != None then Some(reply.me.value.account) else None
  }

  // ---- One event ------------------------------------------------------------------------------

  lemma {:induction false} OneReads(w: World, e: Event, me: Me, other: Me)
    requires Reads(w, e, me) && Reads(w, e, other)
    ensures me == other
  {
  }

  lemma {:induction false} NamesStep(w: World, e: Event, me: Me)
    requires NamesTab(w, e, me)
    ensures var v := Step(w, e).vars;
            && v.lastMe == Some(me) && v.tabAccount == Some(me.account) && !v.endSeen && v.left == w.vars.left
  {
  }

  lemma {:induction false} OtherStep(w: World, e: Event, me: Me)
    requires NamesOther(w, e, me)
    ensures var v := Step(w, e).vars;
            && v.endSeen == w.vars.endSeen && v.tabAccount == w.vars.tabAccount
            && (w.vars.left == None ==> v.left == Some(Changed) && v.lastMe == None)
            && (w.vars.left != None ==> v.left == w.vars.left && v.lastMe == w.vars.lastMe)
  {
  }

  lemma {:induction false} RefusedStep(w: World, e: Event)
    requires Refuses(w, e)
    ensures var v := Step(w, e).vars;
            && v.lastMe == None && v.endSeen == (w.vars.endSeen || RefusesAloud(w, e))
            && v.left == w.vars.left && v.tabAccount == w.vars.tabAccount
  {
  }

  lemma {:induction false} SignStep(w: World, e: Event)
    requires SignsIn(w, e) || SignsOut(w, e)
    ensures var v := Step(w, e).vars;
            && v.left == w.vars.left
            && (SignsIn(w, e) ==> v.lastMe == w.vars.lastMe && !v.endSeen
                                  && v.tabAccount == AccountIn(w.ops[e.id].reply))
            && (SignsOut(w, e) ==> v.lastMe == None && v.endSeen == w.vars.endSeen && v.tabAccount == None)
  {
  }

  lemma {:induction false} EndStep(w: World, e: Event)
    requires FindsEnd(w, e)
    ensures var v := Step(w, e).vars;
            && v.endSeen == w.vars.endSeen && v.tabAccount == w.vars.tabAccount
            && (w.vars.left == None ==> v.left == Some(Ended) && v.lastMe == None)
            && (w.vars.left != None ==> v.left == w.vars.left && v.lastMe == w.vars.lastMe)
  {
  }

  /** Nothing else changes any of them. */
  lemma {:induction false} QuietStep(w: World, e: Event)
    requires !NamesSome(w, e) && !NamesAnother(w, e) && !Refuses(w, e)
    requires !SignsIn(w, e) && !SignsOut(w, e) && !FindsEnd(w, e)
    ensures var v := Step(w, e).vars;
            && v.lastMe == w.vars.lastMe && v.left == w.vars.left
            && v.endSeen == w.vars.endSeen && v.tabAccount == w.vars.tabAccount
  {
    if e.ReadBody? && e.id in w.ops && w.ops[e.id].Arrived? && w.ops[e.id].reply.Reply?
       && w.ops[e.id].reply.me != None {
      var me := w.ops[e.id].reply.me.value;
      assert !NamesTab(w, e, me) && !NamesOther(w, e, me);
    }
  }

  /** What one event does to what the tab knows, is of, has seen and stopped for. */
  lemma {:induction false} StepMeans(w: World, e: Event)
    ensures var v, after := w.vars, Step(w, e).vars;
            && (forall me :: NamesTab(w, e, me) ==> after.lastMe == Some(me) && after.tabAccount == Some(me.account))
            && (!NamesSome(w, e) && (Refuses(w, e) || SignsOut(w, e)) ==> after.lastMe == None)
            && (AnyStop(w, e) && v.left == None ==> after.lastMe == None)
            && (!NamesSome(w, e) && !Refuses(w, e) && !SignsOut(w, e) && !(AnyStop(w, e) && v.left == None) ==>
                  after.lastMe == v.lastMe)
            && after.endSeen == (RefusesAloud(w, e) || (v.endSeen && !NamesSome(w, e) && !SignsIn(w, e)))
            && (v.left != None ==> after.left == v.left)
            && (v.left == None ==> forall why :: after.left == Some(why) <==> Stop(w, e, why))
            && (SignsIn(w, e) ==> after.tabAccount == AccountIn(w.ops[e.id].reply))
            && (SignsOut(w, e) ==> after.tabAccount == None)
            && (!NamesSome(w, e) && !SignsIn(w, e) && !SignsOut(w, e) ==> after.tabAccount == v.tabAccount)
  {
    if me :| NamesTab(w, e, me) {
      NamesStep(w, e, me);
      forall other | Reads(w, e, other)
        ensures other == me
      {
        OneReads(w, e, me, other);
      }
    } else if me :| NamesOther(w, e, me) {
      OtherStep(w, e, me);
    } else if Refuses(w, e) {
      RefusedStep(w, e);
    } else if SignsIn(w, e) || SignsOut(w, e) {
      SignStep(w, e);
    } else if FindsEnd(w, e) {
      EndStep(w, e);
    } else {
      QuietStep(w, e);
    }
  }

  // ---- A whole run ----------------------------------------------------------------------------

  /** The world before the event `k` of a run. */
  function At(events: seq<Event>, k: nat): World
    requires k <= |events|
  {
    Run(FRESH, events[..k])
  }

  lemma {:induction false} AtNext(events: seq<Event>, k: nat)
    requires k < |events|
    ensures At(events, k + 1) == Step(At(events, k), events[k])
  {
    RunLast(FRESH, events, k);
  }

  /** The first event of the run that stops a tab. */
  ghost predicate FirstStop(events: seq<Event>, k: nat, why: Left) {
    k < |events| && Stop(At(events, k), events[k], why) && forall j :: 0 <= j < k ==> !AnyStop(At(events, j), events[j])
  }

  ghost predicate NoStop(events: seq<Event>, n: nat)
    requires n <= |events|
  {
    forall j :: 0 <= j < n ==> !AnyStop(At(events, j), events[j])
  }

  lemma {:induction false} LeftAt(events: seq<Event>, n: nat, why: Left)
    requires n <= |events|
    ensures At(events, n).vars.left == Some(why) <==> exists k :: 0 <= k < n && FirstStop(events, k, why)
    ensures At(events, n).vars.left == None <==> NoStop(events, n)
  {
    if n == 0 {
      assert events[..0] == [];
    } else {
      var m: nat := n - 1;
      var w, e := At(events, m), events[m];
      LeftAt(events, m, why);
      AtNext(events, m);
      StepMeans(w, e);
      assert AnyStop(w, e) <==> Stop(w, e, Changed) || Stop(w, e, Ended);
      assert NoStop(events, n) <==> NoStop(events, m) && !AnyStop(w, e);
      assert FirstStop(events, m, why) <==> NoStop(events, m) && Stop(w, e, why);
    }
  }

  /** A tab stopped for the reason of the first event of its run that stops a tab, and for no other. */
  lemma {:induction false} StoppedExactly(events: seq<Event>, why: Left)
    ensures Run(FRESH, events).vars.left == Some(why) <==> exists k :: FirstStop(events, k, why)
  {
    LeftAt(events, |events|, why);
    assert events[..|events|] == events;
  }

  /** The tab is told of an account, and nothing makes it forget after that. */
  ghost predicate KnownSince(events: seq<Event>, k: nat, n: nat, me: Me)
    requires n <= |events|
  {
    && k < n && NamesTab(At(events, k), events[k], me)
    && forall j :: k < j < n ==>
         && !NamesSome(At(events, j), events[j])
         && !Refuses(At(events, j), events[j]) && !SignsOut(At(events, j), events[j])
  }

  lemma {:induction false} LastMeAt(events: seq<Event>, n: nat, me: Me)
    requires n <= |events| && NoStop(events, n)
    ensures At(events, n).vars.lastMe == Some(me) <==> exists k :: KnownSince(events, k, n, me)
  {
    if n == 0 {
      assert events[..0] == [];
    } else {
      var m: nat := n - 1;
      var w, e := At(events, m), events[m];
      LastMeAt(events, m, me);
      AtNext(events, m);
      StepMeans(w, e);
      if NamesTab(w, e, me) {
        assert KnownSince(events, m, n, me);
      }
      if !NamesSome(w, e) && !Refuses(w, e) && !SignsOut(w, e) && exists k :: KnownSince(events, k, m, me) {
        var k :| KnownSince(events, k, m, me);
        assert KnownSince(events, k, n, me);
      }
      if k: nat :| KnownSince(events, k, n, me) && k < m {
        assert KnownSince(events, k, m, me);
      }
    }
  }

  /**
   * What a tab draws at once is the last good answer about its account, exactly as long as it was not
   * stopped, and no `401` and no sign-out came after that answer was read.
   */
  lemma {:induction false} KnownMeExactly(events: seq<Event>, me: Me)
    ensures KnownMe(Run(FRESH, events).vars) == Some(me) <==>
              NoStop(events, |events|) && exists k :: KnownSince(events, k, |events|, me)
  {
    assert events[..|events|] == events;
    LeftAt(events, |events|, Changed);
    if NoStop(events, |events|) {
      LastMeAt(events, |events|, me);
    }
  }

  /** A call saw the end of the session, and neither a sign-in nor an answer about the account came after. */
  ghost predicate EndSince(events: seq<Event>, k: nat, n: nat)
    requires n <= |events|
  {
    && k < n && RefusesAloud(At(events, k), events[k])
    && forall j :: k < j < n ==> !NamesSome(At(events, j), events[j]) && !SignsIn(At(events, j), events[j])
  }

  lemma {:induction false} EndSeenAt(events: seq<Event>, n: nat)
    requires n <= |events|
    ensures At(events, n).vars.endSeen <==> exists k :: EndSince(events, k, n)
  {
    if n == 0 {
      assert events[..0] == [];
    } else {
      var m: nat := n - 1;
      var w, e := At(events, m), events[m];
      EndSeenAt(events, m);
      AtNext(events, m);
      StepMeans(w, e);
      if RefusesAloud(w, e) {
        assert EndSince(events, m, n);
      }
      if !NamesSome(w, e) && !SignsIn(w, e) && exists k :: EndSince(events, k, m) {
        var k :| EndSince(events, k, m);
        assert EndSince(events, k, n);
      }
      if k: nat :| EndSince(events, k, n) && k < m {
        assert EndSince(events, k, m);
      }
    }
  }

  /** The end was seen exactly when a call that is not quiet was refused, and nobody signed in or was named since. */
  lemma {:induction false} EndSeenExactly(events: seq<Event>)
    ensures Run(FRESH, events).vars.endSeen <==> exists k :: EndSince(events, k, |events|)
  {
    assert events[..|events|] == events;
    EndSeenAt(events, |events|);
  }

  ghost predicate SetsAccount(w: World, e: Event) {
    NamesSome(w, e) || SignsIn(w, e) || SignsOut(w, e)
  }

  ghost predicate SetsTo(w: World, e: Event, account: string) {
    || (exists me :: NamesTab(w, e, me) && me.account == account)
    || (SignsIn(w, e) && AccountIn(w.ops[e.id].reply) == Some(account))
  }

  ghost predicate OfSince(events: seq<Event>, k: nat, n: nat, account: string)
    requires n <= |events|
  {
    && k < n && SetsTo(At(events, k), events[k], account)
    && forall j :: k < j < n ==> !SetsAccount(At(events, j), events[j])
  }

  lemma {:induction false} SetStep(w: World, e: Event, account: string)
    ensures SetsTo(w, e, account) ==> Step(w, e).vars.tabAccount == Some(account)
    ensures SetsAccount(w, e) && Step(w, e).vars.tabAccount == Some(account) ==> SetsTo(w, e, account)
    ensures !SetsAccount(w, e) ==> Step(w, e).vars.tabAccount == w.vars.tabAccount
  {
    StepMeans(w, e);
  }

  lemma {:induction false} AccountAt(events: seq<Event>, n: nat, account: string)
    requires n <= |events|
    ensures At(events, n).vars.tabAccount == Some(account) <==> exists k :: OfSince(events, k, n, account)
  {
    if n == 0 {
      assert events[..0] == [];
    } else {
      var m: nat := n - 1;
      var w, e := At(events, m), events[m];
      AccountAt(events, m, account);
      AtNext(events, m);
      SetStep(w, e, account);
      if SetsTo(w, e, account) {
        assert OfSince(events, m, n, account);
      }
      if !SetsAccount(w, e) && exists k :: OfSince(events, k, m, account) {
        var k :| OfSince(events, k, m, account);
        assert OfSince(events, k, n, account);
      }
      if k: nat :| OfSince(events, k, n, account) && k < m {
        assert OfSince(events, k, m, account);
      }
    }
  }

  /** A tab is of the account that the last sign-in, sign-out or answer about it left it with. */
  lemma {:induction false} AccountExactly(events: seq<Event>, account: string)
    ensures Run(FRESH, events).vars.tabAccount == Some(account) <==>
              exists k :: OfSince(events, k, |events|, account)
  {
    assert events[..|events|] == events;
    AccountAt(events, |events|, account);
  }

  // ---- After a `401` --------------------------------------------------------------------------

  /** Nothing is known until a good answer names the account. */
  lemma {:induction false} UnknownUntilNamed(w: World, events: seq<Event>)
    requires KnownMe(w.vars) == None
    requires forall k :: 0 <= k < |events| ==> !NamesSome(Run(w, events[..k]), events[k])
    ensures KnownMe(Run(w, events).vars) == None
    decreases |events|
  {
    if events != [] {
      assert events[..0] == [];
      StepMeans(w, events[0]);
      LaterMoments(w, events);
      UnknownUntilNamed(Step(w, events[0]), events[1..]);
    }
  }

  lemma {:induction false} LaterMoments(w: World, events: seq<Event>)
    requires events != []
    ensures forall k :: 0 <= k < |events| - 1 ==>
              Run(Step(w, events[0]), events[1..][..k]) == Run(w, events[..k + 1]) && events[1..][k] == events[k + 1]
  {
    forall k | 0 <= k < |events| - 1
      ensures Run(Step(w, events[0]), events[1..][..k]) == Run(w, events[..k + 1])
    {
      assert events[..k + 1][1..] == events[1..][..k];
    }
  }

  /** A `401` is forgetting, for any call and any check, until a good answer names the account again. */
  lemma {:induction false} RefusedForgets(w: World, e: Event, events: seq<Event>)
    requires Refuses(w, e)
    requires forall k :: 0 <= k < |events| ==> !NamesSome(Run(Step(w, e), events[..k]), events[k])
    ensures KnownMe(Run(Step(w, e), events).vars) == None
    ensures Step(w, e).vars.endSeen == (w.vars.endSeen || (w.ops[e.id].kind.Call? && !w.ops[e.id].kind.quiet))
  {
    RefusedStep(w, e);
    UnknownUntilNamed(Step(w, e), events);
  }

  lemma {:induction false} SeenUntilSignIn(w: World, events: seq<Event>)
    requires w.vars.endSeen && w.vars.left != Some(Ended)
    requires forall k :: 0 <= k < |events| ==>
               !NamesSome(Run(w, events[..k]), events[k]) && !SignsIn(Run(w, events[..k]), events[k])
    ensures Run(w, events).vars.endSeen && Run(w, events).vars.left != Some(Ended)
    decreases |events|
  {
    if events != [] {
      assert events[..0] == [];
      StepMeans(w, events[0]);
      LaterMoments(w, events);
      SeenUntilSignIn(Step(w, events[0]), events[1..]);
    }
  }

  /** Once a call that is not quiet was refused, no check stops the tab for the end of the session until a sign-in. */
  lemma {:induction false} SeenEndStopsNothing(w: World, e: Event, events: seq<Event>)
    requires RefusesAloud(w, e) && w.vars.left != Some(Ended)
    requires forall k :: 0 <= k < |events| ==>
               && !NamesSome(Run(Step(w, e), events[..k]), events[k])
               && !SignsIn(Run(Step(w, e), events[..k]), events[k])
    ensures Run(Step(w, e), events).vars.left != Some(Ended)
  {
    RefusedStep(w, e);
    SeenUntilSignIn(Step(w, e), events);
  }

  // ---- What becomes of a call -----------------------------------------------------------------

  /** The operation that an event moves. */
  predicate Moves(e: Event, id: nat) {
    match e
    case Resume(other) => other == id
    case Arrive(other, _) => other == id
    case ReadBody(other) => other == id
    case JudgeCheck(other) => other == id
    case EndCheck(other) => other == id
    case _ => false
  }

  lemma {:induction false} StaysStep(w: World, e: Event, id: nat)
    requires id in w.ops && id < w.next && !Moves(e, id)
    ensures var after := Step(w, e); id in after.ops && id < after.next && after.ops[id] == w.ops[id]
  {
  }

  /** Only its own events move an operation, whatever else happens. */
  lemma {:induction false} MovesAlone(w: World, events: seq<Event>, id: nat)
    requires id in w.ops && id < w.next && forall k :: 0 <= k < |events| ==> !Moves(events[k], id)
    ensures var after := Run(w, events); id in after.ops && id < after.next && after.ops[id] == w.ops[id]
    decreases |events|
  {
    if events != [] {
      StaysStep(w, events[0], id);
      MovesAlone(Step(w, events[0]), events[1..], id);
    }
  }

  /** What a request answers, from what came back and the account of the tab. */
  ghost predicate Gives(kind: Kind, reply: Reply, account: Option<string>, answer: Answer) {
    if reply.Unreachable? then answer == Refused(0)
    else if !(200 <= reply.status <= 299) then answer == Refused(reply.status)
    else if AsksWho(kind) && reply.me != None && account != None && account != Some(reply.me.value.account)
    then answer == TabLeft
    else answer == Data(reply.me)
  }

  lemma {:induction false} CallBegins(w: World, me: bool, quiet: bool)
    ensures var after := Step(w, BeginCall(me, quiet));
            && w.next in after.ops && after.next == w.next + 1
            && (w.vars.checking == None && w.vars.left == None ==>
                  after.ops[w.next] == Sent(Call(me, quiet)) && after.sent == w.sent + [w.next])
            && (w.vars.checking == None && w.vars.left != None ==> after.ops[w.next] == Done(TabLeft))
            && (w.vars.checking != None ==> after.ops[w.next] == Held(w.vars.checking.value, me, quiet))
            && (w.vars.checking != None || w.vars.left != None ==> after.sent == w.sent)
            && after.vars == w.vars
  {
  }

  /** A held call is sent once its check is over, of a tab that goes on; in one that stopped it is over too. */
  lemma {:induction false} HeldGoes(w: World, id: nat)
    requires id in w.ops && w.ops[id].Held? && w.ops[id].check in w.settled
    ensures var after := Step(w, Resume(id));
            && id in after.ops
            && (w.vars.left == None ==>
                  after.ops[id] == Sent(Call(w.ops[id].me, w.ops[id].quiet)) && after.sent == w.sent + [id])
            && (w.vars.left != None ==> after.ops[id] == Done(TabLeft) && after.sent == w.sent)
  {
  }

  /** A check is sent exactly for a tab of somebody that goes on, with none pending; else nothing happens. */
  lemma {:induction false} CheckAsks(w: World)
    ensures var after := Step(w, CheckTab);
            if w.vars.tabAccount != None && w.vars.left == None && w.vars.checking == None
            then && after.ops == w.ops[w.next := Sent(Check)] && after.sent == w.sent + [w.next]
                 && after.vars == w.vars.(checking := Some(w.next)) && after.next == w.next + 1
            else after == w
  {
  }

  lemma {:induction false} BodyRead(w: World, id: nat, kind: Kind, reply: Reply)
    requires id in w.ops && w.ops[id] == Arrived(kind, reply) && kind.Call?
    ensures var after := Step(w, ReadBody(id));
            && id in after.ops && after.ops[id].Done?
            && Gives(kind, reply, w.vars.tabAccount, after.ops[id].answer)
            && after.delivered == w.delivered + (if kind.me && after.ops[id].answer.Data? && reply.me != None
                                                 then [reply.me.value.account] else [])
  {
  }

  /** The body of a check says what it will be judged by. */
  lemma {:induction false} CheckRead(w: World, id: nat, reply: Reply)
    requires id in w.ops && w.ops[id] == Arrived(Check, reply)
    ensures var after := Step(w, ReadBody(id));
            id in after.ops && after.ops[id].Answered? && Gives(Check, reply, w.vars.tabAccount, after.ops[id].answer)
  {
  }

  lemma {:induction false} RunOn(w: World, a: seq<Event>, e: Event)
    ensures Run(w, a + [e]) == Step(Run(w, a), e)
  {
    RunSplit(w, a, [e]);
    assert [e][1..] == [];
  }

  /**
   * Whatever happens in between, a call of a tab that goes on, with no check pending, is sent, and
   * answers what came back for it; the tab's own account decides whether it may be read.
   */
  lemma {:induction false} CallGoesThrough(w: World, me: bool, quiet: bool, before: seq<Event>, reply: Reply,
                                           between: seq<Event>)
    requires w.vars.checking == None && w.vars.left == None
    requires forall k :: 0 <= k < |before| ==> !Moves(before[k], w.next)
    requires forall k :: 0 <= k < |between| ==> !Moves(between[k], w.next)
    ensures var arrived := Run(Step(Run(Step(w, BeginCall(me, quiet)), before), Arrive(w.next, reply)), between);
            var after := Step(arrived, ReadBody(w.next));
            && w.next in after.ops && after.ops[w.next].Done?
            && Gives(Call(me, quiet), reply, arrived.vars.tabAccount, after.ops[w.next].answer)
  {
    var begun := Step(w, BeginCall(me, quiet));
    CallBegins(w, me, quiet);
    MovesAlone(begun, before, w.next);
    var heard := Step(Run(begun, before), Arrive(w.next, reply));
    assert heard.ops[w.next] == Arrived(Call(me, quiet), reply);
    MovesAlone(heard, between, w.next);
    BodyRead(Run(heard, between), w.next, Call(me, quiet), reply);
  }

  /** A link, a sign-in and a sign-out leave at once, of a tab that goes on. */
  lemma {:induction false} RequestBegins(w: World, kind: Kind)
    requires kind.Link? || kind.Redeem? || kind.SignOut?
    ensures var after := Step(w, Begin(kind));
            && w.next in after.ops && after.next == w.next + 1 && after.vars == w.vars
            && (w.vars.left == None ==> after.ops[w.next] == Sent(kind) && after.sent == w.sent + [w.next])
            && (w.vars.left != None ==> after.ops[w.next] == Done(TabLeft) && after.sent == w.sent)
  {
  }

  /** They answer what came back: a link and a sign-out by its status, a sign-in once its body is read. */
  lemma {:induction false} RequestAnswered(w: World, id: nat, kind: Kind, reply: Reply)
    requires id in w.ops && (kind.Link? || kind.Redeem? || kind.SignOut?)
    requires w.ops[id] == if kind.Redeem? then Arrived(kind, reply) else Sent(kind)
    ensures var after := Step(w, if kind.Redeem? then ReadBody(id) else Arrive(id, reply));
            id in after.ops && after.ops[id].Done? && Gives(kind, reply, None, after.ops[id].answer)
  {
  }

  /** A check that arrived is read, judged and ended, each by its own event, and then none is pending. */
  lemma {:induction false} CheckEnds(w: World, id: nat, reply: Reply)
    requires id in w.ops
    ensures w.ops[id] == Sent(Check) ==>
              id in Step(w, Arrive(id, reply)).ops && Step(w, Arrive(id, reply)).ops[id] == Arrived(Check, reply)
    ensures w.ops[id].Answered? ==> id in Step(w, JudgeCheck(id)).ops && Step(w, JudgeCheck(id)).ops[id] == Judged
    ensures w.ops[id] == Judged ==>
              var after := Step(w, EndCheck(id));
              && id in after.ops && after.ops[id].Done?
              && after.vars == w.vars.(checking := None) && after.settled == w.settled + {id}
  {
  }
}
