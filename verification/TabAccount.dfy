/**
 * The account a tab of the console is of, and how the tab stops when the browser changes account.
 * `Vars` are the variables of the module; each function is one piece of code that runs with no wait.
 */
module TabAccount {
  import opened Options

  datatype Left = Changed | Ended

  datatype Me = Me(account: string, workspaces: seq<string>)

  /** What came back for a request. `account`: the id of the account its body names, when it names one. */
  datatype Reply = Unreachable | Reply(status: nat, me: Option<Me>)

  predicate Fine(reply: Reply) {
    reply.Reply? && 200 <= reply.status < 300
  }

  predicate Unauthorized(reply: Reply) {
    reply.Reply? && reply.status == 401
  }

  /** What a call answers. `TabLeft`: the tab stopped, and nothing was read of any answer. */
  datatype Answer = Data(me: Option<Me>) | Refused(status: nat) | TabLeft

  datatype Vars = Vars(
    tabAccount: Option<string>,
    lastMe: Option<Me>,
    left: Option<Left>,
    endSeen: bool,
    checking: Option<nat>,
    told: seq<Left>)

  const OPENED := Vars(None, None, None, false, None, [])

  function KnownMe(v: Vars): Option<Me> {
    if v.left == None then v.lastMe else None
  }

  function Leave(v: Vars, why: Left): Vars {
    if v.left != None then v else v.(left := Some(why), lastMe := None, told := v.told + [why])
  }

  /** Whether `checkTab` asks: the tab is of somebody, runs, and no question is on its way. */
  predicate Asks(v: Vars) {
    v.tabAccount != None && v.left == None && v.checking == None
  }

  /** The status of an answer, before its body is read. */
  function Hear(v: Vars, reply: Reply, quiet: bool): Vars {
    if !Unauthorized(reply) then v
    else if quiet then v.(lastMe := None)
    else v.(lastMe := None, endSeen := true)
  }

  function AnswerOf(reply: Reply): Answer {
    if reply.Unreachable? then Refused(0)
    else if Fine(reply) then Data(reply.me)
    else Refused(reply.status)
  }

  /** Whether an answer to `GET /console/me` names another account than the tab's. */
  predicate Foreign(v: Vars, me: bool, reply: Reply) {
    me && Fine(reply) && reply.me != None && v.tabAccount != None && v.tabAccount != Some(reply.me.value.account)
  }

  /** The body of an answer; `me`: it answers `GET /console/me`. */
  function Read(v: Vars, me: bool, reply: Reply): (r: (Vars, Answer))
    ensures me && r.1.Data? && r.1.me != None ==> r.0.tabAccount == Some(r.1.me.value.account) && r.0.left == v.left
    ensures Foreign(v, me, reply) ==> r.1 == TabLeft && r.0.left != None
  {
    if Foreign(v, me, reply) then (Leave(v, Changed), TabLeft)
    else if me && Fine(reply) && reply.me != None then
      (v.(tabAccount := Some(reply.me.value.account), endSeen := false, lastMe := reply.me), Data(reply.me))
    else (v, AnswerOf(reply))
  }

  /** What `checkTab` makes of its answer. */
  function Judge(v: Vars, answer: Answer): Vars {
    if answer == Refused(401) && !v.endSeen then Leave(v, Ended) else v
  }

  function SignedIn(v: Vars, reply: Reply): Vars {
    if !Fine(reply) then v
    else v.(tabAccount := if reply.me == None then None else Some(reply.me.value.account), endSeen := false)
  }

  function SignedOut(v: Vars, reply: Reply): Vars {
    if Fine(reply) then v.(tabAccount := None, lastMe := None) else v
  }

  /** The variables themselves, changed in place. */
  class Tab {
    var tabAccount: Option<string>
    var lastMe: Option<Me>
    var left: Option<Left>
    var endSeen: bool
    var checking: Option<nat>
    var told: seq<Left>

    ghost function Now(): Vars
      reads this
    {
      Vars(tabAccount, lastMe, left, endSeen, checking, told)
    }

    constructor ()
      ensures Now() == OPENED
    {
      tabAccount, lastMe, left, endSeen, checking, told := None, None, None, false, None, [];
    }

    method Known() returns (me: Option<Me>)
      ensures me == KnownMe(Now())
    {
      me := if left == None then lastMe else None;
    }

    method Stop(why: Left)
      modifies this
      ensures Now() == Leave(old(Now()), why)
    {
      if left != None {
        return;
      }
      left := Some(why);
      lastMe := None;
      told := told + [why];
    }

    /** `request`: the id of the question, if one is asked. */
    method Check(request: nat) returns (asked: bool)
      modifies this
      ensures asked == old(Asks(Now()))
      ensures Now() == if asked then old(Now()).(checking := Some(request)) else old(Now())
    {
      asked := false;
      if tabAccount == None || left != None {
        return;
      }
      if checking == None {
        checking := Some(request);
        asked := true;
      }
    }

    method HearStatus(reply: Reply, quiet: bool)
      modifies this
      ensures Now() == Hear(old(Now()), reply, quiet)
    {
      if Unauthorized(reply) {
        lastMe := None;
      }
      if Unauthorized(reply) && !quiet {
        endSeen := true;
      }
    }

    method ReadBody(me: bool, reply: Reply) returns (answer: Answer)
      modifies this
      ensures (Now(), answer) == Read(old(Now()), me, reply)
    {
      answer := AnswerOf(reply);
      if me && answer.Data? && answer.me != None {
        var id := answer.me.value.account;
        if tabAccount != None && tabAccount != Some(id) {
          Stop(Changed);
          return TabLeft;
        }
        tabAccount := Some(id);
        endSeen := false;
        lastMe := answer.me;
      }
    }

    method JudgeCheck(answer: Answer)
      modifies this
      ensures Now() == Judge(old(Now()), answer)
    {
      if answer == Refused(401) && !endSeen {
        Stop(Ended);
      }
    }

    method EndCheck()
      modifies this
      ensures Now() == old(Now()).(checking := None)
    {
      checking := None;
    }

    method Redeemed(reply: Reply)
      modifies this
      ensures Now() == SignedIn(old(Now()), reply)
    {
      if Fine(reply) {
        tabAccount := match reply.me case None => None case Some(me) => Some(me.account);
        endSeen := false;
      }
    }

    method SignOutAnswered(reply: Reply) returns (out: bool)
      modifies this
      ensures out == Fine(reply) && Now() == SignedOut(old(Now()), reply)
    {
      out := Fine(reply);
      if out {
        tabAccount := None;
        lastMe := None;
      }
    }
  }
}
