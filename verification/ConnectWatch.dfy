/**
 * The watch of a page for a browser that connects: it reads while its tab is shown, until one did.
 * `Vars` are the variables of one watch; each function is one piece of code that runs with no wait.
 */
module ConnectWatch {
  import opened Options

  /** `connectedAt` in milliseconds; absent when the text of the worker is no date. */
  datatype Browser = Browser(id: string, connectedAt: Option<int>)

  const CLOCK_MARGIN_MS: int := 2 * 60000

  /** What a read answered; absent when it was refused or failed. */
  type Answer = Option<seq<Browser>>

  function Ids(browsers: seq<Browser>): set<string> {
    set browser | browser in browsers :: browser.id
  }

  /** Whether a browser connected since the page opened, as far as the page can tell. */
  predicate IsNew(browser: Browser, known: Option<set<string>>, openedAt: int) {
    if known.Some? then browser.id !in known.value
    else browser.connectedAt.Some? && browser.connectedAt.value >= openedAt - CLOCK_MARGIN_MS
  }

  function NewlyConnected(browsers: seq<Browser>, known: Option<set<string>>, openedAt: int): (r: Option<Browser>)
    ensures r == None <==> forall browser :: browser in browsers ==> !IsNew(browser, known, openedAt)
    ensures r.Some? ==> r.value in browsers && IsNew(r.value, known, openedAt)
  {
    if browsers == [] then None
    else if IsNew(browsers[0], known, openedAt) then Some(browsers[0])
    else NewlyConnected(browsers[1..], known, openedAt)
  }

  /** The place `i` of a list holds a new browser, and no place before it does. */
  ghost predicate FirstAt(browsers: seq<Browser>, i: int, known: Option<set<string>>, openedAt: int) {
    && 0 <= i < |browsers| && IsNew(browsers[i], known, openedAt)
    && forall j :: 0 <= j < i ==> !IsNew(browsers[j], known, openedAt)
  }

  /** The browser that is found is the first new one of the list; none is found when none is new. */
  lemma {:induction false} FirstIsFound(browsers: seq<Browser>, known: Option<set<string>>, openedAt: int)
    ensures match NewlyConnected(browsers, known, openedAt)
            case None => forall i :: 0 <= i < |browsers| ==> !IsNew(browsers[i], known, openedAt)
            case Some(found) => exists i :: FirstAt(browsers, i, known, openedAt) && browsers[i] == found
  {
    if browsers != [] {
      if IsNew(browsers[0], known, openedAt) {
        assert FirstAt(browsers, 0, known, openedAt);
      } else if NewlyConnected(browsers, known, openedAt) != None {
        FirstIsFound(browsers[1..], known, openedAt);
        var i :| FirstAt(browsers[1..], i, known, openedAt)
                 && Some(browsers[1..][i]) == NewlyConnected(browsers, known, openedAt);
        assert FirstAt(browsers, i + 1, known, openedAt);
      }
    }
  }

  /**
   * `visible` and `listening` are of the page. `inFlight` counts the reads that are not answered,
   * `asked` those ever made, and `connected` is what `onConnected` was called with.
   */
  datatype Vars = Vars(
    openedAt: int,
    known: Option<set<string>>,
    first: bool,
    timer: bool,
    asking: bool,
    stopped: bool,
    visible: bool,
    listening: bool,
    inFlight: nat,
    asked: nat,
    connected: seq<Browser>)

  function Schedule(v: Vars): Vars {
    if v.stopped || v.asking || v.timer || !v.visible then v else v.(timer := true)
  }

  /** The start of a read, up to its answer. */
  function Ask(v: Vars): Vars {
    var w := v.(timer := false);
    if v.stopped || v.asking || !v.visible then w
    else w.(asking := true, inFlight := v.inFlight + 1, asked := v.asked + 1)
  }

  function Open(openedAt: int, visible: bool): Vars {
    Ask(Vars(openedAt, None, true, false, false, false, visible, true, 0, 0, []))
  }

  function Found(v: Vars, answer: Answer): Option<Browser> {
    if answer.None? || v.first then None else NewlyConnected(answer.value, v.known, v.openedAt)
  }

  /** The rest of a read. */
  function Answered(v: Vars, answer: Answer): Vars
    requires v.inFlight > 0
  {
    var w := v.(asking := false, inFlight := v.inFlight - 1);
    if v.stopped then w
    else
      var u := w.(first := false,
                  known := if v.first && answer.Some? then Some(Ids(answer.value)) else v.known);
      if Found(v, answer).Some? then u.(stopped := true, connected := v.connected + [Found(v, answer).value])
      else Schedule(u)
  }

  /** The tab is shown or hidden, and the page says so to who listens. */
  function Shown(v: Vars, visible: bool): Vars {
    var w := v.(visible := visible);
    if !v.listening then w
    else if !visible then w.(timer := false)
    else Ask(w)
  }

  function Stop(v: Vars): Vars {
    v.(stopped := true, timer := false, listening := false)
  }

  /** The variables themselves, changed in place. */
  class Watch {
    const openedAt: int
    var known: Option<set<string>>
    var first: bool
    var timer: bool
    var asking: bool
    var stopped: bool
    var visible: bool
    var listening: bool
    var inFlight: nat
    var asked: nat
    var connected: seq<Browser>

    ghost function Now(): Vars
      reads this
    {
      Vars(openedAt, known, first, timer, asking, stopped, visible, listening, inFlight, asked, connected)
    }

    constructor (openedAt: int, visible: bool)
      ensures Now() == Open(openedAt, visible)
    {
      this.openedAt := openedAt;
      known, first, timer, asking, stopped := None, true, false, false, false;
      this.visible, listening, inFlight, asked, connected := visible, true, 0, 0, [];
      new;
      StartRead();
    }

    method Plan()
      modifies this
      ensures Now() == Schedule(old(Now()))
    {
      if stopped || asking || timer || !visible {
        return;
      }
      timer := true;
    }

    method StartRead()
      modifies this
      ensures Now() == Ask(old(Now()))
    {
      timer := false;
      if stopped || asking || !visible {
        return;
      }
      asking := true;
      inFlight, asked := inFlight + 1, asked + 1;
    }

    method EndRead(answer: Answer)
      requires inFlight > 0
      modifies this
      ensures Now() == Answered(old(Now()), answer)
    {
      asking := false;
      inFlight := inFlight - 1;
      if stopped {
        return;
      }
      var wasFirst := first;
      first := false;
      if answer.Some? {
        if wasFirst {
          known := Some(Ids(answer.value));
        }
        var found := if wasFirst then None else NewlyConnected(answer.value, known, openedAt);
        if found.Some? {
          stopped := true;
          connected := connected + [found.value];
          return;
        }
      }
      Plan();
    }

    method VisibilityChange(visible: bool)
      modifies this
      ensures Now() == Shown(old(Now()), visible)
    {
      this.visible := visible;
      if !listening {
        return;
      }
      timer := false;
      if this.visible {
        StartRead();
      }
    }

    method End()
      modifies this
      ensures Now() == Stop(old(Now()))
    {
      stopped := true;
      timer := false;
      listening := false;
    }
  }

  // ---------- every run ----------

  datatype Event = Showing(visible: bool) | Firing | Answering(answer: Answer) | Stopping

  function Step(v: Vars, e: Event): Vars {
    match e
    case Showing(visible) => Shown(v, visible)
    case Firing => if v.timer then Ask(v) else v
    case Answering(answer) => if v.inFlight > 0 then Answered(v, answer) else v
    case Stopping => Stop(v)
  }

  function Run(v: Vars, events: seq<Event>): Vars
    decreases |events|
  {
    if events == [] then v else Run(Step(v, events[0]), events[1..])
  }

  /** A watch that goes on has something to wake it: a hidden tab that is shown, an answer or a timer. */
  predicate Awake(v: Vars) {
    v.stopped || !v.visible || v.asking || v.timer
  }

  predicate Good(v: Vars) {
    && Awake(v)
    && v.inFlight == (if v.asking then 1 else 0)
    && (v.timer ==> !v.asking && !v.stopped && v.visible)
    && (v.listening || v.stopped)
    && (v.connected == [] || (v.stopped && |v.connected| == 1))
    && (v.first ==> v.known == None && v.connected == [])
  }

  /**
   * In every run: no wake-up is lost, at most one read is on its way, no timer runs beside a read or
   * in a hidden tab, and `onConnected` was called at most once.
   */
  lemma RunGood(openedAt: int, visible: bool, events: seq<Event>)
    ensures Good(Run(Open(openedAt, visible), events))
  {
    RunFromGood(Open(openedAt, visible), events);
  }

  lemma {:induction false} RunFromGood(v: Vars, events: seq<Event>)
    requires Good(v)
    ensures Good(Run(v, events))
    decreases |events|
  {
    if events != [] {
      RunFromGood(Step(v, events[0]), events[1..]);
    }
  }

  /** Once stopped, nothing is read and nobody is told, whatever happens. */
  lemma {:induction false} StoppedForGood(v: Vars, events: seq<Event>)
    requires v.stopped
    ensures var last := Run(v, events);
      last.stopped && last.asked == v.asked && last.connected == v.connected
    decreases |events|
  {
    if events != [] {
      StoppedForGood(Step(v, events[0]), events[1..]);
    }
  }

  // ---------- what a run connects ----------

  /** The answers a run reads: those that come while it goes on. */
  function Answers(v: Vars, events: seq<Event>): seq<Answer>
    decreases |events|
  {
    if events == [] then []
    else
      var rest := Answers(Step(v, events[0]), events[1..]);
      if events[0].Answering? && v.inFlight > 0 && !v.stopped then [events[0].answer] + rest else rest
  }

  /** The first browser that is new in a list of answers, against what was known. */
  function FirstNew(answers: seq<Answer>, known: Option<set<string>>, openedAt: int): Option<Browser> {
    if answers == [] then None
    else if answers[0].Some? && NewlyConnected(answers[0].value, known, openedAt).Some? then
      NewlyConnected(answers[0].value, known, openedAt)
    else FirstNew(answers[1..], known, openedAt)
  }

  /** What the first answer says was there before; nothing when it was refused. */
  function KnownAfter(first: Answer): Option<set<string>> {
    if first.Some? then Some(Ids(first.value)) else None
  }

  function Outcome(answers: seq<Answer>, openedAt: int): Option<Browser> {
    if answers == [] then None else FirstNew(answers[1..], KnownAfter(answers[0]), openedAt)
  }

  function AsLog(found: Option<Browser>): seq<Browser> {
    match found case None => [] case Some(browser) => [browser]
  }

  lemma {:induction false} StoppedReadsNothing(v: Vars, events: seq<Event>)
    requires v.stopped
    ensures Answers(v, events) == []
    decreases |events|
  {
    if events != [] {
      StoppedReadsNothing(Step(v, events[0]), events[1..]);
    }
  }

  /** After the first answer, the run tells of the first new browser of the answers that follow. */
  lemma {:induction false} LaterConnects(v: Vars, events: seq<Event>)
    requires Good(v) && !v.first && v.connected == []
    ensures Run(v, events).connected == AsLog(FirstNew(Answers(v, events), v.known, v.openedAt))
    decreases |events|
  {
    if events != [] {
      var next := Step(v, events[0]);
      if next.connected == [] {
        LaterConnects(next, events[1..]);
        if events[0].Answering? && v.inFlight > 0 && !v.stopped {
          var rest := Answers(next, events[1..]);
          assert ([events[0].answer] + rest)[1..] == rest;
        }
      } else {
        StoppedForGood(next, events[1..]);
        StoppedReadsNothing(next, events[1..]);
      }
    }
  }

  lemma {:induction false} FirstConnects(v: Vars, events: seq<Event>)
    requires Good(v) && v.first
    ensures Run(v, events).connected == AsLog(Outcome(Answers(v, events), v.openedAt))
    decreases |events|
  {
    if events != [] {
      var next := Step(v, events[0]);
      if next.first {
        FirstConnects(next, events[1..]);
      } else {
        LaterConnects(next, events[1..]);
        var rest := Answers(next, events[1..]);
        assert ([events[0].answer] + rest)[1..] == rest;
      }
    }
  }

  /** In every run, `onConnected` is called exactly with the outcome of the answers read. */
  lemma ConnectsOutcome(openedAt: int, visible: bool, events: seq<Event>)
    ensures var v := Open(openedAt, visible);
      Run(v, events).connected == AsLog(Outcome(Answers(v, events), openedAt))
  {
    FirstConnects(Open(openedAt, visible), events);
  }

  /** Whether an answer holds a browser that is new. */
  predicate Reveals(answer: Answer, known: Option<set<string>>, openedAt: int) {
    answer.Some? && exists browser :: browser in answer.value && IsNew(browser, known, openedAt)
  }

  lemma {:induction false} FirstNewMeans(answers: seq<Answer>, known: Option<set<string>>, openedAt: int)
    ensures FirstNew(answers, known, openedAt).Some? <==>
      exists i :: 0 <= i < |answers| && Reveals(answers[i], known, openedAt)
  {
    if answers != [] {
      var later := answers[1..];
      FirstNewMeans(later, known, openedAt);
      if i :| 0 <= i < |later| && Reveals(later[i], known, openedAt) {
        assert Reveals(answers[i + 1], known, openedAt);
      }
      if i :| 1 <= i < |answers| && Reveals(answers[i], known, openedAt) {
        assert Reveals(later[i - 1], known, openedAt);
      }
    }
  }

  /**
   * Somebody is told exactly when an answer after the first holds a browser that the first list does
   * not, or, when the first read was refused, one that connected no earlier than the margin allows.
   */
  lemma ConnectsExactly(openedAt: int, visible: bool, events: seq<Event>)
    ensures var v := Open(openedAt, visible);
      var answers := Answers(v, events);
      Run(v, events).connected != [] <==>
        exists i :: 1 <= i < |answers| && Reveals(answers[i], KnownAfter(answers[0]), openedAt)
  {
    ConnectsOutcome(openedAt, visible, events);
    var answers := Answers(Open(openedAt, visible), events);
    if answers != [] {
      var later := answers[1..];
      var known := KnownAfter(answers[0]);
      FirstNewMeans(later, known, openedAt);
      if i :| 0 <= i < |later| && Reveals(later[i], known, openedAt) {
        assert Reveals(answers[i + 1], known, openedAt);
      }
      if i :| 1 <= i < |answers| && Reveals(answers[i], known, openedAt) {
        assert Reveals(later[i - 1], known, openedAt);
      }
    }
  }

  // ---------- a read that fails ----------

  const OPENED_AT: int := 0

  const BROWSER := Browser("browser", Some(OPENED_AT))

  /** A first read that fails: the next one tells of a browser that was there when the page opened. */
  lemma FailedFirstReadTells()
    ensures var failed := [Answering(None), Firing, Answering(Some([BROWSER]))];
      && Answers(Open(OPENED_AT, true), failed) == [None, Some([BROWSER])]
      && Run(Open(OPENED_AT, true), failed).connected == [BROWSER]
    ensures var read := [Answering(Some([BROWSER]))];
      && Answers(Open(OPENED_AT, true), read) == [Some([BROWSER])]
      && Run(Open(OPENED_AT, true), read).connected == []
  {
    var failed := [Answering(None), Firing, Answering(Some([BROWSER]))];
    var open := Open(OPENED_AT, true);
    var waits := Step(open, failed[0]);
    var asks := Step(waits, failed[1]);
    assert failed[1..] == [Firing, Answering(Some([BROWSER]))] && failed[1..][1..] == [Answering(Some([BROWSER]))];
    assert Answers(asks, failed[1..][1..]) == [Some([BROWSER])];
    assert Answers(waits, failed[1..]) == [Some([BROWSER])];
    assert Run(asks, failed[1..][1..]).connected == [BROWSER];
  }

  lemma {:induction false} FailedLaterRead(a: seq<Answer>, b: seq<Answer>, known: Option<set<string>>, openedAt: int)
    ensures FirstNew(a + [None] + b, known, openedAt) == FirstNew(a + b, known, openedAt)
  {
    if a == [] {
      assert a + [None] + b == [None] + b && ([None] + b)[1..] == b && a + b == b;
    } else {
      assert (a + [None] + b)[1..] == a[1..] + [None] + b && (a + b)[1..] == a[1..] + b;
      FailedLaterRead(a[1..], b, known, openedAt);
    }
  }

  /** A read that fails changes nothing, whatever is read after it, exactly when it is not the first. */
  lemma FailedReadExactly(a: seq<Answer>)
    ensures (forall b, openedAt :: Outcome(a + [None] + b, openedAt) == Outcome(a + b, openedAt)) <==> a != []
  {
    if a == [] {
      var b := [Some([BROWSER])];
      assert a + [None] + b == [None] + b && ([None] + b)[1..] == b && a + b == b;
      assert b[1..] == [];
      assert Outcome(a + [None] + b, OPENED_AT) == Some(BROWSER) && Outcome(a + b, OPENED_AT) == None;
    } else {
      forall b, openedAt
        ensures Outcome(a + [None] + b, openedAt) == Outcome(a + b, openedAt)
      {
        assert (a + [None] + b)[1..] == a[1..] + [None] + b && (a + b)[1..] == a[1..] + b;
        FailedLaterRead(a[1..], b, KnownAfter(a[0]), openedAt);
      }
    }
  }

  /** Two runs whose answers differ by a failed read after the first tell of the same browser. */
  lemma FailedReadTellsAlike(openedAt: int, visible: bool, failed: seq<Event>, read: seq<Event>, a: seq<Answer>,
                             b: seq<Answer>)
    requires a != [] && Answers(Open(openedAt, visible), failed) == a + [None] + b
    requires Answers(Open(openedAt, visible), read) == a + b
    ensures Run(Open(openedAt, visible), failed).connected == Run(Open(openedAt, visible), read).connected
  {
    ConnectsOutcome(openedAt, visible, failed);
    ConnectsOutcome(openedAt, visible, read);
    FailedReadExactly(a);
  }

  // ---------- how much is read ----------

  /** The moments a read may start: a timer, or a tab that is shown. */
  function Wakes(events: seq<Event>): nat {
    if events == [] then 0
    else (if events[0] == Firing || events[0] == Showing(true) then 1 else 0) + Wakes(events[1..])
  }

  /** A hidden tab asks nothing, and a shown one asks once for each timer and each time it is shown. */
  lemma {:induction false} ReadsBounded(v: Vars, events: seq<Event>)
    ensures v.asked <= Run(v, events).asked <= v.asked + Wakes(events)
    decreases |events|
  {
    if events != [] {
      ReadsBounded(Step(v, events[0]), events[1..]);
    }
  }

  // ---------- what counts as new ----------

  /** Against the first list by its id alone; with no first list by its date, two minutes of clocks apart. */
  predicate CameAfter(browser: Browser, first: Answer, openedAt: int) {
    match first
    case Some(there) => forall i :: 0 <= i < |there| ==> there[i].id != browser.id
    case None => browser.connectedAt != None && browser.connectedAt.value >= openedAt - 120000
  }

  lemma {:induction false} NewExactly(browser: Browser, first: Answer, openedAt: int)
    ensures IsNew(browser, KnownAfter(first), openedAt) <==> CameAfter(browser, first, openedAt)
  {
    if first.Some? && browser.id in Ids(first.value) {
      var there :| there in first.value && there.id == browser.id;
      var i :| 0 <= i < |first.value| && first.value[i] == there;
    }
    if first.Some? && exists i :: 0 <= i < |first.value| && first.value[i].id == browser.id {
      var i :| 0 <= i < |first.value| && first.value[i].id == browser.id;
      assert first.value[i] in first.value;
    }
  }

  /** The browser `j` of the answer `i` is the first, of the answers after the first, that came after it. */
  ghost predicate FirstToCome(answers: seq<Answer>, i: nat, j: nat, openedAt: int) {
    && 1 <= i < |answers| && answers[i].Some? && j < |answers[i].value|
    && CameAfter(answers[i].value[j], answers[0], openedAt)
    && (forall l :: 0 <= l < j ==> !CameAfter(answers[i].value[l], answers[0], openedAt))
    && (forall k, l :: 1 <= k < i && answers[k].Some? && 0 <= l < |answers[k].value| ==>
          !CameAfter(answers[k].value[l], answers[0], openedAt))
  }

  lemma {:induction false} FirstNewIs(answers: seq<Answer>, known: Option<set<string>>, openedAt: int, i: nat, j: nat)
    requires i < |answers| && answers[i].Some? && FirstAt(answers[i].value, j, known, openedAt)
    requires forall k, l :: 0 <= k < i && answers[k].Some? && 0 <= l < |answers[k].value| ==>
               !IsNew(answers[k].value[l], known, openedAt)
    ensures FirstNew(answers, known, openedAt) == Some(answers[i].value[j])
  {
    if i == 0 {
      FirstFound(answers[0].value, known, openedAt, j);
    } else {
      if answers[0].Some? {
        forall browser | browser in answers[0].value
          ensures !IsNew(browser, known, openedAt)
        {
          var l :| 0 <= l < |answers[0].value| && answers[0].value[l] == browser;
        }
      }
      assert forall k :: 0 <= k < |answers[1..]| ==> answers[1..][k] == answers[k + 1];
      FirstNewIs(answers[1..], known, openedAt, i - 1, j);
    }
  }

  lemma {:induction false} FirstFound(browsers: seq<Browser>, known: Option<set<string>>, openedAt: int, j: nat)
    requires FirstAt(browsers, j, known, openedAt)
    ensures NewlyConnected(browsers, known, openedAt) == Some(browsers[j])
  {
    if j > 0 {
      FirstFound(browsers[1..], known, openedAt, j - 1);
    }
  }

  /** In every run: the page is told of the first browser to come, of the answers it read, and of no other. */
  lemma {:induction false} TellsTheFirst(openedAt: int, visible: bool, events: seq<Event>, i: nat, j: nat)
    requires FirstToCome(Answers(Open(openedAt, visible), events), i, j, openedAt)
    ensures Run(Open(openedAt, visible), events).connected
         == [Answers(Open(openedAt, visible), events)[i].value[j]]
  {
    var answers := Answers(Open(openedAt, visible), events);
    var known := KnownAfter(answers[0]);
    forall k, l | 1 <= k < |answers| && answers[k].Some? && 0 <= l < |answers[k].value|
      ensures IsNew(answers[k].value[l], known, openedAt) <==> CameAfter(answers[k].value[l], answers[0], openedAt)
    {
      NewExactly(answers[k].value[l], answers[0], openedAt);
    }
    assert forall k :: 0 <= k < |answers[1..]| ==> answers[1..][k] == answers[k + 1];
    FirstNewIs(answers[1..], known, openedAt, i - 1, j);
    ConnectsOutcome(openedAt, visible, events);
  }

  /** It is told of nobody when no browser came after the first answer. */
  lemma {:induction false} TellsNobody(openedAt: int, visible: bool, events: seq<Event>)
    requires var answers := Answers(Open(openedAt, visible), events);
      forall k, l :: 1 <= k < |answers| && answers[k].Some? && 0 <= l < |answers[k].value| ==>
        !CameAfter(answers[k].value[l], answers[0], openedAt)
    ensures Run(Open(openedAt, visible), events).connected == []
  {
    var answers := Answers(Open(openedAt, visible), events);
    ConnectsExactly(openedAt, visible, events);
    if i :| 1 <= i < |answers| && Reveals(answers[i], KnownAfter(answers[0]), openedAt) {
      var browser :| browser in answers[i].value && IsNew(browser, KnownAfter(answers[0]), openedAt);
      NewExactly(browser, answers[0], openedAt);
      var l :| 0 <= l < |answers[i].value| && answers[i].value[l] == browser;
    }
  }

  // ---------- when a read is made ----------

  /** The timer fires, or a tab that goes on is shown, with no read on its way. */
  predicate Reads(v: Vars, e: Event) {
    (e == Firing && v.timer) || (e == Showing(true) && !v.stopped && v.inFlight == 0)
  }

  /** In every run, a read is made exactly then, once, and at the start when the tab is shown. */
  lemma {:induction false} ReadsExactly(openedAt: int, visible: bool, events: seq<Event>, e: Event)
    ensures Open(openedAt, visible).asked == if visible then 1 else 0
    ensures var v := Run(Open(openedAt, visible), events);
      Step(v, e).asked == v.asked + if Reads(v, e) then 1 else 0
  {
    RunGood(openedAt, visible, events);
  }

  /** A tab that is hidden, and not shown again, asks nothing more. */
  lemma {:induction false} HiddenReadsNothing(openedAt: int, visible: bool, before: seq<Event>, events: seq<Event>)
    requires forall k :: 0 <= k < |events| ==> events[k] != Showing(true)
    ensures var v := Run(Open(openedAt, visible), before);
      !v.visible ==> Run(v, events).asked == v.asked
    ensures Run(Open(openedAt, false), events).asked == 0
  {
    RunGood(openedAt, visible, before);
    RunGood(openedAt, false, []);
    var v := Run(Open(openedAt, visible), before);
    if !v.visible {
      HiddenFor(v, events);
    }
    HiddenFor(Open(openedAt, false), events);
  }

  lemma {:induction false} HiddenFor(v: Vars, events: seq<Event>)
    requires Good(v) && !v.visible && forall k :: 0 <= k < |events| ==> events[k] != Showing(true)
    ensures Run(v, events).asked == v.asked
    decreases |events|
  {
    if events != [] {
      RunFromGood(v, [events[0]]);
      HiddenFor(Step(v, events[0]), events[1..]);
    }
  }
}
