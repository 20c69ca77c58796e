/**
 * What the tabs of one browser tell each other when a sign-in link is opened. A `Link` is a tab that
 * announces the sign-in and waits for an answer; a `Waiter` is a tab that waits for a link to be
 * opened. Each function is one piece of code that runs with no wait; times are in milliseconds.
 */
module TabSignal {
  import opened Options

  datatype Word = SignedIn | Heard | CarriedOn

  const WAIT_HEARD: nat := 400

  const WAIT_CARRIED: nat := 5000

  /**
   * `channel`: whether its browser has one. `due`: when its timer fires, while one runs. `results`: what
   * its promise was resolved with, and when.
   */
  datatype Link = Link(
    channel: bool,
    started: nat,
    lastHeard: Option<nat>,
    due: Option<nat>,
    listening: bool,
    results: seq<Result>)

  datatype Tab = OfLink(link: nat) | OfWaiter(waiter: nat)

  /** `teller`: the tab that said it carried on, for an answer `true`. */
  datatype Result = Result(teller: Option<Tab>, at: nat)

  /**
   * `heard`: how often it was told of a sign-in; `asking`: its questions to the worker that wait;
   * `carried`: the moments it carried on.
   */
  datatype Waiter = Waiter(stopped: bool, heard: nat, asking: nat, yes: nat, carried: seq<nat>)

  const WAITING := Waiter(false, 0, 0, 0, [])

  function Announce(channel: bool, now: nat): (r: (Link, seq<Word>)) {
    if !channel then (Link(false, now, None, None, false, [Result(None, now)]), [])
    else (Link(true, now, None, Some(now + WAIT_HEARD), true, []), [SignedIn])
  }

  function End(link: Link, teller: Option<Tab>, now: nat): Link {
    link.(due := None, listening := false, results := link.results + [Result(teller, now)])
  }

  /** `from`: who said it, which the message itself does not hold. */
  function LinkHears(link: Link, word: Word, from: Tab, now: nat): Link {
    if !link.listening then link
    else
      match word
      case CarriedOn => End(link, Some(from), now)
      case Heard => link.(lastHeard := Some(now), due := Some(now + WAIT_CARRIED))
      case SignedIn => link
  }

  function WaiterHears(waiter: Waiter, word: Word): (Waiter, seq<Word>) {
    if waiter.stopped || word != SignedIn then (waiter, [])
    else (waiter.(heard := waiter.heard + 1, asking := waiter.asking + 1), [Heard])
  }

  /** What the waiting tab does once it is told whether somebody is signed in. */
  function WaiterAnswered(waiter: Waiter, yes: bool, now: nat): (Waiter, seq<Word>)
    requires waiter.asking > 0
  {
    var told := waiter.(asking := waiter.asking - 1, yes := waiter.yes + if yes then 1 else 0);
    if waiter.stopped || !yes then (told, []) else (told.(carried := waiter.carried + [now]), [CarriedOn])
  }

  function StopWaiting(waiter: Waiter): Waiter {
    waiter.(stopped := true)
  }

  /** The tab of the link, changed in place by its timer and its messages. */
  class LinkTab {
    const channel: bool
    var started: nat
    var lastHeard: Option<nat>
    var due: Option<nat>
    var listening: bool
    var results: seq<Result>

    ghost function Now(): Link
      reads this
    {
      Link(channel, started, lastHeard, due, listening, results)
    }

    /** With no channel in the browser, the answer is `false` at once. */
    constructor (channel: bool, now: nat)
      ensures Now() == Announce(channel, now).0
    {
      this.channel, started, lastHeard := channel, now, None;
      if channel {
        due, listening, results := Some(now + WAIT_HEARD), true, [];
      } else {
        due, listening, results := None, false, [Result(None, now)];
      }
    }

    method Finish(teller: Option<Tab>, now: nat)
      modifies this
      ensures Now() == End(old(Now()), teller, now)
    {
      due := None;
      listening := false;
      results := results + [Result(teller, now)];
    }

    method Message(word: Word, from: Tab, now: nat)
      modifies this
      ensures Now() == LinkHears(old(Now()), word, from, now)
    {
      if !listening {
        return;
      }
      if word == CarriedOn {
        Finish(Some(from), now);
        return;
      }
      if word != Heard {
        return;
      }
      lastHeard := Some(now);
      due := Some(now + WAIT_CARRIED);
    }
  }

  /** A tab that waits, changed in place by its messages and the answers of the worker. */
  class WaitingTab {
    var stopped: bool
    var heard: nat
    var asking: nat
    var yes: nat
    var carried: seq<nat>

    ghost function Now(): Waiter
      reads this
    {
      Waiter(stopped, heard, asking, yes, carried)
    }

    constructor ()
      ensures Now() == WAITING
    {
      stopped, heard, asking, yes, carried := false, 0, 0, 0, [];
    }

    method Message(word: Word) returns (said: seq<Word>)
      modifies this
      ensures (Now(), said) == WaiterHears(old(Now()), word)
    {
      said := [];
      if stopped || word != SignedIn {
        return;
      }
      heard := heard + 1;
      said := [Heard];
      asking := asking + 1;
    }

    method Told(answer: bool, now: nat) returns (said: seq<Word>)
      requires asking > 0
      modifies this
      ensures (Now(), said) == WaiterAnswered(old(Now()), answer, now)
    {
      said := [];
      asking := asking - 1;
      if answer {
        yes := yes + 1;
      }
      if stopped || !answer {
        return;
      }
      said := [CarriedOn];
      carried := carried + [now];
    }

    method Stop()
      modifies this
      ensures Now() == StopWaiting(old(Now()))
    {
      stopped := true;
    }
  }

  // ---------- the tabs together ----------

  datatype Message = Message(word: Word, from: Tab, at: nat, to: Tab)

  /** `messages`: posted, and not delivered yet; they arrive in any order and at any time. */
  datatype World = World(now: nat, links: seq<Link>, waiters: seq<Waiter>, messages: seq<Message>)

  const CLOSED := World(0, [], [], [])

  /** A word reaches each tab that is there. What a tab says to itself changes nothing in it, so it may be sent too. */
  function Post(word: Word, from: Tab, at: nat, links: nat, waiters: nat): (r: seq<Message>)
    ensures forall m :: m in r ==> m.word == word && m.from == from && m.at == at
    ensures forall m :: m in r && m.to.OfLink? ==> m.to.link < links
    ensures forall i: nat :: i < links ==> Message(word, from, at, OfLink(i)) in r
    ensures forall i: nat :: i < waiters ==> Message(word, from, at, OfWaiter(i)) in r
  {
    assert forall i: nat :: i < links ==>
        seq(links, i requires 0 <= i < links => Message(word, from, at, OfLink(i)))[i]
        == Message(word, from, at, OfLink(i));
    assert forall i: nat :: i < waiters ==>
        seq(waiters, i requires 0 <= i => Message(word, from, at, OfWaiter(i)))[i]
        == Message(word, from, at, OfWaiter(i));
    seq(links, i requires 0 <= i < links => Message(word, from, at, OfLink(i))) +
    seq(waiters, i requires 0 <= i => Message(word, from, at, OfWaiter(i)))
  }

  function Said(w: World, from: Tab, words: seq<Word>): World {
    if words == [] then w
    else w.(messages := w.messages + Post(words[0], from, w.now, |w.links|, |w.waiters|))
  }

  datatype Event =
    | Opening(channel: bool)
    | Arriving
    | Delivering(message: nat)
    | Expiring(link: nat)
    | Answering(waiter: nat, yes: bool)
    | Stopping(waiter: nat)
    | Passing(time: nat)

  function Deliver(w: World, m: Message): World {
    match m.to
    case OfLink(i) =>
      if i < |w.links| then w.(links := w.links[i := LinkHears(w.links[i], m.word, m.from, w.now)]) else w
    case OfWaiter(i) =>
      if i < |w.waiters| then
        var (waiter, words) := WaiterHears(w.waiters[i], m.word);
        Said(w.(waiters := w.waiters[i := waiter]), m.to, words)
      else w
  }

  predicate Expires(w: World, i: nat) {
    i < |w.links| && w.links[i].due.Some? && w.links[i].due.value <= w.now
  }

  /** What happens at one moment; an event that cannot happen then changes nothing. */
  function Step(w: World, e: Event): World {
    match e
    case Opening(channel) =>
      var (link, words) := Announce(channel, w.now);
      Said(w.(links := w.links + [link]), OfLink(|w.links|), words)
    case Arriving => w.(waiters := w.waiters + [WAITING])
    case Delivering(k) =>
      if k < |w.messages| then
        Deliver(w.(messages := w.messages[..k] + w.messages[k + 1..]), w.messages[k])
      else w
    case Expiring(i) => if Expires(w, i) then w.(links := w.links[i := End(w.links[i], None, w.now)]) else w
    case Answering(i, yes) =>
      if i < |w.waiters| && w.waiters[i].asking > 0 then
        var (waiter, words) := WaiterAnswered(w.waiters[i], yes, w.now);
        Said(w.(waiters := w.waiters[i := waiter]), OfWaiter(i), words)
      else w
    case Stopping(i) => if i < |w.waiters| then w.(waiters := w.waiters[i := StopWaiting(w.waiters[i])]) else w
    case Passing(time) => w.(now := w.now + time)
  }

  function Run(w: World, events: seq<Event>): World
    decreases |events|
  {
    if events == [] then w else Run(Step(w, events[0]), events[1..])
  }

  // ---------- what every run keeps ----------

  /** How long a link waits: from its start, or from the last « heard ». */
  function Deadline(link: Link): nat {
    match link.lastHeard case None => link.started + WAIT_HEARD case Some(at) => at + WAIT_CARRIED
  }

  /** A link runs its timer and listens until it is resolved, which happens once. */
  predicate LinkGood(link: Link) {
    && link.listening == (link.results == [])
    && link.due == (if link.listening then Some(Deadline(link)) else None)
    && |link.results| <= 1
  }

  predicate WaiterGood(waiter: Waiter) {
    |waiter.carried| <= waiter.yes && waiter.yes + waiter.asking <= waiter.heard
  }

  /** The tab `teller` carried on at the moment `at`. */
  predicate CarriedAt(w: World, teller: Tab, at: nat) {
    teller.OfWaiter? && teller.waiter < |w.waiters| && at in w.waiters[teller.waiter].carried
  }

  /** The tab `teller` carried on between two moments. */
  ghost predicate CarriedWithin(w: World, teller: Tab, since: nat, until: nat) {
    exists at: nat :: CarriedAt(w, teller, at) && since <= at <= until
  }

  /** A « carried-on » on its way was said by a tab that carried on then, and after its link announced. */
  ghost predicate Truthful(w: World, m: Message) {
    m.word == CarriedOn ==>
      && CarriedAt(w, m.from, m.at) && m.at <= w.now
      && (m.to.OfLink? ==> m.to.link < |w.links| && w.links[m.to.link].started <= m.at)
  }

  /** Who it was told by carried on while it waited. */
  ghost predicate ToldTrue(w: World, link: Link) {
    link.results != [] && link.results[0].teller != None ==>
      CarriedWithin(w, link.results[0].teller.value, link.started, link.results[0].at)
  }

  ghost predicate Honest(w: World) {
    && (forall m :: m in w.messages ==> Truthful(w, m))
    && (forall i :: 0 <= i < |w.links| ==> w.links[i].started <= w.now && ToldTrue(w, w.links[i]))
  }

  ghost predicate Good(w: World) {
    && (forall i :: 0 <= i < |w.links| ==> LinkGood(w.links[i]))
    && (forall i :: 0 <= i < |w.waiters| ==> WaiterGood(w.waiters[i]))
    && Honest(w)
  }

  /** Time passes, and nobody takes back that it carried on. */
  ghost predicate Later(w: World, after: World) {
    && w.now <= after.now && |w.waiters| <= |after.waiters| && |w.links| <= |after.links|
    && (forall i :: 0 <= i < |w.links| ==> after.links[i].started == w.links[i].started)
    && (forall i :: 0 <= i < |w.waiters| ==> w.waiters[i].carried <= after.waiters[i].carried)
  }

  lemma StaysTrue(w: World, after: World, link: Link)
    requires Later(w, after) && ToldTrue(w, link)
    ensures ToldTrue(after, link)
  {
    if link.results != [] && link.results[0].teller != None {
      var teller := link.results[0].teller.value;
      var at: nat :| CarriedAt(w, teller, at) && link.started <= at <= link.results[0].at;
      assert CarriedAt(after, teller, at);
    }
  }

  lemma StaysTruthful(w: World, after: World, m: Message)
    requires Later(w, after) && Truthful(w, m)
    ensures Truthful(after, m)
  {
  }

  lemma StaysHonest(w: World, after: World)
    requires Honest(w) && Later(w, after) && after.links == w.links
    requires forall m :: m in after.messages ==> m in w.messages || Truthful(after, m)
    ensures Honest(after)
  {
    forall m | m in after.messages
      ensures Truthful(after, m)
    {
      if m in w.messages {
        StaysTruthful(w, after, m);
      }
    }
    forall i | 0 <= i < |after.links|
      ensures ToldTrue(after, after.links[i])
    {
      StaysTrue(w, after, w.links[i]);
    }
  }

  lemma WaiterStepGood(w: World, i: nat, waiter: Waiter, words: seq<Word>)
    requires Good(w) && i < |w.waiters| && WaiterGood(waiter)
    requires w.waiters[i].carried <= waiter.carried
    requires words != [] && words[0] == CarriedOn ==> w.now in waiter.carried
    ensures Good(Said(w.(waiters := w.waiters[i := waiter]), OfWaiter(i), words))
  {
    StaysHonest(w, Said(w.(waiters := w.waiters[i := waiter]), OfWaiter(i), words));
  }

  lemma LinkStepGood(w: World, i: nat, link: Link)
    requires Good(w) && i < |w.links| && LinkGood(link)
    requires link.started == w.links[i].started && ToldTrue(w, link)
    ensures Good(w.(links := w.links[i := link]))
  {
    var next := w.(links := w.links[i := link]);
    forall m | m in next.messages
      ensures Truthful(next, m)
    {
      StaysTruthful(w, next, m);
    }
    forall k | 0 <= k < |next.links|
      ensures ToldTrue(next, next.links[k])
    {
      StaysTrue(w, next, next.links[k]);
    }
  }

  lemma HearsTruth(w: World, m: Message)
    requires Good(w) && Truthful(w, m) && m.to.OfLink? && m.to.link < |w.links|
    ensures ToldTrue(w, LinkHears(w.links[m.to.link], m.word, m.from, w.now))
  {
    var link := w.links[m.to.link];
    assert LinkGood(link) && ToldTrue(w, link);
    if link.listening && m.word == CarriedOn {
      assert LinkHears(link, m.word, m.from, w.now).results == [Result(Some(m.from), w.now)];
      assert CarriedAt(w, m.from, m.at);
    }
  }

  lemma DeliverGood(w: World, m: Message)
    requires Good(w) && Truthful(w, m)
    ensures Good(Deliver(w, m))
  {
    match m.to {
      case OfLink(i) =>
        if i < |w.links| {
          assert LinkGood(w.links[i]);
          HearsTruth(w, m);
          LinkStepGood(w, i, LinkHears(w.links[i], m.word, m.from, w.now));
        }
      case OfWaiter(i) =>
        if i < |w.waiters| {
          assert WaiterGood(w.waiters[i]);
          var (waiter, words) := WaiterHears(w.waiters[i], m.word);
          WaiterStepGood(w, i, waiter, words);
        }
    }
  }

  lemma TakenGood(w: World, k: nat)
    requires Good(w) && k < |w.messages|
    ensures var rest := w.(messages := w.messages[..k] + w.messages[k + 1..]);
      Good(rest) && Truthful(rest, w.messages[k])
  {
    var rest := w.(messages := w.messages[..k] + w.messages[k + 1..]);
    assert w.messages[k] in w.messages;
    forall m | m in rest.messages ensures m in w.messages {
    }
    StaysHonest(w, rest);
    StaysTruthful(w, rest, w.messages[k]);
  }

  lemma OpeningGood(w: World, channel: bool)
    requires Good(w)
    ensures Good(Step(w, Opening(channel)))
  {
    var (link, words) := Announce(channel, w.now);
    var next := Step(w, Opening(channel));
    assert next.links == w.links + [link] && LinkGood(link);
    forall m | m in next.messages
      ensures Truthful(next, m)
    {
      if m in w.messages {
        StaysTruthful(w, next, m);
      }
    }
    forall i | 0 <= i < |w.links|
      ensures ToldTrue(next, w.links[i])
    {
      StaysTrue(w, next, w.links[i]);
    }
  }

  lemma ExpiringGood(w: World, i: nat)
    requires Good(w) && Expires(w, i)
    ensures Good(Step(w, Expiring(i)))
  {
    assert LinkGood(w.links[i]) && ToldTrue(w, w.links[i]);
    LinkStepGood(w, i, End(w.links[i], None, w.now));
  }

  lemma StepGood(w: World, e: Event)
    requires Good(w)
    ensures Good(Step(w, e))
  {
    match e {
      case Opening(channel) => OpeningGood(w, channel);
      case Arriving => StaysHonest(w, Step(w, e));
      case Delivering(k) =>
        if k < |w.messages| {
          TakenGood(w, k);
          DeliverGood(w.(messages := w.messages[..k] + w.messages[k + 1..]), w.messages[k]);
        }
      case Expiring(i) =>
        if Expires(w, i) {
          ExpiringGood(w, i);
        }
      case Answering(i, yes) =>
        if i < |w.waiters| && w.waiters[i].asking > 0 {
          var (waiter, words) := WaiterAnswered(w.waiters[i], yes, w.now);
          WaiterStepGood(w, i, waiter, words);
        }
      case Stopping(i) =>
        if i < |w.waiters| {
          WaiterStepGood(w, i, StopWaiting(w.waiters[i]), []);
        }
      case Passing(time) => StaysHonest(w, Step(w, e));
    }
  }

  lemma {:induction false} RunFromGood(w: World, events: seq<Event>)
    requires Good(w)
    ensures Good(Run(w, events))
    decreases |events|
  {
    if events != [] {
      StepGood(w, events[0]);
      RunFromGood(Step(w, events[0]), events[1..]);
    }
  }

  /**
   * In every run, whatever the timing: each link is resolved at most once and has a timer until then;
   * a tab carries on only as often as the worker said yes to it.
   */
  lemma RunGood(events: seq<Event>)
    ensures Good(Run(CLOSED, events))
  {
    RunFromGood(CLOSED, events);
  }

  /** A link that answers `true` was told so by a waiting tab, which carried on while that link waited. */
  lemma TrueMeansCarriedOn(events: seq<Event>, i: nat)
    ensures var w := Run(CLOSED, events);
      i < |w.links| && w.links[i].results != [] && w.links[i].results[0].teller != None ==>
        CarriedWithin(w, w.links[i].results[0].teller.value, w.links[i].started, w.links[i].results[0].at)
  {
    RunGood(events);
    var w := Run(CLOSED, events);
    if i < |w.links| {
      assert ToldTrue(w, w.links[i]);
    }
  }

  /** For each link that is resolved, a tab goes on: one that carried on meanwhile, or its own, told `false`. */
  lemma SomebodyGoesOn(events: seq<Event>, i: nat)
    requires i < |Run(CLOSED, events).links| && Run(CLOSED, events).links[i].results != []
    ensures var w := Run(CLOSED, events);
      var link := w.links[i];
      link.results == [Result(None, link.results[0].at)]
      || exists waiter :: CarriedWithin(w, OfWaiter(waiter), link.started, link.results[0].at)
  {
    RunGood(events);
    TrueMeansCarriedOn(events, i);
    var w := Run(CLOSED, events);
    assert LinkGood(w.links[i]);
    if w.links[i].results[0].teller != None {
      var teller := w.links[i].results[0].teller.value;
      assert teller == OfWaiter(teller.waiter);
    }
  }

  /** A tab that stopped waiting never carries on, whatever it hears and whatever the worker answers it. */
  lemma {:induction false} StoppedNeverCarriesOn(w: World, events: seq<Event>, i: nat)
    requires i < |w.waiters| && w.waiters[i].stopped
    ensures var last := Run(w, events);
      i < |last.waiters| && last.waiters[i].stopped && last.waiters[i].carried == w.waiters[i].carried
    decreases |events|
  {
    if events != [] {
      StoppedStep(w, events[0], i);
      StoppedNeverCarriesOn(Step(w, events[0]), events[1..], i);
    }
  }

  /** The waiter `i` is stopped, and carried on no more often than before. */
  predicate StaysStopped(w: World, next: World, i: nat) {
    && i < |w.waiters| && i < |next.waiters| && next.waiters[i].stopped
    && next.waiters[i].carried == w.waiters[i].carried
  }

  lemma DeliverStopped(w: World, m: Message, i: nat)
    requires i < |w.waiters| && w.waiters[i].stopped
    ensures StaysStopped(w, Deliver(w, m), i)
  {
  }

  lemma StoppedStep(w: World, e: Event, i: nat)
    requires i < |w.waiters| && w.waiters[i].stopped
    ensures StaysStopped(w, Step(w, e), i)
  {
    match e {
      case Opening(channel) =>
      case Arriving =>
      case Delivering(k) =>
        if k < |w.messages| {
          DeliverStopped(w.(messages := w.messages[..k] + w.messages[k + 1..]), w.messages[k], i);
        }
      case Expiring(j) =>
      case Answering(j, yes) =>
      case Stopping(j) =>
      case Passing(time) =>
    }
  }

  // ---------- when a link gives up ----------

  /** With no channel it answers `false` at its start; with one it gives up only when its time is over. */
  predicate Patient(link: Link) {
    && (!link.channel ==> link.results == [Result(None, link.started)])
    && (link.channel && link.results != [] && link.results[0].teller == None ==>
          link.results[0].at >= Deadline(link))
  }

  ghost predicate AllPatient(w: World) {
    forall i :: 0 <= i < |w.links| ==> Patient(w.links[i])
  }

  lemma StepPatient(w: World, e: Event)
    requires Good(w) && AllPatient(w)
    ensures AllPatient(Step(w, e))
  {
  }

  lemma {:induction false} RunPatient(w: World, events: seq<Event>)
    requires Good(w) && AllPatient(w)
    ensures AllPatient(Run(w, events))
    decreases |events|
  {
    if events != [] {
      StepPatient(w, events[0]);
      StepGood(w, events[0]);
      RunPatient(Step(w, events[0]), events[1..]);
    }
  }

  /** A link with a channel gives up only after 400 ms with nobody there, or 5 s after the last « heard ». */
  lemma GivesUpLate(events: seq<Event>, i: nat)
    ensures var w := Run(CLOSED, events); i < |w.links| ==> Patient(w.links[i])
  {
    RunPatient(CLOSED, events);
  }

  /** Whatever happened before, time alone resolves a link: nothing leaves it waiting for good. */
  lemma TimeResolves(events: seq<Event>, i: nat)
    requires i < |Run(CLOSED, events).links| && Run(CLOSED, events).links[i].results == []
    ensures var w := Run(CLOSED, events);
      var late := Step(Step(w, Passing(Deadline(w.links[i]))), Expiring(i));
      late.links[i].results == [Result(None, w.now + Deadline(w.links[i]))]
  {
    RunGood(events);
    assert LinkGood(Run(CLOSED, events).links[i]);
  }

  // ---------- what each tab does ----------

  /** A word of a tab is on its way to every tab that is there. */
  ghost predicate IsTold(w: World, word: Word, from: Tab, at: nat) {
    && (forall i: nat :: i < |w.links| ==> Message(word, from, at, OfLink(i)) in w.messages)
    && (forall i: nat :: i < |w.waiters| ==> Message(word, from, at, OfWaiter(i)) in w.messages)
  }

  lemma {:induction false} SaidIsTold(w: World, from: Tab, word: Word)
    ensures var after := Said(w, from, [word]);
      IsTold(after, word, from, w.now) && after == w.(messages := after.messages) && w.messages <= after.messages
  {
    var posted := Post(word, from, w.now, |w.links|, |w.waiters|);
    forall m | m in posted
      ensures m in w.messages + posted
    {
    }
  }

  /** A tab that announces with a channel waits 400 ms, and every tab is told; with none it has its answer. */
  lemma {:induction false} Opens(w: World, channel: bool)
    ensures var after, n := Step(w, Opening(channel)), |w.links|;
      && |after.links| == n + 1 && after.links[..n] == w.links && after.waiters == w.waiters && after.now == w.now
      && (channel ==> after.links[n] == Link(true, w.now, None, Some(w.now + 400), true, [])
                      && IsTold(after, SignedIn, OfLink(n), w.now))
      && (!channel ==> after.links[n] == Link(false, w.now, None, None, false, [Result(None, w.now)])
                       && after.messages == w.messages)
  {
    if channel {
      var link := Link(true, w.now, None, Some(w.now + 400), true, []);
      SaidIsTold(w.(links := w.links + [link]), OfLink(|w.links|), SignedIn);
    }
  }

  /** A waiting tab that hears of a sign-in says « heard » to all, and asks the worker once more. */
  lemma {:induction false} WaiterHearsOf(w: World, k: nat, i: nat)
    requires k < |w.messages| && w.messages[k].word == SignedIn && w.messages[k].to == OfWaiter(i)
    requires i < |w.waiters| && !w.waiters[i].stopped
    ensures var after, waiter := Step(w, Delivering(k)), w.waiters[i];
      && after.waiters == w.waiters[i := waiter.(heard := waiter.heard + 1, asking := waiter.asking + 1)]
      && after.links == w.links && IsTold(after, Heard, OfWaiter(i), w.now)
  {
    var rest := w.(messages := w.messages[..k] + w.messages[k + 1..]);
    var waiter := w.waiters[i].(heard := w.waiters[i].heard + 1, asking := w.waiters[i].asking + 1);
    SaidIsTold(rest.(waiters := rest.waiters[i := waiter]), OfWaiter(i), Heard);
  }

  /** On the yes of the worker, a tab that was not stopped carries on then, and says so to all; else it does not. */
  lemma {:induction false} CarriesOnExactly(w: World, i: nat, yes: bool)
    requires i < |w.waiters| && w.waiters[i].asking > 0
    ensures var after := Step(w, Answering(i, yes));
      && |after.waiters| == |w.waiters| && after.links == w.links && after.now == w.now
      && after.waiters[i].asking == w.waiters[i].asking - 1 && after.waiters[i].stopped == w.waiters[i].stopped
      && (forall j :: 0 <= j < |w.waiters| && j != i ==> after.waiters[j] == w.waiters[j])
      && (yes && !w.waiters[i].stopped ==>
            after.waiters[i].carried == w.waiters[i].carried + [w.now] && IsTold(after, CarriedOn, OfWaiter(i), w.now))
      && (!yes || w.waiters[i].stopped ==>
            after.waiters[i].carried == w.waiters[i].carried && after.messages == w.messages)
  {
    if yes && !w.waiters[i].stopped {
      var (waiter, words) := WaiterAnswered(w.waiters[i], yes, w.now);
      assert words == [CarriedOn];
      SaidIsTold(w.(waiters := w.waiters[i := waiter]), OfWaiter(i), CarriedOn);
    }
  }

  /** What a word makes of a link that waits: « carried-on » is its answer, « heard » gives it 5 s from now. */
  lemma {:induction false} LinkIsTold(w: World, k: nat, i: nat)
    requires Good(w) && k < |w.messages| && w.messages[k].to == OfLink(i) && i < |w.links|
    ensures var after, m, link := Step(w, Delivering(k)), w.messages[k], w.links[i];
      && |after.links| == |w.links| && after.waiters == w.waiters && after.now == w.now
      && (link.results == [] && m.word == CarriedOn ==>
            after.links[i].results == [Result(Some(m.from), w.now)] && after.links[i].due == None)
      && (link.results == [] && m.word == Heard ==>
            after.links[i].results == [] && after.links[i].due == Some(w.now + 5000))
      && (link.results != [] || m.word == SignedIn ==> after.links[i] == link)
  {
    assert LinkGood(w.links[i]);
  }

  /** What is on its way stays so until it is delivered. */
  lemma {:induction false} MessagesStay(w: World, e: Event, m: Message)
    requires m in w.messages
    requires !e.Delivering? || (e.message < |w.messages| && w.messages[e.message] != m)
    ensures m in Step(w, e).messages
  {
    if e.Delivering? {
      var rest := w.messages[..e.message] + w.messages[e.message + 1..];
      var j :| 0 <= j < |w.messages| && w.messages[j] == m;
      assert rest[if j < e.message then j else j - 1] == m;
    }
  }

  lemma {:induction false} PlaceOf(w: World, m: Message) returns (k: nat)
    requires m in w.messages
    ensures k < |w.messages| && w.messages[k] == m
  {
    k :| 0 <= k < |w.messages| && w.messages[k] == m;
  }

  /**
   * The handshake: with a tab that waits and a yes of the worker, a link that is opened is told by that
   * tab, which carried on, as soon as the messages between them arrive.
   */
  lemma {:induction false} HandshakeWorks(w: World, i: nat) returns (events: seq<Event>)
    requires Good(w) && i < |w.waiters| && !w.waiters[i].stopped
    ensures var after := Run(w, events);
      && |after.links| == |w.links| + 1
      && after.links[|w.links|].results == [Result(Some(OfWaiter(i)), w.now)]
      && i < |after.waiters| && after.waiters[i].carried == w.waiters[i].carried + [w.now]
  {
    var n := |w.links|;
    var begun := Step(w, Opening(true));
    Opens(w, true);
    StepGood(w, Opening(true));
    var k := PlaceOf(begun, Message(SignedIn, OfLink(n), w.now, OfWaiter(i)));
    var asked := Step(begun, Delivering(k));
    WaiterHearsOf(begun, k, i);
    StepGood(begun, Delivering(k));
    var answered := Step(asked, Answering(i, true));
    StaysNow(begun, k);
    CarriesOnExactly(asked, i, true);
    StepGood(asked, Answering(i, true));
    var q := PlaceOf(answered, Message(CarriedOn, OfWaiter(i), w.now, OfLink(n)));
    LinkIsTold(answered, q, n);
    events := [Opening(true), Delivering(k), Answering(i, true), Delivering(q)];
    RunOfFour(w, events);
  }

  lemma {:induction false} StaysNow(w: World, k: nat)
    ensures Step(w, Delivering(k)).now == w.now
  {
  }

  lemma {:induction false} RunOfFour(w: World, events: seq<Event>)
    requires |events| == 4
    ensures Run(w, events) == Step(Step(Step(Step(w, events[0]), events[1]), events[2]), events[3])
  {
    var w1 := Step(w, events[0]);
    var w2 := Step(w1, events[1]);
    var w3 := Step(w2, events[2]);
    assert Run(w, events) == Run(w1, events[1..]);
    assert events[1..][1..] == events[2..] && Run(w1, events[1..]) == Run(w2, events[2..]);
    assert events[2..][1..] == events[3..] && Run(w2, events[2..]) == Run(w3, events[3..]);
    assert events[3..][1..] == [];
  }

  /** A tab that comes to wait is not stopped, and one that is stopped stays where it was otherwise. */
  lemma {:induction false} ComesAndStops(w: World, i: nat)
    ensures Step(w, Arriving) == w.(waiters := w.waiters + [Waiter(false, 0, 0, 0, [])])
    ensures i < |w.waiters| ==>
      Step(w, Stopping(i)) == w.(waiters := w.waiters[i := w.waiters[i].(stopped := true)])
  {
  }

  /** A waiting tab hears nothing but « signed-in », and nothing at all once it stopped. */
  lemma {:induction false} WaiterIgnores(w: World, k: nat, i: nat)
    requires k < |w.messages| && w.messages[k].to == OfWaiter(i) && i < |w.waiters|
    requires w.messages[k].word != SignedIn || w.waiters[i].stopped
    ensures Step(w, Delivering(k)) == w.(messages := w.messages[..k] + w.messages[k + 1..])
  {
  }
}
