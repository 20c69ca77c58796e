/**
 * Every run of the picker against a worker that pages a fixed list of teams: answers and failures come
 * late, in any order, twice or never.
 */
module TeamProtocol {
  import opened Options
  import opened TeamList

  /** `place`: how many teams come before each cursor the worker gives. */
  datatype Server = Server(all: seq<Team>, place: map<string, nat>)

  ghost predicate Serves(s: Server) {
    OneEach(s.all) && forall c :: c in s.place ==> s.place[c] <= |s.all|
  }

  /** A page that starts after `from` teams: the teams to some place, and the cursor of that place. */
  ghost predicate PageFrom(s: Server, from: nat, teams: seq<Team>, next: Option<string>) {
    var to := from + |teams|;
    && to <= |s.all| && teams == s.all[from..to]
    && (next == None ==> to == |s.all|)
    && (next != None ==> next.value in s.place && s.place[next.value] == to)
  }

  datatype Request = Page(after: string) | Search

  ghost predicate Answers(s: Server, request: Request, teams: seq<Team>, next: Option<string>) {
    match request
    case Page(after) => after in s.place && PageFrom(s, s.place[after], teams, next)
    case Search => forall t :: t in teams ==> t in s.all
  }

  datatype World = World(list: TeamList, requests: map<nat, Request>, next: nat)

  /** `TryAgain`: a new first page was answered, and the list starts again from it. */
  datatype Move =
    | More
    | AskWords
    | Words(query: string)
    | Arrives(id: nat, teams: seq<Team>, next: Option<string>)
    | Fails(id: nat)
    | TryAgain(teams: seq<Team>, next: Option<string>, query: string)

  ghost function Play(s: Server, w: World, m: Move): World {
    match m
    case More =>
      if w.list.cursor == None then w
      else World(Step(w.list, AskPage(w.next)), w.requests[w.next := Page(w.list.cursor.value)], w.next + 1)
    case AskWords =>
      if SearchToAsk(w.list) == None then w
      else World(Step(w.list, AskSearch(w.next)), w.requests[w.next := Search], w.next + 1)
    case Words(query) => w.(list := Step(w.list, Type(query)))
    case Arrives(id, teams, next) =>
      if id in w.requests && Answers(s, w.requests[id], teams, next)
      then w.(list := Step(w.list, Answer(id, teams, next))) else w
    case Fails(id) => if id in w.requests then w.(list := Step(w.list, Fail(id))) else w
    case TryAgain(teams, next, query) =>
      if PageFrom(s, 0, teams, next)
      then w.(list := TeamListOf(teams, next, w.next, query), next := w.next + 1) else w
  }

  ghost function Run(s: Server, w: World, moves: seq<Move>): World
    decreases |moves|
  {
    if moves == [] then w else Run(s, Play(s, w, moves[0]), moves[1..])
  }

  /** The first `n` teams of the worker are in the list. */
  ghost predicate Holds(s: Server, items: seq<Team>, n: nat) {
    n <= |s.all| && forall k :: 0 <= k < n ==> s.all[k] in items
  }

  ghost predicate Sound(s: Server, w: World) {
    var list := w.list;
    && OneEach(list.items)
    && (forall t :: t in list.items ==> t in s.all)
    && (list.cursor != None ==> list.cursor.value in s.place && Holds(s, list.items, s.place[list.cursor.value]))
    && (list.cursor == None ==> Holds(s, list.items, |s.all|))
    && (list.status == LoadingPage ==>
          list.cursor != None && list.requestId in w.requests && w.requests[list.requestId] == Page(list.cursor.value))
    && (list.status == Searching ==> list.requestId in w.requests && w.requests[list.requestId] == Search)
    && list.requestId < w.next
    && (forall id :: id in w.requests ==> id < w.next)
  }

  /** The teams of an answer are all in the list after it, and the ones before stay. */
  lemma AnswerHeld(s: Server, items: seq<Team>, teams: seq<Team>)
    requires OneEach(s.all) && OneEach(items)
    requires (forall t :: t in items ==> t in s.all) && (forall t :: t in teams ==> t in s.all)
    ensures var r := WithTeams(items, teams);
            && OneEach(r) && items <= r
            && (forall t :: t in r ==> t in s.all)
            && (forall t :: t in items || t in teams ==> t in r)
  {
    var r := WithTeams(items, teams);
    WithTeamsKeeps(items, teams);
    forall t | t in teams
      ensures t in r
    {
      var i :| 0 <= i < |teams| && teams[i] == t;
      assert t.id in Ids(teams);
      var k :| 0 <= k < |r| && r[k].id == t.id;
      assert r[k] in s.all;
      var a :| 0 <= a < |s.all| && s.all[a] == r[k];
      var b :| 0 <= b < |s.all| && s.all[b] == t;
      assert a == b;
    }
  }

  lemma PageHeld(s: Server, items: seq<Team>, from: nat, teams: seq<Team>, next: Option<string>)
    requires Serves(s) && OneEach(items) && (forall t :: t in items ==> t in s.all)
    requires Holds(s, items, from) && PageFrom(s, from, teams, next)
    ensures var r := WithTeams(items, teams);
            && OneEach(r) && items <= r && (forall t :: t in r ==> t in s.all)
            && Holds(s, r, from + |teams|)
  {
    var r := WithTeams(items, teams);
    assert forall t :: t in teams ==> t in s.all;
    AnswerHeld(s, items, teams);
    forall k | 0 <= k < from + |teams|
      ensures s.all[k] in r
    {
      if k >= from {
        assert teams[k - from] == s.all[k];
      }
    }
  }

  lemma ArrivesSound(s: Server, w: World, m: Move)
    requires Serves(s) && Sound(s, w) && m.Arrives?
    ensures Sound(s, Play(s, w, m)) && w.list.items <= Play(s, w, m).list.items
  {
    if m.id in w.requests && Answers(s, w.requests[m.id], m.teams, m.next) && m.id == w.list.requestId {
      if w.list.status == LoadingPage {
        PageHeld(s, w.list.items, s.place[w.list.cursor.value], m.teams, m.next);
      } else if w.list.status == Searching {
        AnswerHeld(s, w.list.items, m.teams);
      }
    }
  }

  lemma TryAgainSound(s: Server, w: World, m: Move)
    requires Serves(s) && Sound(s, w) && m.TryAgain?
    ensures Sound(s, Play(s, w, m))
  {
    if PageFrom(s, 0, m.teams, m.next) {
      PageHeld(s, [], 0, m.teams, m.next);
    }
  }

  lemma PlaySound(s: Server, w: World, m: Move)
    requires Serves(s) && Sound(s, w)
    ensures Sound(s, Play(s, w, m)) && w.next <= Play(s, w, m).next
    ensures !m.TryAgain? ==> w.list.items <= Play(s, w, m).list.items
    ensures !m.TryAgain? && w.list.cursor == None ==> Play(s, w, m).list.cursor == None
  {
    match m
    case Arrives(_, _, _) => ArrivesSound(s, w, m);
    case TryAgain(_, _, _) => TryAgainSound(s, w, m);
    case _ =>
  }

  /** What every run keeps: each team once, every team before the cursor, a page on its way only to a next page. */
  lemma {:induction false} RunSound(s: Server, w: World, moves: seq<Move>)
    requires Serves(s) && Sound(s, w)
    ensures Sound(s, Run(s, w, moves))
    decreases |moves|
  {
    if moves != [] {
      PlaySound(s, w, moves[0]);
      RunSound(s, Play(s, w, moves[0]), moves[1..]);
    }
  }

  /** The list of a first page, before anything was asked of it. */
  lemma FirstPageSound(s: Server, teams: seq<Team>, next: Option<string>, query: string)
    requires Serves(s) && PageFrom(s, 0, teams, next)
    ensures Sound(s, World(TeamListOf(teams, next, 0, query), map[], 1))
  {
    PageHeld(s, [], 0, teams, next);
  }

  ghost predicate NoRestart(moves: seq<Move>) {
    forall i :: 0 <= i < |moves| ==> !moves[i].TryAgain?
  }

  /** Until « Try again », the list only grows at its end, and a list that was complete stays so. */
  lemma {:induction false} OnlyAppends(s: Server, w: World, moves: seq<Move>)
    requires Serves(s) && Sound(s, w) && NoRestart(moves)
    ensures w.list.items <= Run(s, w, moves).list.items
    ensures w.list.cursor == None ==> Run(s, w, moves).list.cursor == None
    decreases |moves|
  {
    if moves != [] {
      PlaySound(s, w, moves[0]);
      OnlyAppends(s, Play(s, w, moves[0]), moves[1..]);
    }
  }

  /** With no next page, the list holds exactly the teams of the worker, and no answer adds one. */
  lemma CompleteList(s: Server, w: World, moves: seq<Move>)
    requires Serves(s) && Sound(s, w) && NoRestart(moves) && w.list.cursor == None
    ensures forall t :: t in w.list.items <==> t in s.all
    ensures Run(s, w, moves).list.items == w.list.items
  {
    OnlyAppends(s, w, moves);
    RunSound(s, w, moves);
    var after := Run(s, w, moves).list.items;
    assert after[..|w.list.items|] == w.list.items;
    if |after| > |w.list.items| {
      LaterIsOther(after, |w.list.items|);
    }
  }

  lemma LaterIsOther(items: seq<Team>, n: nat)
    requires OneEach(items) && n < |items|
    ensures items[n] in items && items[n] !in items[..n]
  {
  }

  // ---- Which answer is used -------------------------------------------------------------------

  /** The list waits for this request. */
  ghost predicate Waits(w: World, id: nat) {
    w.list.requestId == id && (w.list.status == LoadingPage || w.list.status == Searching)
  }

  /**
   * A request that the list does not wait for is never used again: replaced by a newer one, answered,
   * failed, or of a list that « Try again » replaced.
   */
  lemma {:induction false} LateAnswersDropped(s: Server, w: World, moves: seq<Move>, id: nat, teams: seq<Team>,
                                              next: Option<string>)
    requires id < w.next && !Waits(w, id)
    ensures var now := Run(s, w, moves);
            Play(s, now, Arrives(id, teams, next)) == now
    decreases |moves|
  {
    if moves != [] {
      LateAnswersDropped(s, Play(s, w, moves[0]), moves[1..], id, teams, next);
    }
  }

  // ---- A search asked once --------------------------------------------------------------------

  ghost predicate SameWords(words: string, moves: seq<Move>) {
    forall i :: 0 <= i < |moves| ==>
      !moves[i].TryAgain? && (moves[i].Words? ==> Trim(moves[i].query) == words || Trim(moves[i].query) == "")
  }

  /** The words that were asked are not asked again while the person types no other words. */
  lemma {:induction false} AskedOnce(s: Server, w: World, moves: seq<Move>, words: string)
    requires SameWords(words, moves) && w.list.searched == Some(words)
    requires w.list.query == words || w.list.query == ""
    ensures SearchToAsk(Run(s, w, moves).list) == None
    decreases |moves|
  {
    if moves != [] {
      AskedOnce(s, Play(s, w, moves[0]), moves[1..], words);
    }
  }

  // ---- What is asked and answered -------------------------------------------------------------

  /** « More teams » asks for the page of the cursor, and for nothing when there is no next page. */
  lemma {:induction false} MoreAsks(s: Server, w: World)
    ensures var after := Play(s, w, More);
            if w.list.cursor == None then after == w
            else && after.requests == w.requests[w.next := Page(w.list.cursor.value)] && Waits(after, w.next)
                 && after.list.status == LoadingPage && after.next == w.next + 1
                 && after.list.items == w.list.items && after.list.cursor == w.list.cursor
                 && after.list.query == w.list.query && after.list.searched == w.list.searched
  {
  }

  /** The words of a list that is not complete are asked once, and waited for. */
  lemma {:induction false} WordsAsked(s: Server, w: World)
    ensures var after := Play(s, w, AskWords);
            if w.list.query == "" || w.list.cursor == None || w.list.searched == Some(w.list.query) then after == w
            else && after.requests == w.requests[w.next := Search] && Waits(after, w.next)
                 && after.list.status == Searching && after.next == w.next + 1
                 && after.list.searched == Some(w.list.query) && after.list.query == w.list.query
                 && after.list.items == w.list.items && after.list.cursor == w.list.cursor
  {
  }

  /** An answer that is waited for puts its teams in the list; a page moves the cursor on, a search does not. */
  lemma {:induction false} AnswerTaken(s: Server, w: World, id: nat, teams: seq<Team>, next: Option<string>)
    requires Serves(s) && Sound(s, w) && Waits(w, id)
    requires id in w.requests && Answers(s, w.requests[id], teams, next)
    ensures var after := Play(s, w, Arrives(id, teams, next)).list;
            && after.status == Idle && after.query == w.list.query && after.searched == w.list.searched
            && after.cursor == (if w.requests[id].Page? then next else w.list.cursor)
            && w.list.items <= after.items && OneEach(after.items)
            && (forall t :: t in after.items <==> t in w.list.items || t in teams)
  {
    if w.list.status == LoadingPage {
      assert w.requests[id] == Page(w.list.cursor.value);
      assert forall t :: t in teams ==> t in s.all;
    }
    AnswerHeld(s, w.list.items, teams);
    WithTeamsKeeps(w.list.items, teams);
  }

  /** A failure tells of the request that is waited for, or of the last one; words typed take it back. */
  lemma {:induction false} FailureShows(s: Server, w: World, id: nat, words: string)
    requires id in w.requests
    ensures var after := Play(s, w, Fails(id));
            after == if id == w.list.requestId then w.(list := w.list.(status := Error)) else w
    ensures var after := Play(s, w, Words(words));
            && after.list.query == Trim(words) && after.list.items == w.list.items
            && after.list.status == (if w.list.status == Error then Idle else w.list.status)
            && after.list.cursor == w.list.cursor && after.list.searched == w.list.searched
            && after.list.requestId == w.list.requestId && after.requests == w.requests && after.next == w.next
  {
  }

  /** From any moment, one more page can complete the list: every team of the worker is then there. */
  lemma {:induction false} CanComplete(s: Server, w: World) returns (moves: seq<Move>)
    requires Serves(s) && Sound(s, w)
    ensures var list := Run(s, w, moves).list; list.cursor == None && forall t :: t in list.items <==> t in s.all
  {
    if w.list.cursor == None {
      moves := [];
      CompleteList(s, w, []);
    } else {
      var rest := s.all[s.place[w.list.cursor.value]..];
      var asked := Play(s, w, More);
      MoreAsks(s, w);
      PlaySound(s, w, More);
      AnswerTaken(s, asked, w.next, rest, None);
      moves := [More, Arrives(w.next, rest, None)];
      assert moves[1..] == [Arrives(w.next, rest, None)] && moves[1..][1..] == [];
      PlaySound(s, asked, moves[1]);
      CompleteList(s, Play(s, asked, moves[1]), []);
    }
  }

  /** A list of a first page waits for nothing, and asks for its words at once when there is more to read. */
  lemma {:induction false} FirstPageAsks(teams: seq<Team>, next: Option<string>, requestId: nat, query: string)
    ensures var list := TeamListOf(teams, next, requestId, query);
            && list.status == Idle && list.cursor == next && list.items == WithTeams([], teams)
            && list.requestId == requestId && list.query == Trim(query)
            && SearchToAsk(list) == if Trim(query) != "" && next != None then Some(Trim(query)) else None
  {
  }
}
