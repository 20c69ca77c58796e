/** The teams of one Linear in a picker: a list that each answer of the worker moves on. */
module TeamList {
  import opened Options

  datatype Team = Team(id: string, name: string)

  datatype Status = Idle | LoadingPage | Searching | Error

  /** `query`: what is searched, with no blanks around it. `searched`: what was last asked of the worker. */
  datatype TeamList = TeamList(
    items: seq<Team>,
    cursor: Option<string>,
    query: string,
    searched: Option<string>,
    status: Status,
    requestId: nat)

  datatype Event =
    | AskPage(requestId: nat)
    | AskSearch(requestId: nat)
    | Type(query: string)
    | Answer(requestId: nat, teams: seq<Team>, next: Option<string>)
    | Fail(requestId: nat)

  function Ids(teams: seq<Team>): (r: set<string>)
    ensures forall id :: id in r <==> exists i :: 0 <= i < |teams| && teams[i].id == id
  {
    set i | 0 <= i < |teams| :: teams[i].id
  }

  /** The teams of `teams` that come first with an id that is not in `known`. */
  function Added(known: set<string>, teams: seq<Team>): seq<Team>
    decreases |teams|
  {
    if teams == [] then []
    else if teams[0].id in known then Added(known, teams[1..])
    else [teams[0]] + Added(known + {teams[0].id}, teams[1..])
  }

  function WithTeams(items: seq<Team>, teams: seq<Team>): seq<Team> {
    items + Added(Ids(items), teams)
  }

  /** The same, as a filter over a set of known ids that each kept team grows. */
  method AddTeams(items: seq<Team>, teams: seq<Team>) returns (r: seq<Team>)
    ensures r == WithTeams(items, teams)
  {
    var known := Ids(items);
    var added: seq<Team> := [];
    assert teams[0..] == teams;
    for i := 0 to |teams|
      invariant added + Added(known, teams[i..]) == Added(Ids(items), teams)
    {
      assert teams[i..][0] == teams[i] && teams[i..][1..] == teams[i + 1..];
      if teams[i].id !in known {
        ghost var rest := Added(known + {teams[i].id}, teams[i + 1..]);
        assert added + ([teams[i]] + rest) == (added + [teams[i]]) + rest;
        known := known + {teams[i].id};
        added := added + [teams[i]];
      }
    }
    r := items + added;
  }

  /** What `trim` takes away: white space and the ends of lines. */
  predicate IsSpace(c: char) {
    || '\t' <= c <= '\r' || c == ' ' || c == '\U{00A0}' || c == '\U{1680}' || '\U{2000}' <= c <= '\U{200A}'
    || '\U{2028}' <= c <= '\U{2029}' || c == '\U{202F}' || c == '\U{205F}' || c == '\U{3000}' || c == '\U{FEFF}'
  }

  function Trim(s: string): (r: string)
    ensures r != [] ==> !IsSpace(r[0]) && !IsSpace(r[|r| - 1])
  {
    if s == [] then []
    else if IsSpace(s[0]) then Trim(s[1..])
    else if IsSpace(s[|s| - 1]) then Trim(s[..|s| - 1])
    else s
  }

  function TeamListOf(teams: seq<Team>, next: Option<string>, requestId: nat, query: string): TeamList {
    TeamList(WithTeams([], teams), next, Trim(query), None, Idle, requestId)
  }

  function Step(list: TeamList, event: Event): TeamList {
    match event
    case AskPage(id) => if list.cursor == None then list else list.(status := LoadingPage, requestId := id)
    case AskSearch(id) => list.(status := Searching, searched := Some(list.query), requestId := id)
    case Type(words) =>
      list.(query := Trim(words), status := if list.status == Error then Idle else list.status)
    case Answer(id, teams, next) =>
      if id != list.requestId || (list.status != LoadingPage && list.status != Searching) then list
      else
        list.(items := WithTeams(list.items, teams),
              cursor := if list.status == LoadingPage then next else list.cursor,
              status := Idle)
    case Fail(id) => if id == list.requestId then list.(status := Error) else list
  }

  function SearchToAsk(list: TeamList): Option<string> {
    if list.query != "" && list.cursor != None && list.searched != Some(list.query) then Some(list.query) else None
  }

  // ---- Each team once -------------------------------------------------------------------------

  ghost predicate OneEach(items: seq<Team>) {
    forall i, j :: 0 <= i < j < |items| ==> items[i].id != items[j].id
  }

  lemma {:induction false} AddedFresh(known: set<string>, teams: seq<Team>)
    ensures var r := Added(known, teams);
            OneEach(r) && forall i :: 0 <= i < |r| ==> r[i].id !in known && r[i] in teams
    decreases |teams|
  {
    if teams != [] {
      assert teams == [teams[0]] + teams[1..];
      if teams[0].id in known {
        AddedFresh(known, teams[1..]);
      } else {
        AddedFresh(known + {teams[0].id}, teams[1..]);
      }
    }
  }

  lemma {:induction false} AddedAll(known: set<string>, teams: seq<Team>)
    ensures Ids(teams) <= known + Ids(Added(known, teams))
    decreases |teams|
  {
    if teams != [] {
      assert teams == [teams[0]] + teams[1..];
      IdsOfAppend([teams[0]], teams[1..]);
      assert Ids([teams[0]]) == {teams[0].id};
      if teams[0].id in known {
        AddedAll(known, teams[1..]);
      } else {
        AddedAll(known + {teams[0].id}, teams[1..]);
        IdsOfAppend([teams[0]], Added(known + {teams[0].id}, teams[1..]));
      }
    }
  }

  /** The list keeps what it held, in front; each id once; every team of the answer is there. */
  lemma WithTeamsKeeps(items: seq<Team>, teams: seq<Team>)
    requires OneEach(items)
    ensures var r := WithTeams(items, teams);
            && OneEach(r) && items <= r
            && (forall t :: t in r ==> t in items || t in teams)
            && Ids(r) == Ids(items) + Ids(teams)
  {
    var known := Ids(items);
    var added := Added(known, teams);
    var r := WithTeams(items, teams);
    AddedFresh(known, teams);
    AddedAll(known, teams);
    forall i, j | 0 <= i < j < |r|
      ensures r[i].id != r[j].id
    {
      if i < |items| <= j {
        assert items[i].id in known && added[j - |items|].id !in known;
      } else if |items| <= i {
        assert r[i] == added[i - |items|] && r[j] == added[j - |items|];
      }
    }
    IdsOfAppend(items, added);
    forall id
      ensures id in Ids(r) <==> id in known || id in Ids(teams)
    {
      if id in Ids(added) {
        var k :| 0 <= k < |added| && added[k].id == id;
        assert added[k] in teams;
      }
    }
  }

  lemma IdsOfAppend(a: seq<Team>, b: seq<Team>)
    ensures Ids(a + b) == Ids(a) + Ids(b)
  {
    forall i | 0 <= i < |b|
      ensures (a + b)[|a| + i].id == b[i].id
    {
    }
    forall id
      ensures id in Ids(a + b) <==> id in Ids(a) + Ids(b)
    {
      if id in Ids(a) {
        var k :| 0 <= k < |a| && a[k].id == id;
        assert (a + b)[k].id == id;
      }
      if id in Ids(b) {
        var k :| 0 <= k < |b| && b[k].id == id;
        assert (a + b)[|a| + k].id == id;
      }
    }
  }

  // ---- What the list does with each event -----------------------------------------------------

  /** One more team of an answer comes last, unless its id came before. */
  lemma {:induction false} OneMoreTeam(items: seq<Team>, teams: seq<Team>, team: Team)
    ensures WithTeams(items, []) == items
    ensures WithTeams(items, teams + [team])
         == WithTeams(items, teams) + if team.id in Ids(items) || team.id in Ids(teams) then [] else [team]
  {
    AddedLast(Ids(items), teams, team);
  }

  lemma {:induction false} AddedLast(known: set<string>, teams: seq<Team>, team: Team)
    ensures Added(known, teams + [team])
         == Added(known, teams) + if team.id in known || team.id in Ids(teams) then [] else [team]
    decreases |teams|
  {
    if teams == [] {
      assert teams + [team] == [team] && [team][1..] == [];
    } else {
      assert (teams + [team])[1..] == teams[1..] + [team];
      assert teams == [teams[0]] + teams[1..];
      IdsOfAppend([teams[0]], teams[1..]);
      assert Ids([teams[0]]) == {teams[0].id};
      AddedLast(if teams[0].id in known then known else known + {teams[0].id}, teams[1..], team);
    }
  }

  predicate AllSpace(s: string) {
    forall i :: 0 <= i < |s| ==> IsSpace(s[i])
  }

  lemma BlankFirst(c: char, before: string, words: string, after: string, s: string)
    requires s == [c] + (before + words + after) && IsSpace(c) && AllSpace(before)
    ensures s == ([c] + before) + words + after && AllSpace([c] + before)
  {
  }

  lemma BlankLast(c: char, before: string, words: string, after: string, s: string)
    requires s == (before + words + after) + [c] && IsSpace(c) && AllSpace(after)
    ensures s == before + words + (after + [c]) && AllSpace(after + [c])
  {
  }

  /** Trimmed words are the words between two runs of blanks. */
  lemma {:induction false} TrimMeans(s: string) returns (before: string, after: string)
    ensures s == before + Trim(s) + after && AllSpace(before) && AllSpace(after)
    ensures Trim(s) != [] ==> !IsSpace(Trim(s)[0]) && !IsSpace(Trim(s)[|Trim(s)| - 1])
    decreases |s|
  {
    before, after := [], [];
    if s != [] {
      var n := |s| - 1;
      if IsSpace(s[0]) {
        var left, right := TrimMeans(s[1..]);
        BlankFirst(s[0], left, Trim(s[1..]), right, s);
        before, after := [s[0]] + left, right;
      } else if IsSpace(s[n]) {
        var left, right := TrimMeans(s[..n]);
        BlankLast(s[n], left, Trim(s[..n]), right, s);
        before, after := left, right + [s[n]];
      }
    }
  }

  /** Words are asked of the worker exactly when they search, more is to be read, and they were not asked last. */
  lemma {:induction false} SearchToAskExactly(list: TeamList, words: string)
    ensures SearchToAsk(list) == Some(words) <==>
              words == list.query && words != "" && list.cursor != None && list.searched != Some(words)
  {
  }
}
