/** The key of a status the team adds: made from its name, and unlike every key that is taken. */
module FreshKey {
  import opened Decimals
  import opened Ordering
  import SiteStatuses

  const LONGEST_BASE: nat := 48

  const LONGEST_KEY: nat := 64

  predicate IsPlain(c: char) {
    'a' <= c <= 'z' || '0' <= c <= '9'
  }

  /** What the worker takes in a key. */
  predicate IsKeyCharacter(c: char) {
    IsPlain(c) || 'A' <= c <= 'Z' || c == '_' || c == ':' || c == '-'
  }

  predicate IsKey(s: string) {
    1 <= |s| <= LONGEST_KEY && forall i :: 0 <= i < |s| ==> IsKeyCharacter(s[i])
  }

  /** Each run of other characters as one hyphen. */
  function Hyphenated(s: string): string {
    if s == [] then []
    else
      var front := Hyphenated(s[..|s| - 1]);
      var last := s[|s| - 1];
      if IsPlain(last) then front + [last]
      else if front != [] && front[|front| - 1] == '-' then front
      else front + ['-']
  }

  function TrimStart(s: string): string {
    if s != [] && s[0] == '-' then TrimStart(s[1..]) else s
  }

  function TrimEnd(s: string): string {
    if s != [] && s[|s| - 1] == '-' then TrimEnd(s[..|s| - 1]) else s
  }

  function Cut(s: string): string {
    if |s| <= LONGEST_BASE then s else s[..LONGEST_BASE]
  }

  /** The base of a key, from a name in lower case without accents; empty when no character of it is plain. */
  function Slug(name: string): string {
    TrimEnd(Cut(TrimEnd(TrimStart(Hyphenated(name)))))
  }

  // ---------- the shape of a base ----------

  predicate Spaced(s: string) {
    && (forall i :: 0 <= i < |s| ==> IsPlain(s[i]) || s[i] == '-')
    && (forall i :: 0 < i < |s| ==> s[i - 1] != '-' || s[i] != '-')
  }

  /** Plain words with one hyphen between two of them. */
  predicate Neat(s: string) {
    Spaced(s) && (s != [] ==> s[0] != '-' && s[|s| - 1] != '-')
  }

  predicate HasPlain(s: string) {
    exists i :: 0 <= i < |s| && IsPlain(s[i])
  }

  lemma {:induction false} HyphenatedShape(s: string)
    ensures Spaced(Hyphenated(s))
    ensures HasPlain(Hyphenated(s)) <==> HasPlain(s)
  {
    if s != [] {
      var front := s[..|s| - 1];
      var last := s[|s| - 1];
      HyphenatedShape(front);
      assert s == front + [last];
      PlainAppend(front, last);
      PlainAppend(Hyphenated(front), last);
      PlainAppend(Hyphenated(front), '-');
    }
  }

  lemma PlainAppend(s: string, c: char)
    ensures HasPlain(s + [c]) <==> HasPlain(s) || IsPlain(c)
  {
    var both := s + [c];
    if HasPlain(s) {
      var i :| 0 <= i < |s| && IsPlain(s[i]);
      assert IsPlain(both[i]);
    }
    if IsPlain(c) {
      assert IsPlain(both[|s|]);
    }
  }

  /** At most the first character of a spaced text is a hyphen before a plain one. */
  lemma {:induction false} TrimStartShape(s: string)
    requires Spaced(s)
    ensures Spaced(TrimStart(s)) && (TrimStart(s) != [] ==> TrimStart(s)[0] != '-')
    ensures HasPlain(TrimStart(s)) <==> HasPlain(s)
  {
    if s != [] && s[0] == '-' {
      var rest := s[1..];
      TrimStartShape(rest);
      if HasPlain(s) {
        var i :| 0 <= i < |s| && IsPlain(s[i]);
        assert IsPlain(rest[i - 1]);
      }
      if HasPlain(rest) {
        var i :| 0 <= i < |rest| && IsPlain(rest[i]);
        assert IsPlain(s[i + 1]);
      }
    }
  }

  lemma {:induction false} TrimEndShape(s: string)
    requires Spaced(s)
    requires s != [] ==> s[0] != '-'
    ensures Neat(TrimEnd(s)) && TrimEnd(s) <= s && (TrimEnd(s) == [] <==> s == [])
  {
    if s != [] && s[|s| - 1] == '-' {
      TrimEndShape(s[..|s| - 1]);
    }
  }

  /** A base is neat and short, and there is one exactly when the name holds a plain character. */
  lemma SlugShape(name: string)
    ensures Neat(Slug(name)) && |Slug(name)| <= LONGEST_BASE
    ensures Slug(name) == [] <==> !HasPlain(name)
  {
    var hyphenated := Hyphenated(name);
    HyphenatedShape(name);
    TrimStartShape(hyphenated);
    var started := TrimStart(hyphenated);
    if started != [] {
      assert IsPlain(started[0]);
    }
    TrimEndShape(started);
    var trimmed := TrimEnd(started);
    TrimEndShape(Cut(trimmed));
  }

  lemma {:induction false} SpacedIsHyphenated(s: string)
    requires Spaced(s)
    ensures Hyphenated(s) == s
  {
    if s != [] {
      SpacedIsHyphenated(s[..|s| - 1]);
      assert s == s[..|s| - 1] + [s[|s| - 1]];
    }
  }

  /** Only the characters that are not plain change: a text that is a base already is its own base. */
  lemma SlugOfBase(s: string)
    requires Neat(s) && |s| <= LONGEST_BASE
    ensures Slug(s) == s
  {
    SpacedIsHyphenated(s);
  }

  lemma SlugTwice(name: string)
    ensures Slug(Slug(name)) == Slug(name)
  {
    SlugShape(name);
    SlugOfBase(Slug(name));
  }

  // ---------- the suffixes ----------

  /** The key tried at the turn `k`: the base, then the base with each number from 2. */
  function Candidate(base: string, k: nat): string {
    if k <= 1 then base else base + "-" + Decimal(k)
  }

  lemma CandidatesDistinct(base: string, j: nat, k: nat)
    requires 1 <= j && 1 <= k && Candidate(base, j) == Candidate(base, k)
    ensures j == k
  {
    ReadsBack(j);
    ReadsBack(k);
    if j > 1 {
      assert Candidate(base, j)[|base| + 1..] == Decimal(j);
    }
    if k > 1 {
      assert Candidate(base, k)[|base| + 1..] == Decimal(k);
    }
  }

  function Candidates(base: string, k: nat): (r: set<string>) {
    if k == 0 then {} else Candidates(base, k - 1) + {Candidate(base, k)}
  }

  lemma {:induction false} CandidateTurn(base: string, k: nat, s: string) returns (j: nat)
    requires s in Candidates(base, k)
    ensures 1 <= j <= k && s == Candidate(base, j)
  {
    if s == Candidate(base, k) {
      j := k;
    } else {
      j := CandidateTurn(base, k - 1, s);
    }
  }

  lemma NextIsNew(base: string, k: nat)
    requires k > 0
    ensures Candidate(base, k) !in Candidates(base, k - 1)
  {
    if Candidate(base, k) in Candidates(base, k - 1) {
      var j := CandidateTurn(base, k - 1, Candidate(base, k));
      CandidatesDistinct(base, j, k);
    }
  }

  lemma OneMore<T>(before: set<T>, last: T, all: set<T>)
    requires last !in before && all == before + {last}
    ensures |all| == |before| + 1
  {
  }

  lemma {:induction false} CountCandidates(base: string, k: nat)
    ensures |Candidates(base, k)| == k
  {
    if k > 0 {
      CountCandidates(base, k - 1);
      NextIsNew(base, k);
      OneMore(Candidates(base, k - 1), Candidate(base, k), Candidates(base, k));
    }
  }

  /** No more turns end on a taken key than there are taken keys. */
  lemma TakenTurns(base: string, used: set<string>, k: nat)
    requires forall j :: 1 <= j <= k ==> Candidate(base, j) in used
    ensures k <= |used|
  {
    CountCandidates(base, k);
    forall s | s in Candidates(base, k) ensures s in used {
      var j := CandidateTurn(base, k, s);
    }
    SubsetSize(Candidates(base, k), used);
  }

  lemma SubsetSize<T>(inner: set<T>, outer: set<T>)
    requires inner <= outer
    ensures |inner| <= |outer|
  {
    assert outer == inner + (outer - inner);
  }

  predicate TakenBefore(base: string, used: set<string>, k: nat) {
    forall j :: 1 <= j < k ==> Candidate(base, j) in used
  }

  predicate FirstFree(base: string, used: set<string>, k: nat) {
    k >= 1 && Candidate(base, k) !in used && TakenBefore(base, used, k)
  }

  /** The first turn whose key is free. */
  function FreeTurn(base: string, used: set<string>, from: nat): (k: nat)
    requires from >= 1 && TakenBefore(base, used, from)
    ensures FirstFree(base, used, k) && k <= |used| + 1
    decreases |used| + 1 - from
  {
    TakenTurns(base, used, from - 1);
    if Candidate(base, from) !in used then from
    else
      TakenTurns(base, used, from);
      FreeTurn(base, used, from + 1)
  }

  lemma FirstFreeUnique(base: string, used: set<string>, j: nat, k: nat)
    requires FirstFree(base, used, j) && FirstFree(base, used, k)
    ensures j == k
  {
  }

  function StageKeys(): set<string> {
    set pair | pair in SiteStatuses.NOTE_STAGES :: pair.0
  }

  function Drawn(random: string): string {
    "status-" + random
  }

  /** What the source draws: at most six characters of a number in base 36. */
  predicate IsDraw(random: string) {
    1 <= |random| <= 6 && forall i :: 0 <= i < |random| ==> IsPlain(random[i])
  }

  function BaseOf(name: string, random: string): string {
    if Slug(name) != [] then Slug(name) else Drawn(random)
  }

  lemma BaseShape(name: string, random: string)
    requires IsDraw(random)
    ensures 1 <= |BaseOf(name, random)| <= LONGEST_BASE
    ensures forall i :: 0 <= i < |BaseOf(name, random)| ==> IsKeyCharacter(BaseOf(name, random)[i])
  {
    SlugShape(name);
  }

  /** Any number a list of statuses can come to leaves the key short enough for the worker. */
  lemma CandidateIsKey(name: string, random: string, k: nat)
    requires IsDraw(random)
    requires k < PowerOfTen(15)
    ensures IsKey(Candidate(BaseOf(name, random), k))
  {
    BaseShape(name, random);
    if k > 1 {
      DecimalLength(k, 15);
      assert IsDigits(Decimal(k));
      forall i | 0 <= i < |Decimal(k)| ensures IsKeyCharacter(Decimal(k)[i]) {
        DigitIsPlain(Decimal(k)[i]);
      }
    }
  }

  lemma DigitIsPlain(c: char)
    requires c in DIGITS
    ensures IsPlain(c)
  {
  }

  /** The key of a name: the first free one, or a drawn one where the worker would refuse it. */
  function KeyOf(name: string, taken: set<string>, random: string, again: string): string {
    var base := BaseOf(name, random);
    var found := Candidate(base, FreeTurn(base, taken + StageKeys(), 1));
    if IsKey(found) then found else Drawn(again)
  }

  method KeyFor(name: string, taken: set<string>, random: string, again: string) returns (key: string)
    requires IsDraw(random)
    ensures key == KeyOf(name, taken, random, again)
    ensures |taken + StageKeys()| + 1 < PowerOfTen(15) ==>
      IsKey(key) && key !in taken && key !in StageKeys() && BaseOf(name, random) <= key
  {
    var used := taken + StageKeys();
    var base := BaseOf(name, random);
    key := base;
    var suffix := 2;
    while key in used
      invariant suffix >= 2 && key == Candidate(base, suffix - 1)
      invariant TakenBefore(base, used, suffix - 1)
      decreases |used| + 2 - suffix
    {
      assert TakenBefore(base, used, suffix);
      TakenTurns(base, used, suffix - 1);
      key := base + "-" + Decimal(suffix);
      suffix := suffix + 1;
    }
    ghost var turn := FreeTurn(base, used, 1);
    FirstFreeUnique(base, used, turn, suffix - 1);
    if turn < PowerOfTen(15) {
      CandidateIsKey(name, random, turn);
    }
    if !IsKey(key) {
      key := Drawn(again);
    }
  }

  /** The last draw is out of reach while fewer keys are taken than fifteen digits count. */
  lemma {:induction false} KeyIsFresh(name: string, taken: set<string>, random: string, again: string)
    requires IsDraw(random)
    requires |taken + StageKeys()| + 1 < PowerOfTen(15)
    ensures var key := KeyOf(name, taken, random, again);
      IsKey(key) && key !in taken && key !in StageKeys() && BaseOf(name, random) <= key
  {
    var base := BaseOf(name, random);
    CandidateIsKey(name, random, FreeTurn(base, taken + StageKeys(), 1));
  }

  // ---------- statuses added one after another ----------

  datatype Added = Added(name: string, random: string, again: string)

  /** The keys of a team that adds statuses in turn, each unlike the ones before it. */
  function KeysOf(names: seq<Added>, taken: set<string>): (r: seq<string>)
    ensures |r| == |names|
    decreases |names|
  {
    if names == [] then []
    else
      var key := KeyOf(names[0].name, taken, names[0].random, names[0].again);
      [key] + KeysOf(names[1..], taken + {key})
  }

  lemma OneMoreTaken(taken: set<string>, key: string, built: set<string>)
    ensures |(taken + {key}) + built| <= |taken + built| + 1
  {
    assert (taken + {key}) + built == (taken + built) + {key};
  }

  /** However many statuses are added, whatever their names: no two share a key, and none takes a built-in one. */
  lemma {:induction false} AddedKeysDistinct(names: seq<Added>, taken: set<string>)
    requires forall i :: 0 <= i < |names| ==> IsDraw(names[i].random)
    requires |taken + StageKeys()| + |names| < PowerOfTen(15)
    ensures Distinct(KeysOf(names, taken))
    ensures forall key :: key in KeysOf(names, taken) ==> IsKey(key) && key !in taken && key !in StageKeys()
    decreases |names|
  {
    if names != [] {
      var one := names[0];
      var key := KeyOf(one.name, taken, one.random, one.again);
      KeyIsFresh(one.name, taken, one.random, one.again);
      OneMoreTaken(taken, key, StageKeys());
      AddedKeysDistinct(names[1..], taken + {key});
      var rest := KeysOf(names[1..], taken + {key});
      assert KeysOf(names, taken) == [key] + rest;
      assert key !in rest;
    }
  }

  // ---------- a base, from the words of a name ----------

  ghost predicate AllPlain(s: string) {
    forall i :: 0 <= i < |s| ==> IsPlain(s[i])
  }

  ghost predicate NonePlain(s: string) {
    forall i :: 0 <= i < |s| ==> !IsPlain(s[i])
  }

  /** `words` are the runs of plain characters of a name, in their order, and `gaps` what is around them. */
  ghost predicate SplitsInto(words: seq<string>, gaps: seq<string>) {
    && |gaps| == |words| + 1
    && (forall i :: 0 <= i < |words| ==> words[i] != [] && AllPlain(words[i]))
    && (forall i :: 0 <= i < |gaps| ==> NonePlain(gaps[i]))
    && (forall i :: 0 < i < |words| ==> gaps[i] != [])
  }

  /** The name again, up to the gap after so many words. */
  function NameTo(words: seq<string>, gaps: seq<string>, n: nat): string
    requires n <= |words| && |gaps| == |words| + 1
  {
    if n == 0 then gaps[0] else NameTo(words, gaps, n - 1) + words[n - 1] + gaps[n]
  }

  /** So many words, with a hyphen between two. */
  function JoinedTo(words: seq<string>, n: nat): string
    requires n <= |words|
  {
    if n == 0 then [] else if n == 1 then words[0] else JoinedTo(words, n - 1) + "-" + words[n - 1]
  }

  lemma {:induction false} HyphenatedWord(front: string, word: string)
    requires AllPlain(word)
    ensures Hyphenated(front + word) == Hyphenated(front) + word
  {
    if word == [] {
      assert front + word == front;
    } else {
      var n := |word| - 1;
      assert (front + word)[..|front + word| - 1] == front + word[..n];
      HyphenatedWord(front, word[..n]);
    }
  }

  lemma {:induction false} HyphenatedGap(front: string, gap: string)
    requires NonePlain(gap) && gap != []
    ensures var before := Hyphenated(front);
      Hyphenated(front + gap)
      == if before != [] && before[|before| - 1] == '-' then before else before + ['-']
  {
    var n := |gap| - 1;
    assert (front + gap)[..|front + gap| - 1] == front + gap[..n];
    if n == 0 {
      assert front + gap[..n] == front;
    } else {
      HyphenatedGap(front, gap[..n]);
    }
  }

  function Edge(gap: string): string {
    if gap == [] then [] else "-"
  }

  lemma {:induction false} JoinedEnds(words: seq<string>, gaps: seq<string>, n: nat)
    requires SplitsInto(words, gaps) && 0 < n <= |words|
    ensures var joined := JoinedTo(words, n);
      joined != [] && joined[0] != '-' && joined[|joined| - 1] != '-'
  {
    var word := words[n - 1];
    assert IsPlain(word[0]) && IsPlain(word[|word| - 1]);
    if n > 1 {
      JoinedEnds(words, gaps, n - 1);
    }
  }

  lemma {:induction false} HyphenatedName(words: seq<string>, gaps: seq<string>, n: nat)
    requires SplitsInto(words, gaps) && 0 < n <= |words|
    ensures Hyphenated(NameTo(words, gaps, n)) == Edge(gaps[0]) + JoinedTo(words, n) + Edge(gaps[n])
  {
    var word := words[n - 1];
    var before := NameTo(words, gaps, n - 1);
    HyphenatedWord(before, word);
    JoinedEnds(words, gaps, n);
    if n == 1 {
      FirstGap(gaps[0]);
    } else {
      HyphenatedName(words, gaps, n - 1);
      assert Edge(gaps[n - 1]) == "-";
      Joins(Edge(gaps[0]), JoinedTo(words, n - 1), word);
    }
    assert Hyphenated(before + word) == Edge(gaps[0]) + JoinedTo(words, n);
    AfterWord(before + word, Edge(gaps[0]), JoinedTo(words, n), gaps[n]);
  }

  lemma FirstGap(gap: string)
    requires NonePlain(gap)
    ensures Hyphenated(gap) == Edge(gap)
  {
    if gap != [] {
      assert [] + gap == gap;
      HyphenatedGap([], gap);
    }
  }

  lemma Joins(edge: string, joined: string, word: string)
    ensures edge + joined + "-" + word == edge + (joined + "-" + word)
  {
  }

  lemma AfterWord(front: string, edge: string, joined: string, gap: string)
    requires NonePlain(gap) && Hyphenated(front) == edge + joined && joined != [] && joined[|joined| - 1] != '-'
    ensures Hyphenated(front + gap) == edge + joined + Edge(gap)
  {
    if gap == [] {
      assert front + gap == front;
      assert edge + joined + Edge(gap) == edge + joined;
    } else {
      HyphenatedGap(front, gap);
      assert (edge + joined)[|edge + joined| - 1] == joined[|joined| - 1];
    }
  }

  lemma {:induction false} Trimmed(left: string, joined: string, right: string)
    requires (left == [] || left == "-") && (right == [] || right == "-")
    requires joined != [] && joined[0] != '-' && joined[|joined| - 1] != '-'
    ensures TrimEnd(TrimStart(left + joined + right)) == joined
  {
    var all := left + joined + right;
    if left != [] {
      assert all[1..] == joined + right;
    } else {
      assert all == joined + right;
    }
    assert TrimStart(joined + right) == joined + right;
    if right != [] {
      assert (joined + right)[..|joined + right| - 1] == joined;
    } else {
      assert joined + right == joined;
    }
  }

  lemma {:induction false} HyphenatedShort(words: seq<string>, gaps: seq<string>, n: nat)
    requires SplitsInto(words, gaps) && n <= |words|
    ensures Spaced(JoinedTo(words, n))
  {
    if n > 0 {
      var word := words[n - 1];
      assert forall i :: 0 <= i < |word| ==> IsPlain(word[i]) && word[i] != '-';
      if n > 1 {
        HyphenatedShort(words, gaps, n - 1);
        JoinedEnds(words, gaps, n - 1);
      }
    }
  }

  lemma {:induction false} CutAt(joined: string)
    requires Spaced(joined) && (joined != [] ==> joined[0] != '-' && joined[|joined| - 1] != '-')
    ensures TrimEnd(Cut(joined))
         == if |joined| <= 48 then joined else if joined[47] == '-' then joined[..47] else joined[..48]
  {
    if |joined| > 48 {
      var cut := joined[..48];
      assert cut[..47] == joined[..47] && cut[47] == joined[47];
      if joined[47] == '-' {
        assert joined[46] != '-' && TrimEnd(joined[..47]) == joined[..47];
      }
    }
  }

  /**
   * The base of a name is its words of plain characters, in their order and in full, with a hyphen between
   * two; of a long name its first 48 characters, without a hyphen at the end.
   */
  lemma {:induction false} SlugExactly(words: seq<string>, gaps: seq<string>)
    requires SplitsInto(words, gaps)
    ensures var joined := JoinedTo(words, |words|);
      Slug(NameTo(words, gaps, |words|))
      == if |joined| <= 48 then joined else if joined[47] == '-' then joined[..47] else joined[..48]
  {
    var n, joined := |words|, JoinedTo(words, |words|);
    if n == 0 {
      FirstGap(gaps[0]);
      assert "-"[1..] == [];
      assert TrimStart(Edge(gaps[0])) == [] && TrimEnd([]) == [] && Cut([]) == [];
    } else {
      HyphenatedName(words, gaps, n);
      JoinedEnds(words, gaps, n);
      Trimmed(Edge(gaps[0]), joined, Edge(gaps[n]));
      HyphenatedShort(words, gaps, n);
      CutAt(joined);
    }
  }

  /** Every name has such words. */
  lemma {:induction false} WordsOf(name: string) returns (words: seq<string>, gaps: seq<string>)
    ensures SplitsInto(words, gaps) && NameTo(words, gaps, |words|) == name
  {
    if name == [] {
      words, gaps := [], [[]];
    } else {
      var m := |name| - 1;
      var before, around := WordsOf(name[..m]);
      var n := |before|;
      assert name == name[..m] + [name[m]];
      if !IsPlain(name[m]) {
        words, gaps := before, around[n := around[n] + [name[m]]];
        SameBefore(before, around, gaps, n);
      } else if n > 0 && around[n] == [] {
        words, gaps := before[n - 1 := before[n - 1] + [name[m]]], around;
        SameWords(before, words, gaps, n - 1);
      } else {
        words, gaps := before + [[name[m]]], around + [[]];
        LongerName(before, around, words, gaps, n);
      }
    }
  }

  lemma {:induction false} LongerName(words: seq<string>, gaps: seq<string>, more: seq<string>, wider: seq<string>,
                                      n: nat)
    requires |gaps| == |words| + 1 && |wider| == |more| + 1 && words <= more && gaps <= wider && n <= |words|
    ensures NameTo(more, wider, n) == NameTo(words, gaps, n)
  {
    if n > 0 {
      LongerName(words, gaps, more, wider, n - 1);
    }
  }

  lemma {:induction false} SameBefore(words: seq<string>, gaps: seq<string>, other: seq<string>, n: nat)
    requires |gaps| == |words| + 1 == |other| && n == |words| && other[..n] == gaps[..n]
    requires gaps[n] <= other[n]
    ensures NameTo(words, other, n) == NameTo(words, gaps, n) + other[n][|gaps[n]|..]
  {
    if n > 0 {
      PrefixName(words, gaps, other, n - 1, n);
      assert other[n] == gaps[n] + other[n][|gaps[n]|..];
    }
  }

  lemma {:induction false} PrefixName(words: seq<string>, gaps: seq<string>, other: seq<string>, k: nat, n: nat)
    requires |gaps| == |words| + 1 == |other| && k < n <= |words| && other[..n] == gaps[..n]
    ensures NameTo(words, other, k) == NameTo(words, gaps, k)
  {
    assert other[..n][k] == gaps[..n][k];
    if k > 0 {
      PrefixName(words, gaps, other, k - 1, n);
    }
  }

  lemma {:induction false} SameWords(words: seq<string>, other: seq<string>, gaps: seq<string>, n: nat)
    requires |gaps| == |words| + 1 == |other| + 1 && n < |words| == n + 1 && other[..n] == words[..n]
    requires words[n] <= other[n] && gaps[n + 1] == []
    ensures NameTo(other, gaps, n + 1) == NameTo(words, gaps, n + 1) + other[n][|words[n]|..]
  {
    PrefixWords(words, other, gaps, n, n);
    assert other[n] == words[n] + other[n][|words[n]|..];
  }

  lemma {:induction false} PrefixWords(words: seq<string>, other: seq<string>, gaps: seq<string>, k: nat, n: nat)
    requires |gaps| == |words| + 1 == |other| + 1 && k <= n < |words| && other[..n] == words[..n]
    ensures NameTo(other, gaps, k) == NameTo(words, gaps, k)
  {
    if k > 0 {
      assert other[..n][k - 1] == words[..n][k - 1];
      PrefixWords(words, other, gaps, k - 1, n);
    }
  }

  /** The key of a name: its base, or the base with the first number from 2 that makes it free. */
  lemma {:induction false} KeyExactly(name: string, taken: set<string>, random: string, again: string)
    returns (n: nat)
    requires IsDraw(random) && |taken + StageKeys()| + 1 < PowerOfTen(15)
    ensures var base := if Slug(name) == [] then "status-" + random else Slug(name);
      var used := taken + {"new", "todo", "progress", "done", "closed"};
      var key := KeyOf(name, taken, random, again);
      && n >= 1 && key == (if n == 1 then base else base + "-" + Decimal(n))
      && key !in used && (n > 1 ==> base in used)
      && forall k :: 2 <= k < n ==> base + "-" + Decimal(k) in used
  {
    var base, used := BaseOf(name, random), taken + StageKeys();
    n := FreeTurn(base, used, 1);
    CandidateIsKey(name, random, n);
    StageKeysAre();
    if n > 1 {
      assert Candidate(base, 1) in used;
    }
    forall k | 2 <= k < n
      ensures base + "-" + Decimal(k) in used
    {
      assert Candidate(base, k) in used;
    }
  }

  /** However many keys are taken: the first free key, or a drawn one, exactly when the worker refuses that one. */
  lemma {:induction false} RefusedIsDrawn(name: string, taken: set<string>, random: string, again: string)
    returns (n: nat)
    ensures var base := if Slug(name) == [] then "status-" + random else Slug(name);
      var free := if n <= 1 then base else base + "-" + Decimal(n);
      && free !in taken + StageKeys() && TakenBefore(base, taken + StageKeys(), n)
      && KeyOf(name, taken, random, again) == if IsKey(free) then free else "status-" + again
  {
    n := FreeTurn(BaseOf(name, random), taken + StageKeys(), 1);
  }

  lemma StageKeysAre()
    ensures StageKeys() == {"new", "todo", "progress", "done", "closed"}
  {
    var stages := SiteStatuses.NOTE_STAGES;
    assert stages[0].0 == "new" && stages[1].0 == "todo" && stages[2].0 == "progress";
    assert stages[3].0 == "done" && stages[4].0 == "closed";
    forall key
      ensures key in StageKeys() <==> key in {"new", "todo", "progress", "done", "closed"}
    {
      assert stages[0] in stages && stages[1] in stages && stages[2] in stages;
      assert stages[3] in stages && stages[4] in stages;
    }
  }
}
