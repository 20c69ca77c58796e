/** Sorted copies of a list, as `Array.prototype.toSorted` makes them: a permutation, in order, and stable. */
module Ordering {

  ghost predicate Preorder<T(!new)>(le: (T, T) -> bool) {
    && (forall a, b :: le(a, b) || le(b, a))
    && (forall a, b, c :: le(a, b) && le(b, c) ==> le(a, c))
  }

  ghost predicate TotalOrder<T(!new)>(le: (T, T) -> bool) {
    && Preorder(le)
    && (forall a, b :: le(a, b) && le(b, a) ==> a == b)
  }

  ghost predicate Sorted<T>(le: (T, T) -> bool, s: seq<T>) {
    forall i, j :: 0 <= i < j < |s| ==> le(s[i], s[j])
  }

  ghost predicate Distinct<T>(s: seq<T>) {
    forall i, j :: 0 <= i < j < |s| ==> s[i] != s[j]
  }

  function Insert<T>(le: (T, T) -> bool, x: T, s: seq<T>): (r: seq<T>)
    ensures multiset(r) == multiset(s) + multiset{x}
  {
    if s == [] || le(x, s[0]) then [x] + s
    else
      assert s == [s[0]] + s[1..];
      [s[0]] + Insert(le, x, s[1..])
  }

  function Sort<T>(le: (T, T) -> bool, s: seq<T>): (r: seq<T>)
    ensures multiset(r) == multiset(s)
  {
    if s == [] then []
    else
      assert s == [s[0]] + s[1..];
      Insert(le, s[0], Sort(le, s[1..]))
  }

  lemma {:induction false} InsertSorted<T(!new)>(le: (T, T) -> bool, x: T, s: seq<T>)
    requires Preorder(le) && Sorted(le, s)
    ensures Sorted(le, Insert(le, x, s))
  {
    if s == [] || le(x, s[0]) {
    } else {
      var rest := Insert(le, x, s[1..]);
      InsertSorted(le, x, s[1..]);
      forall j | 0 <= j < |rest|
        ensures le(s[0], rest[j])
      {
        assert rest[j] in multiset(rest);
        assert rest[j] in multiset(s[1..]) || rest[j] == x;
      }
    }
  }

  lemma {:induction false} SortSorted<T(!new)>(le: (T, T) -> bool, s: seq<T>)
    requires Preorder(le)
    ensures Sorted(le, Sort(le, s))
  {
    if s != [] {
      SortSorted(le, s[1..]);
      InsertSorted(le, s[0], Sort(le, s[1..]));
    }
  }

  /** An insertion splits the list at one place, and changes nothing else. */
  lemma {:induction false} InsertSplits<T>(le: (T, T) -> bool, x: T, s: seq<T>) returns (k: nat)
    ensures k <= |s| && Insert(le, x, s) == s[..k] + [x] + s[k..]
  {
    if s == [] || le(x, s[0]) {
      k := 0;
    } else {
      var rest := InsertSplits(le, x, s[1..]);
      k := rest + 1;
      assert s[..k] == [s[0]] + s[1..][..rest];
      assert s[k..] == s[1..][rest..];
    }
  }

  lemma MultisetTail<T>(s: seq<T>)
    requires s != []
    ensures multiset(s[1..]) == multiset(s) - multiset{s[0]}
  {
    assert s == [s[0]] + s[1..];
  }

  /** No two elements of a list are as one another. */
  ghost predicate Untied<T(!new)>(le: (T, T) -> bool, s: seq<T>) {
    forall a, b :: a in s && b in s && le(a, b) && le(b, a) ==> a == b
  }

  /** With no ties there is one sorted list for each multiset: the order of the input cannot matter. */
  lemma {:induction false} SortedUnique<T(!new)>(le: (T, T) -> bool, a: seq<T>, b: seq<T>)
    requires Preorder(le) && Untied(le, a) && Sorted(le, a) && Sorted(le, b)
    requires multiset(a) == multiset(b)
    ensures a == b
  {
    assert |multiset(a)| == |a| && |multiset(b)| == |b|;
    if a != [] {
      assert a[0] in multiset(b) && |multiset(b)| > 0;
      assert b[0] in multiset(a);
      assert le(a[0], b[0]) && le(b[0], a[0]) && b[0] in a;
      MultisetTail(a);
      MultisetTail(b);
      SortedUnique(le, a[1..], b[1..]);
    }
  }

  lemma {:induction false} SortOrderFree<T(!new)>(le: (T, T) -> bool, a: seq<T>, b: seq<T>)
    requires TotalOrder(le) && multiset(a) == multiset(b)
    ensures Sort(le, a) == Sort(le, b)
  {
    SortSorted(le, a);
    SortSorted(le, b);
    SortedUnique(le, Sort(le, a), Sort(le, b));
  }

  /** Sorting a list with one more element is inserting it in the sorted list. */
  lemma {:induction false} SortAppend<T(!new)>(le: (T, T) -> bool, s: seq<T>, x: T)
    requires TotalOrder(le)
    ensures Sort(le, s + [x]) == Insert(le, x, Sort(le, s))
  {
    SortSorted(le, s);
    SortSorted(le, s + [x]);
    InsertSorted(le, x, Sort(le, s));
    SortedUnique(le, Sort(le, s + [x]), Insert(le, x, Sort(le, s)));
  }

  /** A sorted list with no ties is what its elements are sorted to, in any order. */
  lemma {:induction false} SortIs<T(!new)>(le: (T, T) -> bool, s: seq<T>, sorted: seq<T>)
    requires Preorder(le) && multiset(s) == multiset(sorted) && Sorted(le, sorted) && Untied(le, sorted)
    ensures Sort(le, s) == sorted
  {
    SortSorted(le, s);
    SortedUnique(le, sorted, Sort(le, s));
  }

  function Each<T>(f: T -> T, s: seq<T>): (r: seq<T>)
    ensures |r| == |s| && forall i :: 0 <= i < |s| ==> r[i] == f(s[i])
  {
    seq(|s|, i requires 0 <= i < |s| => f(s[i]))
  }

  lemma EachAppend<T>(f: T -> T, a: seq<T>, b: seq<T>)
    ensures Each(f, a + b) == Each(f, a) + Each(f, b)
  {
  }

  lemma SplitAt<T>(s: seq<T>, k: nat)
    requires k < |s|
    ensures s == s[..k] + [s[k]] + s[k + 1..]
    ensures multiset(s) == multiset(s[..k] + s[k + 1..]) + multiset{s[k]}
  {
    var before, after := s[..k], s[k + 1..];
    assert s == before + [s[k]] + after;
    assert multiset(before + [s[k]] + after) == multiset(before + after) + multiset{s[k]};
  }

  /** An element taken out and put last. */
  lemma TakenLast<T>(s: seq<T>, k: nat, last: seq<T>)
    requires k < |s| == |last| && last[|s| - 1] == s[k]
    requires forall i :: 0 <= i < k ==> last[i] == s[i]
    requires forall i :: k <= i < |s| - 1 ==> last[i] == s[i + 1]
    ensures multiset(last) == multiset(s)
  {
    var before, after := s[..k], s[k + 1..];
    SplitAt(s, k);
    var moved := before + after + [s[k]];
    forall i | 0 <= i < |s|
      ensures last[i] == moved[i]
    {
      if i < k {
        assert moved[i] == before[i] == s[i];
      } else if i < |s| - 1 {
        assert moved[i] == after[i - k] == s[i + 1];
      } else {
        assert moved[i] == s[k];
      }
    }
    assert last == moved;
  }

  lemma EachSplit<T>(f: T -> T, s: seq<T>, k: nat)
    requires k < |s|
    ensures multiset(Each(f, s)) == multiset(Each(f, s[..k] + s[k + 1..])) + multiset{f(s[k])}
  {
    var before, after := s[..k], s[k + 1..];
    SplitAt(s, k);
    EachAppend(f, before + [s[k]], after);
    EachAppend(f, before, [s[k]]);
    EachAppend(f, before, after);
    assert Each(f, [s[k]]) == [f(s[k])];
    assert Each(f, s) == Each(f, before) + [f(s[k])] + Each(f, after);
  }

  lemma PermutedRest<T>(a: seq<T>, b: seq<T>, k: nat)
    requires a != [] && multiset(a) == multiset(b) && k < |b| && b[k] == a[0]
    ensures multiset(a[1..]) == multiset(b[..k] + b[k + 1..])
  {
    SplitAt(b, k);
    MultisetTail(a);
  }

  lemma EachHead<T>(f: T -> T, s: seq<T>)
    requires s != []
    ensures multiset(Each(f, s)) == multiset(Each(f, s[1..])) + multiset{f(s[0])}
  {
    assert Each(f, s) == [f(s[0])] + Each(f, s[1..]);
  }

  /** The same elements in another order are changed to the same ones. */
  lemma {:induction false} EachPermuted<T>(f: T -> T, a: seq<T>, b: seq<T>)
    requires multiset(a) == multiset(b)
    ensures multiset(Each(f, a)) == multiset(Each(f, b))
  {
    if a == [] {
      assert |multiset(b)| == 0;
    } else {
      var k := PlaceOfHead(a, b);
      PermutedRest(a, b, k);
      EachPermuted(f, a[1..], b[..k] + b[k + 1..]);
      EachHead(f, a);
      EachSplit(f, b, k);
    }
  }

  lemma PlaceOfHead<T>(a: seq<T>, b: seq<T>) returns (k: nat)
    requires a != [] && multiset(a) == multiset(b)
    ensures k < |b| && b[k] == a[0]
  {
    assert a[0] in multiset(a);
    k :| 0 <= k < |b| && b[k] == a[0];
  }

  lemma {:induction false} DistinctOnce<T(!new)>(s: seq<T>)
    requires Distinct(s)
    ensures forall x :: multiset(s)[x] <= 1
  {
    if s != [] {
      DistinctOnce(s[1..]);
      assert s == [s[0]] + s[1..];
      assert s[0] !in s[1..];
      assert s[0] !in multiset(s[1..]);
    }
  }

  lemma OnceDistinct<T(!new)>(s: seq<T>)
    requires forall x :: multiset(s)[x] <= 1
    ensures Distinct(s)
  {
    forall i, j | 0 <= i < j < |s|
      ensures s[i] != s[j]
    {
      assert s == s[..j] + [s[j]] + s[j + 1..];
      assert multiset(s)[s[j]] == multiset(s[..j])[s[j]] + 1 + multiset(s[j + 1..])[s[j]];
      assert s[j] !in multiset(s[..j]);
      assert s[..j][i] == s[i];
      assert s[i] in multiset(s[..j]);
    }
  }

  lemma NoMembers<T(!new)>(s: seq<T>)
    ensures s == [] <==> forall x :: x !in s
  {
    if s != [] {
      assert s[0] in s;
    }
  }

  lemma SortDistinct<T(!new)>(le: (T, T) -> bool, s: seq<T>)
    requires Distinct(s)
    ensures Distinct(Sort(le, s))
  {
    DistinctOnce(s);
    OnceDistinct(Sort(le, s));
  }

  lemma SortMembers<T(!new)>(le: (T, T) -> bool, s: seq<T>)
    ensures |Sort(le, s)| == |s|
    ensures forall x :: x in Sort(le, s) <==> x in s
  {
    assert |multiset(Sort(le, s))| == |multiset(s)|;
    forall x
      ensures x in Sort(le, s) <==> x in s
    {
      assert x in s <==> x in multiset(s);
      assert x in Sort(le, s) <==> x in multiset(Sort(le, s));
    }
  }

  /** The order of strings by their characters: what `toSorted()` uses with no comparator. */
  predicate TextLe(a: string, b: string) {
    if a == [] then true
    else if b == [] then false
    else if a[0] == b[0] then TextLe(a[1..], b[1..])
    else a[0] < b[0]
  }

  lemma {:induction false} TextTotal(a: string, b: string)
    ensures TextLe(a, b) || TextLe(b, a)
    ensures TextLe(a, b) && TextLe(b, a) ==> a == b
  {
    if a != [] && b != [] && a[0] == b[0] {
      TextTotal(a[1..], b[1..]);
      assert a == [a[0]] + a[1..] && b == [b[0]] + b[1..];
    }
  }

  /** Text is before the texts it begins, and else by the first character that differs. */
  lemma {:induction false} TextLeMeans(a: string, b: string)
    ensures TextLe(a, b) <==>
              a <= b || exists k :: 0 <= k < |a| && k < |b| && a[..k] == b[..k] && a[k] < b[k]
  {
    if a != [] && b != [] {
      if a[0] == b[0] {
        TextLeMeans(a[1..], b[1..]);
        TextLeNext(a, b);
      } else {
        assert a[..0] == b[..0];
        assert forall k :: 0 < k <= |a| && k <= |b| ==> a[..k][0] != b[..k][0];
      }
    }
  }

  lemma TextLeNext(a: string, b: string)
    requires a != [] && b != [] && a[0] == b[0]
    ensures a <= b <==> a[1..] <= b[1..]
    ensures (exists k :: 0 <= k < |a| && k < |b| && a[..k] == b[..k] && a[k] < b[k])
            <==> exists k :: 0 <= k < |a[1..]| && k < |b[1..]| && a[1..][..k] == b[1..][..k] && a[1..][k] < b[1..][k]
  {
    assert a == [a[0]] + a[1..] && b == [a[0]] + b[1..];
    if k :| 0 <= k < |a| && k < |b| && a[..k] == b[..k] && a[k] < b[k] {
      assert k > 0 && a[1..][..k - 1] == a[..k][1..] && b[1..][..k - 1] == b[..k][1..];
      assert a[1..][k - 1] < b[1..][k - 1];
    }
    if k :| 0 <= k < |a[1..]| && k < |b[1..]| && a[1..][..k] == b[1..][..k] && a[1..][k] < b[1..][k] {
      assert a[..k + 1] == [a[0]] + a[1..][..k] && b[..k + 1] == [a[0]] + b[1..][..k];
      assert a[k + 1] < b[k + 1];
    }
  }

  lemma {:induction false} TextTransitive(a: string, b: string, c: string)
    requires TextLe(a, b) && TextLe(b, c)
    ensures TextLe(a, c)
  {
    if a != [] && a[0] == b[0] == c[0] {
      TextTransitive(a[1..], b[1..], c[1..]);
    }
  }

  lemma {:induction false} TextOrder()
    ensures TotalOrder(TextLe)
  {
    forall a, b
      ensures TextLe(a, b) || TextLe(b, a)
      ensures TextLe(a, b) && TextLe(b, a) ==> a == b
    {
      TextTotal(a, b);
    }
    forall a, b, c | TextLe(a, b) && TextLe(b, c)
      ensures TextLe(a, c)
    {
      TextTransitive(a, b, c);
    }
  }
}
