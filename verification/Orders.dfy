/** Total orders on values, the string order Python compares by, sorting that is stable, and small facts about
    sequences, sets and multisets that the other modules share. */
module Orders {

  datatype Option<+T> = None | Some(value: T)

  /** Code-point order on strings, as Python compares `str`. */
  predicate StrLe(a: string, b: string)
  {
    |a| == 0 || (|b| > 0 && (a[0] < b[0] || (a[0] == b[0] && StrLe(a[1..], b[1..]))))
  }

  ghost predicate Total<T(!new)>(le: (T, T) -> bool) {
    forall x, y :: le(x, y) || le(y, x)
  }

  ghost predicate Transitive<T(!new)>(le: (T, T) -> bool) {
    forall x, y, z :: le(x, y) && le(y, z) ==> le(x, z)
  }

  ghost predicate AntiSymmetric<T(!new)>(le: (T, T) -> bool) {
    forall x, y :: le(x, y) && le(y, x) ==> x == y
  }

  ghost predicate TotalOrder<T(!new)>(le: (T, T) -> bool) {
    Total(le) && Transitive(le) && AntiSymmetric(le)
  }

  lemma {:induction false} StrLeTotal(a: string, b: string)
    ensures StrLe(a, b) || StrLe(b, a)
  {
    if a != [] && b != [] {
      StrLeTotal(a[1..], b[1..]);
    }
  }

  lemma {:induction false} StrLeAntiSymmetric(a: string, b: string)
    requires StrLe(a, b) && StrLe(b, a)
    ensures a == b
  {
    if a != [] && b != [] {
      StrLeAntiSymmetric(a[1..], b[1..]);
      assert a == [a[0]] + a[1..] && b == [b[0]] + b[1..];
    }
  }

  lemma {:induction false} StrLeTransitive(a: string, b: string, c: string)
    requires StrLe(a, b) && StrLe(b, c)
    ensures StrLe(a, c)
  {
    if a != [] && a[0] == b[0] == c[0] {
      StrLeTransitive(a[1..], b[1..], c[1..]);
    }
  }

  lemma StrLeIsTotalOrder()
    ensures TotalOrder(StrLe)
  {
    forall a, b ensures StrLe(a, b) || StrLe(b, a) { StrLeTotal(a, b); }
    forall a, b, c | StrLe(a, b) && StrLe(b, c) ensures StrLe(a, c) { StrLeTransitive(a, b, c); }
    forall a, b | StrLe(a, b) && StrLe(b, a) ensures a == b { StrLeAntiSymmetric(a, b); }
  }

  ghost predicate Sorted<T>(le: (T, T) -> bool, s: seq<T>) {
    forall i, j :: 0 <= i < j < |s| ==> le(s[i], s[j])
  }

  ghost predicate Distinct<T>(s: seq<T>) {
    forall i, j :: 0 <= i < j < |s| ==> s[i] != s[j]
  }

  /** A set's members in the order it happens to be iterated. */
  ghost predicate Enumerates<T(!new)>(order: seq<T>, keys: set<T>) {
    Distinct(order) && forall k :: k in order <==> k in keys
  }

  function Insert<T>(le: (T, T) -> bool, x: T, s: seq<T>): seq<T>
  {
    if s == [] || le(x, s[0]) then [x] + s else [s[0]] + Insert(le, x, s[1..])
  }

  /** Python's `sorted`: stable, because an element goes in front of its equals. */
  function Sort<T>(le: (T, T) -> bool, s: seq<T>): seq<T>
  {
    if s == [] then [] else Insert(le, s[0], Sort(le, s[1..]))
  }

  lemma {:induction false} InsertKeeps<T(!new)>(le: (T, T) -> bool, x: T, s: seq<T>)
    ensures multiset(Insert(le, x, s)) == multiset(s) + multiset{x}
  {
    if s != [] && !le(x, s[0]) {
      InsertKeeps(le, x, s[1..]);
      assert s == [s[0]] + s[1..];
    }
  }

  lemma InsertMembers<T(!new)>(le: (T, T) -> bool, x: T, s: seq<T>)
    ensures forall i :: 0 <= i < |Insert(le, x, s)| ==> Insert(le, x, s)[i] in s || Insert(le, x, s)[i] == x
  {
    InsertKeeps(le, x, s);
    forall i | 0 <= i < |Insert(le, x, s)| ensures Insert(le, x, s)[i] in s || Insert(le, x, s)[i] == x {
      assert Insert(le, x, s)[i] in multiset(Insert(le, x, s));
    }
  }

  lemma {:induction false} InsertSorts<T(!new)>(le: (T, T) -> bool, x: T, s: seq<T>)
    requires Total(le) && Transitive(le) && Sorted(le, s)
    ensures Sorted(le, Insert(le, x, s))
    ensures multiset(Insert(le, x, s)) == multiset(s) + multiset{x}
  {
    InsertKeeps(le, x, s);
    if s != [] && !le(x, s[0]) {
      InsertSorts(le, x, s[1..]);
      InsertMembers(le, x, s[1..]);
    }
  }

  lemma {:induction false} SortSorts<T(!new)>(le: (T, T) -> bool, s: seq<T>)
    requires Total(le) && Transitive(le)
    ensures Sorted(le, Sort(le, s))
    ensures multiset(Sort(le, s)) == multiset(s)
    ensures |Sort(le, s)| == |s|
  {
    if s != [] {
      SortSorts(le, s[1..]);
      InsertSorts(le, s[0], Sort(le, s[1..]));
      assert s == [s[0]] + s[1..];
    }
    assert |multiset(Sort(le, s))| == |multiset(s)|;
  }

  lemma SortMembers<T(!new)>(le: (T, T) -> bool, s: seq<T>)
    requires Total(le) && Transitive(le)
    ensures forall x :: x in Sort(le, s) <==> x in s
  {
    SortSorts(le, s);
    forall x ensures x in Sort(le, s) <==> x in s {
      assert x in multiset(Sort(le, s)) <==> x in multiset(s);
    }
  }

  /** Two sorted arrangements of the same elements are one sequence. */
  lemma {:induction false} SortedUnique<T(!new)>(le: (T, T) -> bool, s: seq<T>, t: seq<T>)
    requires TotalOrder(le) && Sorted(le, s) && Sorted(le, t) && multiset(s) == multiset(t)
    ensures s == t
  {
    SameLength(s, t);
    if s != [] {
      SameHead(le, s, t);
      SameTail(s, t);
      SortedTail(le, s);
      SortedTail(le, t);
      SortedUnique(le, s[1..], t[1..]);
      assert s == [s[0]] + s[1..] && t == [t[0]] + t[1..];
    }
  }

  lemma SameLength<T(!new)>(s: seq<T>, t: seq<T>)
    requires multiset(s) == multiset(t)
    ensures |s| == |t|
  {
    assert |s| == |multiset(s)| == |multiset(t)| == |t|;
  }

  lemma SameTail<T(!new)>(s: seq<T>, t: seq<T>)
    requires s != [] && t != [] && s[0] == t[0] && multiset(s) == multiset(t)
    ensures multiset(s[1..]) == multiset(t[1..])
  {
    assert s == [s[0]] + s[1..] && t == [t[0]] + t[1..];
    assert multiset(s[1..]) == multiset(s) - multiset{s[0]} == multiset(t[1..]);
  }

  lemma SortedTail<T(!new)>(le: (T, T) -> bool, s: seq<T>)
    requires s != [] && Sorted(le, s)
    ensures Sorted(le, s[1..])
  {
  }

  lemma SameHead<T(!new)>(le: (T, T) -> bool, s: seq<T>, t: seq<T>)
    requires TotalOrder(le) && Sorted(le, s) && Sorted(le, t) && multiset(s) == multiset(t) && s != [] && t != []
    ensures s[0] == t[0]
  {
    assert s[0] in multiset(t) && t[0] in multiset(s);
    var i :| 0 <= i < |t| && t[i] == s[0];
    var j :| 0 <= j < |s| && s[j] == t[0];
    assert le(s[0], s[j]) && le(t[0], t[i]);
  }

  lemma DistinctByMultiset<T(!new)>(s: seq<T>, t: seq<T>)
    requires Distinct(s) && multiset(s) == multiset(t)
    ensures Distinct(t)
  {
    forall i, j | 0 <= i < j < |t| ensures t[i] != t[j] {
      if t[i] == t[j] {
        assert t == t[..i] + [t[i]] + t[i + 1..j] + [t[j]] + t[j + 1..];
        assert multiset(t)[t[i]] >= 2;
        DistinctCount(s, t[i]);
        assert false;
      }
    }
  }

  lemma {:induction false} DistinctCount<T(!new)>(s: seq<T>, x: T)
    requires Distinct(s)
    ensures multiset(s)[x] == if x in s then 1 else 0
  {
    if s != [] {
      DistinctCount(s[1..], x);
      assert s == [s[0]] + s[1..];
    }
  }

  /** A sequence of distinct members of a set is no longer than the set. */
  lemma {:induction false} Pigeonhole<T>(s: seq<T>, S: set<T>)
    requires Distinct(s) && forall i :: 0 <= i < |s| ==> s[i] in S
    ensures |s| <= |S|
  {
    if s != [] {
      Pigeonhole(s[1..], S - {s[0]});
    }
  }

  function Sum(s: seq<int>): int {
    if s == [] then 0 else Sum(s[..|s| - 1]) + s[|s| - 1]
  }

  lemma {:induction false} SumUpdate(s: seq<int>, k: nat, v: int)
    requires k < |s|
    ensures Sum(s[k := v]) == Sum(s) - s[k] + v
  {
    var n := |s| - 1;
    assert s[k := v][..n] == if k < n then s[..n][k := v] else s[..n];
    if k < n {
      SumUpdate(s[..n], k, v);
    }
  }

  // ------------------------------------------------------------------------
  // What the orders mean
  // ------------------------------------------------------------------------

  /** The first `n` characters are alike, and then `a` ends or goes on with a smaller character. */
  predicate SmallerAt(a: string, b: string, n: int) {
    0 <= n <= |a| && n <= |b| && a[..n] == b[..n] && (n == |a| || (n < |b| && (a[n] as int) < (b[n] as int)))
  }

  /** Strings are ordered by their first difference, a beginning coming before what goes on. */
  lemma {:induction false} StrLeIff(a: string, b: string)
    ensures StrLe(a, b) <==> exists n :: SmallerAt(a, b, n)
  {
    if a != "" && b != "" && a[0] == b[0] {
      StrLeIff(a[1..], b[1..]);
      if n :| SmallerAt(a[1..], b[1..], n) {
        assert a[..n + 1] == [a[0]] + a[1..][..n] && b[..n + 1] == [b[0]] + b[1..][..n];
        assert SmallerAt(a, b, n + 1);
      }
      if n :| SmallerAt(a, b, n) {
        assert a[1..][..n - 1] == a[..n][1..] && b[1..][..n - 1] == b[..n][1..];
        assert SmallerAt(a[1..], b[1..], n - 1);
      }
    } else {
      assert a == "" || (b != "" && a[0] < b[0]) ==> SmallerAt(a, b, 0);
      if n :| SmallerAt(a, b, n) {
        assert n > 0 ==> a[..n][0] == b[..n][0];
      }
    }
  }

  /** The elements as good as `x`, in their order. */
  function Alike<T>(le: (T, T) -> bool, x: T, s: seq<T>): seq<T> {
    if s == [] then []
    else (if AsGood(le, x, s[0]) then [s[0]] else []) + Alike(le, x, s[1..])
  }

  predicate AsGood<T>(le: (T, T) -> bool, x: T, y: T) {
    le(x, y) && le(y, x)
  }

  lemma AlikeCons<T(!new)>(le: (T, T) -> bool, x: T, y: T, s: seq<T>)
    ensures Alike(le, x, [y] + s) == if AsGood(le, x, y) then [y] + Alike(le, x, s) else Alike(le, x, s)
  {
    assert ([y] + s)[1..] == s && ([y] + s)[0] == y;
  }

  lemma {:induction false} InsertIsStable<T(!new)>(le: (T, T) -> bool, y: T, s: seq<T>, x: T)
    requires Total(le) && Transitive(le)
    ensures Alike(le, x, Insert(le, y, s)) == Alike(le, x, [y] + s)
    decreases s
  {
    if s != [] && !le(y, s[0]) {
      var z, rest := s[0], s[1..];
      InsertIsStable(le, y, rest, x);
      assert s == [z] + rest;
      AlikeCons(le, x, z, Insert(le, y, rest));
      AlikeCons(le, x, y, rest);
      AlikeCons(le, x, y, s);
      AlikeCons(le, x, z, rest);
      NotBothAlike(le, x, y, z);
    }
  }

  lemma NotBothAlike<T(!new)>(le: (T, T) -> bool, x: T, y: T, z: T)
    requires Total(le) && Transitive(le) && !le(y, z)
    ensures !(AsGood(le, x, y) && AsGood(le, x, z))
  {
  }

  /** Sorting keeps elements that are as good as each other in the order they came in. */
  lemma {:induction false} SortIsStable<T(!new)>(le: (T, T) -> bool, s: seq<T>, x: T)
    requires Total(le) && Transitive(le)
    ensures Alike(le, x, Sort(le, s)) == Alike(le, x, s)
    decreases s
  {
    if s != [] {
      SortIsStable(le, s[1..], x);
      InsertIsStable(le, s[0], Sort(le, s[1..]), x);
      AlikeCons(le, x, s[0], Sort(le, s[1..]));
      AlikeCons(le, x, s[0], s[1..]);
      assert s == [s[0]] + s[1..];
    }
  }
}
