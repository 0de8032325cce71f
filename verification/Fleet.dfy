/** Migration order and exclusion over a fleet of modules: topo_order and portable_set of migrate_all.py. */
module Fleet {
  import opened Orders

  /** Each module's `depends` list; entries may repeat, name the module itself, or leave the fleet. */
  type Depends = map<string, seq<string>>

  /** `n` has to wait for `d`: a dependency inside the fleet other than itself. */
  predicate Edge(dep: Depends, n: string, d: string) {
    n in dep && d in dep[n] && d in dep && d != n
  }

  ghost predicate Ready(dep: Depends, done: seq<string>, n: string) {
    n in dep && n !in done && forall d :: Edge(dep, n, d) ==> d in done
  }

  /** Every module in turn is ready, and the smallest name among the ready ones. */
  ghost predicate GreedyOrder(dep: Depends, order: seq<string>) {
    forall k :: 0 <= k < |order| ==>
      Ready(dep, order[..k], order[k]) && forall x :: Ready(dep, order[..k], x) ==> StrLe(order[k], x)
  }

  ghost predicate Exhausted(dep: Depends, order: seq<string>) {
    forall x :: !Ready(dep, order, x)
  }

  /** Dependency entries of `n` that still have to be emitted, counted with repetition. */
  function Waits(deps: seq<string>, n: string, names: set<string>, done: set<string>): nat
  {
    if deps == [] then 0
    else
      var d := deps[|deps| - 1];
      Waits(deps[..|deps| - 1], n, names, done) + if d in names && d != n && d !in done then 1 else 0
  }

  lemma {:induction false} WaitsZero(deps: seq<string>, n: string, names: set<string>, done: set<string>)
    ensures Waits(deps, n, names, done) == 0 <==> forall d :: d in deps && d in names && d != n ==> d in done
  {
    if deps != [] {
      WaitsZero(deps[..|deps| - 1], n, names, done);
      assert deps == deps[..|deps| - 1] + [deps[|deps| - 1]];
    }
  }

  /** Emitting `x` settles each of its entries, one per repetition. */
  lemma {:induction false} WaitsLess(deps: seq<string>, n: string, names: set<string>, done: set<string>, x: string)
    requires x in names && x !in done
    ensures Waits(deps, n, names, done + {x}) ==
            Waits(deps, n, names, done) - if x != n then multiset(deps)[x] else 0
  {
    if deps != [] {
      WaitsLess(deps[..|deps| - 1], n, names, done, x);
      assert deps == deps[..|deps| - 1] + [deps[|deps| - 1]];
    }
  }

  function Copies(s: seq<string>, x: string): nat {
    multiset(s)[x]
  }

  lemma CopiesSnoc(s: seq<string>, y: string, x: string)
    ensures Copies(s + [y], x) == Copies(s, x) + if x == y then 1 else 0
  { }

  /** Counters and waiting lists after scanning the listed part of every `depends`. */
  ghost predicate InDegrees(names: set<string>, scanned: Depends, indeg: map<string, int>) {
    && indeg.Keys == scanned.Keys == names
    && forall n :: n in names ==> indeg[n] == Waits(scanned[n], n, names, {})
  }

  ghost predicate WaitingLists(names: set<string>, scanned: Depends, rev: Depends) {
    && rev.Keys == scanned.Keys == names
    && forall d, n :: d in names ==>
         Copies(rev[d], n) == if n in names && n != d then Copies(scanned[n], d) else 0
  }

  predicate Counted(names: set<string>, n: string, d: string) {
    d in names && d != n
  }

  lemma InDegreesStep(names: set<string>, scanned: Depends, n: string, deps: seq<string>, j: nat,
        indeg: map<string, int>)
    requires n in names && j < |deps| && InDegrees(names, scanned[n := deps[..j]], indeg)
    ensures InDegrees(names, scanned[n := deps[..j + 1]],
                      if Counted(names, n, deps[j]) then indeg[n := indeg[n] + 1] else indeg)
  {
    assert deps[..j + 1][..j] == deps[..j];
  }

  lemma CopiesTaken(deps: seq<string>, j: nat, x: string)
    requires j < |deps|
    ensures Copies(deps[..j + 1], x) == Copies(deps[..j], x) + if x == deps[j] then 1 else 0
  {
    assert deps[..j + 1] == deps[..j] + [deps[j]];
  }

  lemma WaitingListsStep(names: set<string>, scanned: Depends, n: string, deps: seq<string>, j: nat, rev: Depends)
    requires n in names && j < |deps| && WaitingLists(names, scanned[n := deps[..j]], rev)
    ensures WaitingLists(names, scanned[n := deps[..j + 1]],
                         if Counted(names, n, deps[j]) then rev[deps[j] := rev[deps[j]] + [n]] else rev)
  {
    var d := deps[j];
    var rev' := if Counted(names, n, d) then rev[d := rev[d] + [n]] else rev;
    forall e, m | e in names
      ensures Copies(rev'[e], m) == if m in names && m != e then Copies(scanned[n := deps[..j + 1]][m], e) else 0
    {
      WaitingListAt(names, scanned, n, deps, j, rev, e, m);
    }
  }

  lemma WaitingListAt(names: set<string>, scanned: Depends, n: string, deps: seq<string>, j: nat, rev: Depends,
                      e: string, m: string)
    requires n in names && j < |deps| && WaitingLists(names, scanned[n := deps[..j]], rev) && e in names
    ensures var d := deps[j];
            var rev' := if Counted(names, n, d) then rev[d := rev[d] + [n]] else rev;
            Copies(rev'[e], m) == if m in names && m != e then Copies(scanned[n := deps[..j + 1]][m], e) else 0
  {
    var d := deps[j];
    assert Copies(rev[e], m) == if m in names && m != e then Copies(scanned[n := deps[..j]][m], e) else 0;
    if e == d {
      CopiesSnoc(rev[e], n, m);
    }
    if m == n {
      CopiesTaken(deps, j, e);
    }
  }

  method ScanModule(names: set<string>, ghost scanned: Depends, n: string, deps: seq<string>,
                    indeg: map<string, int>, rev: Depends)
    returns (indeg': map<string, int>, rev': Depends)
    requires n in names && InDegrees(names, scanned[n := []], indeg) && WaitingLists(names, scanned[n := []], rev)
    ensures InDegrees(names, scanned[n := deps], indeg') && WaitingLists(names, scanned[n := deps], rev')
  {
    indeg', rev' := indeg, rev;
    for j := 0 to |deps|
      invariant InDegrees(names, scanned[n := deps[..j]], indeg')
      invariant WaitingLists(names, scanned[n := deps[..j]], rev')
    {
      var d := deps[j];
      InDegreesStep(names, scanned, n, deps, j, indeg');
      WaitingListsStep(names, scanned, n, deps, j, rev');
      if d in names && d != n {
        indeg' := indeg'[n := indeg'[n] + 1];
        rev' := rev'[d := rev'[d] + [n]];
      }
    }
    assert deps[..|deps|] == deps;
  }

  method BuildTables(dep: Depends, keys: seq<string>) returns (indeg: map<string, int>, rev: Depends)
    requires Enumerates(keys, dep.Keys)
    ensures InDegrees(dep.Keys, dep, indeg) && WaitingLists(dep.Keys, dep, rev)
  {
    indeg := map n | n in dep :: 0;
    rev := map n | n in dep :: [];
    NothingScanned(dep, keys, indeg, rev);
    for i := 0 to |keys|
      invariant InDegrees(dep.Keys, ScannedUpTo(dep, keys, i), indeg)
      invariant WaitingLists(dep.Keys, ScannedUpTo(dep, keys, i), rev)
    {
      ghost var scanned := ScannedUpTo(dep, keys, i);
      var n := keys[i];
      ScannedStep(dep, keys, i);
      indeg, rev := ScanModule(dep.Keys, scanned, n, dep[n], indeg, rev);
    }
    ScannedAll(dep, keys);
  }

  lemma NothingScanned(dep: Depends, keys: seq<string>, indeg: map<string, int>, rev: Depends)
    requires indeg == map n | n in dep :: 0
    requires rev == map n | n in dep :: []
    ensures InDegrees(dep.Keys, ScannedUpTo(dep, keys, 0), indeg)
    ensures WaitingLists(dep.Keys, ScannedUpTo(dep, keys, 0), rev)
  {
    var scanned := ScannedUpTo(dep, keys, 0);
    forall n | n in dep ensures scanned[n] == [] { assert n !in keys[..0]; }
  }

  lemma ScannedStep(dep: Depends, keys: seq<string>, i: nat)
    requires Enumerates(keys, dep.Keys) && i < |keys| && keys[i] in dep
    ensures var s, n := ScannedUpTo(dep, keys, i), keys[i];
            s[n := []] == s && s[n := dep[n]] == ScannedUpTo(dep, keys, i + 1)
  {
    assert keys[..i + 1] == keys[..i] + [keys[i]];
    assert keys[i] !in keys[..i];
  }

  lemma ScannedAll(dep: Depends, keys: seq<string>)
    requires Enumerates(keys, dep.Keys)
    ensures ScannedUpTo(dep, keys, |keys|) == dep
  {
    assert keys[..|keys|] == keys;
  }

  ghost function ScannedUpTo(dep: Depends, keys: seq<string>, i: nat): Depends
    requires i <= |keys|
  {
    map n | n in dep :: if n in keys[..i] then dep[n] else []
  }

  function SeqSet(s: seq<string>): set<string> {
    set x | x in s
  }

  /** Between two emissions: counters are exact and the queue is the ready set, sorted. */
  ghost predicate Between(dep: Depends, indeg: map<string, int>, queue: seq<string>, order: seq<string>)
  {
    && indeg.Keys == dep.Keys
    && (forall n :: n in dep ==> indeg[n] == Waits(dep[n], n, dep.Keys, SeqSet(order)))
    && Distinct(queue) && Sorted(StrLe, queue)
    && (forall n :: n in queue <==> Ready(dep, order, n))
    && (forall n :: n in order ==> n in dep && indeg[n] == 0)
  }

  lemma ReadyIsZero(dep: Depends, order: seq<string>, n: string)
    requires n in dep
    ensures Ready(dep, order, n) <==> n !in order && Waits(dep[n], n, dep.Keys, SeqSet(order)) == 0
  {
    WaitsZero(dep[n], n, dep.Keys, SeqSet(order));
    assert forall d :: Edge(dep, n, d) <==> d in dep[n] && d in dep.Keys && d != n;
  }

  /** Facts about the modules waiting for `n`, fixed while their counters go down;
      `s` lists them, one entry per repetition. */
  ghost predicate Waiters(dep: Depends, before: map<string, int>, s: seq<string>, rest: seq<string>) {
    && before.Keys == dep.Keys
    && (forall m :: m in s ==> m in dep && Copies(s, m) <= before[m])
    && (forall m :: m in rest ==> m in dep && before[m] == 0)
    && Distinct(rest)
  }

  /** After the first `t` decrements: a module joins the queue when its counter reaches zero. */
  ghost predicate Settling(before: map<string, int>, s: seq<string>, t: nat, rest: seq<string>,
                           indeg: map<string, int>, queue: seq<string>)
    requires t <= |s|
  {
    && indeg.Keys == before.Keys
    && (forall m :: m in before ==> indeg[m] == before[m] - Copies(s[..t], m))
    && Distinct(queue)
    && (forall m :: m in queue <==> m in rest || (m in s[..t] && m in indeg && indeg[m] == 0))
  }

  lemma CopiesOfPrefix(s: seq<string>, t: nat, x: string)
    requires t < |s|
    ensures Copies(s[..t + 1], x) == Copies(s[..t], x) + if x == s[t] then 1 else 0
    ensures Copies(s[..t + 1], x) <= Copies(s, x)
    ensures x in s[..t + 1] <==> x in s[..t] || x == s[t]
  {
    assert s[..t + 1] == s[..t] + [s[t]];
    assert s == s[..t + 1] + s[t + 1..];
  }

  lemma SettleStep(dep: Depends, before: map<string, int>, s: seq<string>, t: nat, rest: seq<string>,
                   indeg: map<string, int>, queue: seq<string>)
    requires t < |s| && Waiters(dep, before, s, rest) && Settling(before, s, t, rest, indeg, queue)
    ensures s[t] in indeg
    ensures var indeg' := indeg[s[t] := indeg[s[t]] - 1];
            Settling(before, s, t + 1, rest, indeg', if indeg'[s[t]] == 0 then queue + [s[t]] else queue)
  {
    var m := s[t];
    var indeg' := indeg[m := indeg[m] - 1];
    var queue' := if indeg'[m] == 0 then queue + [m] else queue;
    CopiesOfPrefix(s, t, m);
    assert indeg[m] >= 1 && m !in queue;
    forall x ensures x in queue' <==> x in rest || (x in s[..t + 1] && x in indeg' && indeg'[x] == 0) {
      CopiesOfPrefix(s, t, x);
    }
    forall x | x in before ensures indeg'[x] == before[x] - Copies(s[..t + 1], x) {
      CopiesOfPrefix(s, t, x);
    }
  }

  method SettleAll(ghost dep: Depends, indeg: map<string, int>, s: seq<string>, rest: seq<string>)
    returns (indeg': map<string, int>, queue: seq<string>)
    requires Waiters(dep, indeg, s, rest)
    ensures Settling(indeg, s, |s|, rest, indeg', queue)
  {
    indeg', queue := indeg, rest;
    for t := 0 to |s|
      invariant Settling(indeg, s, t, rest, indeg', queue)
    {
      var m := s[t];
      SettleStep(dep, indeg, s, t, rest, indeg', queue);
      indeg' := indeg'[m := indeg'[m] - 1];
      if indeg'[m] == 0 {
        queue := queue + [m];
      }
    }
  }

  lemma WaitersOf(dep: Depends, waiting: seq<string>, s: seq<string>, indeg: map<string, int>,
                  queue: seq<string>, order: seq<string>)
    requires Between(dep, indeg, queue, order) && queue != [] && multiset(s) == multiset(waiting)
    requires forall m :: Copies(waiting, m) == if m in dep && m != queue[0] then Copies(dep[m], queue[0]) else 0
    ensures Waiters(dep, indeg, s, queue[1..])
    ensures forall m :: m in dep ==>
              Waits(dep[m], m, dep.Keys, SeqSet(order + [queue[0]])) == indeg[m] - Copies(s, m)
  {
    var n := queue[0];
    assert SeqSet(order + [n]) == SeqSet(order) + {n};
    assert Ready(dep, order, n);
    forall m ensures Copies(s, m) == Copies(waiting, m) { }
    forall m | m in dep
      ensures Waits(dep[m], m, dep.Keys, SeqSet(order) + {n}) == indeg[m] - Copies(s, m)
    {
      WaitsLess(dep[m], m, dep.Keys, SeqSet(order), n);
    }
    forall m | m in s ensures m in dep && Copies(s, m) <= indeg[m] {
      assert Copies(s, m) > 0;
    }
    forall m | m in queue[1..] ensures m in dep && indeg[m] == 0 {
      assert m in queue && Ready(dep, order, m);
      ReadyIsZero(dep, order, m);
    }
  }

  method EmitOne(dep: Depends, rev: Depends, indeg: map<string, int>, queue: seq<string>, ghost order: seq<string>)
    returns (indeg': map<string, int>, queue': seq<string>)
    requires Between(dep, indeg, queue, order) && queue != [] && WaitingLists(dep.Keys, dep, rev)
    ensures Between(dep, indeg', queue', order + [queue[0]])
  {
    var n, rest := queue[0], queue[1..];
    assert Ready(dep, order, n);
    StrLeIsTotalOrder();
    var s := Sort(StrLe, rev[n]);
    SortSorts(StrLe, rev[n]);
    WaitersOf(dep, rev[n], s, indeg, queue, order);
    var unsorted;
    indeg', unsorted := SettleAll(dep, indeg, s, rest);
    queue' := SortNames(unsorted);
    assert s[..|s|] == s;
    Settled(dep, indeg, indeg', s, queue, queue', order);
  }

  lemma Settled(dep: Depends, before: map<string, int>, indeg: map<string, int>, s: seq<string>,
                queue: seq<string>, queue': seq<string>, order: seq<string>)
    requires Between(dep, before, queue, order) && queue != []
    requires forall m :: m in dep ==>
               Waits(dep[m], m, dep.Keys, SeqSet(order + [queue[0]])) == before[m] - Copies(s, m)
    requires indeg.Keys == dep.Keys && forall m :: m in dep ==> indeg[m] == before[m] - Copies(s, m)
    requires Distinct(queue') && Sorted(StrLe, queue')
    requires forall m :: m in queue' <==> m in queue[1..] || (m in s && m in dep && indeg[m] == 0)
    requires queue[0] !in s
    ensures Between(dep, indeg, queue', order + [queue[0]])
  {
    var n := queue[0];
    assert Ready(dep, order, n) && n !in queue[1..];
    assert forall m :: m in queue <==> m == n || m in queue[1..];
    forall m ensures m in queue' <==> Ready(dep, order + [n], m) {
      if m in dep {
        ReadyIsZero(dep, order, m);
        ReadyIsZero(dep, order + [n], m);
        assert m in s <==> Copies(s, m) > 0;
      }
    }
    forall m | m in order + [n] ensures m in dep && indeg[m] == 0 {
      ReadyIsZero(dep, order, n);
      assert m in dep;
      assert indeg[m] == Waits(dep[m], m, dep.Keys, SeqSet(order + [n]));
    }
  }

  method InitialQueue(dep: Depends, keys: seq<string>, indeg: map<string, int>) returns (queue: seq<string>)
    requires Enumerates(keys, dep.Keys) && InDegrees(dep.Keys, dep, indeg)
    ensures Between(dep, indeg, queue, [])
  {
    var zero: seq<string> := [];
    for i := 0 to |keys|
      invariant Distinct(zero)
      invariant forall n :: n in zero <==> n in keys[..i] && indeg[n] == 0
    {
      if indeg[keys[i]] == 0 {
        zero := zero + [keys[i]];
      }
    }
    assert keys[..|keys|] == keys;
    queue := SortNames(zero);
    assert SeqSet([]) == {};
    forall n ensures n in queue <==> Ready(dep, [], n) {
      if n in dep { ReadyIsZero(dep, [], n); }
    }
  }

  function SortNames(names: seq<string>): (r: seq<string>)
    requires Distinct(names)
    ensures Sorted(StrLe, r) && Distinct(r) && forall n :: n in r <==> n in names
  {
    StrLeIsTotalOrder();
    SortSorts(StrLe, names);
    SortMembers(StrLe, names);
    DistinctByMultiset(names, Sort(StrLe, names));
    Sort(StrLe, names)
  }

  method NotEmitted(keys: seq<string>, order: seq<string>) returns (cyclic: seq<string>)
    requires Distinct(keys)
    ensures Sorted(StrLe, cyclic) && Distinct(cyclic) && forall n :: n in cyclic <==> n in keys && n !in order
  {
    var left: seq<string> := [];
    for i := 0 to |keys|
      invariant Distinct(left)
      invariant forall n :: n in left <==> n in keys[..i] && n !in order
    {
      if keys[i] !in order {
        left := left + [keys[i]];
      }
    }
    assert keys[..|keys|] == keys;
    cyclic := SortNames(left);
  }

  /** Kahn's algorithm: the emitted prefix is the greedy order, the rest is appended sorted. */
  method TopoOrder(dep: Depends, keys: seq<string>) returns (result: seq<string>, cyclic: seq<string>)
    requires Enumerates(keys, dep.Keys)
    ensures TopoResult(dep, result, cyclic)
  {
    var indeg, rev := BuildTables(dep, keys);
    var queue := InitialQueue(dep, keys, indeg);
    var order: seq<string> := [];
    while queue != []
      invariant Between(dep, indeg, queue, order)
      invariant GreedyOrder(dep, order)
      decreases dep.Keys - SeqSet(order)
    {
      var n := queue[0];
      HeadExtends(dep, indeg, queue, order);
      indeg, queue := EmitOne(dep, rev, indeg, queue, order);
      order := order + [n];
    }
    cyclic := NotEmitted(keys, order);
    result := order + cyclic;
    assert result[..|order|] == order;
  }

  /** Emitting the head of the queue extends the greedy order and uses up one more module. */
  lemma HeadExtends(dep: Depends, indeg: map<string, int>, queue: seq<string>, order: seq<string>)
    requires Between(dep, indeg, queue, order) && queue != [] && GreedyOrder(dep, order)
    ensures GreedyOrder(dep, order + [queue[0]])
    ensures dep.Keys - SeqSet(order + [queue[0]]) < dep.Keys - SeqSet(order)
  {
    var n := queue[0];
    MinimumOfQueue(dep, indeg, queue, order);
    GreedySnoc(dep, order, n);
    assert n in dep.Keys - SeqSet(order) && SeqSet(order + [n]) == SeqSet(order) + {n};
  }

  lemma MinimumOfQueue(dep: Depends, indeg: map<string, int>, queue: seq<string>, order: seq<string>)
    requires Between(dep, indeg, queue, order) && queue != []
    ensures Ready(dep, order, queue[0]) && forall x :: Ready(dep, order, x) ==> StrLe(queue[0], x)
  {
    StrLeTotal(queue[0], queue[0]);
    forall x | Ready(dep, order, x) ensures StrLe(queue[0], x) {
      assert x in queue;
    }
  }

  function Emitted(result: seq<string>, cyclic: seq<string>): seq<string>
    requires |cyclic| <= |result|
  {
    result[..|result| - |cyclic|]
  }

  ghost predicate TopoResult(dep: Depends, result: seq<string>, cyclic: seq<string>) {
    && |cyclic| <= |result| && result == Emitted(result, cyclic) + cyclic
    && GreedyOrder(dep, Emitted(result, cyclic)) && Exhausted(dep, Emitted(result, cyclic))
    && Distinct(cyclic) && Sorted(StrLe, cyclic)
    && forall n :: n in cyclic <==> n in dep && n !in Emitted(result, cyclic)
  }

  lemma GreedySnoc(dep: Depends, order: seq<string>, n: string)
    requires GreedyOrder(dep, order) && Ready(dep, order, n)
    requires forall x :: Ready(dep, order, x) ==> StrLe(n, x)
    ensures GreedyOrder(dep, order + [n])
  {
    var o := order + [n];
    forall k | 0 <= k < |o|
      ensures Ready(dep, o[..k], o[k]) && forall x :: Ready(dep, o[..k], x) ==> StrLe(o[k], x)
    {
      assert o[..k] == order[..k];
      assert order[..|order|] == order;
    }
  }

  // ------------------------------------------------------------------------
  // What the order guarantees
  // ------------------------------------------------------------------------

  /** The result is a permutation of the fleet. */
  lemma OrderIsPermutation(dep: Depends, result: seq<string>, cyclic: seq<string>)
    requires TopoResult(dep, result, cyclic)
    ensures Distinct(result) && forall n :: n in result <==> n in dep
  {
    var order := Emitted(result, cyclic);
    forall i, j | 0 <= i < j < |order| ensures order[i] != order[j] {
      assert Ready(dep, order[..j], order[j]) && order[i] in order[..j];
    }
    forall n | n in order ensures n in dep {
      var k :| 0 <= k < |order| && order[k] == n;
      assert Ready(dep, order[..k], order[k]);
    }
  }

  /** Dependencies come first, for every module outside the cyclic leftover. */
  lemma DependenciesPrecede(dep: Depends, result: seq<string>, cyclic: seq<string>, k: nat, d: string)
    requires TopoResult(dep, result, cyclic) && k < |result| - |cyclic| && Edge(dep, result[k], d)
    ensures d in result[..k]
  {
    var order := Emitted(result, cyclic);
    assert result[..k] == order[..k] && Ready(dep, order[..k], order[k]);
  }

  ghost predicate IsWalk(dep: Depends, path: seq<string>) {
    path != [] && forall i :: 0 <= i < |path| - 1 ==> Edge(dep, path[i], path[i + 1])
  }

  /** `path` walks from `n` along in-fleet dependencies and ends where it was at step `i`. Edges
      never join a module to itself, so the loop has length at least two. */
  ghost predicate Loops(dep: Depends, n: string, path: seq<string>, i: int) {
    IsWalk(dep, path) && path[0] == n && 0 <= i < |path| - 1 && path[i] == path[|path| - 1]
  }

  ghost predicate ReachesCycle(dep: Depends, n: string) {
    exists path, i :: Loops(dep, n, path, i)
  }

  /** Walking from an emitted module only meets modules emitted strictly earlier. */
  lemma {:induction false} WalkDescends(dep: Depends, order: seq<string>, path: seq<string>, k: nat)
    requires GreedyOrder(dep, order) && IsWalk(dep, path) && k < |order| && path[0] == order[k] && |path| > 1
    ensures path[|path| - 1] in order[..k]
  {
    assert Ready(dep, order[..k], order[k]) && Edge(dep, path[0], path[1]);
    var j :| 0 <= j < k && order[j] == path[1];
    if |path| > 2 {
      assert IsWalk(dep, path[1..]) by {
        forall i | 0 <= i < |path[1..]| - 1 ensures Edge(dep, path[1..][i], path[1..][i + 1]) {
          assert Edge(dep, path[i + 1], path[i + 2]);
        }
      }
      WalkDescends(dep, order, path[1..], j);
      var m :| 0 <= m < |order[..j]| && order[..j][m] == path[|path| - 1];
      assert order[..k][m] == path[|path| - 1];
    }
  }

  lemma WalkSlice(dep: Depends, path: seq<string>, i: nat, j: nat)
    requires IsWalk(dep, path) && i < j <= |path|
    ensures IsWalk(dep, path[i..j])
  {
    forall k | 0 <= k < j - i - 1 ensures Edge(dep, path[i..j][k], path[i..j][k + 1]) {
      assert Edge(dep, path[i + k], path[i + k + 1]);
    }
  }

  lemma NoReturn(dep: Depends, order: seq<string>, path: seq<string>, k: nat)
    requires GreedyOrder(dep, order) && IsWalk(dep, path) && k < |order| && path[0] == order[k] && |path| > 1
    ensures path[|path| - 1] != path[0]
  {
    WalkDescends(dep, order, path, k);
    assert Ready(dep, order[..k], order[k]);
  }

  lemma EmittedReachesNoCycle(dep: Depends, order: seq<string>, path: seq<string>, i: nat)
    requires GreedyOrder(dep, order) && IsWalk(dep, path) && path[0] in order && i < |path| - 1
    ensures path[i] != path[|path| - 1]
  {
    var k :| 0 <= k < |order| && order[k] == path[0];
    if i > 0 {
      WalkSlice(dep, path, 0, i + 1);
      WalkDescends(dep, order, path[0..i + 1], k);
      k :| 0 <= k < |order| && order[k] == path[i];
    }
    WalkSlice(dep, path, i, |path|);
    NoReturn(dep, order, path[i..|path|], k);
  }

  /** Inside the leftover one can always take another step, so walks of any length exist. */
  lemma {:induction false} LongWalk(dep: Depends, result: seq<string>, cyclic: seq<string>, n: string, steps: nat)
    returns (path: seq<string>)
    requires TopoResult(dep, result, cyclic) && n in cyclic
    ensures IsWalk(dep, path) && path[0] == n && |path| == steps + 1 &&
      forall i :: 0 <= i < |path| ==> path[i] in cyclic
    decreases steps
  {
    path := [n];
    if steps > 0 {
      assert !Ready(dep, Emitted(result, cyclic), n);
      var d :| Edge(dep, n, d) && d !in Emitted(result, cyclic);
      var rest := LongWalk(dep, result, cyclic, d, steps - 1);
      path := [n] + rest;
      forall i | 0 <= i < |path| - 1 ensures Edge(dep, path[i], path[i + 1]) {
        if i > 0 { assert Edge(dep, rest[i - 1], rest[i]); }
      }
    }
  }

  /** A walk longer than the leftover has to come back to a module it visited. */
  lemma LeftoverWalkLoops(dep: Depends, cyclic: seq<string>, path: seq<string>)
    requires IsWalk(dep, path) && |path| == |cyclic| + 1 && forall i :: 0 <= i < |path| ==> path[i] in cyclic
    ensures ReachesCycle(dep, path[0])
  {
    if Distinct(path) {
      Pigeonhole(path, SeqSet(cyclic));
      SetNoLarger(cyclic);
      assert false;
    }
    var i, j :| 0 <= i < j < |path| && path[i] == path[j];
    WalkSlice(dep, path, 0, j + 1);
    var w := path[0..j + 1];
    assert Loops(dep, path[0], w, i);
  }

  /** The leftover is exactly the modules from which a dependency cycle can be reached. */
  lemma LeftoverReachesCycle(dep: Depends, result: seq<string>, cyclic: seq<string>, n: string)
    requires TopoResult(dep, result, cyclic) && n in dep
    ensures n in cyclic <==> ReachesCycle(dep, n)
  {
    if n in cyclic {
      var path := LongWalk(dep, result, cyclic, n, |cyclic|);
      LeftoverWalkLoops(dep, cyclic, path);
    } else if ReachesCycle(dep, n) {
      var path, i :| Loops(dep, n, path, i);
      EmittedReachesNoCycle(dep, Emitted(result, cyclic), path, i);
    }
  }

  lemma {:induction false} SetNoLarger(s: seq<string>)
    ensures |SeqSet(s)| <= |s|
  {
    if s == [] {
      assert SeqSet(s) == {};
    } else {
      SetNoLarger(s[1..]);
      assert SeqSet(s) == SeqSet(s[1..]) + {s[0]};
    }
  }

  /** Dictionary order on name sequences. */
  predicate SeqLe(a: seq<string>, b: seq<string>) {
    a == [] || (b != [] && if a[0] != b[0] then StrLe(a[0], b[0]) else SeqLe(a[1..], b[1..]))
  }

  /** Every module comes after its in-fleet dependencies. */
  ghost predicate Respects(dep: Depends, o: seq<string>) {
    forall k :: 0 <= k < |o| ==> Ready(dep, o[..k], o[k])
  }

  lemma {:induction false} LeastFrom(dep: Depends, order: seq<string>, o: seq<string>, k: nat)
    requires GreedyOrder(dep, order) && Respects(dep, o) && |o| == |order| && k <= |order| && order[..k] == o[..k]
    ensures SeqLe(order[k..], o[k..])
    decreases |order| - k
  {
    if k < |order| {
      assert Ready(dep, o[..k], o[k]);
      if order[k] == o[k] {
        assert order[..k + 1] == order[..k] + [order[k]] && o[..k + 1] == o[..k] + [o[k]];
        LeastFrom(dep, order, o, k + 1);
        assert order[k..][1..] == order[k + 1..] && o[k..][1..] == o[k + 1..];
      }
    }
  }

  /** Of all dependency-respecting orders of as many modules, the emitted one is the least
      in dictionary order. */
  lemma OrderIsLeast(dep: Depends, result: seq<string>, cyclic: seq<string>, o: seq<string>)
    requires TopoResult(dep, result, cyclic) && Respects(dep, o) && |o| == |Emitted(result, cyclic)|
    ensures Respects(dep, Emitted(result, cyclic)) && SeqLe(Emitted(result, cyclic), o)
  {
    LeastFrom(dep, Emitted(result, cyclic), o, 0);
    assert Emitted(result, cyclic)[0..] == Emitted(result, cyclic) && o[0..] == o;
  }

  lemma {:induction false} GreedyUnique(dep: Depends, a: seq<string>, b: seq<string>, k: nat)
    requires GreedyOrder(dep, a) && GreedyOrder(dep, b) && k <= |a| <= |b|
    ensures a[..k] == b[..k]
  {
    if k > 0 {
      GreedyUnique(dep, a, b, k - 1);
      StrLeAntiSymmetric(a[k - 1], b[k - 1]);
      assert a[..k] == a[..k - 1] + [a[k - 1]] && b[..k] == b[..k - 1] + [b[k - 1]];
    }
  }

  /** The result does not depend on the order the dictionary iterates in. */
  lemma ResultIsUnique(dep: Depends, result: seq<string>, cyclic: seq<string>, result': seq<string>,
        cyclic': seq<string>)
    requires TopoResult(dep, result, cyclic) && TopoResult(dep, result', cyclic')
    ensures result == result' && cyclic == cyclic'
  {
    var a, b := Emitted(result, cyclic), Emitted(result', cyclic');
    if |a| <= |b| { PrefixIsAll(dep, a, b); } else { PrefixIsAll(dep, b, a); }
    StrLeIsTotalOrder();
    forall n ensures multiset(cyclic)[n] == multiset(cyclic')[n] {
      DistinctCount(cyclic, n);
      DistinctCount(cyclic', n);
    }
    SortedUnique(StrLe, cyclic, cyclic');
  }

  lemma PrefixIsAll(dep: Depends, a: seq<string>, b: seq<string>)
    requires GreedyOrder(dep, a) && GreedyOrder(dep, b) && |a| <= |b| && Exhausted(dep, a)
    ensures a == b
  {
    GreedyUnique(dep, a, b, |a|);
    assert a[..|a|] == a;
  }

  // ------------------------------------------------------------------------
  // Exclusion
  // ------------------------------------------------------------------------

  predicate DependsOn(dep: Depends, n: string, d: string) {
    n in dep && d in dep[n]
  }

  ghost predicate IsChain(dep: Depends, path: seq<string>) {
    path != [] && forall i :: 0 <= i < |path| - 1 ==> DependsOn(dep, path[i], path[i + 1])
  }

  /** `n` is in `bad` or transitively depends on a name in `bad`, inside the fleet or not. */
  ghost predicate Tainted(dep: Depends, bad: set<string>, n: string) {
    exists path :: IsChain(dep, path) && path[0] == n && path[|path| - 1] in bad
  }

  ghost predicate ClosedUnderDependents(dep: Depends, s: set<string>) {
    forall n, d :: DependsOn(dep, n, d) && d in s ==> n in s
  }

  lemma TaintSpreads(dep: Depends, bad: set<string>, n: string, d: string)
    requires DependsOn(dep, n, d) && Tainted(dep, bad, d)
    ensures Tainted(dep, bad, n)
  {
    var path :| IsChain(dep, path) && path[0] == d && path[|path| - 1] in bad;
    assert IsChain(dep, [n] + path) by {
      var p := [n] + path;
      forall i | 0 <= i < |p| - 1 ensures DependsOn(dep, p[i], p[i + 1]) {
        if i > 0 { assert DependsOn(dep, path[i - 1], path[i]); }
      }
    }
  }

  lemma {:induction false} ClosedHoldsChain(dep: Depends, s: set<string>, path: seq<string>)
    requires ClosedUnderDependents(dep, s) && IsChain(dep, path) && path[|path| - 1] in s
    ensures path[0] in s
  {
    if |path| > 1 {
      assert IsChain(dep, path[1..]) by {
        forall i | 0 <= i < |path[1..]| - 1 ensures DependsOn(dep, path[1..][i], path[1..][i + 1]) {
          assert DependsOn(dep, path[i + 1], path[i + 2]);
        }
      }
      ClosedHoldsChain(dep, s, path[1..]);
      assert DependsOn(dep, path[0], path[1]);
    }
  }

  /** One pass adds every listed module that depends on an excluded name. */
  method Pass(dep: Depends, keys: seq<string>, excl: set<string>, ghost exclude: set<string>)
    returns (excl': set<string>, changed: bool)
    requires Enumerates(keys, dep.Keys) && forall n :: n in excl ==> Tainted(dep, exclude, n)
    ensures excl <= excl' && forall n :: n in excl' ==> Tainted(dep, exclude, n)
    ensures if changed then dep.Keys - excl' < dep.Keys - excl else excl' == excl && ClosedUnderDependents(dep, excl)
  {
    excl', changed := excl, false;
    for i := 0 to |keys|
      invariant excl <= excl' && forall n :: n in excl' ==> Tainted(dep, exclude, n)
      invariant if changed then dep.Keys - excl' < dep.Keys - excl else excl' == excl
      invariant !changed ==> forall k :: 0 <= k < i && AnyIn(dep[keys[k]], excl) ==> keys[k] in excl
    {
      var name := keys[i];
      if name !in excl' && AnyIn(dep[name], excl') {
        var d :| DependsOn(dep, name, d) && d in excl';
        TaintSpreads(dep, exclude, name, d);
        assert name in dep.Keys - excl';
        excl' := excl' + {name};
        changed := true;
      }
    }
    if !changed {
      forall n, d | DependsOn(dep, n, d) && d in excl ensures n in excl {
        var k :| 0 <= k < |keys| && keys[k] == n;
        assert AnyIn(dep[n], excl);
      }
    }
  }

  method PortableSet(dep: Depends, keys: seq<string>, installed: Option<set<string>>, exclude: set<string>)
    returns (portable: seq<string>, excl: set<string>)
    requires Enumerates(keys, dep.Keys)
    ensures forall n :: n in excl <==> Tainted(dep, exclude, n)
    ensures Sorted(StrLe, portable) && Distinct(portable)
    ensures forall n :: n in portable <==>
              n in dep && !Tainted(dep, exclude, n) && (installed.Some? ==> n in installed.value)
  {
    excl := exclude;
    var changed := true;
    forall n | n in exclude ensures Tainted(dep, exclude, n) { assert IsChain(dep, [n]); }
    while changed
      invariant exclude <= excl && forall n :: n in excl ==> Tainted(dep, exclude, n)
      invariant !changed ==> ClosedUnderDependents(dep, excl)
      decreases dep.Keys - excl, changed
    {
      excl, changed := Pass(dep, keys, excl, exclude);
    }
    forall n | Tainted(dep, exclude, n) ensures n in excl {
      var path :| IsChain(dep, path) && path[0] == n && path[|path| - 1] in exclude;
      ClosedHoldsChain(dep, excl, path);
    }
    portable := Portable(keys, excl, installed);
  }

  method Portable(keys: seq<string>, excl: set<string>, installed: Option<set<string>>) returns (portable: seq<string>)
    requires Distinct(keys)
    ensures Sorted(StrLe, portable) && Distinct(portable)
    ensures forall n :: n in portable <==> n in keys && n !in excl && (installed.Some? ==> n in installed.value)
  {
    var names: seq<string> := [];
    for i := 0 to |keys|
      invariant Distinct(names)
      invariant forall n :: n in names <==>
                  n in keys[..i] && n !in excl && (installed.Some? ==> n in installed.value)
    {
      var n := keys[i];
      if n !in excl && (installed == None || n in installed.value) {
        names := names + [n];
      }
    }
    assert keys[..|keys|] == keys;
    portable := SortNames(names);
  }

  predicate AnyIn(deps: seq<string>, s: set<string>) {
    exists i :: 0 <= i < |deps| && deps[i] in s
  }

  /** The excluded names are the least superset of `exclude` closed under dependents. */
  lemma TaintedIsLeastClosed(dep: Depends, exclude: set<string>, excl: set<string>, s: set<string>)
    requires forall n :: n in excl <==> Tainted(dep, exclude, n)
    ensures exclude <= excl && ClosedUnderDependents(dep, excl)
    ensures exclude <= s && ClosedUnderDependents(dep, s) ==> excl <= s
  {
    forall n | n in exclude ensures n in excl { assert IsChain(dep, [n]); }
    forall n, d | DependsOn(dep, n, d) && d in excl ensures n in excl { TaintSpreads(dep, exclude, n, d); }
    if exclude <= s && ClosedUnderDependents(dep, s) {
      forall n | n in excl ensures n in s {
        var path :| IsChain(dep, path) && path[0] == n && path[|path| - 1] in exclude;
        ClosedHoldsChain(dep, s, path);
      }
    }
  }
}
