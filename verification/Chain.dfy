/** Ordering a view inheritance graph for display (entrypoints.py). */
module Chain {
  import opened Orders

  /** A missing priority counts as 16. */
  datatype View = View(id: int, inherit: Option<int>, priority: Option<int>)

  function Priority(v: View): int {
    if v.priority.Some? then v.priority.value else 16
  }

  predicate KidLe(a: View, b: View) {
    Priority(a) < Priority(b) || (Priority(a) == Priority(b) && a.id <= b.id)
  }

  /** A sibling with smaller priority comes first, 16 being that of a view without one, and then one with smaller id. */
  predicate KidLt(a: View, b: View) {
    var p := match a.priority case None => 16 case Some(n) => n;
    var q := match b.priority case None => 16 case Some(n) => n;
    p < q || (p == q && a.id < b.id)
  }

  function Children(views: seq<View>, parent: Option<int>): seq<View> {
    if views == [] then []
    else Children(views[..|views| - 1], parent) + if views[|views| - 1].inherit == parent then [views[|views| - 1]]
      else []
  }

  lemma {:induction false} ChildrenAre(views: seq<View>, parent: Option<int>)
    ensures forall v :: v in Children(views, parent) <==> v in views && v.inherit == parent
    decreases |views|
  {
    if views != [] {
      var n := |views| - 1;
      ChildrenAre(views[..n], parent);
      assert views == views[..n] + [views[n]];
    }
  }

  function Kids(views: seq<View>, n: View): seq<View> {
    Sort(KidLe, Children(views, Some(n.id)))
  }

  /** All the children, sorted. */
  lemma KidsAre(views: seq<View>, n: View)
    ensures forall v :: v in Kids(views, n) <==> v in views && v.inherit == Some(n.id)
    ensures Sorted(KidLe, Kids(views, n))
    ensures forall i :: 0 <= i < |Kids(views, n)| ==>
      Kids(views, n)[i] in views && Kids(views, n)[i].inherit == Some(n.id)
  {
    ChildrenAre(views, Some(n.id));
    SortSorts(KidLe, Children(views, Some(n.id)));
    SortMembers(KidLe, Children(views, Some(n.id)));
  }

  function Ids(s: seq<View>): set<int> {
    set i | 0 <= i < |s| :: s[i].id
  }

  lemma IdsConcat(a: seq<View>, b: seq<View>)
    ensures Ids(a + b) == Ids(a) + Ids(b)
  {
    assert forall i :: 0 <= i < |a| ==> (a + b)[i] == a[i];
    assert forall i :: 0 <= i < |b| ==> (a + b)[|a| + i] == b[i];
    forall x | x in Ids(a) + Ids(b) ensures x in Ids(a + b) {
      if x in Ids(a) {
        var i :| 0 <= i < |a| && a[i].id == x;
        assert (a + b)[i].id == x;
      } else {
        var i :| 0 <= i < |b| && b[i].id == x;
        assert (a + b)[|a| + i].id == x;
      }
    }
  }

  lemma Shrinks(all: set<int>, seen: set<int>, seen': set<int>)
    requires seen <= seen'
    ensures |all - seen'| <= |all - seen|
    ensures forall x :: x in all && x !in seen && x in seen' ==> |all - seen'| < |all - seen|
  {
    assert all - seen' <= all - seen;
    SubsetSize(all - seen', all - seen);
    forall x | x in all && x !in seen && x in seen' ensures |all - seen'| < |all - seen| {
      SubsetSize(all - seen', (all - seen) - {x});
    }
  }

  lemma SubsetSize(a: set<int>, b: set<int>)
    requires a <= b
    ensures |a| <= |b|
  {
    assert b == a + (b - a);
  }

  /** The recursive walk: what it lists, given the ids it has already seen. */
  function Walk(views: seq<View>, n: View, seen: set<int>): (r: seq<View>)
    requires n in views
    decreases |Ids(views) - seen|, 0
  {
    if n.id in seen then []
    else
      Shrinks(Ids(views), seen, seen + {n.id});
      assert n.id in Ids(views);
      KidsAre(views, n);
      [n] + WalkAll(views, Kids(views, n), seen + {n.id})
  }

  function WalkAll(views: seq<View>, kids: seq<View>, seen: set<int>): (r: seq<View>)
    requires forall i :: 0 <= i < |kids| ==> kids[i] in views
    decreases |Ids(views) - seen|, 1 + |kids|
  {
    if kids == [] then []
    else
      var block := Walk(views, kids[0], seen);
      Shrinks(Ids(views), seen, seen + Ids(block));
      block + WalkAll(views, kids[1..], seen + Ids(block))
  }

  function RootOf(views: seq<View>, id: int): Option<View> {
    if views == [] then None
    else if views[|views| - 1].id == id then Some(views[|views| - 1])
    else RootOf(views[..|views| - 1], id)
  }

  lemma {:induction false} RootIsAView(views: seq<View>, id: int)
    ensures RootOf(views, id).Some? ==> RootOf(views, id).value in views && RootOf(views, id).value.id == id
    ensures RootOf(views, id).None? ==> forall v :: v in views ==> v.id != id
    decreases |views|
  {
    if views != [] {
      RootIsAView(views[..|views| - 1], id);
      assert views == views[..|views| - 1] + [views[|views| - 1]];
    }
  }

  function Order(views: seq<View>, id: int): seq<View> {
    RootIsAView(views, id);
    match RootOf(views, id)
    case None => []
    case Some(root) => Walk(views, root, {})
  }

  // ------------------------------------------------------------------------
  // Every reachable view, once
  // ------------------------------------------------------------------------

  /** Views listed once each, none of them already seen. */
  ghost predicate Once(views: seq<View>, list: seq<View>, seen: set<int>) {
    (forall i, j :: 0 <= i < j < |list| ==> list[i].id != list[j].id)
    && (forall i :: 0 <= i < |list| ==> list[i] in views && list[i].id !in seen)
  }

  lemma OnceConcat(views: seq<View>, a: seq<View>, b: seq<View>, seen: set<int>)
    requires Once(views, a, seen) && Once(views, b, seen + Ids(a))
    ensures Once(views, a + b, seen)
  {
    assert forall i :: 0 <= i < |a| ==> a[i].id in Ids(a);
  }

  lemma OnceCons(views: seq<View>, n: View, rest: seq<View>, seen: set<int>)
    requires n in views && n.id !in seen && Once(views, rest, seen + {n.id})
    ensures Once(views, [n] + rest, seen)
    ensures Ids([n] + rest) == {n.id} + Ids(rest)
  {
    assert Ids([n]) == {n.id} by { assert [n][0] == n; }
    IdsConcat([n], rest);
    OnceConcat(views, [n], rest, seen);
  }

  /** A walk as one step, with the measure that decreases. */
  lemma WalkStep(views: seq<View>, n: View, seen: set<int>)
    requires n in views && n.id !in seen
    ensures forall i :: 0 <= i < |Kids(views, n)| ==> Kids(views, n)[i] in views
    ensures Walk(views, n, seen) == [n] + WalkAll(views, Kids(views, n), seen + {n.id})
    ensures |Ids(views) - (seen + {n.id})| < |Ids(views) - seen|
  {
    assert n.id in Ids(views);
    Shrinks(Ids(views), seen, seen + {n.id});
    KidsAre(views, n);
  }

  lemma WalkAllStep(views: seq<View>, kids: seq<View>, seen: set<int>)
    requires kids != [] && forall i :: 0 <= i < |kids| ==> kids[i] in views
    ensures var block := Walk(views, kids[0], seen);
            WalkAll(views, kids, seen) == block + WalkAll(views, kids[1..], seen + Ids(block))
            && |Ids(views) - (seen + Ids(block))| <= |Ids(views) - seen|
  {
    Shrinks(Ids(views), seen, seen + Ids(Walk(views, kids[0], seen)));
  }

  lemma {:induction false} WalkOnce(views: seq<View>, n: View, seen: set<int>)
    requires n in views
    ensures Once(views, Walk(views, n, seen), seen)
    ensures n.id in seen + Ids(Walk(views, n, seen))
    decreases |Ids(views) - seen|, 0
  {
    if n.id !in seen {
      WalkStep(views, n, seen);
      WalkAllOnce(views, Kids(views, n), seen + {n.id});
      OnceCons(views, n, WalkAll(views, Kids(views, n), seen + {n.id}), seen);
    }
  }

  ghost predicate AllIn(kids: seq<View>, seen: set<int>) {
    forall i :: 0 <= i < |kids| ==> kids[i].id in seen
  }

  lemma AllInCons(kids: seq<View>, seen: set<int>, a: set<int>, b: set<int>)
    requires kids != [] && kids[0].id in seen + a && AllIn(kids[1..], seen + a + b)
    ensures AllIn(kids, seen + (a + b))
  {
    forall i | 0 <= i < |kids| ensures kids[i].id in seen + (a + b) {
      if i > 0 { assert kids[i] == kids[1..][i - 1]; }
    }
  }

  lemma {:induction false} WalkAllOnce(views: seq<View>, kids: seq<View>, seen: set<int>)
    requires forall i :: 0 <= i < |kids| ==> kids[i] in views
    ensures Once(views, WalkAll(views, kids, seen), seen)
    ensures AllIn(kids, seen + Ids(WalkAll(views, kids, seen)))
    decreases |Ids(views) - seen|, 1 + |kids|
  {
    if kids != [] {
      var block := Walk(views, kids[0], seen);
      var rest := WalkAll(views, kids[1..], seen + Ids(block));
      WalkAllStep(views, kids, seen);
      WalkOnce(views, kids[0], seen);
      WalkAllOnce(views, kids[1..], seen + Ids(block));
      OnceConcat(views, block, rest, seen);
      IdsConcat(block, rest);
      AllInCons(kids, seen, Ids(block), Ids(rest));
    }
  }

  /** Every listed view's children have been seen by the end. */
  ghost predicate Closed(views: seq<View>, list: seq<View>, seen: set<int>) {
    forall i, k :: 0 <= i < |list| && k in views && k.inherit == Some(list[i].id) ==> k.id in seen
  }

  lemma ClosedConcat(views: seq<View>, a: seq<View>, b: seq<View>, seenA: set<int>, seen: set<int>)
    requires Closed(views, a, seenA) && Closed(views, b, seen) && seenA <= seen
    ensures Closed(views, a + b, seen)
  {
  }

  lemma KidsClose(views: seq<View>, n: View, seen: set<int>)
    requires AllIn(Kids(views, n), seen)
    ensures Closed(views, [n], seen)
  {
    KidsAre(views, n);
    forall k | k in views && k.inherit == Some(n.id) ensures k.id in seen {
      assert k in Kids(views, n);
    }
  }

  lemma {:induction false} WalkCloses(views: seq<View>, n: View, seen: set<int>)
    requires n in views
    ensures Closed(views, Walk(views, n, seen), seen + Ids(Walk(views, n, seen)))
    decreases |Ids(views) - seen|, 0
  {
    if n.id !in seen {
      var kids := Kids(views, n);
      WalkStep(views, n, seen);
      var rest := WalkAll(views, kids, seen + {n.id});
      WalkAllCloses(views, kids, seen + {n.id});
      WalkAllOnce(views, kids, seen + {n.id});
      OnceCons(views, n, rest, seen);
      assert seen + Ids([n] + rest) == seen + {n.id} + Ids(rest);
      KidsClose(views, n, seen + {n.id} + Ids(rest));
      ClosedConcat(views, [n], rest, seen + {n.id} + Ids(rest), seen + {n.id} + Ids(rest));
    }
  }

  lemma {:induction false} WalkAllCloses(views: seq<View>, kids: seq<View>, seen: set<int>)
    requires forall i :: 0 <= i < |kids| ==> kids[i] in views
    ensures Closed(views, WalkAll(views, kids, seen), seen + Ids(WalkAll(views, kids, seen)))
    decreases |Ids(views) - seen|, 1 + |kids|
  {
    if kids != [] {
      var block := Walk(views, kids[0], seen);
      var rest := WalkAll(views, kids[1..], seen + Ids(block));
      WalkAllStep(views, kids, seen);
      WalkCloses(views, kids[0], seen);
      WalkAllCloses(views, kids[1..], seen + Ids(block));
      IdsConcat(block, rest);
      assert seen + Ids(block + rest) == seen + Ids(block) + Ids(rest);
      ClosedConcat(views, block, rest, seen + Ids(block), seen + Ids(block) + Ids(rest));
    }
  }

  /** A chain of views, each inheriting from the one before. */
  ghost predicate Extends(views: seq<View>, path: seq<View>) {
    path != []
    && (forall i :: 0 <= i < |path| ==> path[i] in views)
    && forall i :: 0 < i < |path| ==> path[i].inherit == Some(path[i - 1].id)
  }

  ghost predicate ChainTo(views: seq<View>, root: View, path: seq<View>, v: View) {
    Extends(views, path) && path[0] == root && path[|path| - 1] == v
  }

  ghost predicate Reachable(views: seq<View>, root: View, v: View) {
    exists path :: ChainTo(views, root, path, v)
  }

  /** A chain that does not come back to the root. */
  ghost predicate DirectTo(views: seq<View>, root: View, path: seq<View>, v: View) {
    ChainTo(views, root, path, v) && forall i :: 0 < i < |path| ==> path[i].id != root.id
  }

  ghost predicate UniqueIds(views: seq<View>) {
    forall i, j :: 0 <= i < j < |views| ==> views[i].id != views[j].id
  }

  lemma SameIdSameView(views: seq<View>, a: View, b: View)
    requires UniqueIds(views) && a in views && b in views && a.id == b.id
    ensures a == b
  {
    var i :| 0 <= i < |views| && views[i] == a;
    var j :| 0 <= j < |views| && views[j] == b;
  }

  /** A view has at most one direct chain from the root: its address. */
  lemma {:induction false} AddressUnique(views: seq<View>, root: View, p: seq<View>, q: seq<View>, v: View)
    requires UniqueIds(views) && DirectTo(views, root, p, v) && DirectTo(views, root, q, v)
    ensures p == q
    decreases |p|
  {
    if |p| > 1 && |q| > 1 {
      var u, w := p[|p| - 2], q[|q| - 2];
      assert v.inherit == Some(u.id) && v.inherit == Some(w.id);
      SameIdSameView(views, u, w);
      AddressUnique(views, root, p[..|p| - 1], q[..|q| - 1], u);
      assert p == p[..|p| - 1] + [v] && q == q[..|q| - 1] + [v];
    }
  }

  /** Parents first, then siblings by priority and id: the lexicographic order of addresses. */
  predicate Before(p: seq<View>, q: seq<View>) {
    q != [] && (p == [] || KidLt(p[0], q[0]) || (p[0] == q[0] && Before(p[1..], q[1..])))
  }

  lemma {:induction false} BeforeBelow(common: seq<View>, p: seq<View>, q: seq<View>)
    requires Before(p, q)
    ensures Before(common + p, common + q)
  {
    if common == [] {
      assert common + p == p && common + q == q;
    } else {
      assert (common + p)[1..] == common[1..] + p && (common + q)[1..] == common[1..] + q;
      BeforeBelow(common[1..], p, q);
    }
  }

  /** The addresses of a block of the listing: all of them below `stem`. */
  ghost predicate Block(views: seq<View>, root: View, list: seq<View>, stem: seq<View>, tails: seq<seq<View>>) {
    |tails| == |list|
    && (forall i :: 0 <= i < |list| ==> DirectTo(views, root, stem + tails[i], list[i]))
    && (forall i, j :: 0 <= i < j < |list| ==> Before(tails[i], tails[j]))
  }

  lemma DistinctViewsDistinctIds(views: seq<View>, a: View, b: View)
    requires UniqueIds(views) && a in views && b in views && a != b
    ensures a.id != b.id
  {
    if a.id == b.id { SameIdSameView(views, a, b); }
  }

  lemma KidsStrict(views: seq<View>, n: View)
    requires UniqueIds(views)
    ensures forall i, j :: 0 <= i < j < |Kids(views, n)| ==> KidLt(Kids(views, n)[i], Kids(views, n)[j])
  {
    var kids, plain := Kids(views, n), Children(views, Some(n.id));
    KidsAre(views, n);
    ChildrenDistinct(views, Some(n.id));
    SortSorts(KidLe, plain);
    DistinctByMultiset(plain, kids);
    forall i, j | 0 <= i < j < |kids| ensures KidLt(kids[i], kids[j]) {
      assert KidLe(kids[i], kids[j]) && kids[i] in views && kids[j] in views;
      DistinctViewsDistinctIds(views, kids[i], kids[j]);
    }
  }

  lemma {:induction false} ChildrenDistinct(views: seq<View>, parent: Option<int>)
    requires UniqueIds(views)
    ensures Distinct(Children(views, parent))
    decreases |views|
  {
    if views != [] {
      var n := |views| - 1;
      ChildrenDistinct(views[..n], parent);
      ChildrenAre(views[..n], parent);
    }
  }

  /** The tails of a block start with the view the block is for. */
  ghost predicate StartWith(tails: seq<seq<View>>, n: View) {
    forall i :: 0 <= i < |tails| ==> tails[i] != [] && tails[i][0] == n
  }

  ghost predicate StartAmong(tails: seq<seq<View>>, kids: seq<View>) {
    forall i :: 0 <= i < |tails| ==> tails[i] != [] && tails[i][0] in kids
  }

  function Under(n: View, tails: seq<seq<View>>): seq<seq<View>> {
    seq(|tails|, i requires 0 <= i < |tails| => [n] + tails[i])
  }

  lemma BlockUnder(views: seq<View>, root: View, n: View, rest: seq<View>, stem: seq<View>, tails: seq<seq<View>>)
    requires DirectTo(views, root, stem + [n], n) && Block(views, root, rest, stem + [n], tails)
    requires forall i :: 0 <= i < |tails| ==> tails[i] != []
    ensures Block(views, root, [n] + rest, stem, [[n]] + Under(n, tails))
    ensures StartWith([[n]] + Under(n, tails), n)
  {
    var list, all := [n] + rest, [[n]] + Under(n, tails);
    forall i | 0 <= i < |list| ensures DirectTo(views, root, stem + all[i], list[i]) {
      if i > 0 {
        assert all[i] == [n] + tails[i - 1] && list[i] == rest[i - 1];
        assert stem + all[i] == (stem + [n]) + tails[i - 1];
      }
    }
    forall i, j | 0 <= i < j < |list| ensures Before(all[i], all[j]) {
      assert all[j] == [n] + tails[j - 1] && all[j][1..] == tails[j - 1];
      if i == 0 {
        assert all[0][1..] == [];
      } else {
        assert all[i] == [n] + tails[i - 1] && all[i][1..] == tails[i - 1];
      }
    }
  }

  lemma BlockConcat(views: seq<View>, root: View, a: seq<View>, b: seq<View>, stem: seq<View>,
                    ta: seq<seq<View>>, tb: seq<seq<View>>, first: View, others: seq<View>)
    requires Block(views, root, a, stem, ta) && Block(views, root, b, stem, tb)
    requires StartWith(ta, first) && StartAmong(tb, others)
    requires forall k :: k in others ==> KidLt(first, k)
    ensures Block(views, root, a + b, stem, ta + tb)
  {
  }

  /** Children of one view, strictly in (priority, id) order. */
  ghost predicate Siblings(n: View, kids: seq<View>) {
    (forall i :: 0 <= i < |kids| ==> kids[i].inherit == Some(n.id))
    && forall i, j :: 0 <= i < j < |kids| ==> KidLt(kids[i], kids[j])
  }

  lemma KidsAreSiblings(views: seq<View>, n: View)
    requires UniqueIds(views)
    ensures Siblings(n, Kids(views, n))
  {
    KidsStrict(views, n);
    KidsAre(views, n);
  }

  lemma LaterSiblings(n: View, kids: seq<View>)
    requires Siblings(n, kids) && kids != []
    ensures kids[0].inherit == Some(n.id) && Siblings(n, kids[1..])
    ensures forall k :: k in kids[1..] ==> KidLt(kids[0], k)
  {
  }

  /** The blocks of a walk, and the address of everything in them. */
  lemma {:induction false} WalkBlock(views: seq<View>, root: View, n: View, seen: set<int>, stem: seq<View>)
    returns (tails: seq<seq<View>>)
    requires UniqueIds(views) && n in views
    requires n.id in seen || DirectTo(views, root, stem + [n], n)
    requires root.id in seen || n == root
    ensures Block(views, root, Walk(views, n, seen), stem, tails) && StartWith(tails, n)
    decreases |Ids(views) - seen|, 0
  {
    if n.id in seen {
      tails := [];
    } else {
      WalkStep(views, n, seen);
      KidsAreSiblings(views, n);
      var below := WalkAllBlock(views, root, n, Kids(views, n), seen + {n.id}, stem + [n]);
      BlockUnder(views, root, n, WalkAll(views, Kids(views, n), seen + {n.id}), stem, below);
      tails := [[n]] + Under(n, below);
    }
  }

  lemma {:induction false} WalkAllBlock(views: seq<View>, root: View, n: View, kids: seq<View>, seen: set<int>,
        stem: seq<View>)
    returns (tails: seq<seq<View>>)
    requires UniqueIds(views) && root.id in seen && DirectTo(views, root, stem, n)
    requires (forall i :: 0 <= i < |kids| ==> kids[i] in views) && Siblings(n, kids)
    ensures Block(views, root, WalkAll(views, kids, seen), stem, tails) && StartAmong(tails, kids)
    decreases |Ids(views) - seen|, 1 + |kids|
  {
    if kids == [] {
      tails := [];
    } else {
      var block := Walk(views, kids[0], seen);
      WalkAllStep(views, kids, seen);
      LaterSiblings(n, kids);
      if kids[0].id !in seen { DirectKid(views, root, stem, n, kids[0]); }
      var first := WalkBlock(views, root, kids[0], seen, stem);
      var rest := WalkAllBlock(views, root, n, kids[1..], seen + Ids(block), stem);
      BlockConcat(views, root, block, WalkAll(views, kids[1..], seen + Ids(block)), stem, first, rest, kids[0],
        kids[1..]);
      tails := first + rest;
    }
  }

  lemma DirectKid(views: seq<View>, root: View, stem: seq<View>, n: View, kid: View)
    requires DirectTo(views, root, stem, n) && kid in views && kid.inherit == Some(n.id) && kid.id != root.id
    ensures DirectTo(views, root, stem + [kid], kid)
  {
  }

  // ------------------------------------------------------------------------
  // The main results
  // ------------------------------------------------------------------------

  lemma {:induction false} ReachableIsListed(views: seq<View>, list: seq<View>, root: View, path: seq<View>, v: View)
    requires UniqueIds(views) && root in list && Closed(views, list, Ids(list)) && Once(views, list, {})
    requires ChainTo(views, root, path, v)
    ensures v in list
    decreases |path|
  {
    if |path| > 1 {
      var front := path[..|path| - 1];
      ReachableIsListed(views, list, root, front, path[|path| - 2]);
      var i :| 0 <= i < |list| && list[i] == path[|path| - 2];
      assert v in views && v.inherit == Some(list[i].id);
      var j :| 0 <= j < |list| && list[j].id == v.id;
      SameIdSameView(views, list[j], v);
    }
  }

  /** Exactly the views reachable from the root are listed, once each, even on an inheritance cycle. */
  lemma ListsTheReachable(views: seq<View>, id: int)
    requires UniqueIds(views)
    ensures Once(views, Order(views, id), {})
    ensures RootOf(views, id).None? ==> Order(views, id) == []
    ensures RootOf(views, id).Some? ==>
              forall v :: v in Order(views, id) <==> Reachable(views, RootOf(views, id).value, v)
  {
    RootIsAView(views, id);
    if RootOf(views, id).Some? {
      var root, list := RootOf(views, id).value, Order(views, id);
      WalkOnce(views, root, {});
      forall v ensures v in list <==> Reachable(views, root, v) {
        if v in list {
          ListedIsReachable(views, id, v);
        } else if Reachable(views, root, v) {
          ReachableIsInOrder(views, id, v);
        }
      }
    }
  }

  lemma ListedIsReachable(views: seq<View>, id: int, v: View)
    requires UniqueIds(views) && RootOf(views, id).Some? && v in Order(views, id)
    ensures Reachable(views, RootOf(views, id).value, v)
  {
    var list := Order(views, id);
    var addresses := Addresses(views, id);
    var i :| 0 <= i < |list| && list[i] == v;
    assert ChainTo(views, RootOf(views, id).value, addresses[i], v);
  }

  lemma ReachableIsInOrder(views: seq<View>, id: int, v: View)
    requires UniqueIds(views) && RootOf(views, id).Some? && Reachable(views, RootOf(views, id).value, v)
    ensures v in Order(views, id)
  {
    RootIsAView(views, id);
    var root, list := RootOf(views, id).value, Order(views, id);
    WalkOnce(views, root, {});
    WalkCloses(views, root, {});
    assert {} + Ids(list) == Ids(list);
    WalkStep(views, root, {});
    assert list[0] == root;
    var path :| ChainTo(views, root, path, v);
    ReachableIsListed(views, list, root, path, v);
  }

  /** Each listed view's address: its direct chain from the root. */
  ghost predicate AddressesOf(views: seq<View>, root: View, list: seq<View>, addresses: seq<seq<View>>) {
    |addresses| == |list| && forall i :: 0 <= i < |list| ==> DirectTo(views, root, addresses[i], list[i])
  }

  /** The listing is in the order of the addresses. */
  lemma Addresses(views: seq<View>, id: int) returns (addresses: seq<seq<View>>)
    requires UniqueIds(views) && RootOf(views, id).Some?
    ensures AddressesOf(views, RootOf(views, id).value, Order(views, id), addresses)
    ensures forall i, j :: 0 <= i < j < |addresses| ==> Before(addresses[i], addresses[j])
  {
    RootIsAView(views, id);
    var root := RootOf(views, id).value;
    assert DirectTo(views, root, [] + [root], root);
    addresses := WalkBlock(views, root, root, {}, []);
    assert forall i :: 0 <= i < |addresses| ==> [] + addresses[i] == addresses[i];
  }

  lemma {:induction false} BeforeIsStrict(p: seq<View>, q: seq<View>)
    requires Before(p, q)
    ensures !Before(q, p) && p != q
    decreases p
  {
    if p != [] && !KidLt(p[0], q[0]) {
      BeforeIsStrict(p[1..], q[1..]);
    }
  }

  /** One view is listed before another exactly when its address comes first; whatever addresses are given,
      since a view has only one. */
  lemma ListedInAddressOrder(views: seq<View>, id: int, i: nat, j: nat, p: seq<View>, q: seq<View>)
    requires UniqueIds(views) && RootOf(views, id).Some? && i < |Order(views, id)| && j < |Order(views, id)|
    requires DirectTo(views, RootOf(views, id).value, p, Order(views, id)[i])
    requires DirectTo(views, RootOf(views, id).value, q, Order(views, id)[j])
    ensures i < j <==> Before(p, q)
  {
    var root, list := RootOf(views, id).value, Order(views, id);
    var addresses := Addresses(views, id);
    AddressUnique(views, root, p, addresses[i], list[i]);
    AddressUnique(views, root, q, addresses[j], list[j]);
    if i < j {
      assert Before(addresses[i], addresses[j]);
    } else if j < i {
      BeforeIsStrict(addresses[j], addresses[i]);
    } else if Before(p, q) {
      BeforeIsStrict(p, q);
    }
  }

  /** A parent is listed before its children (the root itself may inherit from one of its own descendants). */
  lemma ParentsFirst(views: seq<View>, id: int, i: nat, j: nat)
    requires UniqueIds(views) && RootOf(views, id).Some? && i < |Order(views, id)| && j < |Order(views, id)|
    requires Order(views, id)[j].inherit == Some(Order(views, id)[i].id) && Order(views, id)[j].id != id
    ensures i < j
  {
    RootIsAView(views, id);
    ListsTheReachable(views, id);
    var addresses := Addresses(views, id);
    var v := Order(views, id)[j];
    DirectKid(views, RootOf(views, id).value, addresses[i], Order(views, id)[i], v);
    assert Before([], [v]);
    BeforeBelow(addresses[i], [], [v]);
    assert addresses[i] + [] == addresses[i];
    ListedInAddressOrder(views, id, i, j, addresses[i], addresses[i] + [v]);
  }

  lemma SiblingsBefore(stem: seq<View>, a: View, b: View, p: seq<View>, q: seq<View>)
    requires KidLt(a, b)
    ensures Before(stem + [a] + p, stem + [b] + q)
  {
    BeforeBelow(stem, [a] + p, [b] + q);
    assert stem + ([a] + p) == stem + [a] + p && stem + ([b] + q) == stem + [b] + q;
  }

  /** Everything under one sibling is listed before everything under the next in (priority, id) order. */
  lemma SiblingsInOrder(views: seq<View>, id: int, i: nat, j: nat, stem: seq<View>, a: View, b: View, p: seq<View>,
        q: seq<View>)
    requires UniqueIds(views) && RootOf(views, id).Some? && i < |Order(views, id)| && j < |Order(views, id)|
    requires KidLt(a, b)
    requires DirectTo(views, RootOf(views, id).value, stem + [a] + p, Order(views, id)[i])
    requires DirectTo(views, RootOf(views, id).value, stem + [b] + q, Order(views, id)[j])
    ensures i < j
  {
    SiblingsBefore(stem, a, b, p, q);
    ListedInAddressOrder(views, id, i, j, stem + [a] + p, stem + [b] + q);
  }

  // ------------------------------------------------------------------------
  // The code's own recursion, over shared state
  // ------------------------------------------------------------------------

  class Walker {
    ghost const views: seq<View>
    const byParent: map<Option<int>, seq<View>>
    var seen: set<int>
    var out: seq<View>

    ghost predicate Valid() {
      Indexed(byParent, views)
    }

    constructor (ghost views: seq<View>, byParent: map<Option<int>, seq<View>>)
      requires Indexed(byParent, views)
      ensures Valid() && this.views == views && this.byParent == byParent && seen == {} && out == []
    {
      this.views := views;
      this.byParent := byParent;
      seen := {};
      out := [];
    }

    method SortedKids(node: View) returns (kids: seq<View>)
      requires Valid()
      ensures kids == Kids(views, node)
    {
      kids := Sort(KidLe, if Some(node.id) in byParent then byParent[Some(node.id)] else []);
    }

    method Visit(node: View)
      requires Valid() && node in views
      modifies this
      ensures out == old(out) + Walk(views, node, old(seen))
      ensures seen == old(seen) + Ids(Walk(views, node, old(seen)))
      decreases |Ids(views) - seen|, 0
    {
      if node.id in seen {
        return;
      }
      WalkStep(views, node, seen);
      seen := seen + {node.id};
      out := out + [node];
      var kids := SortedKids(node);
      VisitEach(kids);
      VisitDone(node, WalkAll(views, kids, old(seen) + {node.id}), old(out) + [node], old(out));
    }

    method VisitEach(kids: seq<View>)
      requires Valid() && forall i :: 0 <= i < |kids| ==> kids[i] in views
      modifies this
      ensures out == old(out) + WalkAll(views, kids, old(seen))
      ensures seen == old(seen) + Ids(WalkAll(views, kids, old(seen)))
      decreases |Ids(views) - seen|, 1
    {
      assert kids[0..] == kids;
      for i := 0 to |kids|
        invariant Rest(views, kids, i, seen, out) == Rest(views, kids, 0, old(seen), old(out))
        invariant old(seen) <= seen
      {
        Shrinks(Ids(views), old(seen), seen);
        VisitStep(views, kids, i, seen, out);
        Visit(kids[i]);
      }
      VisitedAll(views, kids, seen, out);
    }
  }

  /** What the listing and the seen ids will be once the remaining kids are walked. */
  ghost function Rest(views: seq<View>, kids: seq<View>, i: nat, seen: set<int>, out: seq<View>): (seq<View>, set<int>)
    requires i <= |kids| && forall k :: 0 <= k < |kids| ==> kids[k] in views
  {
    var rest := WalkAll(views, kids[i..], seen);
    (out + rest, seen + Ids(rest))
  }

  lemma VisitedAll(views: seq<View>, kids: seq<View>, seen: set<int>, out: seq<View>)
    requires forall k :: 0 <= k < |kids| ==> kids[k] in views
    ensures Rest(views, kids, |kids|, seen, out) == (out, seen)
  {
    assert kids[|kids|..] == [] && out + [] == out;
    assert seen + Ids([]) == seen;
  }

  lemma VisitDone(node: View, rest: seq<View>, list: seq<View>, before: seq<View>)
    requires list == before + [node]
    ensures list + rest == before + ([node] + rest)
    ensures Ids([node] + rest) == {node.id} + Ids(rest)
  {
    assert Ids([node]) == {node.id} by { assert [node][0] == node; }
    IdsConcat([node], rest);
  }

  lemma VisitStep(views: seq<View>, kids: seq<View>, i: nat, seen: set<int>, out: seq<View>)
    requires i < |kids| && forall k :: 0 <= k < |kids| ==> kids[k] in views
    ensures var block := Walk(views, kids[i], seen);
            Rest(views, kids, i + 1, seen + Ids(block), out + block) == Rest(views, kids, i, seen, out)
  {
    var block := Walk(views, kids[i], seen);
    assert kids[i..][0] == kids[i] && kids[i..][1..] == kids[i + 1..];
    WalkAllStep(views, kids[i..], seen);
    var rest := WalkAll(views, kids[i + 1..], seen + Ids(block));
    TakeOver(out, seen, block, rest);
  }

  lemma TakeOver(out: seq<View>, seen: set<int>, block: seq<View>, rest: seq<View>)
    ensures (out + block) + rest == out + (block + rest)
    ensures (seen + Ids(block)) + Ids(rest) == seen + Ids(block + rest)
  {
    IdsConcat(block, rest);
  }

  /** The dict built from the views: each parent's children in order. */
  ghost predicate Indexed(byParent: map<Option<int>, seq<View>>, views: seq<View>) {
    forall p :: Children(views, p) == if p in byParent then byParent[p] else []
  }

  lemma IndexedNext(byParent: map<Option<int>, seq<View>>, views: seq<View>, i: nat)
    requires i < |views| && Indexed(byParent, views[..i])
    ensures var p := views[i].inherit;
            Indexed(byParent[p := (if p in byParent then byParent[p] else []) + [views[i]]], views[..i + 1])
  {
    assert views[..i + 1][..i] == views[..i];
  }

  method IndexByParent(views: seq<View>, rootId: int)
    returns (byParent: map<Option<int>, seq<View>>, root: Option<View>)
    ensures root == RootOf(views, rootId) && Indexed(byParent, views)
  {
    byParent, root := map[], None;
    for i := 0 to |views|
      invariant root == RootOf(views[..i], rootId) && Indexed(byParent, views[..i])
    {
      var v := views[i];
      assert views[..i + 1][..i] == views[..i];
      IndexedNext(byParent, views, i);
      if v.id == rootId {
        root := Some(v);
      }
      byParent := byParent[v.inherit := (if v.inherit in byParent then byParent[v.inherit] else []) + [v]];
    }
    assert views[..|views|] == views;
  }

  method OrderInheritanceChain(views: seq<View>, rootId: int) returns (list: seq<View>)
    ensures list == Order(views, rootId)
  {
    var byParent, root := IndexByParent(views, rootId);
    if root.None? {
      return [];
    }
    RootIsAView(views, rootId);
    var walker := new Walker(views, byParent);
    walker.Visit(root.value);
    list := walker.out;
  }
}
