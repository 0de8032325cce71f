/** Rename matching between two model trees: the greedy pairing of gen_manifest.py. */
module Matching {
  import opened Orders

  const MIN_FIELDS_FOR_MATCH: nat := 4

  type Fields = set<string>
  type Models = map<string, Fields>

  /** Rounded overlap coefficient in thousandths, from |a & b| and min(|a|, |b|). */
  type Rounding = (nat, nat) -> nat

  datatype Pair = Pair(score: nat, oldName: string, newName: string)

  function Min(a: nat, b: nat): nat { if a < b then a else b }

  /** Overlap coefficient at least 0.60, with the floors on the sizes and on the intersection. */
  predicate Eligible(a: Fields, b: Fields) {
    && |a| >= MIN_FIELDS_FOR_MATCH && |b| >= MIN_FIELDS_FOR_MATCH
    && |a * b| >= MIN_FIELDS_FOR_MATCH
    && 5 * |a * b| >= 3 * Min(|a|, |b|)
  }

  predicate IsCandidate(removed: Models, pool: Models, round: Rounding, p: Pair) {
    && p.oldName in removed && p.newName in pool
    && Eligible(removed[p.oldName], pool[p.newName])
    && p.score == round(|removed[p.oldName] * pool[p.newName]|, Min(|removed[p.oldName]|, |pool[p.newName]|))
  }

  /** `d` is the size of the smaller of two field sets. */
  predicate SmallerSize(a: Fields, b: Fields, d: nat) {
    (d == |a| || d == |b|) && d <= |a| && d <= |b|
  }

  /** At least three fifths of one of the two sets is common to both. */
  predicate Overlaps(a: Fields, b: Fields, d: nat) {
    SmallerSize(a, b, d) && 5 * |a * b| >= 3 * d
  }

  /** Candidates told without the overlap coefficient's own terms: both models have at least four fields and share at
      least four, the shared ones are three fifths of the smaller set, and that share, rounded, is the score. */
  lemma CandidateIff(removed: Models, pool: Models, round: Rounding, p: Pair)
    ensures IsCandidate(removed, pool, round, p) <==>
              && p.oldName in removed && p.newName in pool
              && var a, b := removed[p.oldName], pool[p.newName];
                 && |a| >= 4 && |b| >= 4 && |a * b| >= 4
                 && exists d :: Overlaps(a, b, d) && p.score == round(|a * b|, d)
  {
    if p.oldName in removed && p.newName in pool {
      var a, b := removed[p.oldName], pool[p.newName];
      assert SmallerSize(a, b, Min(|a|, |b|));
    }
  }

  /** A removed model with enough fields that is contained in a model of the pool is a candidate for it, with the score
      of a full overlap however large the other model is; so either it is matched with it, or one of the two is chosen
      in a pair that scores at least as much. */
  lemma AbsorbedIsCandidate(removed: Models, pool: Models, round: Rounding, oldName: string, newName: string,
                            out: seq<Pair>)
    requires oldName in removed && newName in pool && removed[oldName] <= pool[newName] && |removed[oldName]| >= 4
    requires Chooses(removed, pool, round, out)
    ensures var p := Pair(round(|removed[oldName]|, |removed[oldName]|), oldName, newName);
            IsCandidate(removed, pool, round, p) && Outscored(out, p)
  {
    var a, b := removed[oldName], pool[newName];
    assert a * b == a && b == a + (b - a) && |b| == |a| + |b - a|;
    var p := Pair(round(|a|, |a|), oldName, newName);
    assert Overlaps(a, b, |a|);
    CandidateIff(removed, pool, round, p);
    ChosenIsStable(removed, pool, round, out);
  }

  /** Tuple order, reversed: better score first, then larger names first. */
  predicate Before(p: Pair, q: Pair) {
    p.score > q.score || (p.score == q.score &&
      if p.oldName != q.oldName then StrLe(q.oldName, p.oldName) else StrLe(q.newName, p.newName))
  }

  lemma BeforeIsTotalOrder()
    ensures TotalOrder(Before)
  {
    StrLeIsTotalOrder();
  }

  predicate Clash(p: Pair, q: Pair) {
    p.oldName == q.oldName || p.newName == q.newName
  }

  ghost predicate IsMatching(m: seq<Pair>) {
    forall i, j :: 0 <= i < j < |m| ==> !Clash(m[i], m[j])
  }

  /** A chosen pair shares a side with `p` and comes no later in the order (it may be `p`). */
  ghost predicate Beaten(le: (Pair, Pair) -> bool, out: seq<Pair>, p: Pair) {
    exists g :: g in out && Clash(g, p) && le(g, p)
  }

  /** A chosen pair shares a side with `p` and scores more, or as much and has the larger other name (it may be `p`). */
  ghost predicate Outscored(out: seq<Pair>, p: Pair) {
    exists g :: g in out && Outranks(g, p)
  }

  predicate Outranks(g: Pair, p: Pair) {
    || (g.oldName == p.oldName && (g.score > p.score || (g.score == p.score && StrLe(p.newName, g.newName))))
    || (g.newName == p.newName && (g.score > p.score || (g.score == p.score && StrLe(p.oldName, g.oldName))))
  }

  /** Best first; among equal scores the larger name first. */
  ghost predicate BestFirst(out: seq<Pair>) {
    forall i, j :: 0 <= i < j < |out| ==>
      out[i].score > out[j].score || (out[i].score == out[j].score && StrLe(out[j].oldName, out[i].oldName))
  }

  predicate Blocked(out: seq<Pair>, p: Pair) {
    exists g :: g in out && Clash(g, p)
  }

  function Take(out: seq<Pair>, p: Pair): seq<Pair> {
    if Blocked(out, p) then out else out + [p]
  }

  /** What taking pairs in order and skipping used names leaves. */
  function Greedy(cands: seq<Pair>): seq<Pair>
  {
    if cands == [] then [] else Take(Greedy(cands[..|cands| - 1]), cands[|cands| - 1])
  }

  lemma TakeSettles(le: (Pair, Pair) -> bool, out: seq<Pair>, p: Pair)
    requires Total(le) && IsMatching(out) && forall g :: g in out ==> le(g, p)
    ensures IsMatching(Take(out, p)) && Beaten(le, Take(out, p), p)
    ensures forall q :: Beaten(le, out, q) ==> Beaten(le, Take(out, p), q)
  {
    if Blocked(out, p) {
      var g :| g in out && Clash(g, p);
      assert le(g, p);
    } else {
      assert forall i :: 0 <= i < |out| ==> out[i] in out;
      assert p in Take(out, p) && Clash(p, p) && le(p, p);
    }
  }

  lemma LastIsGreatest(le: (Pair, Pair) -> bool, cands: seq<Pair>, chosen: seq<Pair>)
    requires Sorted(le, cands) && cands != [] && forall g :: g in chosen ==> g in cands[..|cands| - 1]
    ensures forall g :: g in chosen ==> le(g, cands[|cands| - 1])
  {
    var rest := cands[..|cands| - 1];
    forall g | g in chosen ensures le(g, cands[|cands| - 1]) {
      var k :| 0 <= k < |rest| && rest[k] == g;
    }
  }

  /** What is chosen settles every candidate: it is taken from them and beats each. */
  ghost predicate Settles(le: (Pair, Pair) -> bool, out: seq<Pair>, cands: seq<Pair>) {
    && IsMatching(out) && Sorted(le, out)
    && (forall p :: p in out ==> p in cands)
    && forall p :: p in cands ==> Beaten(le, out, p)
  }

  lemma SettlesNext(le: (Pair, Pair) -> bool, out: seq<Pair>, rest: seq<Pair>, p: Pair)
    requires Total(le) && Settles(le, out, rest) && forall g :: g in out ==> le(g, p)
    ensures Settles(le, Take(out, p), rest + [p])
  {
    TakeSettles(le, out, p);
    TakeIsSorted(le, out, p);
    TakenAreCandidates(out, rest, p);
    forall q | q in rest + [p] ensures Beaten(le, Take(out, p), q) {
      assert q == p || q in rest;
    }
  }

  lemma TakeIsSorted(le: (Pair, Pair) -> bool, out: seq<Pair>, p: Pair)
    requires Sorted(le, out) && forall g :: g in out ==> le(g, p)
    ensures Sorted(le, Take(out, p))
  {
    assert forall i :: 0 <= i < |out| ==> out[i] in out;
  }

  lemma TakenAreCandidates(out: seq<Pair>, rest: seq<Pair>, p: Pair)
    requires forall q :: q in out ==> q in rest
    ensures forall q :: q in Take(out, p) ==> q in rest + [p]
  {
  }

  lemma {:induction false} GreedySettles(le: (Pair, Pair) -> bool, cands: seq<Pair>)
    requires Sorted(le, cands) && Total(le)
    ensures Settles(le, Greedy(cands), cands)
  {
    if cands != [] {
      GreedySettles(le, cands[..|cands| - 1]);
      SettlesLast(le, Greedy(cands[..|cands| - 1]), cands);
    }
  }

  lemma SettlesLast(le: (Pair, Pair) -> bool, out: seq<Pair>, cands: seq<Pair>)
    requires Sorted(le, cands) && Total(le) && cands != [] && Settles(le, out, cands[..|cands| - 1])
    ensures Settles(le, Take(out, cands[|cands| - 1]), cands)
  {
    var rest, p := cands[..|cands| - 1], cands[|cands| - 1];
    assert cands == rest + [p];
    LastIsGreatest(le, cands, out);
    SettlesNext(le, out, rest, p);
  }

  /** `out` is the greedy choice over some sorted listing of exactly the candidates. */
  ghost predicate Chooses(removed: Models, pool: Models, round: Rounding, out: seq<Pair>) {
    exists cands :: Lists(removed, pool, round, cands) && Sorted(Before, cands) && out == Greedy(cands)
  }

  ghost predicate Lists(removed: Models, pool: Models, round: Rounding, cands: seq<Pair>) {
    Distinct(cands) && forall p :: p in cands <==> IsCandidate(removed, pool, round, p)
  }

  method BestMatches(removed: Models, pool: Models, round: Rounding,
                     oldOrder: seq<string>, newOrder: seq<string>) returns (out: seq<Pair>)
    requires Enumerates(oldOrder, removed.Keys) && Enumerates(newOrder, pool.Keys)
    ensures Chooses(removed, pool, round, out)
  {
    var pairs: seq<Pair> := [];
    for i := 0 to |oldOrder|
      invariant Distinct(pairs)
      invariant forall p :: p in pairs <==> IsCandidate(removed, pool, round, p) && p.oldName in oldOrder[..i]
    {
      var of := removed[oldOrder[i]];
      ghost var sofar := pairs;
      for j := 0 to |newOrder|
        invariant Distinct(pairs)
        invariant forall p :: p in pairs <==>
          (p in sofar
           || (IsCandidate(removed, pool, round, p) && p.oldName == oldOrder[i] && p.newName in newOrder[..j]))
      {
        var nf := pool[newOrder[j]];
        if |of| >= MIN_FIELDS_FOR_MATCH && |nf| >= MIN_FIELDS_FOR_MATCH && |of * nf| >= MIN_FIELDS_FOR_MATCH {
          if 5 * |of * nf| >= 3 * Min(|of|, |nf|) {
            var p := Pair(round(|of * nf|, Min(|of|, |nf|)), oldOrder[i], newOrder[j]);
            assert p !in pairs;
            pairs := pairs + [p];
          }
        }
      }
    }
    BeforeIsTotalOrder();
    SortSorts(Before, pairs);
    SortMembers(Before, pairs);
    var cands := Sort(Before, pairs);
    DistinctByMultiset(pairs, cands);
    out := TakeInOrder(cands);
  }

  method TakeInOrder(cands: seq<Pair>) returns (out: seq<Pair>)
    ensures out == Greedy(cands)
  {
    var usedOld: set<string>, usedNew: set<string> := {}, {};
    out := [];
    for i := 0 to |cands|
      invariant out == Greedy(cands[..i])
      invariant usedOld == set g | g in out :: g.oldName
      invariant usedNew == set g | g in out :: g.newName
    {
      var p := cands[i];
      assert cands[..i + 1][..i] == cands[..i];
      assert p.oldName in usedOld || p.newName in usedNew <==> Blocked(out, p);
      if p.oldName in usedOld || p.newName in usedNew {
        continue;
      }
      usedOld := usedOld + {p.oldName};
      usedNew := usedNew + {p.newName};
      out := out + [p];
    }
    assert cands[..|cands|] == cands;
  }

  // ------------------------------------------------------------------------
  // What the choice guarantees
  // ------------------------------------------------------------------------

  /** Injective both ways, made of candidates, best first, and stable: whatever was left out shares a side with a
      chosen pair that scores more, or as much with the larger other name (so nothing can be added). */
  lemma ChosenIsStable(removed: Models, pool: Models, round: Rounding, out: seq<Pair>)
    requires Chooses(removed, pool, round, out)
    ensures IsMatching(out) && BestFirst(out)
    ensures forall p :: p in out ==> IsCandidate(removed, pool, round, p)
    ensures forall p :: IsCandidate(removed, pool, round, p) ==> Outscored(out, p)
  {
    var cands :| Lists(removed, pool, round, cands) && Sorted(Before, cands) && out == Greedy(cands);
    BeforeIsTotalOrder();
    GreedySettles(Before, cands);
    SortedIsBestFirst(out);
    forall p | IsCandidate(removed, pool, round, p) ensures Outscored(out, p) {
      assert p in cands;
      BeatenIsOutscored(out, p);
    }
  }

  lemma SortedIsBestFirst(out: seq<Pair>)
    requires Sorted(Before, out)
    ensures BestFirst(out)
  {
    StrLeIsTotalOrder();
    forall i, j | 0 <= i < j < |out|
      ensures out[i].score > out[j].score || (out[i].score == out[j].score && StrLe(out[j].oldName, out[i].oldName))
    {
      assert Before(out[i], out[j]);
    }
  }

  lemma BeatenIsOutscored(out: seq<Pair>, p: Pair)
    requires Beaten(Before, out, p)
    ensures Outscored(out, p)
  {
    var g :| g in out && Clash(g, p) && Before(g, p);
    StrLeIsTotalOrder();
    assert Outranks(g, p);
  }

  /** The result does not depend on the order the dictionaries iterate in. */
  lemma ChoiceIsUnique(removed: Models, pool: Models, round: Rounding, out: seq<Pair>, out': seq<Pair>)
    requires Chooses(removed, pool, round, out) && Chooses(removed, pool, round, out')
    ensures out == out'
  {
    var c :| Lists(removed, pool, round, c) && Sorted(Before, c) && out == Greedy(c);
    var c' :| Lists(removed, pool, round, c') && Sorted(Before, c') && out' == Greedy(c');
    BeforeIsTotalOrder();
    forall p ensures multiset(c)[p] == multiset(c')[p] {
      DistinctCount(c, p);
      DistinctCount(c', p);
    }
    SortedUnique(Before, c, c');
  }

  function Weight(m: seq<Pair>): nat {
    if m == [] then 0 else m[0].score + Weight(m[1..])
  }

  function Without(m: seq<Pair>, i: nat): seq<Pair>
    requires i < |m|
  {
    m[..i] + m[i + 1..]
  }

  lemma {:induction false} WeightWithout(m: seq<Pair>, i: nat)
    requires i < |m|
    ensures Weight(m) == m[i].score + Weight(Without(m, i))
  {
    if i > 0 {
      WeightWithout(m[1..], i - 1);
      assert Without(m, i)[1..] == Without(m[1..], i - 1);
    } else {
      assert Without(m, 0) == m[1..];
    }
  }

  lemma WithoutIsMatching(m: seq<Pair>, i: nat)
    requires IsMatching(m) && i < |m|
    ensures IsMatching(Without(m, i))
    ensures forall p :: p in Without(m, i) <==> p in m && p != m[i]
    ensures forall p :: p in Without(m, i) ==> !Clash(m[i], p)
  {
    var r := Without(m, i);
    forall p ensures p in r <==> p in m && p != m[i] {
      if p in m && p != m[i] {
        var k :| 0 <= k < |m| && m[k] == p;
        assert p == r[if k < i then k else k - 1];
      }
    }
  }

  /** Drop the at most two pairs of `m` that share a side with `g` and are no better. */
  lemma DropLosers(g: Pair, m: seq<Pair>) returns (rest: seq<Pair>)
    requires IsMatching(m)
    ensures IsMatching(rest) && (forall p :: p in rest ==> p in m)
    ensures Weight(m) <= 2 * g.score + Weight(rest)
    ensures forall p :: p in rest ==> !(Clash(g, p) && g.score >= p.score)
  {
    rest := m;
    if i :| 0 <= i < |rest| && rest[i].oldName == g.oldName && g.score >= rest[i].score {
      WeightWithout(rest, i);
      WithoutIsMatching(rest, i);
      rest := Without(rest, i);
    }
    ghost var mid := rest;
    if j :| 0 <= j < |rest| && rest[j].newName == g.newName && g.score >= rest[j].score {
      WeightWithout(rest, j);
      WithoutIsMatching(rest, j);
      rest := Without(rest, j);
    }
  }

  lemma {:induction false} DominatedIsAtMostTwice(out: seq<Pair>, m: seq<Pair>)
    requires IsMatching(m) && forall p :: p in m ==> Outscored(out, p)
    ensures Weight(m) <= 2 * Weight(out)
  {
    if out == [] {
      assert forall i :: 0 <= i < |m| ==> m[i] in m;
    } else {
      var rest := DropLosers(out[0], m);
      forall p | p in rest ensures Outscored(out[1..], p) {
        var g :| g in out && Clash(g, p) && g.score >= p.score;
        assert g in out[1..];
      }
      DominatedIsAtMostTwice(out[1..], rest);
    }
  }

  /** Greedy is within a factor two of the best matching over the candidates. */
  lemma GreedyIsAtLeastHalf(removed: Models, pool: Models, round: Rounding, out: seq<Pair>, m: seq<Pair>)
    requires Chooses(removed, pool, round, out)
    requires IsMatching(m) && forall p :: p in m ==> IsCandidate(removed, pool, round, p)
    ensures Weight(m) <= 2 * Weight(out)
  {
    ChosenIsStable(removed, pool, round, out);
    DominatedIsAtMostTwice(out, m);
  }

  // ------------------------------------------------------------------------
  // Two phases: renames first, then merges into surviving models
  // ------------------------------------------------------------------------

  method MatchRemovedModels(removed: Models, added: Models, surviving: Models, round: Rounding,
                            removedOrder: seq<string>, addedOrder: seq<string>, survivingOrder: seq<string>)
    returns (renames: seq<Pair>, merges: seq<Pair>)
    requires Enumerates(removedOrder, removed.Keys) && Enumerates(addedOrder, added.Keys)
    requires Enumerates(survivingOrder, surviving.Keys)
    ensures Chooses(removed, added, round, renames)
    ensures Chooses(Leftover(removed, renames), surviving, round, merges)
  {
    renames := BestMatches(removed, added, round, removedOrder, addedOrder);
    var left: seq<string> := [];
    for i := 0 to |removedOrder|
      invariant Distinct(left)
      invariant forall k :: k in left <==> k in removedOrder[..i] && !Matched(renames, k)
    {
      if !Matched(renames, removedOrder[i]) {
        left := left + [removedOrder[i]];
      }
    }
    merges := BestMatches(Leftover(removed, renames), surviving, round, left, survivingOrder);
  }

  predicate Matched(out: seq<Pair>, name: string) {
    exists p :: p in out && p.oldName == name
  }

  function Leftover(removed: Models, renames: seq<Pair>): Models {
    map k | k in removed && !Matched(renames, k) :: removed[k]
  }

  /** A chosen pair at least as good holds the target of `p`. */
  ghost predicate LosesTarget(out: seq<Pair>, p: Pair) {
    exists g :: g in out && g.newName == p.newName && g.score >= p.score
  }

  /** Together the phases match no removed model twice and no target twice, a rename always
      beats a merge, and a model left over has lost every target it was eligible for. */
  lemma PhasesAreOneMatching(removed: Models, added: Models, surviving: Models, round: Rounding,
                             renames: seq<Pair>, merges: seq<Pair>)
    requires Chooses(removed, added, round, renames)
    requires Chooses(Leftover(removed, renames), surviving, round, merges)
    requires added.Keys !! surviving.Keys
    ensures IsMatching(renames + merges)
    ensures forall p :: IsCandidate(removed, added, round, p) && !Matched(renames, p.oldName) ==>
              LosesTarget(renames, p)
    ensures forall p :: IsCandidate(removed, surviving, round, p) && !Matched(renames + merges, p.oldName) ==>
              LosesTarget(merges, p)
  {
    ChosenIsStable(removed, added, round, renames);
    ChosenIsStable(Leftover(removed, renames), surviving, round, merges);
    JoinedIsMatching(removed, added, surviving, round, renames, merges);
    forall p | IsCandidate(removed, added, round, p) && !Matched(renames, p.oldName)
      ensures LosesTarget(renames, p)
    {
      assert Outscored(renames, p);
    }
    forall p | IsCandidate(removed, surviving, round, p) && !Matched(renames + merges, p.oldName)
      ensures LosesTarget(merges, p)
    {
      assert forall g :: g in renames || g in merges ==> g in renames + merges;
      assert IsCandidate(Leftover(removed, renames), surviving, round, p);
      assert Outscored(merges, p);
    }
  }

  lemma JoinedIsMatching(removed: Models, added: Models, surviving: Models, round: Rounding,
                         renames: seq<Pair>, merges: seq<Pair>)
    requires IsMatching(renames) && IsMatching(merges) && added.Keys !! surviving.Keys
    requires forall p :: p in renames ==> IsCandidate(removed, added, round, p)
    requires forall p :: p in merges ==> IsCandidate(Leftover(removed, renames), surviving, round, p)
    ensures IsMatching(renames + merges)
  {
    forall i, j | 0 <= i < |renames| && 0 <= j < |merges| ensures !Clash(renames[i], merges[j]) {
      assert renames[i] in renames && merges[j] in merges;
      assert !Matched(renames, merges[j].oldName);
    }
  }

  // ------------------------------------------------------------------------
  // Field renames inside one surviving model
  // ------------------------------------------------------------------------

  const FIELD_RENAME_THRESHOLD: real := 0.60

  /** What `round(r, 3)` is known to do: it keeps order and leaves rounded values alone. */
  ghost predicate IsRounding(round: real -> real) {
    && (forall x, y :: x <= y ==> round(x) <= round(y))
    && (forall x :: round(round(x)) == round(x))
  }

  predicate SameTypeAndClose(removed: string, kind: string, added: map<string, string>,
                             ratio: (string, string) -> real, name: string)
  {
    name in added && added[name] == kind && ratio(removed, name) >= FIELD_RENAME_THRESHOLD
  }

  /** One removed field and what it may be matched with. */
  datatype FieldCase = FieldCase(
    removed: string, kind: string, added: map<string, string>, order: seq<string>,
    ratio: (string, string) -> real, round: real -> real)

  function RatioAt(c: FieldCase, k: nat): real
    requires k < |c.order|
  {
    c.ratio(c.removed, c.order[k])
  }

  predicate CandidateAt(c: FieldCase, k: int) {
    0 <= k < |c.order| && SameTypeAndClose(c.removed, c.kind, c.added, c.ratio, c.order[k])
  }

  /** The field named: its rounded ratio is the best there is. When some candidate's ratio lies above that rounded
      value, it is the last such one in order; otherwise it is the first candidate that rounds so. */
  ghost predicate Named(c: FieldCase, n: nat, k: int) {
    && n <= |c.order| && CandidateAt(c, k) && k < n
    && var top := c.round(RatioAt(c, k));
       && (forall j :: CandidateAt(c, j) && j < n ==> c.round(RatioAt(c, j)) <= top)
       && (if RatioAt(c, k) > top then forall j :: CandidateAt(c, j) && k < j < n ==> RatioAt(c, j) <= top
           else (forall j :: CandidateAt(c, j) && j < n ==> RatioAt(c, j) <= top)
                && forall j :: CandidateAt(c, j) && j < k ==> c.round(RatioAt(c, j)) < top)
  }

  lemma NamedReplaced(c: FieldCase, n: nat, k: int)
    requires Named(c, n, k) && n < |c.order| && IsRounding(c.round)
    requires CandidateAt(c, n) && RatioAt(c, n) > c.round(RatioAt(c, k))
    ensures Named(c, n + 1, n)
  {
    var top := c.round(RatioAt(c, k));
    assert c.round(top) == top <= c.round(RatioAt(c, n));
  }

  lemma NamedKept(c: FieldCase, n: nat, k: int)
    requires Named(c, n, k) && n < |c.order| && IsRounding(c.round)
    requires CandidateAt(c, n) ==> RatioAt(c, n) <= c.round(RatioAt(c, k))
    ensures Named(c, n + 1, k)
  {
    var top := c.round(RatioAt(c, k));
    assert c.round(top) == top;
    assert CandidateAt(c, n) ==> c.round(RatioAt(c, n)) <= c.round(top);
  }

  /** No field is a candidate exactly when each has another type or a ratio below 0.60. */
  lemma NoCandidates(c: FieldCase)
    requires Enumerates(c.order, c.added.Keys)
    ensures (forall k :: !CandidateAt(c, k)) <==>
              forall k :: 0 <= k < |c.order| ==>
                c.added[c.order[k]] != c.kind || c.ratio(c.removed, c.order[k]) < 0.60
  {
    forall k | 0 <= k < |c.order|
      ensures CandidateAt(c, k) <==> c.added[c.order[k]] == c.kind && c.ratio(c.removed, c.order[k]) >= 0.60
    {
      assert c.order[k] in c.order;
    }
  }

  /** The loop compares an unrounded ratio with the rounded best so far. */
  method BestFieldRename(c: FieldCase) returns (best: Option<(real, string)>)
    requires Enumerates(c.order, c.added.Keys) && IsRounding(c.round)
    ensures best.None? <==> forall k :: 0 <= k < |c.order| ==>
              c.added[c.order[k]] != c.kind || c.ratio(c.removed, c.order[k]) < 0.60
    ensures best.Some? ==> exists k :: Named(c, |c.order|, k) && best.value == (c.round(RatioAt(c, k)), c.order[k])
  {
    best := None;
    ghost var at := 0;
    for i := 0 to |c.order|
      invariant best.None? ==> forall k :: k < i ==> !CandidateAt(c, k)
      invariant best.Some? ==> Named(c, i, at) && best.value == (c.round(RatioAt(c, at)), c.order[at])
    {
      var name := c.order[i];
      if best.Some? && (CandidateAt(c, i) ==> RatioAt(c, i) <= best.value.0) { NamedKept(c, i, at); }
      if c.added[name] != c.kind {
        continue;
      }
      var r := c.ratio(c.removed, name);
      if r >= FIELD_RENAME_THRESHOLD && (best.None? || r > best.value.0) {
        if best.Some? { NamedReplaced(c, i, at); }
        best := Some((c.round(r), name));
        at := i;
      }
    }
    assert best.None? <==> forall k :: !CandidateAt(c, k);
    NoCandidates(c);
  }

  lemma NamedIsUnique(c: FieldCase, k: int, k': int)
    requires Named(c, |c.order|, k) && Named(c, |c.order|, k')
    ensures k == k'
  {
    assert c.round(RatioAt(c, k)) <= c.round(RatioAt(c, k')) && c.round(RatioAt(c, k')) <= c.round(RatioAt(c, k));
  }

  /** No candidate rounds higher. */
  ghost predicate RoundsBest(c: FieldCase, k: int) {
    CandidateAt(c, k) && forall j :: CandidateAt(c, j) ==> c.round(RatioAt(c, j)) <= c.round(RatioAt(c, k))
  }

  ghost predicate AboveRounding(c: FieldCase, k: int) {
    CandidateAt(c, k) && RatioAt(c, k) > c.round(RatioAt(c, k))
  }

  /** Of the candidates that round best, the last above its rounded value, or the first when none is, does not have
      the largest ratio. */
  ghost predicate Misordered(c: FieldCase) {
    exists i, j :: PassedOver(c, i, j)
  }

  ghost predicate PassedOver(c: FieldCase, i: int, j: int) {
    && RoundsBest(c, i) && RoundsBest(c, j) && RatioAt(c, i) > RatioAt(c, j)
    && (if AboveRounding(c, j) then forall m :: RoundsBest(c, m) && AboveRounding(c, m) ==> m <= j
        else forall m :: RoundsBest(c, m) ==> !AboveRounding(c, m) && j <= m)
  }

  /** The field named has the best ratio of all candidates exactly when the candidates are not so misordered. */
  lemma BestIsNamedIff(c: FieldCase, k: int)
    requires Named(c, |c.order|, k) && IsRounding(c.round)
    ensures (forall j :: CandidateAt(c, j) ==> RatioAt(c, j) <= RatioAt(c, k)) <==> !Misordered(c)
  {
    NamedRoundsBest(c, k);
    if j :| CandidateAt(c, j) && RatioAt(c, j) > RatioAt(c, k) {
      assert c.round(RatioAt(c, j)) >= c.round(RatioAt(c, k));
      assert RoundsBest(c, j);
      NamedPassesOver(c, k, j);
    }
    if i, j :| PassedOver(c, i, j) {
      PassedOverIsNamed(c, i, j, k);
    }
  }

  lemma NamedRoundsBest(c: FieldCase, k: int)
    requires Named(c, |c.order|, k)
    ensures RoundsBest(c, k)
  {
  }

  lemma NamedPassesOver(c: FieldCase, k: int, i: int)
    requires Named(c, |c.order|, k) && RoundsBest(c, k) && RoundsBest(c, i) && RatioAt(c, i) > RatioAt(c, k)
    ensures PassedOver(c, i, k)
  {
    assert forall m :: RoundsBest(c, m) ==> c.round(RatioAt(c, m)) == c.round(RatioAt(c, k));
  }

  lemma PassedOverIsNamed(c: FieldCase, i: int, j: int, k: int)
    requires PassedOver(c, i, j) && Named(c, |c.order|, k) && RoundsBest(c, k)
    ensures j == k
  {
    assert c.round(RatioAt(c, j)) == c.round(RatioAt(c, k));
  }

  /** In particular the best is named when candidates round alike only if their ratios are the same. */
  lemma DistinctRoundingsNameBest(c: FieldCase, k: int)
    requires Named(c, |c.order|, k) && IsRounding(c.round)
    requires forall i, j ::
               CandidateAt(c, i) && CandidateAt(c, j) && c.round(RatioAt(c, i)) == c.round(RatioAt(c, j)) ==>
                 RatioAt(c, i) == RatioAt(c, j)
    ensures forall j :: CandidateAt(c, j) ==> RatioAt(c, j) <= RatioAt(c, k)
  {
    forall j | CandidateAt(c, j) ensures RatioAt(c, j) <= RatioAt(c, k) {
      assert c.round(RatioAt(c, j)) <= c.round(RatioAt(c, k));
    }
  }

  /** To three places, halves up. */
  function Thousandths(x: real): real {
    (x * 1000.0 + 0.5).Floor as real / 1000.0
  }

  lemma ThousandthsKeepOrder(x: real, y: real)
    requires x <= y
    ensures Thousandths(x) <= Thousandths(y)
  {
    var n, m := (x * 1000.0 + 0.5).Floor, (y * 1000.0 + 0.5).Floor;
    assert n <= m;
    assert n as real <= m as real;
  }

  lemma ThousandthsStay(x: real)
    ensures Thousandths(Thousandths(x)) == Thousandths(x)
  {
    var n := (x * 1000.0 + 0.5).Floor;
    assert (n as real / 1000.0) * 1000.0 == n as real;
    assert (n as real + 0.5).Floor == n;
  }

  lemma ThousandthsRounds()
    ensures IsRounding(Thousandths)
  {
    forall x, y | x <= y ensures Thousandths(x) <= Thousandths(y) { ThousandthsKeepOrder(x, y); }
    forall x ensures Thousandths(Thousandths(x)) == Thousandths(x) { ThousandthsStay(x); }
  }

  /** A similarity as `SequenceMatcher.ratio` gives it: twice the number of matched characters, at most those of the
      shorter name, over the two lengths. */
  ghost predicate IsRatio(r: real, a: string, b: string) {
    exists matched: nat :: MatchedRatio(r, a, b, matched)
  }

  predicate MatchedRatio(r: real, a: string, b: string, matched: nat) {
    matched <= |a| && matched <= |b| && r * (|a| + |b|) as real == 2.0 * matched as real
  }

  const LONG_NAME := "property_account_receivable_counterpart_id_ab"
  const CLOSER_NAME := "property_account_receiv"
  const FARTHER_NAME := "property_account_receivazz"

  /** A removed field and two new ones of its type, the closer one listed first: it shares its 23 characters, the other
      one 24 of its 26. */
  function NearTie(): FieldCase {
    FieldCase(LONG_NAME, "many2one", map[CLOSER_NAME := "many2one", FARTHER_NAME := "many2one"],
      [CLOSER_NAME, FARTHER_NAME],
      (removed, name) => if name == CLOSER_NAME then 46.0 / 68.0 else 48.0 / 71.0, Thousandths)
  }

  lemma NearTieRatios()
    ensures |LONG_NAME| == 45 && |CLOSER_NAME| == 23 && |FARTHER_NAME| == 26 && CLOSER_NAME != FARTHER_NAME
    ensures MatchedRatio(46.0 / 68.0, LONG_NAME, CLOSER_NAME, 23) &&
      MatchedRatio(48.0 / 71.0, LONG_NAME, FARTHER_NAME, 24)
  {
  }

  /** The farther one is named. */
  lemma NearTieNamesTheWorse()
    ensures var c := NearTie();
            && Enumerates(c.order, c.added.Keys) && IsRounding(c.round)
            && (forall k :: 0 <= k < 2 ==> IsRatio(RatioAt(c, k), c.removed, c.order[k]))
            && Named(c, 2, 1) && RatioAt(c, 0) > RatioAt(c, 1)
  {
    var c := NearTie();
    NearTieRatios();
    assert RatioAt(c, 0) == 46.0 / 68.0 && RatioAt(c, 1) == 48.0 / 71.0;
    assert MatchedRatio(RatioAt(c, 0), c.removed, c.order[0], 23) &&
      MatchedRatio(RatioAt(c, 1), c.removed, c.order[1], 24);
    ThousandthsRounds();
    assert Thousandths(46.0 / 68.0) == 0.676 && Thousandths(48.0 / 71.0) == 0.676;
    assert CandidateAt(c, 0) && CandidateAt(c, 1);
  }
}
