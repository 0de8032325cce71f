/** Runtime trace accounting: the settrace state machine of trace_flow.py and its self-SQL pass. */
module Trace {
  import opened Orders

  // ------------------------------------------------------------------------
  // The self-SQL pass over a depth-annotated preorder list
  // ------------------------------------------------------------------------

  /** The latest index below `i` whose depth is smaller than `d`, or -1. */
  function PrevSmaller(depths: seq<int>, d: int, i: nat): (p: int)
    requires i <= |depths|
    ensures -1 <= p < i
    ensures p >= 0 ==> depths[p] < d
    ensures forall j :: p < j < i ==> depths[j] >= d
  {
    if i == 0 then -1
    else if depths[i - 1] < d then i - 1
    else PrevSmaller(depths, d, i - 1)
  }

  function Parent(depths: seq<int>, j: nat): int
    requires j < |depths|
  {
    PrevSmaller(depths, depths[j], j)
  }

  /** Cumulative counts of the first `i` calls whose parent is `k`. */
  function ChildSum(depths: seq<int>, cum: seq<int>, k: int, i: nat): int
    requires |depths| == |cum| && i <= |cum|
  {
    if i == 0 then 0
    else ChildSum(depths, cum, k, i - 1) + if Parent(depths, i - 1) == k then cum[i - 1] else 0
  }

  function SelfAfter(depths: seq<int>, cum: seq<int>, i: nat): seq<int>
    requires |depths| == |cum| && i <= |cum|
  {
    seq(|cum|, k requires 0 <= k < |cum| => cum[k] - ChildSum(depths, cum, k, i))
  }

  /** What each call did itself: its cumulative count less those of its children. */
  function SelfSql(depths: seq<int>, cum: seq<int>): seq<int>
    requires |depths| == |cum|
  {
    SelfAfter(depths, cum, |cum|)
  }

  lemma PrevSmallerIs(depths: seq<int>, d: int, i: nat, p: int)
    requires i <= |depths| && -1 <= p < i
    requires p >= 0 ==> depths[p] < d
    requires forall j :: p < j < i ==> depths[j] >= d
    ensures PrevSmaller(depths, d, i) == p
  { }

  /** Frames still open when call `i` starts: the chain of nearest smaller depths. */
  ghost predicate IsStack(depths: seq<int>, stack: seq<nat>, i: nat)
    requires i <= |depths|
  {
    && (forall p :: 0 <= p < |stack| ==> stack[p] < i)
    && (forall p :: 0 < p < |stack| ==> Parent(depths, stack[p]) == stack[p - 1])
    && (|stack| > 0 ==> Parent(depths, stack[0]) == -1)
  }

  function Top(stack: seq<nat>): (p: int)
    ensures p >= -1
  {
    if stack == [] then -1 else stack[|stack| - 1]
  }

  lemma SelfAfterStep(depths: seq<int>, cum: seq<int>, i: nat)
    requires |depths| == |cum| && i < |cum|
    ensures SelfAfter(depths, cum, i + 1) ==
            var s, p := SelfAfter(depths, cum, i), Parent(depths, i);
            if p >= 0 then s[p := s[p] - cum[i]] else s
  {
    var s, p := SelfAfter(depths, cum, i), Parent(depths, i);
    var t := if p >= 0 then s[p := s[p] - cum[i]] else s;
    forall k | 0 <= k < |cum| ensures SelfAfter(depths, cum, i + 1)[k] == t[k] { }
  }

  lemma StackPush(depths: seq<int>, stack: seq<nat>, i: nat)
    requires i < |depths| && IsStack(depths, stack, i) && Parent(depths, i) == Top(stack)
    ensures IsStack(depths, stack + [i], i + 1)
  { }

  /** Popping one frame uncovers its parent; everything in between is at least as deep. */
  lemma StackPop(depths: seq<int>, stack: seq<nat>, d: int, i: nat)
    requires i <= |depths| && IsStack(depths, stack, i) && stack != []
    requires depths[Top(stack)] >= d
    requires forall j :: Top(stack) < j < i ==> depths[j] >= d
    ensures IsStack(depths, stack[..|stack| - 1], i)
    ensures forall j :: Top(stack[..|stack| - 1]) < j < i ==> depths[j] >= d
  {
    assert Parent(depths, Top(stack)) == Top(stack[..|stack| - 1]);
  }

  method ComputeSelfSql(depths: seq<int>, sqlCount: seq<Option<int>>) returns (selfSql: seq<int>)
    requires |depths| == |sqlCount|
    ensures selfSql == SelfSql(depths, Filled(sqlCount))
  {
    var cum := Filled(sqlCount);
    selfSql := cum;
    assert selfSql == SelfAfter(depths, cum, 0);
    var stack: seq<nat> := [];
    for i := 0 to |depths|
      invariant IsStack(depths, stack, i)
      invariant i > 0 ==> Top(stack) == i - 1
      invariant selfSql == SelfAfter(depths, cum, i)
    {
      stack := PopDeeper(depths, stack, i);
      ScanStep(depths, cum, stack, i);
      selfSql := Charge(selfSql, stack, cum[i]);
      stack := stack + [i];
    }
  }

  /** Take a call's cumulative count off its parent's. */
  function Charge(selfSql: seq<int>, stack: seq<nat>, n: int): seq<int>
    requires Top(stack) < |selfSql|
  {
    if |stack| > 0 then selfSql[Top(stack) := selfSql[Top(stack)] - n] else selfSql
  }

  /** Pop every earlier call at least as deep as call `i`. */
  method PopDeeper(depths: seq<int>, before: seq<nat>, i: nat) returns (stack: seq<nat>)
    requires i < |depths| && IsStack(depths, before, i) && (i > 0 ==> Top(before) == i - 1)
    ensures IsStack(depths, stack, i) && (stack == [] || depths[Top(stack)] < depths[i])
    ensures forall j :: Top(stack) < j < i ==> depths[j] >= depths[i]
  {
    stack := before;
    while |stack| > 0 && depths[stack[|stack| - 1]] >= depths[i]
      invariant IsStack(depths, stack, i)
      invariant forall j :: Top(stack) < j < i ==> depths[j] >= depths[i]
    {
      StackPop(depths, stack, depths[i], i);
      stack := stack[..|stack| - 1];
    }
  }

  /** With everything at least as deep popped, the top of the stack is the parent. */
  lemma ScanStep(depths: seq<int>, cum: seq<int>, stack: seq<nat>, i: nat)
    requires |depths| == |cum| && i < |depths| && IsStack(depths, stack, i)
    requires stack == [] || depths[Top(stack)] < depths[i]
    requires forall j :: Top(stack) < j < i ==> depths[j] >= depths[i]
    ensures IsStack(depths, stack + [i], i + 1)
    ensures Top(stack) < i && SelfAfter(depths, cum, i + 1) == Charge(SelfAfter(depths, cum, i), stack, cum[i])
  {
    PrevSmallerIs(depths, depths[i], i, Top(stack));
    SelfAfterStep(depths, cum, i);
    StackPush(depths, stack, i);
  }

  function Filled(sqlCount: seq<Option<int>>): (cum: seq<int>)
    ensures |cum| == |sqlCount|
  {
    seq(|sqlCount|, k requires 0 <= k < |sqlCount| =>
      match sqlCount[k] case Some(n) => n case None => 0)
  }

  function RootSum(depths: seq<int>, cum: seq<int>, i: nat): int
    requires |depths| == |cum| && i <= |cum|
  {
    ChildSum(depths, cum, -1, i)
  }

  lemma SumPrefix(s: seq<int>, i: nat)
    requires i < |s|
    ensures Sum(s[..i + 1]) == Sum(s[..i]) + s[i]
  {
    assert s[..i + 1][..i] == s[..i];
  }

  lemma SumAfterStep(depths: seq<int>, cum: seq<int>, i: nat)
    requires |depths| == |cum| && i < |cum|
    ensures Sum(SelfAfter(depths, cum, i + 1)) == Sum(SelfAfter(depths, cum, i)) -
      if Parent(depths, i) >= 0 then cum[i] else 0
  {
    var p, s := Parent(depths, i), SelfAfter(depths, cum, i);
    SelfAfterStep(depths, cum, i);
    if p >= 0 {
      SumUpdate(s, p, s[p] - cum[i]);
    }
  }

  lemma RootStep(depths: seq<int>, cum: seq<int>, i: nat)
    requires |depths| == |cum| && i < |cum|
    ensures RootSum(depths, cum, i + 1) == RootSum(depths, cum, i) + if Parent(depths, i) >= 0 then 0 else cum[i]
  {
  }

  lemma {:induction false} SelfAfterSum(depths: seq<int>, cum: seq<int>, i: nat)
    requires |depths| == |cum| && i <= |cum|
    ensures Sum(SelfAfter(depths, cum, i)) == Sum(cum) - Sum(cum[..i]) + RootSum(depths, cum, i)
  {
    if i == 0 {
      assert SelfAfter(depths, cum, 0) == cum;
    } else {
      SelfAfterSum(depths, cum, i - 1);
      SumPrefix(cum, i - 1);
      SumAfterStep(depths, cum, i - 1);
      RootStep(depths, cum, i - 1);
    }
  }

  /** Nothing is lost or counted twice: self counts add up to the roots' cumulative counts. */
  lemma SelfSumsToRoots(depths: seq<int>, cum: seq<int>)
    requires |depths| == |cum|
    ensures Sum(SelfSql(depths, cum)) == RootSum(depths, cum, |cum|)
  {
    SelfAfterSum(depths, cum, |cum|);
    assert cum[..|cum|] == cum;
  }

  // ------------------------------------------------------------------------
  // What happens in a run, said without the tracer's counters
  // ------------------------------------------------------------------------

  /** `Other` is every event the tracer filters out (core ORM frames, comprehensions, exceptions). */
  datatype Event = Call(frame: int) | Return(frame: int) | Sql | Other

  datatype Caps = Caps(maxDepth: int, maxCalls: int)

  /** A live addon frame; `slot` is its index among the recorded calls, if it was recorded. */
  datatype Frame = Frame(id: int, slot: Option<nat>)

  /** Live frames (outermost first), number of recorded calls, and for each SQL
      statement so far the innermost recorded frame that was live (-1 for none). */
  datatype Activity = Activity(live: seq<Frame>, recorded: nat, owners: seq<int>)

  function Slots(live: seq<Frame>): seq<nat>
  {
    if live == [] then []
    else
      var f := live[|live| - 1];
      Slots(live[..|live| - 1]) + (match f.slot case Some(k) => [k] case None => [])
  }

  function Innermost(live: seq<Frame>): int
  {
    var s := Slots(live);
    if s == [] then -1 else s[|s| - 1]
  }

  function Watch(caps: Caps, run: seq<Event>): Activity
  {
    if run == [] then Activity([], 0, [])
    else Happens(caps, Watch(caps, run[..|run| - 1]), run[|run| - 1])
  }

  predicate Counts(caps: Caps, a: Activity) {
    |Slots(a.live)| <= caps.maxDepth && a.recorded < caps.maxCalls
  }

  function Happens(caps: Caps, a: Activity, e: Event): Activity
  {
    match e
    case Call(f) =>
      if Counts(caps, a) then
        a.(live := a.live + [Frame(f, Some(a.recorded))], recorded := a.recorded + 1)
      else a.(live := a.live + [Frame(f, None)])
    case Return(f) => if a.live == [] then a else a.(live := a.live[..|a.live| - 1])
    case Sql => a.(owners := a.owners + [Innermost(a.live)])
    case Other => a
  }

  /** The interpreter calls with an identity no live frame has, and returns from the innermost. */
  predicate Fits(a: Activity, e: Event) {
    match e
    case Call(f) => forall i :: 0 <= i < |a.live| ==> a.live[i].id != f
    case Return(f) => a.live != [] && a.live[|a.live| - 1].id == f
    case Sql => true
    case Other => true
  }

  predicate WellNested(caps: Caps, run: seq<Event>) {
    run == [] || (WellNested(caps, run[..|run| - 1])
                  && Fits(Watch(caps, run[..|run| - 1]), run[|run| - 1]))
  }

  /** SQL statements that fired while call `k` was the innermost recorded live frame. */
  function OwnSql(a: Activity, k: nat): nat {
    multiset(a.owners)[k as int]
  }

  // ------------------------------------------------------------------------
  // The tracer
  // ------------------------------------------------------------------------

  datatype CallRec = CallRec(depth: nat, sqlCount: Option<int>)

  datatype TracerState = TracerState(
    calls: seq<CallRec>, depth: nat, frameIdx: map<int, nat>, sqlAtCall: map<nat, nat>, sqlCounter: nat)

  function Depths(calls: seq<CallRec>): seq<int> {
    seq(|calls|, k requires 0 <= k < |calls| => calls[k].depth)
  }

  function SqlCounts(calls: seq<CallRec>): seq<Option<int>> {
    seq(|calls|, k requires 0 <= k < |calls| => calls[k].sqlCount)
  }

  /** A call's cumulative count, or what it would be if the call returned now. */
  ghost function CountNow(s: TracerState, k: nat): int
    requires k < |s.calls|
  {
    match s.calls[k].sqlCount
    case Some(n) => n
    case None => if k in s.sqlAtCall then s.sqlCounter - s.sqlAtCall[k] else 0
  }

  ghost function CountsNow(s: TracerState): seq<int> {
    seq(|s.calls|, k requires 0 <= k < |s.calls| => CountNow(s, k))
  }

  /** Recorded live frames, outermost first, sit one level deeper each, and every
      later call is below the frame it came after. */
  ghost predicate Nested(depths: seq<int>, st: seq<nat>)
  {
    && (forall i :: 0 <= i < |depths| ==> depths[i] >= 0)
    && (forall p :: 0 <= p < |st| ==> st[p] < |depths| && depths[st[p]] == p)
    && (forall p, i :: 0 <= p < |st| && st[p] < i < |depths| ==> depths[i] > p)
  }

  /** The calls without a count are the recorded live ones, and each knows where it started. */
  ghost predicate OpenCounts(s: TracerState, st: seq<nat>)
  {
    && (forall k :: 0 <= k < |s.calls| ==> (s.calls[k].sqlCount.None? <==> k in st))
    && (forall k :: 0 <= k < |s.calls| && s.calls[k].sqlCount.Some? ==> s.calls[k].sqlCount.value >= 0)
    && (forall k :: k in st ==> k in s.sqlAtCall && s.sqlAtCall[k] <= s.sqlCounter)
  }

  /** The identity table finds exactly the recorded live frames. */
  ghost predicate Names(live: seq<Frame>, frameIdx: map<int, nat>)
  {
    && (forall i, j :: 0 <= i < j < |live| ==> live[i].id != live[j].id)
    && (forall i :: 0 <= i < |live| ==>
          match live[i].slot
          case Some(k) => live[i].id in frameIdx && frameIdx[live[i].id] == k
          case None => live[i].id !in frameIdx)
    && (forall f :: f in frameIdx ==> exists i :: 0 <= i < |live| && live[i].id == f)
  }

  ghost predicate Counters(s: TracerState, a: Activity)
  {
    && s.depth == |Slots(a.live)| && |s.calls| == a.recorded && s.sqlCounter == |a.owners|
    && (forall o :: o in a.owners ==> o < a.recorded)
  }

  ghost predicate Accounts(s: TracerState, a: Activity)
    requires |s.calls| == a.recorded
  {
    forall k :: 0 <= k < |s.calls| ==>
      OwnSql(a, k) == CountNow(s, k) - ChildSum(Depths(s.calls), CountsNow(s), k, |s.calls|)
  }

  ghost predicate Inv(s: TracerState, a: Activity) {
    && Counters(s, a)
    && Nested(Depths(s.calls), Slots(a.live))
    && OpenCounts(s, Slots(a.live))
    && Names(a.live, s.frameIdx)
    && Accounts(s, a)
  }

  function StepCall(caps: Caps, s: TracerState, f: int): TracerState {
    if s.depth > caps.maxDepth || |s.calls| >= caps.maxCalls then s
    else
      var idx := |s.calls|;
      TracerState(s.calls + [CallRec(s.depth, None)], s.depth + 1,
                  s.frameIdx[f := idx], s.sqlAtCall[idx := s.sqlCounter], s.sqlCounter)
  }

  function StepReturn(s: TracerState, f: int): TracerState
    requires Returnable(s, f)
  {
    if f !in s.frameIdx then s
    else
      var idx := s.frameIdx[f];
      s.(calls := s.calls[idx := s.calls[idx].(sqlCount := Some(s.sqlCounter - s.sqlAtCall[idx]))],
         depth := if s.depth - 1 > 0 then s.depth - 1 else 0,
         frameIdx := s.frameIdx - {f})
  }

  /** The indices a return looks up are there, as they are in every run. */
  predicate Returnable(s: TracerState, f: int) {
    f in s.frameIdx ==> s.frameIdx[f] < |s.calls| && s.frameIdx[f] in s.sqlAtCall
  }

  function StepOf(caps: Caps, s: TracerState, e: Event): TracerState {
    match e
    case Call(f) => StepCall(caps, s, f)
    case Return(f) => if Returnable(s, f) then StepReturn(s, f) else s
    case Sql => s.(sqlCounter := s.sqlCounter + 1)
    case Other => s
  }

  /** The tracer's state at the end of a run. */
  function StateAfter(caps: Caps, run: seq<Event>): TracerState {
    if run == [] then TracerState([], 0, map[], map[], 0)
    else StepOf(caps, StateAfter(caps, run[..|run| - 1]), run[|run| - 1])
  }

  lemma StateSnoc(caps: Caps, run: seq<Event>, e: Event)
    ensures StateAfter(caps, run + [e]) == StepOf(caps, StateAfter(caps, run), e)
  {
    assert (run + [e])[..|run|] == run;
  }

  // ------------------------------------------------------------------------
  // Every event keeps the invariant
  // ------------------------------------------------------------------------

  lemma SlotsSnoc(live: seq<Frame>, f: Frame)
    ensures Slots(live + [f]) == Slots(live) + (match f.slot case Some(k) => [k] case None => [])
  {
    assert (live + [f])[..|live|] == live;
  }

  lemma NestedParents(depths: seq<int>, st: seq<nat>, p: nat)
    requires Nested(depths, st) && p < |st|
    ensures Parent(depths, st[p]) == if p == 0 then -1 else st[p - 1]
  {
    if p == 0 {
      PrevSmallerIs(depths, 0, st[0], -1);
    } else {
      PrevSmallerIs(depths, p, st[p], st[p - 1]);
    }
  }

  lemma {:induction false} ChildSumPrefix(d: seq<int>, c: seq<int>, d': seq<int>, c': seq<int>, k: int, i: nat)
    requires |d| == |c| && |d'| == |c'| && i <= |d| && i <= |d'|
    requires forall j :: 0 <= j < i ==> d[j] == d'[j] && c[j] == c'[j]
    ensures ChildSum(d, c, k, i) == ChildSum(d', c', k, i)
  {
    if i > 0 {
      ChildSumPrefix(d, c, d', c', k, i - 1);
      PrevSmallerIs(d', d'[i - 1], i - 1, Parent(d, i - 1));
    }
  }

  lemma {:induction false} NoLaterParent(d: seq<int>, c: seq<int>, k: int, i: nat)
    requires |d| == |c| && i <= |d| && k >= i - 1 && k >= 0
    ensures ChildSum(d, c, k, i) == 0
  {
    if i > 0 {
      NoLaterParent(d, c, k, i - 1);
    }
  }

  /** When only child `x` of `k` gains one, so does the sum over k's children. */
  lemma {:induction false} ChildSumBump(d: seq<int>, c: seq<int>, c': seq<int>, k: int, x: int, i: nat)
    requires |d| == |c| == |c'| && i <= |d| && -1 <= x < |d| && (x >= 0 ==> Parent(d, x) == k)
    requires forall j :: 0 <= j < |d| && Parent(d, j) == k ==> c'[j] == c[j] + if j == x then 1 else 0
    ensures ChildSum(d, c', k, i) == ChildSum(d, c, k, i) + if 0 <= x < i then 1 else 0
  {
    if i > 0 {
      ChildSumBump(d, c, c', k, x, i - 1);
    }
  }

  lemma NestedPush(depths: seq<int>, st: seq<nat>)
    requires Nested(depths, st)
    ensures Nested(depths + [|st|], st + [|depths|])
  { }

  lemma NamesPush(live: seq<Frame>, frameIdx: map<int, nat>, f: int, slot: Option<nat>)
    requires Names(live, frameIdx) && forall i :: 0 <= i < |live| ==> live[i].id != f
    ensures Names(live + [Frame(f, slot)], if slot.Some? then frameIdx[f := slot.value] else frameIdx)
  {
    var live', idx' := live + [Frame(f, slot)], if slot.Some? then frameIdx[f := slot.value] else frameIdx;
    forall g | g in idx' ensures exists i :: 0 <= i < |live'| && live'[i].id == g {
      if g == f {
        assert live'[|live|].id == g;
      } else {
        var i :| 0 <= i < |live| && live[i].id == g;
        assert live'[i].id == g;
      }
    }
  }

  lemma NamesPop(live: seq<Frame>, frameIdx: map<int, nat>)
    requires Names(live, frameIdx) && live != []
    ensures Names(live[..|live| - 1], frameIdx - {live[|live| - 1].id})
  {
    var n := |live| - 1;
    forall g | g in frameIdx && g != live[n].id ensures exists i :: 0 <= i < n && live[..n][i].id == g {
      var i :| 0 <= i < |live| && live[i].id == g;
      assert live[..n][i].id == g;
    }
  }

  lemma CallKeeps(caps: Caps, s: TracerState, a: Activity, f: int)
    requires Inv(s, a) && Fits(a, Call(f))
    ensures Inv(StepCall(caps, s, f), Happens(caps, a, Call(f)))
  {
    var s', a' := StepCall(caps, s, f), Happens(caps, a, Call(f));
    var slot := if Counts(caps, a) then Some(a.recorded) else None;
    SlotsSnoc(a.live, Frame(f, slot));
    NamesPush(a.live, s.frameIdx, f, slot);
    if Counts(caps, a) {
      assert Depths(s'.calls) == Depths(s.calls) + [s.depth];
      NestedPush(Depths(s.calls), Slots(a.live));
      CallKeepsAccounts(caps, s, a, f);
    }
  }

  /** A recorded call adds one entry that has run nothing yet. */
  lemma CallExtends(caps: Caps, s: TracerState, f: int)
    requires s.depth <= caps.maxDepth && |s.calls| < caps.maxCalls
    ensures var s', n := StepCall(caps, s, f), |s.calls|;
            && |s'.calls| == n + 1 && CountsNow(s')[n] == 0
            && forall k :: 0 <= k < n ==>
              CountsNow(s')[k] == CountsNow(s)[k] && Depths(s'.calls)[k] == Depths(s.calls)[k]
  {
    var s', n := StepCall(caps, s, f), |s.calls|;
    forall k | 0 <= k < n ensures CountsNow(s')[k] == CountsNow(s)[k] && Depths(s'.calls)[k] == Depths(s.calls)[k] {
      assert s'.calls[k] == s.calls[k];
    }
  }

  lemma CallKeepsAccounts(caps: Caps, s: TracerState, a: Activity, f: int)
    requires Inv(s, a) && Counts(caps, a)
    ensures Accounts(StepCall(caps, s, f), Happens(caps, a, Call(f)))
  {
    var s', a' := StepCall(caps, s, f), Happens(caps, a, Call(f));
    var n := |s.calls|;
    var d, d', c, c' := Depths(s.calls), Depths(s'.calls), CountsNow(s), CountsNow(s');
    CallExtends(caps, s, f);
    assert s'.depth == s.depth + 1;
    forall k | 0 <= k <= n ensures OwnSql(a', k) == CountNow(s', k) - ChildSum(d', c', k, n + 1) {
      if k < n {
        ChildSumPrefix(d, c, d', c', k, n);
      } else {
        NoLaterParent(d', c', k, n);
        assert n !in a.owners;
      }
    }
  }

  lemma ReturnFinds(s: TracerState, a: Activity, f: int)
    requires Inv(s, a) && Fits(a, Return(f))
    ensures var n := |a.live| - 1;
            match a.live[n].slot
            case None => f !in s.frameIdx && Slots(a.live[..n]) == Slots(a.live)
            case Some(k) => f in s.frameIdx && s.frameIdx[f] == k && Slots(a.live) == Slots(a.live[..n]) + [k]
                            && k < |s.calls| && k in s.sqlAtCall
  {
    var st := Slots(a.live);
    if a.live[|a.live| - 1].slot.Some? {
      assert st[|st| - 1] == a.live[|a.live| - 1].slot.value;
      assert st[|st| - 1] in st;
    }
  }

  lemma ReturnNames(live: seq<Frame>, frameIdx: map<int, nat>, f: int, frameIdx': map<int, nat>)
    requires Names(live, frameIdx) && live != [] && live[|live| - 1].id == f
    requires frameIdx' == if f in frameIdx then frameIdx - {f} else frameIdx
    ensures Names(live[..|live| - 1], frameIdx')
  {
    NamesPop(live, frameIdx);
    assert f !in frameIdx ==> frameIdx - {f} == frameIdx;
  }

  lemma ReturnKeeps(caps: Caps, s: TracerState, a: Activity, f: int)
    requires Inv(s, a) && Fits(a, Return(f))
    ensures f in s.frameIdx ==> s.frameIdx[f] < |s.calls| && s.frameIdx[f] in s.sqlAtCall
    ensures Inv(StepReturn(s, f), Happens(caps, a, Return(f)))
  {
    ReturnFinds(s, a, f);
    var s', n := StepReturn(s, f), |a.live| - 1;
    ReturnNames(a.live, s.frameIdx, f, s'.frameIdx);
    if f in s.frameIdx {
      ReturnCounted(s, s', a, s.frameIdx[f]);
    } else {
      CloseKeepsAccounts(s, s', a, a.(live := a.live[..n]));
    }
  }

  lemma ReturnCounted(s: TracerState, s': TracerState, a: Activity, k: nat)
    requires Counters(s, a) && Nested(Depths(s.calls), Slots(a.live)) && OpenCounts(s, Slots(a.live))
    requires Accounts(s, a) && a.live != [] && Slots(a.live) == Slots(a.live[..|a.live| - 1]) + [k]
    requires k < |s.calls| && k in s.sqlAtCall
    requires s'.calls == s.calls[k := s.calls[k].(sqlCount := Some(s.sqlCounter - s.sqlAtCall[k]))]
    requires s'.sqlAtCall == s.sqlAtCall && s'.sqlCounter == s.sqlCounter && s'.depth == s.depth - 1
    ensures var a' := a.(live := a.live[..|a.live| - 1]);
            Counters(s', a') && Nested(Depths(s'.calls), Slots(a'.live)) && OpenCounts(s', Slots(a'.live))
            && Accounts(s', a')
  {
    CloseKeepsCounts(s, s', Slots(a.live), k);
    CloseKeepsAccounts(s, s', a, a.(live := a.live[..|a.live| - 1]));
  }

  lemma CloseKeepsAccounts(s: TracerState, s': TracerState, a: Activity, a': Activity)
    requires |s.calls| == a.recorded == a'.recorded == |s'.calls| && a'.owners == a.owners && Accounts(s, a)
    requires CountsNow(s') == CountsNow(s) && Depths(s'.calls) == Depths(s.calls)
    ensures Accounts(s', a')
  {
    forall k | 0 <= k < |s'.calls|
      ensures OwnSql(a', k) == CountNow(s', k) - ChildSum(Depths(s'.calls), CountsNow(s'), k, |s'.calls|)
    {
      assert CountsNow(s')[k] == CountsNow(s)[k];
    }
  }

  /** Closing the innermost call freezes its count at the value it has now. */
  lemma CloseKeepsCounts(s: TracerState, s': TracerState, st: seq<nat>, k: nat)
    requires OpenCounts(s, st) && Nested(Depths(s.calls), st) && |st| > 0 && k == st[|st| - 1]
    requires k < |s.calls| && k in s.sqlAtCall
    requires s'.calls == s.calls[k := s.calls[k].(sqlCount := Some(s.sqlCounter - s.sqlAtCall[k]))]
    requires s'.sqlAtCall == s.sqlAtCall && s'.sqlCounter == s.sqlCounter
    ensures OpenCounts(s', st[..|st| - 1]) && CountsNow(s') == CountsNow(s)
    ensures Depths(s'.calls) == Depths(s.calls)
  {
    var rest := st[..|st| - 1];
    assert st == rest + [k];
    assert k !in rest by {
      forall p | 0 <= p < |rest| ensures rest[p] != k { assert Depths(s.calls)[st[p]] == p; }
    }
    forall j | 0 <= j < |s.calls| ensures CountNow(s', j) == CountNow(s, j) { }
  }

  lemma SqlKeeps(caps: Caps, s: TracerState, a: Activity)
    requires Inv(s, a)
    ensures Inv(s.(sqlCounter := s.sqlCounter + 1), Happens(caps, a, Sql))
  {
    var a' := Happens(caps, a, Sql);
    forall k | 0 <= k < |s.calls| { SqlKeepsAccount(s, a, k); }
  }

  lemma SqlBumps(s: TracerState, st: seq<nat>)
    requires OpenCounts(s, st)
    ensures var c, c' := CountsNow(s), CountsNow(s.(sqlCounter := s.sqlCounter + 1));
            forall j :: 0 <= j < |s.calls| ==> c'[j] == c[j] + if j in st then 1 else 0
  {
  }

  lemma SqlKeepsAccount(s: TracerState, a: Activity, k: nat)
    requires Inv(s, a) && k < |s.calls|
    ensures var s' := s.(sqlCounter := s.sqlCounter + 1);
            OwnSql(a.(owners := a.owners + [Innermost(a.live)]), k)
            == CountNow(s', k) - ChildSum(Depths(s.calls), CountsNow(s'), k, |s.calls|)
  {
    var d, c, st := Depths(s.calls), CountsNow(s), Slots(a.live);
    var c' := CountsNow(s.(sqlCounter := s.sqlCounter + 1));
    SqlBumps(s, st);
    var x := OnlyLiveChild(d, st, k);
    ChildSumBump(d, c, c', k, x, |s.calls|);
    assert OwnSql(a, k) == c[k] - ChildSum(d, c, k, |s.calls|);
  }

  /** A recorded live call has one live child, the next one on the stack; others have none. */
  lemma OnlyLiveChild(d: seq<int>, st: seq<nat>, k: nat) returns (x: int)
    requires Nested(d, st) && k < |d|
    ensures -1 <= x < |d| && (x >= 0 ==> Parent(d, x) == k)
    ensures forall j :: 0 <= j < |d| && Parent(d, j) == k ==> (j in st <==> j == x)
    ensures x >= 0 <==> k in st && k != st[|st| - 1]
  {
    x := -1;
    if k in st && k != st[|st| - 1] {
      var p :| 0 <= p < |st| && st[p] == k;
      x := st[p + 1];
      NestedParents(d, st, p + 1);
    }
    forall j | 0 <= j < |d| && Parent(d, j) == k && j in st ensures j == x {
      var q :| 0 <= q < |st| && st[q] == j;
      NestedParents(d, st, q);
      assert d[st[q - 1]] == q - 1;
      assert d[st[|st| - 1]] == |st| - 1;
    }
  }

  // ------------------------------------------------------------------------
  // Self SQL is exactly the SQL fired while the call was innermost
  // ------------------------------------------------------------------------

  lemma {:induction false} ChildSumAgrees(d: seq<int>, c: seq<int>, c': seq<int>, k: int, i: nat)
    requires |d| == |c| == |c'| && i <= |d|
    requires forall j :: 0 <= j < i && Parent(d, j) == k ==> c[j] == c'[j]
    ensures ChildSum(d, c, k, i) == ChildSum(d, c', k, i)
  {
    if i > 0 {
      ChildSumAgrees(d, c, c', k, i - 1);
    }
  }

  ghost function ReportedSelf(s: TracerState): seq<int> {
    SelfSql(Depths(s.calls), Filled(SqlCounts(s.calls)))
  }

  /** A call that has returned is charged exactly its own statements, also in unfinished runs. */
  lemma ClosedCallIsExact(s: TracerState, a: Activity, k: nat)
    requires Inv(s, a) && k < |s.calls| && s.calls[k].sqlCount.Some?
    ensures ReportedSelf(s)[k] == OwnSql(a, k)
  {
    var d, c, c', st := Depths(s.calls), Filled(SqlCounts(s.calls)), CountsNow(s), Slots(a.live);
    var x := OnlyLiveChild(d, st, k);
    ChildSumAgrees(d, c, c', k, |d|);
  }

  lemma {:induction false} ChildSumOfCounts(d: seq<int>, c: seq<int>, k: int, i: nat)
    requires |d| == |c| && i <= |d| && forall j :: 0 <= j < |c| ==> c[j] >= 0
    ensures ChildSum(d, c, k, i) >= 0
    ensures ChildSum(d, c, k, i) == 0 <==> forall j :: 0 <= j < i && Parent(d, j) == k ==> c[j] == 0
  {
    if i > 0 {
      ChildSumOfCounts(d, c, k, i - 1);
    }
  }

  /** No call that returned inside call `k` recorded any SQL. */
  ghost predicate ChildrenQuiet(calls: seq<CallRec>, k: int)
  {
    var d, c := Depths(calls), Filled(SqlCounts(calls));
    forall j :: 0 <= j < |calls| && Parent(d, j) == k ==> c[j] == 0
  }

  /** A call left open is reported as minus what its returned children recorded, and that is what it ran itself only
      when it ran nothing and they were quiet. */
  lemma OpenCallReport(s: TracerState, a: Activity, k: nat)
    requires Inv(s, a) && k < |s.calls| && s.calls[k].sqlCount.None?
    ensures ReportedSelf(s)[k] == -ChildSum(Depths(s.calls), Filled(SqlCounts(s.calls)), k, |s.calls|)
    ensures ReportedSelf(s)[k] == OwnSql(a, k) <==> OwnSql(a, k) == 0 && ChildrenQuiet(s.calls, k)
  {
    ChildSumOfCounts(Depths(s.calls), Filled(SqlCounts(s.calls)), k, |s.calls|);
  }

  /** So a self count is negative exactly for a call left open around a returned child that ran SQL. */
  lemma NonNegativeIff(s: TracerState, a: Activity, k: nat)
    requires Inv(s, a) && k < |s.calls|
    ensures ReportedSelf(s)[k] >= 0 <==> (s.calls[k].sqlCount.None? ==> ChildrenQuiet(s.calls, k))
  {
    ChildSumOfCounts(Depths(s.calls), Filled(SqlCounts(s.calls)), k, |s.calls|);
    if s.calls[k].sqlCount.Some? {
      ClosedCallIsExact(s, a, k);
    } else {
      OpenCallReport(s, a, k);
    }
  }

  lemma Extend(caps: Caps, run: seq<Event>, e: Event)
    requires WellNested(caps, run) && Fits(Watch(caps, run), e)
    ensures WellNested(caps, run + [e]) && Watch(caps, run + [e]) == Happens(caps, Watch(caps, run), e)
  {
    assert (run + [e])[..|run|] == run;
  }

  /** A run whose outer call is left open around a returned child that ran one statement: the outer call is
      reported as -1. */
  lemma OpenCallCanGoNegative()
    ensures var caps, run := Caps(20, 4000), [Call(1), Call(2), Sql, Return(2)];
            && WellNested(caps, run)
            && StateAfter(caps, run).calls == [CallRec(0, None), CallRec(1, Some(1))]
            && ReportedSelf(StateAfter(caps, run)) == [-1, 1]
  {
    TwoCallsOpen();
    Extend(Caps(20, 4000), [Call(1), Call(2)], Sql);
    assert [Call(1), Call(2)] + [Sql] == [Call(1), Call(2), Sql];
    Extend(Caps(20, 4000), [Call(1), Call(2), Sql], Return(2));
    assert [Call(1), Call(2), Sql] + [Return(2)] == [Call(1), Call(2), Sql, Return(2)];
    TwoCallsState(Caps(20, 4000));
    OpenCallSelf();
  }

  lemma TwoCallsState(caps: Caps)
    requires caps == Caps(20, 4000)
    ensures StateAfter(caps, [Call(1), Call(2), Sql, Return(2)]).calls == [CallRec(0, None), CallRec(1, Some(1))]
  {
    StateSnoc(caps, [], Call(1));
    assert [] + [Call(1)] == [Call(1)];
    StateSnoc(caps, [Call(1)], Call(2));
    assert [Call(1)] + [Call(2)] == [Call(1), Call(2)];
    StateSnoc(caps, [Call(1), Call(2)], Sql);
    assert [Call(1), Call(2)] + [Sql] == [Call(1), Call(2), Sql];
    StateSnoc(caps, [Call(1), Call(2), Sql], Return(2));
    assert [Call(1), Call(2), Sql] + [Return(2)] == [Call(1), Call(2), Sql, Return(2)];
    assert StateAfter(caps, [Call(1)]) == TracerState([CallRec(0, None)], 1, map[1 := 0], map[0 := 0], 0);
    assert StateAfter(caps, [Call(1), Call(2)]) ==
           TracerState([CallRec(0, None), CallRec(1, None)], 2, map[1 := 0, 2 := 1], map[0 := 0, 1 := 0], 0);
  }

  lemma OneCallOpen(caps: Caps)
    requires caps == Caps(20, 4000)
    ensures WellNested(caps, [Call(1)]) && Watch(caps, [Call(1)]) == Activity([Frame(1, Some(0))], 1, [])
  {
    assert Happens(caps, Activity([], 0, []), Call(1)) == Activity([Frame(1, Some(0))], 1, []);
    Extend(caps, [], Call(1));
    assert [] + [Call(1)] == [Call(1)];
  }

  lemma SecondCall(caps: Caps)
    requires caps == Caps(20, 4000)
    ensures Fits(Activity([Frame(1, Some(0))], 1, []), Call(2))
    ensures Happens(caps, Activity([Frame(1, Some(0))], 1, []), Call(2)).live == [Frame(1, Some(0)), Frame(2, Some(1))]
  {
    SlotsSnoc([], Frame(1, Some(0)));
    assert [] + [Frame(1, Some(0))] == [Frame(1, Some(0))];
  }

  lemma TwoCallsOpen()
    ensures WellNested(Caps(20, 4000), [Call(1), Call(2)])
    ensures Watch(Caps(20, 4000), [Call(1), Call(2)]).live == [Frame(1, Some(0)), Frame(2, Some(1))]
  {
    OneCallOpen(Caps(20, 4000));
    SecondCall(Caps(20, 4000));
    Extend(Caps(20, 4000), [Call(1)], Call(2));
    assert [Call(1)] + [Call(2)] == [Call(1), Call(2)];
  }

  lemma OpenCallSelf()
    ensures var calls := [CallRec(0, None), CallRec(1, Some(1))];
            SelfSql(Depths(calls), Filled(SqlCounts(calls))) == [-1, 1]
  {
    var calls := [CallRec(0, None), CallRec(1, Some(1))];
    var d, c := Depths(calls), Filled(SqlCounts(calls));
    assert d == [0, 1] && c == [0, 1];
    assert ChildSum(d, c, 0, 2) == ChildSum(d, c, 0, 1) + 1;
    assert ChildSum(d, c, 0, 1) == 0;
    assert ChildSum(d, c, 1, 2) == ChildSum(d, c, 1, 1) == 0;
  }

  // ------------------------------------------------------------------------
  // The tracer object and a whole run
  // ------------------------------------------------------------------------

  class Tracer {
    const caps: Caps
    var calls: seq<CallRec>
    var depth: nat
    var frameIdx: map<int, nat>
    var sqlAtCall: map<nat, nat>
    var sqlCounter: nat
    ghost var seen: seq<Event>

    ghost function Snapshot(): TracerState
      reads this
    {
      TracerState(calls, depth, frameIdx, sqlAtCall, sqlCounter)
    }

    /** The counters account for everything that has happened so far. */
    ghost predicate Valid()
      reads this
    {
      Inv(Snapshot(), Watch(caps, seen))
    }

    constructor (caps: Caps)
      ensures Valid() && this.caps == caps && seen == [] && Snapshot() == StateAfter(caps, [])
    {
      this.caps := caps;
      calls, depth, frameIdx, sqlAtCall, sqlCounter := [], 0, map[], map[], 0;
      seen := [];
    }

    method OnCall(frame: int)
      requires Valid() && Fits(Watch(caps, seen), Call(frame))
      modifies this
      ensures Valid() && seen == old(seen) + [Call(frame)]
      ensures Snapshot() == StepCall(caps, old(Snapshot()), frame)
    {
      CallKeeps(caps, Snapshot(), Watch(caps, seen), frame);
      WatchSnoc(caps, seen, Call(frame));
      seen := seen + [Call(frame)];
      OpenFrame(frame);
    }

    /** A record for the frame, unless a cap is reached. */
    method OpenFrame(frame: int)
      modifies this`frameIdx, this`sqlAtCall, this`calls, this`depth
      ensures Snapshot() == StepCall(caps, old(Snapshot()), frame)
    {
      if depth > caps.maxDepth || |calls| >= caps.maxCalls {
        return;
      }
      var idx := |calls|;
      frameIdx := frameIdx[frame := idx];
      sqlAtCall := sqlAtCall[idx := sqlCounter];
      calls := calls + [CallRec(depth, None)];
      depth := depth + 1;
    }

    method OnReturn(frame: int)
      requires Valid() && Fits(Watch(caps, seen), Return(frame))
      modifies this
      ensures Valid() && seen == old(seen) + [Return(frame)]
      ensures frame !in old(frameIdx) ==> Snapshot() == old(Snapshot())
      ensures frame in old(frameIdx) ==> (
        var idx := old(frameIdx)[frame];
        idx < |old(calls)| && idx in old(sqlAtCall) && Snapshot() == StepReturn(old(Snapshot()), frame))
    {
      ReturnKeeps(caps, Snapshot(), Watch(caps, seen), frame);
      WatchSnoc(caps, seen, Return(frame));
      seen := seen + [Return(frame)];
      if frame in frameIdx {
        CloseFrame(frame);
      }
    }

    /** The frame's cumulative count, and one level less. */
    method CloseFrame(frame: int)
      requires frame in frameIdx && frameIdx[frame] < |calls| && frameIdx[frame] in sqlAtCall
      modifies this`frameIdx, this`calls, this`depth
      ensures Snapshot() == StepReturn(old(Snapshot()), frame)
    {
      var idx := frameIdx[frame];
      frameIdx := frameIdx - {frame};
      calls := calls[idx := calls[idx].(sqlCount := Some(sqlCounter - sqlAtCall[idx]))];
      depth := if depth - 1 > 0 then depth - 1 else 0;
    }

    method CountingExecute()
      requires Valid()
      modifies this
      ensures Valid() && seen == old(seen) + [Sql]
      ensures Snapshot() == old(Snapshot()).(sqlCounter := old(sqlCounter) + 1)
    {
      SqlKeeps(caps, Snapshot(), Watch(caps, seen));
      WatchSnoc(caps, seen, Sql);
      seen := seen + [Sql];
      sqlCounter := sqlCounter + 1;
    }

    method OnOther()
      requires Valid()
      modifies this
      ensures Valid() && seen == old(seen) + [Other]
      ensures Snapshot() == old(Snapshot())
    {
      WatchSnoc(caps, seen, Other);
      seen := seen + [Other];
    }

    method Handle(e: Event)
      requires Valid() && Fits(Watch(caps, seen), e)
      modifies this
      ensures Valid() && seen == old(seen) + [e]
      ensures Snapshot() == StepOf(caps, old(Snapshot()), e)
    {
      match e {
        case Call(f) => OnCall(f);
        case Return(f) => OnReturn(f);
        case Sql => CountingExecute();
        case Other => OnOther();
      }
    }

    /** Write back 0 for calls still open, then take the self counts. */
    method Summarize() returns (selfSql: seq<int>)
      requires Valid()
      modifies this`calls
      ensures forall k :: 0 <= k < |calls| ==> calls[k].sqlCount.Some?
      ensures Depths(calls) == old(Depths(calls)) && Filled(SqlCounts(calls)) == old(Filled(SqlCounts(calls)))
      ensures selfSql == old(ReportedSelf(Snapshot()))
    {
      ghost var before := SqlCounts(calls);
      for i := 0 to |calls|
        invariant |calls| == |before| && Depths(calls) == old(Depths(calls))
        invariant forall k :: 0 <= k < i ==> calls[k].sqlCount == Some(Filled(before)[k])
        invariant forall k :: i <= k < |calls| ==> calls[k] == old(calls)[k]
      {
        if calls[i].sqlCount == None {
          calls := calls[i := calls[i].(sqlCount := Some(0))];
        }
      }
      assert Filled(SqlCounts(calls)) == Filled(before);
      selfSql := ComputeSelfSql(Depths(calls), SqlCounts(calls));
    }

    method Report() returns (selfSql: seq<int>)
      requires Valid()
      modifies this`calls
      ensures selfSql == old(ReportedSelf(Snapshot()))
      ensures |selfSql| == Watch(caps, old(seen)).recorded
      ensures forall k :: 0 <= k < |selfSql| && !LeftOpen(Watch(caps, old(seen)), k) ==>
                selfSql[k] == OwnSql(Watch(caps, old(seen)), k)
    {
      RunIsExact(Snapshot(), Watch(caps, seen));
      selfSql := Summarize();
    }
  }

  lemma WatchSnoc(caps: Caps, run: seq<Event>, e: Event)
    ensures Watch(caps, run + [e]) == Happens(caps, Watch(caps, run), e)
  {
    assert (run + [e])[..|run|] == run;
  }

  lemma {:induction false} WellNestedPrefix(caps: Caps, run: seq<Event>, i: nat)
    requires WellNested(caps, run) && i < |run|
    ensures WellNested(caps, run[..i]) && Fits(Watch(caps, run[..i]), run[i])
    ensures run[..i + 1] == run[..i] + [run[i]]
  {
    if i < |run| - 1 {
      WellNestedPrefix(caps, run[..|run| - 1], i);
      assert run[..|run| - 1][..i] == run[..i];
    }
  }

  /** Calls that have not returned by the end of the run. */
  ghost predicate LeftOpen(a: Activity, k: nat) {
    k in Slots(a.live)
  }

  lemma RunIsExact(s: TracerState, a: Activity)
    requires Inv(s, a)
    ensures |ReportedSelf(s)| == a.recorded
    ensures forall k :: 0 <= k < a.recorded && !LeftOpen(a, k) ==> ReportedSelf(s)[k] == OwnSql(a, k)
  {
    forall k | 0 <= k < a.recorded && !LeftOpen(a, k) ensures ReportedSelf(s)[k] == OwnSql(a, k) {
      ClosedCallIsExact(s, a, k);
    }
  }

  /** Tracing a whole run: every call that returned is charged exactly the statements
      that fired while it was the innermost recorded frame, whatever the caps. */
  method TraceRun(caps: Caps, run: seq<Event>) returns (selfSql: seq<int>)
    requires WellNested(caps, run)
    ensures selfSql == ReportedSelf(StateAfter(caps, run))
    ensures |selfSql| == Watch(caps, run).recorded
    ensures forall k :: 0 <= k < |selfSql| && !LeftOpen(Watch(caps, run), k) ==>
              selfSql[k] == OwnSql(Watch(caps, run), k)
    ensures Watch(caps, run).live == [] ==>
              forall k :: 0 <= k < |selfSql| ==> selfSql[k] == OwnSql(Watch(caps, run), k)
  {
    var t := new Tracer(caps);
    for i := 0 to |run|
      invariant t.Valid() && t.caps == caps && t.seen == run[..i] && t.Snapshot() == StateAfter(caps, run[..i])
    {
      WellNestedPrefix(caps, run, i);
      StateSnoc(caps, run[..i], run[i]);
      t.Handle(run[i]);
    }
    assert run[..|run|] == run;
    selfSql := t.Report();
  }
}
