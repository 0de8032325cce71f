/** Merging per-seed traces into one surface graph (esg_sample.py), over the write summary of trace_flow.py. */
module Merge {
  import opened Orders

  // ------------------------------------------------------------------------
  // The write summary
  // ------------------------------------------------------------------------

  /** A create or write that was seen; no model is the empty string. */
  datatype Event = Event(model: string, verb: string, fields: seq<string>)

  datatype Rec = Rec(creates: int, writes: int, fields: seq<string>)

  function ModelOf(e: Event): string {
    if e.model == "" then "<unknown>" else e.model
  }

  /** The event names the model, or names none and goes to the unknown one. */
  predicate IsOf(e: Event, m: string) {
    (e.model != "" && m == e.model) || (e.model == "" && m == "<unknown>")
  }

  /** How many creates (or, otherwise, writes) name the model. */
  function Count(events: seq<Event>, m: string, create: bool): nat {
    if events == [] then 0
    else (if IsOf(events[0], m) && (events[0].verb == "create") == create then 1 else 0)
         + Count(events[1..], m, create)
  }

  function Members(s: seq<string>): set<string> {
    set i | 0 <= i < |s| :: s[i]
  }

  function Touches(events: seq<Event>, m: string): set<string> {
    set i, f | 0 <= i < |events| && IsOf(events[i], m) && f in events[i].fields :: f
  }

  function Models(events: seq<Event>): set<string> {
    set i | 0 <= i < |events| :: ModelOf(events[i])
  }

  /** The field names of a summary are listed sorted. */
  function RecOf(events: seq<Event>, m: string): Rec {
    Rec(Count(events, m, true), Count(events, m, false), Listing(Touches(events, m)))
  }

  function Summary(events: seq<Event>): map<string, Rec> {
    map m | m in Models(events) :: RecOf(events, m)
  }

  // Sorted listings of finite sets

  lemma {:induction false} LeastExists(s: set<string>)
    requires s != {}
    ensures exists x :: IsLeast(x, s)
    decreases s
  {
    StrLeIsTotalOrder();
    var x :| x in s;
    if s == {x} {
      assert IsLeast(x, s);
    } else {
      LeastExists(s - {x});
      var y :| IsLeast(y, s - {x});
      assert IsLeast(if StrLe(x, y) then x else y, s);
    }
  }

  ghost predicate IsLeast(x: string, s: set<string>) {
    x in s && forall y :: y in s ==> StrLe(x, y)
  }

  function Listing(s: set<string>): (r: seq<string>)
    ensures Members(r) == s && Distinct(r) && Sorted(StrLe, r)
  {
    if s == {} then []
    else
      LeastExists(s);
      StrLeIsTotalOrder();
      var x :| x in s && forall y :: y in s ==> StrLe(x, y);
      var rest := Listing(s - {x});
      ListingCons(x, rest);
      [x] + rest
  }

  lemma ListingCons(x: string, rest: seq<string>)
    requires Distinct(rest) && Sorted(StrLe, rest) && x !in Members(rest)
    requires forall y :: y in Members(rest) ==> StrLe(x, y)
    ensures Members([x] + rest) == {x} + Members(rest) && Distinct([x] + rest) && Sorted(StrLe, [x] + rest)
  {
    MembersCons(x, rest);
    assert forall i :: 0 <= i < |rest| ==> rest[i] in Members(rest);
  }

  lemma MembersCons(x: string, rest: seq<string>)
    ensures Members([x] + rest) == {x} + Members(rest)
  {
    var all := [x] + rest;
    assert all[0] == x && forall i :: 0 <= i < |rest| ==> all[i + 1] == rest[i];
  }

  /** Sorted and free of repetitions, a listing is determined by its members. */
  lemma ListingUnique(s: seq<string>, t: seq<string>)
    requires Distinct(s) && Sorted(StrLe, s) && Distinct(t) && Sorted(StrLe, t) && Members(s) == Members(t)
    ensures s == t
  {
    StrLeIsTotalOrder();
    forall x ensures multiset(s)[x] == multiset(t)[x] {
      DistinctCount(s, x);
      DistinctCount(t, x);
      assert x in s <==> x in Members(s);
      assert x in t <==> x in Members(t);
    }
    assert multiset(s) == multiset(t);
    SortedUnique(StrLe, s, t);
  }

  // Summaries of concatenated events

  lemma {:induction false} CountConcat(a: seq<Event>, b: seq<Event>, m: string, create: bool)
    ensures Count(a + b, m, create) == Count(a, m, create) + Count(b, m, create)
  {
    if a == [] {
      assert a + b == b;
    } else {
      assert (a + b)[1..] == a[1..] + b;
      CountConcat(a[1..], b, m, create);
    }
  }

  lemma TouchesConcat(a: seq<Event>, b: seq<Event>, m: string)
    ensures Touches(a + b, m) == Touches(a, m) + Touches(b, m)
    ensures Models(a + b) == Models(a) + Models(b)
  {
    assert forall i :: 0 <= i < |a| ==> (a + b)[i] == a[i];
    assert forall i :: 0 <= i < |b| ==> (a + b)[|a| + i] == b[i];
    forall x | x in Touches(a, m) + Touches(b, m) ensures x in Touches(a + b, m) {
      if x in Touches(a, m) {
        var i :| 0 <= i < |a| && ModelOf(a[i]) == m && x in a[i].fields;
        assert ModelOf((a + b)[i]) == m && x in (a + b)[i].fields;
      } else {
        var i :| 0 <= i < |b| && ModelOf(b[i]) == m && x in b[i].fields;
        assert ModelOf((a + b)[|a| + i]) == m && x in (a + b)[|a| + i].fields;
      }
    }
    forall x | x in Models(a) + Models(b) ensures x in Models(a + b) {
      if x in Models(a) {
        var i :| 0 <= i < |a| && ModelOf(a[i]) == x;
        assert ModelOf((a + b)[i]) == x;
      } else {
        var i :| 0 <= i < |b| && ModelOf(b[i]) == x;
        assert ModelOf((a + b)[|a| + i]) == x;
      }
    }
  }

  /** Two event lists that tell the same story of every model. */
  ghost predicate Alike(a: seq<Event>, b: seq<Event>) {
    Models(a) == Models(b)
    && (forall m, c :: Count(a, m, c) == Count(b, m, c))
    && (forall m :: Touches(a, m) == Touches(b, m))
  }

  lemma AlikeConcat(a: seq<Event>, a': seq<Event>, b: seq<Event>, b': seq<Event>)
    requires Alike(a, a') && Alike(b, b')
    ensures Alike(a + b, a' + b')
  {
    forall m, c ensures Count(a + b, m, c) == Count(a' + b', m, c) {
      CountConcat(a, b, m, c);
      CountConcat(a', b', m, c);
    }
    forall m ensures Touches(a + b, m) == Touches(a' + b', m) {
      TouchesConcat(a, b, m);
      TouchesConcat(a', b', m);
    }
    TouchesConcat(a, b, "");
    TouchesConcat(a', b', "");
  }

  lemma AlikeSummaries(a: seq<Event>, b: seq<Event>)
    requires Alike(a, b)
    ensures Summary(a) == Summary(b)
  {
    forall m | m in Models(a) ensures RecOf(a, m) == RecOf(b, m) {
    }
  }

  // ------------------------------------------------------------------------
  // Re-expanding a summary into events
  // ------------------------------------------------------------------------

  /** A dict of records, as a list of its items. */
  type Items = seq<(string, Rec)>

  function Repeat(e: Event, n: int): seq<Event> {
    if n <= 0 then [] else [e] + Repeat(e, n - 1)
  }

  function ExpandOne(item: (string, Rec)): seq<Event> {
    Repeat(Event(item.0, "create", item.1.fields), item.1.creates)
    + Repeat(Event(item.0, "write", item.1.fields), item.1.writes)
  }

  function Expand(items: Items): seq<Event> {
    if items == [] then [] else ExpandOne(items[0]) + Expand(items[1..])
  }

  /** Some listing of a map's items. */
  ghost predicate Lists(items: Items, s: map<string, Rec>) {
    (forall i, j :: 0 <= i < j < |items| ==> items[i].0 != items[j].0)
    && (forall i :: 0 <= i < |items| ==> items[i].0 in s && s[items[i].0] == items[i].1)
    && (forall m :: m in s ==> ListedIn(items, m))
  }

  ghost predicate ListedIn(items: Items, m: string) {
    exists i :: 0 <= i < |items| && items[i].0 == m
  }

  lemma {:induction false} RepeatFacts(e: Event, n: int)
    ensures forall m, c ::
              Count(Repeat(e, n), m, c) ==
              if n > 0 && ModelOf(e) == m && (e.verb == "create") == c then n else 0
    ensures Models(Repeat(e, n)) == if n > 0 then {ModelOf(e)} else {}
    ensures forall m :: Touches(Repeat(e, n), m) == if n > 0 && ModelOf(e) == m then Members(e.fields) else {}
    decreases n
  {
    if n > 0 {
      RepeatFacts(e, n - 1);
      var r := Repeat(e, n - 1);
      forall m, c ensures Count([e] + r, m, c) == (if ModelOf(e) == m && (e.verb == "create") == c then 1 else 0) +
        Count(r, m, c) {
        assert ([e] + r)[1..] == r;
      }
      forall m ensures Touches([e], m) == if ModelOf(e) == m then Members(e.fields) else {} {
        OneTouches(e, m);
      }
      forall m ensures Touches([e] + r, m) == Touches([e], m) + Touches(r, m) &&
        Models([e] + r) == Models([e]) + Models(r) {
        TouchesConcat([e], r, m);
      }
      assert Models([e]) == {ModelOf(e)} by { assert [e][0] == e; }
      assert Models([e] + r) == Models([e]) + Models(r) by { TouchesConcat([e], r, ""); }
    }
  }

  lemma OneTouches(e: Event, m: string)
    ensures Touches([e], m) == if ModelOf(e) == m then Members(e.fields) else {}
  {
    assert [e][0] == e;
    forall x | ModelOf(e) == m && x in Members(e.fields) ensures x in Touches([e], m) {
      assert ModelOf([e][0]) == m && x in [e][0].fields;
    }
  }

  lemma ExpandOneFacts(item: (string, Rec), m: string)
    requires item.0 != ""
    ensures var e := ExpandOne(item);
            if item.0 != m then Count(e, m, true) == Count(e, m, false) == 0 && Touches(e, m) == {} && m !in Models(e)
            else Count(e, m, true) == Positive(item.1.creates) && Count(e, m, false) == Positive(item.1.writes)
                 && (item.1.creates > 0 || item.1.writes > 0 ==>
                   Touches(e, m) == Members(item.1.fields) && m in Models(e))
  {
    var c, w := Event(item.0, "create", item.1.fields), Event(item.0, "write", item.1.fields);
    RepeatFacts(c, item.1.creates);
    RepeatFacts(w, item.1.writes);
    CountConcat(Repeat(c, item.1.creates), Repeat(w, item.1.writes), m, true);
    CountConcat(Repeat(c, item.1.creates), Repeat(w, item.1.writes), m, false);
    TouchesConcat(Repeat(c, item.1.creates), Repeat(w, item.1.writes), m);
  }

  function Positive(n: int): nat {
    if n > 0 then n else 0
  }

  ghost predicate Named(items: Items) {
    forall i :: 0 <= i < |items| ==> items[i].0 != ""
  }

  lemma {:induction false} UnlistedIsAbsent(items: Items, m: string)
    requires Named(items) && !ListedIn(items, m)
    ensures Count(Expand(items), m, true) == Count(Expand(items), m, false) == 0
    ensures Touches(Expand(items), m) == {} && m !in Models(Expand(items))
  {
    if items != [] {
      assert items[0].0 != m;
      assert !ListedIn(items[1..], m) by {
        if i :| 0 <= i < |items[1..]| && items[1..][i].0 == m { assert items[i + 1].0 == m; }
      }
      UnlistedIsAbsent(items[1..], m);
      ExpandOneFacts(items[0], m);
      CountConcat(ExpandOne(items[0]), Expand(items[1..]), m, true);
      CountConcat(ExpandOne(items[0]), Expand(items[1..]), m, false);
      TouchesConcat(ExpandOne(items[0]), Expand(items[1..]), m);
    }
  }

  /** With distinct names, the events of one model are those of its own item. */
  lemma {:induction false} ListedIsItsItem(items: Items, m: string, k: nat)
    requires Named(items) && k < |items| && items[k].0 == m
    requires forall i, j :: 0 <= i < j < |items| ==> items[i].0 != items[j].0
    ensures Count(Expand(items), m, true) == Positive(items[k].1.creates)
    ensures Count(Expand(items), m, false) == Positive(items[k].1.writes)
    ensures items[k].1.creates > 0 || items[k].1.writes > 0 ==>
              Touches(Expand(items), m) == Members(items[k].1.fields) && m in Models(Expand(items))
  {
    var tail := items[1..];
    ExpandOneFacts(items[0], m);
    if k == 0 {
      assert forall i :: 0 <= i < |tail| ==> tail[i] == items[i + 1] && items[0].0 != items[i + 1].0;
      UnlistedIsAbsent(tail, m);
    } else {
      ListedIsItsItem(tail, m, k - 1);
    }
    CountConcat(ExpandOne(items[0]), Expand(tail), m, true);
    CountConcat(ExpandOne(items[0]), Expand(tail), m, false);
    TouchesConcat(ExpandOne(items[0]), Expand(tail), m);
  }

  lemma {:induction false} PresentIsCounted(events: seq<Event>, i: nat)
    requires i < |events|
    ensures Count(events, ModelOf(events[i]), true) + Count(events, ModelOf(events[i]), false) > 0
  {
    if i > 0 {
      PresentIsCounted(events[1..], i - 1);
    }
  }

  lemma {:induction false} AbsentIsNotCounted(events: seq<Event>, m: string, c: bool)
    requires m !in Models(events)
    ensures Count(events, m, c) == 0 && Touches(events, m) == {}
  {
    if events != [] {
      assert ModelOf(events[0]) in Models(events);
      assert m !in Models(events[1..]) by {
        assert forall i :: 0 <= i < |events| - 1 ==> events[1..][i] == events[i + 1];
      }
      AbsentIsNotCounted(events[1..], m, c);
      assert Touches(events, m) == {} by {
        assert forall i :: 0 <= i < |events| ==> ModelOf(events[i]) in Models(events);
      }
    }
  }

  /** Re-expanding a summary, in whatever order its items come, tells the same story as the events it was made from. */
  lemma ReexpandedIsAlike(items: Items, events: seq<Event>)
    requires Lists(items, Summary(events))
    ensures Alike(Expand(items), events)
  {
    assert Named(items);
    forall m
      ensures Count(Expand(items), m, true) == Count(events, m, true) &&
        Count(Expand(items), m, false) == Count(events, m, false)
      ensures Touches(Expand(items), m) == Touches(events, m) && (m in Models(Expand(items)) <==> m in Models(events))
    {
      if m in Models(events) {
        assert m in Summary(events) && ListedIn(items, m);
        var k :| 0 <= k < |items| && items[k].0 == m;
        assert items[k].1 == RecOf(events, m);
        var i :| 0 <= i < |events| && ModelOf(events[i]) == m;
        PresentIsCounted(events, i);
        ListedIsItsItem(items, m, k);
      } else {
        AbsentIsNotCounted(events, m, true);
        AbsentIsNotCounted(events, m, false);
        assert !ListedIn(items, m);
        UnlistedIsAbsent(items, m);
      }
    }
    forall m, c ensures Count(Expand(items), m, c) == Count(events, m, c) {
      assert Count(Expand(items), m, true) == Count(events, m, true);
    }
  }

  // ------------------------------------------------------------------------
  // The seeds
  // ------------------------------------------------------------------------

  type Edge = (string, string)

  /** One seed's trace; a missing list is an empty one. */
  datatype Seed = Seed(traced: bool, title: string, verb: string, touched: seq<string>,
                       modelEdges: seq<Edge>, appEdges: seq<Edge>, writes: Items)

  function Label(s: Seed): string {
    if s.title != "" then s.title else if s.verb != "" then s.verb else "?"
  }

  function WriteEvents(seeds: seq<Seed>): seq<Event> {
    if seeds == [] then []
    else WriteEvents(seeds[..|seeds| - 1])
         + if seeds[|seeds| - 1].traced then Expand(seeds[|seeds| - 1].writes) else []
  }

  /** The original events of the traced seeds, one after the other. */
  function OriginalEvents(seeds: seq<Seed>, originals: seq<seq<Event>>): seq<Event>
    requires |seeds| == |originals|
  {
    if seeds == [] then []
    else OriginalEvents(seeds[..|seeds| - 1], originals[..|seeds| - 1])
         + if seeds[|seeds| - 1].traced then originals[|seeds| - 1] else []
  }

  /** Merging per-seed write summaries loses nothing: it gives the summary of all the original events. */
  lemma {:induction false} MergedWritesAreExact(seeds: seq<Seed>, originals: seq<seq<Event>>)
    requires |seeds| == |originals|
    requires forall i :: 0 <= i < |seeds| && seeds[i].traced ==> Lists(seeds[i].writes, Summary(originals[i]))
    ensures Alike(WriteEvents(seeds), OriginalEvents(seeds, originals))
    ensures Summary(WriteEvents(seeds)) == Summary(OriginalEvents(seeds, originals))
    decreases |seeds|
  {
    if seeds != [] {
      var n := |seeds| - 1;
      MergedWritesAreExact(seeds[..n], originals[..n]);
      if seeds[n].traced {
        ReexpandedIsAlike(seeds[n].writes, originals[n]);
        AlikeConcat(WriteEvents(seeds[..n]), OriginalEvents(seeds[..n], originals[..n]), Expand(seeds[n].writes),
          originals[n]);
      } else {
        AlikeConcat(WriteEvents(seeds[..n]), OriginalEvents(seeds[..n], originals[..n]), [], []);
      }
    }
    AlikeSummaries(WriteEvents(seeds), OriginalEvents(seeds, originals));
  }

  /** The edges of the traced seeds, one list after the other. */
  function AllEdges(seeds: seq<Seed>, app: bool): seq<Edge> {
    if seeds == [] then []
    else AllEdges(seeds[..|seeds| - 1], app)
         + if !seeds[|seeds| - 1].traced then []
           else if app then seeds[|seeds| - 1].appEdges else seeds[|seeds| - 1].modelEdges
  }

  /** The label a seed is given, else its method's name, else a question mark. */
  predicate IsLabel(s: Seed, name: string) {
    || (s.title != "" && name == s.title)
    || (s.title == "" && s.verb != "" && name == s.verb)
    || (s.title == "" && s.verb == "" && name == "?")
  }

  lemma TouchedByMeans(seeds: seq<Seed>, m: string, name: string)
    ensures name in TouchedBy(seeds, m) <==>
              exists s :: s in seeds && s.traced && m in s.touched && IsLabel(s, name)
  {
    if name in TouchedBy(seeds, m) {
      var i :| 0 <= i < |seeds| && seeds[i].traced && m in seeds[i].touched && Label(seeds[i]) == name;
      assert seeds[i] in seeds && IsLabel(seeds[i], name);
    }
    if s :| s in seeds && s.traced && m in s.touched && IsLabel(s, name) {
      var i :| 0 <= i < |seeds| && seeds[i] == s;
      assert Label(seeds[i]) == name;
    }
  }

  /** Labels of the traced seeds that touched the model. */
  function TouchedBy(seeds: seq<Seed>, m: string): set<string> {
    set i | 0 <= i < |seeds| && seeds[i].traced && m in seeds[i].touched :: Label(seeds[i])
  }

  predicate Whole(e: Edge) {
    e.0 != "" && e.1 != ""
  }

  datatype Weighted = Weighted(edge: Edge, weight: int)

  predicate EdgeLe(a: Edge, b: Edge) {
    if a.0 == b.0 then StrLe(a.1, b.1) else StrLe(a.0, b.0)
  }

  /** Heavier first, then by the two names. */
  predicate WeightedLe(a: Weighted, b: Weighted) {
    a.weight > b.weight || (a.weight == b.weight && EdgeLe(a.edge, b.edge))
  }

  lemma WeightedOrder()
    ensures TotalOrder(WeightedLe)
  {
    StrLeIsTotalOrder();
    assert forall a: Edge, b: Edge :: EdgeLe(a, b) || EdgeLe(b, a);
    assert forall a: Edge, b: Edge :: EdgeLe(a, b) && EdgeLe(b, a) ==> a == b;
    assert forall a: Edge, b: Edge, c: Edge :: EdgeLe(a, b) && EdgeLe(b, c) ==> EdgeLe(a, c);
  }

  // ------------------------------------------------------------------------
  // The loops
  // ------------------------------------------------------------------------

  datatype Tally = Tally(creates: nat, writes: nat, fields: set<string>)

  ghost predicate Tallied(out: map<string, Tally>, events: seq<Event>) {
    out.Keys == Models(events)
    && forall m :: m in out ==> out[m] == Tally(Count(events, m, true), Count(events, m, false), Touches(events, m))
  }

  lemma TallyAt(events: seq<Event>, e: Event, m: string)
    ensures var more := events + [e];
            if ModelOf(e) != m then
              Count(more, m, true) == Count(events, m, true) && Count(more, m, false) == Count(events, m, false)
              && Touches(more, m) == Touches(events, m)
            else
              Count(more, m, true) == Count(events, m, true) + (if e.verb == "create" then 1 else 0)
              && Count(more, m, false) == Count(events, m, false) + (if e.verb == "create" then 0 else 1)
              && Touches(more, m) == Touches(events, m) + Members(e.fields)
  {
    assert [e][0] == e && [e][1..] == [];
    CountConcat(events, [e], m, true);
    CountConcat(events, [e], m, false);
    TouchesConcat(events, [e], m);
    OneTouches(e, m);
  }

  lemma ModelsStep(events: seq<Event>, e: Event)
    ensures Models(events + [e]) == Models(events) + {ModelOf(e)}
  {
    TouchesConcat(events, [e], "");
    assert [e][0] == e;
  }

  function Tallying(was: Tally, e: Event): Tally {
    if e.verb == "create" then Tally(was.creates + 1, was.writes, was.fields + Members(e.fields))
    else Tally(was.creates, was.writes + 1, was.fields + Members(e.fields))
  }

  lemma TallyStep(out: map<string, Tally>, events: seq<Event>, e: Event)
    requires Tallied(out, events)
    ensures Tallied(out[ModelOf(e) := Tallying(if ModelOf(e) in out then out[ModelOf(e)] else Tally(0, 0, {}), e)],
      events + [e])
  {
    ModelsStep(events, e);
    if ModelOf(e) !in out {
      AbsentIsNotCounted(events, ModelOf(e), true);
      AbsentIsNotCounted(events, ModelOf(e), false);
    }
    var out' := out[ModelOf(e) := Tallying(if ModelOf(e) in out then out[ModelOf(e)] else Tally(0, 0, {}), e)];
    forall m | m in out'
      ensures out'[m] == Tally(Count(events + [e], m, true), Count(events + [e], m, false), Touches(events + [e], m))
    {
      TallyAt(events, e, m);
    }
  }

  predicate ItemsSorted(items: Items) {
    forall i, j :: 0 <= i < j < |items| ==> StrLe(items[i].0, items[j].0)
  }

  function Names(items: Items): seq<string> {
    seq(|items|, i requires 0 <= i < |items| => items[i].0)
  }

  lemma NamesAreKeys(items: Items, s: map<string, Rec>)
    requires Lists(items, s) && ItemsSorted(items)
    ensures Distinct(Names(items)) && Sorted(StrLe, Names(items)) && Members(Names(items)) == s.Keys
  {
    var names := Names(items);
    forall m | m in s ensures m in Members(names) {
      assert ListedIn(items, m);
      var i :| 0 <= i < |items| && items[i].0 == m;
      assert names[i] == m;
    }
  }

  /** A summary has one listing in name order. */
  lemma SortedListingUnique(items: Items, items': Items, s: map<string, Rec>)
    requires Lists(items, s) && ItemsSorted(items) && Lists(items', s) && ItemsSorted(items')
    ensures items == items'
  {
    NamesAreKeys(items, s);
    NamesAreKeys(items', s);
    ListingUnique(Names(items), Names(items'));
    assert |items| == |Names(items)| == |Names(items')| == |items'|;
    forall i | 0 <= i < |items| ensures items[i] == items'[i] {
      assert items[i].0 == Names(items)[i] == Names(items')[i] == items'[i].0;
    }
  }

  /** The writes listed in a merged graph are, entry by entry, those listed for the original events of all the traced
      seeds at once. */
  lemma MergedReportIsTheSame(seeds: seq<Seed>, originals: seq<seq<Event>>, merged: Items, direct: Items)
    requires |seeds| == |originals|
    requires forall i :: 0 <= i < |seeds| && seeds[i].traced ==> Lists(seeds[i].writes, Summary(originals[i]))
    requires Lists(merged, Summary(WriteEvents(seeds))) && ItemsSorted(merged)
    requires Lists(direct, Summary(OriginalEvents(seeds, originals))) && ItemsSorted(direct)
    ensures merged == direct
  {
    MergedWritesAreExact(seeds, originals);
    SortedListingUnique(merged, direct, Summary(WriteEvents(seeds)));
  }

  method AggregateWrites(events: seq<Event>) returns (items: Items)
    ensures Lists(items, Summary(events)) && ItemsSorted(items)
  {
    var out: map<string, Tally> := map[];
    for i := 0 to |events|
      invariant Tallied(out, events[..i])
    {
      var e := events[i];
      var m := ModelOf(e);
      var rec := if m in out then out[m] else Tally(0, 0, {});
      assert events[..i + 1] == events[..i] + [e];
      TallyStep(out, events[..i], e);
      out := out[m := Tallying(rec, e)];
    }
    assert events[..|events|] == events;
    items := ReportTallies(out, events);
  }

  method ReportTallies(out: map<string, Tally>, ghost events: seq<Event>) returns (items: Items)
    requires Tallied(out, events)
    ensures Lists(items, Summary(events)) && ItemsSorted(items)
  {
    var names := Listing(out.Keys);
    items := [];
    assert forall i :: 0 <= i < |names| ==> names[i] in Members(names);
    for i := 0 to |names|
      invariant |items| == i
      invariant forall k :: 0 <= k < i ==> items[k] == (names[k], RecOf(events, names[k]))
    {
      var v := out[names[i]];
      items := items + [(names[i], Rec(v.creates, v.writes, Listing(v.fields)))];
    }
    ItemsList(events, names, items);
  }

  lemma ItemsList(events: seq<Event>, names: seq<string>, items: Items)
    requires Distinct(names) && Members(names) == Models(events) && |items| == |names|
    requires forall k :: 0 <= k < |names| ==> items[k] == (names[k], RecOf(events, names[k]))
    ensures Lists(items, Summary(events))
  {
    assert forall i :: 0 <= i < |names| ==> names[i] in Members(names);
    forall m | m in Summary(events) ensures ListedIn(items, m) {
      assert m in Members(names);
      var k :| 0 <= k < |names| && names[k] == m;
      assert items[k].0 == m;
    }
  }

  ghost predicate Counts(c: map<Edge, int>, all: seq<Edge>) {
    forall e :: (e in c <==> Whole(e) && e in all) && (e in c ==> c[e] == multiset(all)[e])
  }

  method CountEdges(c: map<Edge, int>, edges: seq<Edge>, ghost all: seq<Edge>) returns (c': map<Edge, int>)
    requires Counts(c, all)
    ensures Counts(c', all + edges)
  {
    c' := c;
    ghost var done := all;
    for i := 0 to |edges|
      invariant done == all + edges[..i] && Counts(c', done)
    {
      var e := edges[i];
      CountStep(c', done, e);
      if Whole(e) {
        c' := c'[e := (if e in c' then c'[e] else 0) + 1];
      }
      done := done + [e];
    }
    assert done == all + edges;
  }

  lemma CountStep(c: map<Edge, int>, all: seq<Edge>, e: Edge)
    requires Counts(c, all)
    ensures Counts(if Whole(e) then c[e := (if e in c then c[e] else 0) + 1] else c, all + [e])
  {
    var c' := if Whole(e) then c[e := (if e in c then c[e] else 0) + 1] else c;
    forall x ensures (x in c' <==> Whole(x) && x in all + [e]) && (x in c' ==> c'[x] == multiset(all + [e])[x]) {
      assert multiset(all + [e]) == multiset(all) + multiset{e};
      assert x !in all ==> multiset(all)[x] == 0;
    }
  }

  /** Every edge with two endpoints once, with the number of times it occurs, heaviest first. */
  ghost predicate EdgeReport(all: seq<Edge>, report: seq<Weighted>) {
    HeaviestFirst(report) && Distinct(report)
    && forall w :: w in report <==>
         w.edge in all && w.edge.0 != "" && w.edge.1 != "" && w.weight == multiset(all)[w.edge]
  }

  /** By falling weight, then by the name it comes from, then by the name it goes to. */
  ghost predicate HeaviestFirst(report: seq<Weighted>) {
    forall i, j :: 0 <= i < j < |report| ==>
      var a, b := report[i], report[j];
      && a.weight >= b.weight
      && (a.weight == b.weight ==> StrLe(a.edge.0, b.edge.0))
      && (a.weight == b.weight && a.edge.0 == b.edge.0 ==> StrLe(a.edge.1, b.edge.1))
  }

  lemma HeaviestIsSorted(report: seq<Weighted>)
    ensures HeaviestFirst(report) <==> Sorted(WeightedLe, report)
  {
    StrLeIsTotalOrder();
    if Sorted(WeightedLe, report) {
      forall i, j | 0 <= i < j < |report| ensures WeightedLe(report[i], report[j]) {}
    }
  }

  /** The report is a function of the occurrences alone, whatever order they came in. */
  lemma ReportIsUnique(all: seq<Edge>, all': seq<Edge>, r: seq<Weighted>, r': seq<Weighted>)
    requires multiset(all) == multiset(all') && EdgeReport(all, r) && EdgeReport(all', r')
    ensures r == r'
  {
    WeightedOrder();
    HeaviestIsSorted(r);
    HeaviestIsSorted(r');
    forall w ensures multiset(r)[w] == multiset(r')[w] {
      DistinctCount(r, w);
      DistinctCount(r', w);
      assert w.edge in all <==> w.edge in multiset(all);
      assert w.edge in all' <==> w.edge in multiset(all');
    }
    assert multiset(r) == multiset(r');
    SortedUnique(WeightedLe, r, r');
  }

  method SortEdges(c: map<Edge, int>, ghost all: seq<Edge>) returns (report: seq<Weighted>)
    requires Counts(c, all)
    ensures EdgeReport(all, report)
  {
    var keys, items: seq<Weighted> := c.Keys, [];
    while keys != {}
      invariant keys <= c.Keys && Distinct(items)
      invariant forall w: Weighted :: w in items <==> w.edge in c && w.edge !in keys && w.weight == c[w.edge]
      decreases |keys|
    {
      var e :| e in keys;
      items := items + [Weighted(e, c[e])];
      keys := keys - {e};
    }
    WeightedOrder();
    report := Sort(WeightedLe, items);
    SortSorts(WeightedLe, items);
    SortMembers(WeightedLe, items);
    HeaviestIsSorted(report);
    DistinctByMultiset(items, report);
  }

  ghost predicate Touching(touched: map<string, set<string>>, names: seq<string>, title: string,
        r: map<string, set<string>>) {
    (forall m :: m in r <==> m in touched || m in names)
    && forall m :: m in r ==> r[m] == (if m in touched then touched[m] else {}) + (if m in names then {title} else {})
  }

  method AddTouched(touched: map<string, set<string>>, names: seq<string>, title: string)
    returns (r: map<string, set<string>>)
    ensures Touching(touched, names, title, r)
  {
    r := touched;
    for i := 0 to |names|
      invariant Touching(touched, names[..i], title, r)
    {
      var m := names[i];
      r := r[m := (if m in r then r[m] else {}) + {title}];
      assert names[..i + 1] == names[..i] + [m];
    }
    assert names[..|names|] == names;
  }

  datatype Graph = Graph(models: seq<(string, seq<string>)>, edges: seq<Weighted>, appEdges: seq<Weighted>,
    writes: Items)

  /** Every touched model once, in name order, with the sorted labels of the seeds that touched it. */
  ghost predicate ModelReport(seeds: seq<Seed>, report: seq<(string, seq<string>)>) {
    (forall i, j :: 0 <= i < j < |report| ==> report[i].0 != report[j].0 && StrLe(report[i].0, report[j].0))
    && (forall i :: 0 <= i < |report| ==> report[i].1 == Listing(TouchedBy(seeds, report[i].0)))
    && (forall m :: TouchedBy(seeds, m) != {} <==> Reports(report, m))
  }

  ghost predicate Reports(report: seq<(string, seq<string>)>, m: string) {
    exists i :: 0 <= i < |report| && report[i].0 == m
  }

  ghost predicate TouchedMap(touched: map<string, set<string>>, seeds: seq<Seed>) {
    forall m :: (m in touched <==> TouchedBy(seeds, m) != {}) && (m in touched ==> touched[m] == TouchedBy(seeds, m))
  }

  lemma TouchedStep(seeds: seq<Seed>, s: Seed, m: string)
    ensures TouchedBy(seeds + [s], m) == TouchedBy(seeds, m) + if s.traced && m in s.touched then {Label(s)} else {}
  {
    var all := seeds + [s];
    forall x | x in TouchedBy(seeds, m) ensures x in TouchedBy(all, m) {
      var i :| 0 <= i < |seeds| && seeds[i].traced && m in seeds[i].touched && Label(seeds[i]) == x;
      assert all[i] == seeds[i];
    }
    if s.traced && m in s.touched {
      assert all[|seeds|] == s;
    }
  }

  lemma AllReported(touched: map<string, set<string>>, seeds: seq<Seed>, names: seq<string>,
        report: seq<(string, seq<string>)>)
    requires TouchedMap(touched, seeds) && Members(names) == touched.Keys
    requires |report| == |names| && forall k :: 0 <= k < |names| ==> report[k].0 == names[k]
    ensures forall m :: TouchedBy(seeds, m) != {} <==> Reports(report, m)
  {
    forall m ensures TouchedBy(seeds, m) != {} <==> Reports(report, m) {
      assert TouchedBy(seeds, m) != {} <==> m in Members(names);
      assert forall k :: 0 <= k < |names| ==> names[k] in Members(names);
      if m in Members(names) {
        var k :| 0 <= k < |names| && names[k] == m;
        assert report[k].0 == m;
      }
    }
  }

  method ReportModels(touched: map<string, set<string>>, ghost seeds: seq<Seed>)
    returns (report: seq<(string, seq<string>)>)
    requires TouchedMap(touched, seeds)
    ensures ModelReport(seeds, report)
  {
    var names := Listing(touched.Keys);
    report := [];
    assert forall i :: 0 <= i < |names| ==> names[i] in Members(names);
    for i := 0 to |names|
      invariant |report| == i
      invariant forall k :: 0 <= k < i ==> report[k].0 == names[k] && report[k].1 == Listing(TouchedBy(seeds, names[k]))
    {
      report := report + [(names[i], Listing(touched[names[i]]))];
    }
    AllReported(touched, seeds, names, report);
  }

  /** What one more seed adds to the three lists. */
  lemma NextSeed(seeds: seq<Seed>, i: nat)
    requires i < |seeds|
    ensures var s, before, now := seeds[i], seeds[..i], seeds[..i + 1];
            now == before + [s]
            && AllEdges(now, false) == AllEdges(before, false) + (if s.traced then s.modelEdges else [])
            && AllEdges(now, true) == AllEdges(before, true) + (if s.traced then s.appEdges else [])
            && WriteEvents(now) == WriteEvents(before) + if s.traced then Expand(s.writes) else []
  {
    assert seeds[..i + 1][..i] == seeds[..i];
  }

  lemma TouchedNext(seeds: seq<Seed>, s: Seed, touched: map<string, set<string>>, touched': map<string, set<string>>)
    requires TouchedMap(touched, seeds)
    requires if s.traced then Touching(touched, s.touched, Label(s), touched') else touched' == touched
    ensures TouchedMap(touched', seeds + [s])
  {
    forall m
      ensures (m in touched' <==> TouchedBy(seeds + [s], m) != {}) &&
        (m in touched' ==> touched'[m] == TouchedBy(seeds + [s], m))
    {
      TouchedStep(seeds, s, m);
    }
  }

  method MergeSkeletons(seeds: seq<Seed>, available: bool) returns (g: Graph)
    ensures ModelReport(seeds, g.models)
    ensures EdgeReport(AllEdges(seeds, false), g.edges)
    ensures EdgeReport(AllEdges(seeds, true), g.appEdges)
    ensures if available then Lists(g.writes, Summary(WriteEvents(seeds))) && ItemsSorted(g.writes) else g.writes == []
  {
    var touched: map<string, set<string>> := map[];
    var edgeW: map<Edge, int>, appW: map<Edge, int> := map[], map[];
    var events := [];
    for i := 0 to |seeds|
      invariant TouchedMap(touched, seeds[..i])
      invariant Counts(edgeW, AllEdges(seeds[..i], false)) && Counts(appW, AllEdges(seeds[..i], true))
      invariant events == WriteEvents(seeds[..i])
    {
      var s := seeds[i];
      NextSeed(seeds, i);
      ghost var before := touched;
      if s.traced {
        touched := AddTouched(touched, s.touched, Label(s));
        edgeW := CountEdges(edgeW, s.modelEdges, AllEdges(seeds[..i], false));
        appW := CountEdges(appW, s.appEdges, AllEdges(seeds[..i], true));
        var more := ReExpand(s.writes);
        events := events + more;
      }
      TouchedNext(seeds[..i], s, before, touched);
    }
    assert seeds[..|seeds|] == seeds;
    var models := ReportModels(touched, seeds);
    var edges := SortEdges(edgeW, AllEdges(seeds, false));
    var appEdges := SortEdges(appW, AllEdges(seeds, true));
    var writes := [];
    if available {
      writes := AggregateWrites(events);
    }
    g := Graph(models, edges, appEdges, writes);
  }

  method ReExpand(items: Items) returns (events: seq<Event>)
    ensures events == Expand(items)
  {
    events := [];
    for i := 0 to |items|
      invariant events == Expand(items[..i])
    {
      var creates := Repeated(Event(items[i].0, "create", items[i].1.fields), items[i].1.creates);
      var writes := Repeated(Event(items[i].0, "write", items[i].1.fields), items[i].1.writes);
      assert items[..i + 1] == items[..i] + [items[i]];
      ExpandLast(items[..i], items[i]);
      events := events + (creates + writes);
    }
    assert items[..|items|] == items;
  }

  method Repeated(e: Event, n: int) returns (events: seq<Event>)
    ensures events == Repeat(e, n)
  {
    events := [];
    var k := 0;
    while k < n
      invariant 0 <= k && (k <= n || n < 0) && events + Repeat(e, n - k) == Repeat(e, n)
    {
      assert events + Repeat(e, n - k) == (events + [e]) + Repeat(e, n - k - 1);
      events := events + [e];
      k := k + 1;
    }
  }

  lemma {:induction false} ExpandLast(items: Items, item: (string, Rec))
    ensures Expand(items + [item]) == Expand(items) + ExpandOne(item)
  {
    if items == [] {
      assert [item][1..] == [] && ExpandOne(item) + [] == ExpandOne(item);
    } else {
      assert (items + [item])[1..] == items[1..] + [item];
      ExpandLast(items[1..], item);
    }
  }
}
