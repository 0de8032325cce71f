/** What a fixture recipe means in its two modes: the interpreter runs its steps one by one, the generated source is
    parsed and run as a program; both act on the same environment, and agree exactly on the recipes named faithful
    here (fixture_factory.py). */
module FixtureTheorems {
  import opened Orders
  import opened Fixture
  import opened FixtureSource

  // ------------------------------------------------------------------------
  // Running the source that was read back
  // ------------------------------------------------------------------------

  /** Evaluate an expression against the class namespace; `None` raises. */
  function Eval<W>(env: Env<W>, w: W, ns: map<string, Val>, e: Expr): Option<Val>
    decreases e
  {
    match e
    case Var(_) => None
    case Const(v) => Some(v)
    case Neg(x) =>
      (match Eval(env, w, ns, x)
       case Some(Int(i)) => Some(Int(-i))
       case Some(Float(r)) => Some(Float(-r))
       case _ => None)
    case Attr(x, name) =>
      if x == Var("cls") then (if name in ns then Some(ns[name]) else None)
      else
        (match Eval(env, w, ns, x) case None => None case Some(v) => env.attr(w, v, name))
    case Index(x, k) =>
      (match (Eval(env, w, ns, x), Eval(env, w, ns, k))
       case (Some(EnvObj), Some(Str(name))) => Some(Model(name))
       case _ => None)
    case Call(_, _) => None
    case ListE(es) => (match EvalAll(env, w, ns, es) case None => None case Some(vs) => Some(List(vs)))
    case TupleE(es) => (match EvalAll(env, w, ns, es) case None => None case Some(vs) => Some(Tuple(vs)))
    case DictE(pairs) => (match EvalPairs(env, w, ns, pairs) case None => None case Some(vs) => Some(Dict(vs)))
  }

  function EvalAll<W>(env: Env<W>, w: W, ns: map<string, Val>, es: seq<Expr>): Option<seq<Val>>
    decreases es
  {
    if es == [] then Some([])
    else
      match Eval(env, w, ns, es[0])
      case None => None
      case Some(v) =>
        match EvalAll(env, w, ns, es[1..])
        case None => None
        case Some(vs) => Some([v] + vs)
  }

  function EvalPairs<W>(env: Env<W>, w: W, ns: map<string, Val>, pairs: seq<(Expr, Expr)>): Option<seq<Entry>>
    decreases pairs
  {
    if pairs == [] then Some([])
    else
      match EvalPair(env, w, ns, pairs[0])
      case None => None
      case Some(e) =>
        match EvalPairs(env, w, ns, pairs[1..])
        case None => None
        case Some(es) => Some([e] + es)
  }

  function EvalPair<W>(env: Env<W>, w: W, ns: map<string, Val>, p: (Expr, Expr)): Option<Entry>
    decreases p
  {
    match (Eval(env, w, ns, p.0), Eval(env, w, ns, p.1))
    case (Some(k), Some(v)) => Some(Entry(k, v))
    case _ => None
  }

  /** `cls.<ref> = <model>.create(<dict>)` or `cls.<ref> = <target>.<method>()`. */
  function RunStmt<W>(env: Env<W>, w: W, ns: map<string, Val>, s: Stmt): Outcome<W>
  {
    if s.e.Call? && s.e.e.Attr? then
      match Eval(env, w, ns, s.e.e.e)
      case None => Outcome(w, false, ns)
      case Some(target) =>
        if target.Model? && s.e.e.name == "create" && |s.e.args| == 1 then
          match Eval(env, w, ns, s.e.args[0])
          case None => Outcome(w, false, ns)
          case Some(vals) => Bind(env.create(w, target.name, vals), ns, s.ref)
        else if s.e.args == [] then Bind(env.call(w, target, s.e.e.name), ns, s.ref)
        else Outcome(w, false, ns)
    else
      Bind((w, Eval(env, w, ns, s.e)), ns, s.ref)
  }

  function Bind<W>(result: (W, Option<Val>), ns: map<string, Val>, ref: string): Outcome<W> {
    match result.1
    case None => Outcome(result.0, false, ns)
    case Some(v) => Outcome(result.0, true, ns[ref := v])
  }

  function RunProgram<W>(env: Env<W>, w: W, ns: map<string, Val>, ss: seq<Stmt>): Outcome<W>
    decreases ss
  {
    if ss == [] then Outcome(w, true, ns)
    else
      var o := RunStmt(env, w, ns, ss[0]);
      if !o.ok then o else RunProgram(env, o.world, o.bound, ss[1..])
  }

  // ------------------------------------------------------------------------
  // Recipes the generator is meant for
  // ------------------------------------------------------------------------

  /** Attribute names the expression builder chains: identifiers other than its own slot and dunders. */
  predicate Chainable(name: string) {
    IsIdent(name) && name != "expr" && !StartsWith(name, "__")
  }

  /** Plain data whose back-references use chainable attributes and known refs. */
  predicate PlainValue(refs: set<string>, v: Val)
    decreases v
  {
    match v
    case Str(_) => IsRef(v) ==> RefName(v) in refs && forall i :: 0 <= i < |RefAttrs(v)| ==> Chainable(RefAttrs(v)[i])
    case List(items) => forall i :: 0 <= i < |items| ==> PlainValue(refs, items[i])
    case Tuple(items) => forall i :: 0 <= i < |items| ==> PlainValue(refs, items[i])
    case Dict(entries) => forall i :: 0 <= i < |entries| ==> PlainEntry(refs, entries[i])
    case Record(_) => false
    case EnvObj => false
    case Model(_) => false
    case Code(_) => false
    case _ => true
  }

  predicate PlainEntry(refs: set<string>, e: Entry)
    decreases e
  {
    PlainKey(e.key) && PlainValue(refs, e.val)
  }

  predicate PlainKey(k: Val) {
    k.Str? || k.Int? || k.Float? || k.Bool? || k.None_?
  }

  predicate PlainStep(refs: set<string>, step: Step) {
    IsIdent(step.ref) &&
    match step
    case Method(_, m, on) => IsIdent(m) && IsRef(on) && PlainValue(refs, on)
    case Create(_, _, values) => forall i :: 0 <= i < |values| ==> PlainEntry(refs, values[i])
  }

  /** A recipe the generator accepts: distinct refs, none of them already a class attribute. */
  ghost predicate WellFormed(steps: seq<Step>, base: map<string, Val>) {
    && (forall i :: 0 <= i < |steps| ==> PlainStep(Refs(steps), steps[i]))
    && (forall i, j :: 0 <= i < j < |steps| ==> steps[i].ref != steps[j].ref)
    && (forall i :: 0 <= i < |steps| ==> steps[i].ref !in base)
    && "env" in base && base["env"] == EnvObj
  }

  /** The refs a value reads. */
  function Uses(v: Val): set<string>
    decreases v
  {
    match v
    case Str(_) => if IsRef(v) then {RefName(v)} else {}
    case List(items) => UsesAll(items)
    case Tuple(items) => UsesAll(items)
    case Dict(entries) => UsesEntries(entries)
    case _ => {}
  }

  function UsesAll(vs: seq<Val>): set<string>
    decreases vs
  {
    if vs == [] then {} else Uses(vs[0]) + UsesAll(vs[1..])
  }

  function UsesEntries(es: seq<Entry>): set<string>
    decreases es
  {
    if es == [] then {} else UsesEntry(es[0]) + UsesEntries(es[1..])
  }

  function UsesEntry(e: Entry): set<string>
    decreases e
  {
    Uses(e.val)
  }

  function StepUses(step: Step): set<string> {
    match step case Method(_, _, on) => Uses(on) case Create(_, _, values) => UsesEntries(values)
  }

  /** Up to the first step that reads a ref not yet created, both modes agree on every ref. At that
      step the interpreter stops; the generated code stops too exactly when some ref is not bound at
      all yet, and carries on when the only culprits are earlier method steps. */
  predicate Faithful(steps: seq<Step>, created: set<string>, called: set<string>)
    decreases steps
  {
    if steps == [] then true
    else if StepUses(steps[0]) <= created then
      if steps[0].Create? then Faithful(steps[1..], created + {steps[0].ref}, called)
      else Faithful(steps[1..], created, called + {steps[0].ref})
    else !(StepUses(steps[0]) <= created + called)
  }

  // ------------------------------------------------------------------------
  // Resolving and evaluating agree
  // ------------------------------------------------------------------------

  ghost predicate Agree(created: map<string, Val>, ns: map<string, Val>, uses: set<string>) {
    forall r :: r in uses ==> r in created && r in ns && ns[r] == created[r]
  }

  lemma {:induction false} ChainEvaluates<W>(env: Env<W>, w: W, ns: map<string, Val>, e: Expr, names: seq<string>)
    requires e != Var("cls")
    ensures Eval(env, w, ns, AttrChain(e, names)) ==
            (match Eval(env, w, ns, e) case None => None case Some(v) => ReadAttrs(env, w, v, names))
    decreases names
  {
    if names != [] {
      ChainEvaluates(env, w, ns, Attr(e, names[0]), names[1..]);
    }
  }

  lemma {:induction false} AttrsChain(path: seq<string>, names: seq<string>)
    requires forall i :: 0 <= i < |names| ==> Chainable(names[i])
    ensures CodeAttrs(Code(path), names) == Some(Code(path + names))
    decreases names
  {
    if names == [] {
      assert path + names == path;
    } else {
      AttrsChain(path + [names[0]], names[1..]);
      assert path + [names[0]] + names[1..] == path + names;
    }
  }

  lemma ClsChain(ref: string, attrs: seq<string>)
    ensures var path := ["cls", ref] + attrs;
            path[0] == "cls" && AttrChain(Var("cls"), path[1..]) == AttrChain(Attr(Var("cls"), ref), attrs)
  {
    var path := ["cls", ref] + attrs;
    assert path[1..] == [ref] + attrs;
    assert path[1..][1..] == attrs;
  }

  lemma RefRenders(refs: set<string>, v: Val)
    requires IsRef(v) && PlainValue(refs, v) && forall r :: r in refs ==> IsIdent(r)
    ensures CodeResolve(refs, v) == Some(Code(["cls", RefName(v)] + RefAttrs(v)))
    ensures Writable(CodeResolve(refs, v).value)
  {
    AttrsChain(["cls", RefName(v)], RefAttrs(v));
    assert IsIdent("cls");
  }

  lemma RefAgrees<W>(env: Env<W>, w: W, refs: set<string>, ns: map<string, Val>, v: Val)
    requires IsRef(v) && PlainValue(refs, v) && forall r :: r in refs ==> IsIdent(r)
    ensures CodeResolve(refs, v) == Some(Code(["cls", RefName(v)] + RefAttrs(v)))
    ensures Writable(CodeResolve(refs, v).value)
    ensures Eval(env, w, ns, Ast(CodeResolve(refs, v).value)) ==
            if RefName(v) in ns then ReadAttrs(env, w, ns[RefName(v)], RefAttrs(v)) else None
  {
    RefRenders(refs, v);
    ClsChain(RefName(v), RefAttrs(v));
    ChainEvaluates(env, w, ns, Attr(Var("cls"), RefName(v)), RefAttrs(v));
  }

  // ------------------------------------------------------------------------
  // What a back-reference means, told from its text
  // ------------------------------------------------------------------------

  predicate DotFree(s: string) {
    forall i :: 0 <= i < |s| ==> s[i] != '.'
  }

  /** The parts with dots in between. */
  function Join(parts: seq<string>): string {
    if parts == [] then "" else if |parts| == 1 then parts[0] else parts[0] + "." + Join(parts[1..])
  }

  lemma {:induction false} SplitWord(p: string)
    requires DotFree(p)
    ensures SplitDots(p) == [p]
  {
    if p != "" {
      SplitWord(p[1..]);
      assert [p[0]] + p[1..] == p;
    }
  }

  lemma {:induction false} SplitFirst(p: string, s: string)
    requires DotFree(p)
    ensures SplitDots(p + "." + s) == [p] + SplitDots(s)
  {
    var t := p + "." + s;
    if p == "" {
      assert t[1..] == s;
    } else {
      assert t[1..] == p[1..] + "." + s && t[0] == p[0];
      SplitFirst(p[1..], s);
      assert [p[0]] + p[1..] == p;
    }
  }

  lemma {:induction false} SplitJoined(parts: seq<string>)
    requires parts != [] && forall i :: 0 <= i < |parts| ==> DotFree(parts[i])
    ensures SplitDots(Join(parts)) == parts
  {
    if |parts| == 1 {
      SplitWord(parts[0]);
    } else {
      SplitJoined(parts[1..]);
      SplitFirst(parts[0], Join(parts[1..]));
    }
  }

  /** The text `@<name>` or `@<name>.<attr>. ... .<attr>`. */
  function RefText(name: string, attrs: seq<string>): Val {
    Str("@" + if attrs == [] then name else name + "." + Join(attrs))
  }

  lemma RefTextParts(name: string, attrs: seq<string>)
    requires DotFree(name) && (forall i :: 0 <= i < |attrs| ==> DotFree(attrs[i])) && attrs != [""]
    ensures IsRef(RefText(name, attrs)) && RefName(RefText(name, attrs)) == name
    ensures RefAttrs(RefText(name, attrs)) == attrs
  {
    var v := RefText(name, attrs);
    var rest := if attrs == [] then name else name + "." + Join(attrs);
    assert v.s[1..] == rest;
    if attrs == [] {
      SplitWord(name);
    } else {
      SplitJoined(attrs);
      SplitFirst(name, Join(attrs));
    }
  }

  /** A back-reference with any attributes, in both modes: the interpreter reads the attributes one after the other off
      the record the name is bound to, the generator chains them onto the expression for the name; an unknown name
      raises. A trailing dot reads nothing, and a text without the sign stands for itself. */
  lemma RefResolves<W>(env: Env<W>, w: W, refs: set<string>, created: map<string, Val>, name: string,
                       attrs: seq<string>)
    requires DotFree(name) && (forall i :: 0 <= i < |attrs| ==> DotFree(attrs[i])) && attrs != [""]
    ensures Resolve(env, w, created, RefText(name, attrs)) ==
            if name in created then ReadAttrs(env, w, created[name], attrs) else None
    ensures CodeResolve(refs, RefText(name, attrs)) ==
            if name in refs then CodeAttrs(Code(["cls", name]), attrs) else None
  {
    RefTextParts(name, attrs);
  }

  lemma OtherTextResolves<W>(env: Env<W>, w: W, refs: set<string>, created: map<string, Val>, name: string, s: string)
    requires DotFree(name) && (s == "" || s[0] != '@')
    ensures Resolve(env, w, created, Str(s)) == Some(Str(s)) && CodeResolve(refs, Str(s)) == Some(Str(s))
    ensures Resolve(env, w, created, Str("@" + name + ".")) == Resolve(env, w, created, Str("@" + name))
    ensures CodeResolve(refs, Str("@" + name + ".")) == CodeResolve(refs, Str("@" + name))
  {
    var v, bare := Str("@" + name + "."), Str("@" + name);
    SplitWord(name);
    SplitFirst(name, "");
    assert v.s[1..] == name + "." + "" && bare.s[1..] == name;
    assert RefName(v) == name && RefAttrs(v) == [] && RefName(bare) == name && RefAttrs(bare) == [];
  }

  /** Attributes are read off one after the other. */
  lemma {:induction false} ReadInTurn<W>(env: Env<W>, w: W, v: Val, names: seq<string>, last: string)
    ensures ReadAttrs(env, w, v, names + [last]) ==
            match ReadAttrs(env, w, v, names) case None => None case Some(x) => env.attr(w, x, last)
    decreases names
  {
    if names == [] {
      assert ([last])[1..] == [];
    } else {
      assert (names + [last])[1..] == names[1..] + [last];
      var x := env.attr(w, v, names[0]);
      if x.Some? { ReadInTurn(env, w, x.value, names[1..], last); }
    }
  }

  /** In generated code, a reference to any step of the recipe, whatever kind and wherever it comes, renders as
      `cls.<name>.<attr>. ... .<attr>` and evaluates to those attributes of what the class holds under that name. */
  lemma RefEvaluates<W>(env: Env<W>, w: W, steps: seq<Step>, ns: map<string, Val>, name: string, attrs: seq<string>)
    requires (forall i :: 0 <= i < |attrs| ==> Chainable(attrs[i])) && IsIdent(name)
    ensures CodeResolve(Refs(steps), RefText(name, attrs)) ==
            if exists k :: 0 <= k < |steps| && steps[k].ref == name then Some(Code(["cls", name] + attrs)) else None
    ensures Writable(Code(["cls", name] + attrs))
    ensures Literal(Code(["cls", name] + attrs)) == [Name("cls"), Dot, Name(name)] + DotNames(attrs)
    ensures Eval(env, w, ns, Ast(Code(["cls", name] + attrs))) ==
            if name in ns then ReadAttrs(env, w, ns[name], attrs) else None
  {
    IdentsAreDotFree(name, attrs);
    RefResolves(env, w, Refs(steps), ns, name, attrs);
    AttrsChain(["cls", name], attrs);
    ChainRenders(name, attrs);
    ClsChain(name, attrs);
    ChainEvaluates(env, w, ns, Attr(Var("cls"), name), attrs);
  }

  lemma ChainRenders(name: string, attrs: seq<string>)
    requires (forall i :: 0 <= i < |attrs| ==> Chainable(attrs[i])) && IsIdent(name)
    ensures Writable(Code(["cls", name] + attrs))
    ensures Literal(Code(["cls", name] + attrs)) == [Name("cls"), Dot, Name(name)] + DotNames(attrs)
  {
    var path := ["cls", name] + attrs;
    ClsAndName(name);
    ChainableAreIdents(attrs);
    IdentsConcat(["cls", name], attrs);
    assert path != [] && Idents(path);
    ChainLiteral(name, attrs);
  }

  lemma ClsAndName(name: string)
    requires IsIdent(name)
    ensures Idents(["cls", name])
  {
    assert IsIdent("cls");
  }

  lemma ChainableAreIdents(attrs: seq<string>)
    requires forall i :: 0 <= i < |attrs| ==> Chainable(attrs[i])
    ensures Idents(attrs)
  {
    forall i | 0 <= i < |attrs| ensures IsIdent(attrs[i]) { assert Chainable(attrs[i]); }
  }

  lemma IdentsConcat(a: seq<string>, b: seq<string>)
    requires Idents(a) && Idents(b)
    ensures Idents(a + b)
  {
  }

  lemma ChainLiteral(name: string, attrs: seq<string>)
    ensures Literal(Code(["cls", name] + attrs)) == [Name("cls"), Dot, Name(name)] + DotNames(attrs)
  {
    var path := ["cls", name] + attrs;
    assert path[1..] == [name] + attrs && path[1..][1..] == attrs;
  }

  lemma IdentsAreDotFree(name: string, attrs: seq<string>)
    requires (forall i :: 0 <= i < |attrs| ==> Chainable(attrs[i])) && IsIdent(name)
    ensures DotFree(name) && (forall i :: 0 <= i < |attrs| ==> DotFree(attrs[i])) && attrs != [""]
  {
    forall i | 0 <= i < |attrs| ensures DotFree(attrs[i]) {
      assert Chainable(attrs[i]);
    }
    assert |attrs| == 1 ==> Chainable(attrs[0]);
  }

  /** The name begins with two underscores. */
  predicate IsDunder(name: string) {
    |name| > 1 && name[0] == '_' && name[1] == '_'
  }

  lemma DunderStarts(name: string)
    ensures IsDunder(name) <==> StartsWith(name, "__")
  {
    if |name| > 1 { assert name[..2] == [name[0], name[1]]; }
  }

  /** Only chainable attributes render as a chain: an attribute with a dunder name raises, and `expr` gives the text. */
  lemma {:induction false} OnlyChainsRender(path: seq<string>, names: seq<string>, k: nat)
    requires k < |names| && (forall i :: 0 <= i < k ==> names[i] != "expr" && !IsDunder(names[i]))
    ensures IsDunder(names[k]) ==> CodeAttrs(Code(path), names) == None
    ensures names[k] == "expr" && k == |names| - 1 ==>
              CodeAttrs(Code(path), names) == Some(Str(Join(path + names[..k])))
    decreases names
  {
    DunderStarts(names[0]);
    if k > 0 {
      OnlyChainsRender(path + [names[0]], names[1..], k - 1);
      assert path + [names[0]] + names[1..][..k - 1] == path + names[..k];
    } else {
      assert path + names[..0] == path;
      DottedIsJoined(path);
      assert "expr"[..2][0] == 'e' && "__"[0] == '_';
      assert |names| == 1 ==> names[1..] == [];
    }
  }

  lemma {:induction false} DottedIsJoined(path: seq<string>)
    ensures Dotted(path) == Join(path)
  {
    if |path| > 1 { DottedIsJoined(path[1..]); }
  }

  // ------------------------------------------------------------------------
  // What the interpreter binds
  // ------------------------------------------------------------------------

  /** A record some create returned, whose id and display name could be read right then. */
  ghost predicate Described<W(!new)>(env: Env<W>, rec: Val) {
    exists w, model, vals :: CreatedWith(env, w, model, vals, rec)
  }

  predicate CreatedWith<W>(env: Env<W>, w: W, model: string, vals: Val, rec: Val) {
    var (w', r) := env.create(w, model, vals);
    r == Some(rec) && env.attr(w', rec, "id").Some? && env.attr(w', rec, "display_name").Some?
  }

  function CreateRefs(steps: seq<Step>): set<string> {
    set s | s in steps && s.Create? :: s.ref
  }

  /** A run that succeeds binds exactly the create steps' refs; whatever a run binds is a created record that has an id
      and a display name. Method steps bind nothing. */
  lemma {:induction false} OnlyRecordsAreBound<W(!new)>(env: Env<W>, w: W, created: map<string, Val>, steps: seq<Step>)
    ensures var o := ExecRun(env, w, created, steps);
            && (o.ok ==> o.bound.Keys == created.Keys + CreateRefs(steps))
            && (forall r :: r in o.bound ==> (r in created && o.bound[r] == created[r]) || Described(env, o.bound[r]))
    decreases steps
  {
    if steps != [] {
      var o := ExecStep(env, w, created, steps[0]);
      OneStepBinds(env, w, created, steps[0]);
      if o.ok {
        OnlyRecordsAreBound(env, o.world, o.bound, steps[1..]);
        assert forall s :: s in steps <==> s == steps[0] || s in steps[1..];
        assert CreateRefs(steps) == CreateRefs([steps[0]]) + CreateRefs(steps[1..]);
      }
    }
  }

  lemma OneStepBinds<W(!new)>(env: Env<W>, w: W, created: map<string, Val>, step: Step)
    ensures var o := ExecStep(env, w, created, step);
            && (o.ok ==> o.bound.Keys == created.Keys + CreateRefs([step]))
            && (forall r :: r in o.bound ==> (r in created && o.bound[r] == created[r]) || Described(env, o.bound[r]))
  {
    var o := ExecStep(env, w, created, step);
    assert step in [step] && CreateRefs([step]) == if step.Create? then {step.ref} else {};
    if o.ok && step.Create? {
      var vals := Dict(ResolveEntries(env, w, created, step.values).value);
      assert CreatedWith(env, w, step.model, vals, o.bound[step.ref]);
    }
  }

  /** The two ways of computing a value: agreement where the bindings agree, and failure
      where a ref is missing. `x` is the interpreter's result, `y` the generated code's. */
  ghost predicate SameResult<T(!new)>(created: map<string, Val>, ns: map<string, Val>, uses: set<string>,
                                      x: Option<T>, y: Option<T>)
  {
    && (Agree(created, ns, uses) ==> x == y)
    && (!(uses <= created.Keys) ==> x == None)
    && (!(uses <= ns.Keys) ==> y == None)
  }

  lemma {:induction false} ValueAgrees<W>(env: Env<W>, w: W, refs: set<string>, created: map<string, Val>,
        ns: map<string, Val>, v: Val)
    requires PlainValue(refs, v) && forall r :: r in refs ==> IsIdent(r)
    ensures CodeResolve(refs, v).Some? && Writable(CodeResolve(refs, v).value) && Uses(v) <= refs
    ensures SameResult(created, ns, Uses(v), Resolve(env, w, created, v),
      Eval(env, w, ns, Ast(CodeResolve(refs, v).value)))
    decreases v, 0
  {
    match v {
      case Str(_) => if IsRef(v) { RefAgrees(env, w, refs, ns, v); }
      case List(items) => AllAgree(env, w, refs, created, ns, items);
      case Tuple(items) => AllAgree(env, w, refs, created, ns, items);
      case Dict(entries) => EntriesAgree(env, w, refs, created, ns, entries);
      case _ =>
    }
  }

  lemma {:induction false} AllAgree<W>(env: Env<W>, w: W, refs: set<string>, created: map<string, Val>,
        ns: map<string, Val>, vs: seq<Val>)
    requires (forall i :: 0 <= i < |vs| ==> PlainValue(refs, vs[i])) && forall r :: r in refs ==> IsIdent(r)
    ensures CodeResolveAll(refs, vs).Some? &&
      (forall i :: 0 <= i < |CodeResolveAll(refs, vs).value| ==> Writable(CodeResolveAll(refs, vs).value[i]))
    ensures UsesAll(vs) <= refs
    ensures SameResult(created, ns, UsesAll(vs), ResolveAll(env, w, created, vs),
                       EvalAll(env, w, ns, Asts(CodeResolveAll(refs, vs).value)))
    decreases vs, 1
  {
    if vs != [] {
      ValueAgrees(env, w, refs, created, ns, vs[0]);
      AllAgree(env, w, refs, created, ns, vs[1..]);
      var cs := CodeResolveAll(refs, vs).value;
      assert cs[0] == CodeResolve(refs, vs[0]).value && cs[1..] == CodeResolveAll(refs, vs[1..]).value;
      var es := Asts(cs);
      assert es[0] == Ast(cs[0]) && es[1..] == Asts(cs[1..]);
    }
  }

  lemma {:induction false} EntryAgrees<W>(env: Env<W>, w: W, refs: set<string>, created: map<string, Val>,
        ns: map<string, Val>, e: Entry)
    requires PlainEntry(refs, e) && forall r :: r in refs ==> IsIdent(r)
    ensures CodeResolveEntry(refs, e).Some? && WritableEntry(CodeResolveEntry(refs, e).value)
    ensures UsesEntry(e) <= refs
    ensures SameResult(created, ns, UsesEntry(e), ResolveEntry(env, w, created, e),
                       EvalPair(env, w, ns, AstEntry(CodeResolveEntry(refs, e).value)))
    decreases e, 0
  {
    ValueAgrees(env, w, refs, created, ns, e.val);
    KeyEvaluates(env, w, ns, e.key);
  }

  lemma KeyEvaluates<W>(env: Env<W>, w: W, ns: map<string, Val>, k: Val)
    requires PlainKey(k)
    ensures Eval(env, w, ns, Ast(k)) == Some(k)
  {
    match k {
      case Int(i) => assert i < 0 ==> Eval(env, w, ns, Const(Int(-i))) == Some(Int(-i));
      case Float(r) => assert r < 0.0 ==> Eval(env, w, ns, Const(Float(-r))) == Some(Float(-r));
      case _ =>
    }
  }

  lemma {:induction false} EntriesAgree<W>(env: Env<W>, w: W, refs: set<string>, created: map<string, Val>,
        ns: map<string, Val>, es: seq<Entry>)
    requires (forall i :: 0 <= i < |es| ==> PlainEntry(refs, es[i])) && forall r :: r in refs ==> IsIdent(r)
    ensures CodeResolveEntries(refs, es).Some?
    ensures forall i :: 0 <= i < |CodeResolveEntries(refs, es).value| ==>
      WritableEntry(CodeResolveEntries(refs, es).value[i])
    ensures UsesEntries(es) <= refs
    ensures SameResult(created, ns, UsesEntries(es), ResolveEntries(env, w, created, es),
                       EvalPairs(env, w, ns, AstEntries(CodeResolveEntries(refs, es).value)))
    decreases es, 1
  {
    if es != [] {
      EntryAgrees(env, w, refs, created, ns, es[0]);
      EntriesAgree(env, w, refs, created, ns, es[1..]);
      var cs := CodeResolveEntries(refs, es).value;
      assert cs[0] == CodeResolveEntry(refs, es[0]).value && cs[1..] == CodeResolveEntries(refs, es[1..]).value;
      var ps := AstEntries(cs);
      assert ps[0] == AstEntry(cs[0]) && ps[1..] == AstEntries(cs[1..]);
    }
  }

  // ------------------------------------------------------------------------
  // One rendered statement
  // ------------------------------------------------------------------------

  function ModelExpr(model: string): Expr {
    Index(Attr(Var("cls"), "env"), Const(Str(model)))
  }

  /** The statement a step renders to. */
  function AstStep(refs: set<string>, step: Step): Stmt
    requires match step
             case Method(_, _, on) => CodeResolve(refs, on).Some?
             case Create(_, _, values) => CodeResolveEntries(refs, values).Some?
  {
    match step
    case Method(ref, m, on) => Stmt(ref, Call(Attr(Ast(CodeResolve(refs, on).value), m), []))
    case Create(ref, model, values) =>
      Stmt(ref, Call(Attr(ModelExpr(model), "create"), [DictE(AstEntries(CodeResolveEntries(refs, values).value))]))
  }

  lemma DotStep(e: Expr, name: string, rest: seq<Token>)
    requires IsIdent(name)
    ensures ParseTrailers(e, [Dot, Name(name)] + rest) == ParseTrailers(Attr(e, name), rest)
  {
    assert ([Dot, Name(name)] + rest)[2..] == rest;
  }

  lemma IndexStep(e: Expr, s: string, rest: seq<Token>)
    ensures ParseTrailers(e, [LBrk, StrTok(s), RBrk] + rest) == ParseTrailers(Index(e, Const(Str(s))), rest)
  {
    assert ([LBrk, StrTok(s), RBrk] + rest)[1..] == [StrTok(s)] + ([RBrk] + rest);
    OneTokenParses(Str(s), [RBrk] + rest);
    assert ([RBrk] + rest)[1..] == rest;
  }

  lemma EmptyCallStep(e: Expr, rest: seq<Token>)
    ensures ParseTrailers(e, [LPar, RPar] + rest) == ParseTrailers(Call(e, []), rest)
  {
    assert ([LPar, RPar] + rest)[1..] == [RPar] + rest;
    assert ([RPar] + rest)[1..] == rest;
    assert ParseItems([RPar] + rest, RPar) == Ok(([], false), rest);
  }

  lemma CallParses(e: Expr, m: string, rest: seq<Token>)
    requires IsIdent(m)
    ensures ParseTrailers(e, [Dot, Name(m), LPar, RPar, Newline] + rest) == Ok(Call(Attr(e, m), []), [Newline] + rest)
  {
    CallShape(m, rest);
    DotStep(e, m, [LPar, RPar] + ([Newline] + rest));
    EmptyCallStep(Attr(e, m), [Newline] + rest);
  }

  lemma CallShape(m: string, rest: seq<Token>)
    ensures [Dot, Name(m), LPar, RPar, Newline] + rest == [Dot, Name(m)] + ([LPar, RPar] + ([Newline] + rest))
  {
  }

  lemma MethodParses(path: seq<string>, ref: string, m: string, rest: seq<Token>)
    requires path != [] && Idents(path) && IsIdent(ref) && IsIdent(m)
    ensures ParseStmt([Name("cls"), Dot, Name(ref), Assign] + Literal(Code(path)) +
      [Dot, Name(m), LPar, RPar, Newline] + rest)
            == Ok(Stmt(ref, Call(Attr(Ast(Code(path)), m), [])), rest)
  {
    var tail := [Dot, Name(m), LPar, RPar, Newline] + rest;
    var ts := [Name("cls"), Dot, Name(ref), Assign] + Literal(Code(path)) + [Dot, Name(m), LPar, RPar, Newline] + rest;
    assert ts[4..] == Literal(Code(path)) + tail;
    PathParses(path, tail);
    CallParses(Ast(Code(path)), m, rest);
    assert ([Newline] + rest)[1..] == rest;
  }

  /** The single dict argument of a `create` call. */
  lemma ArgumentParses(e: Expr, es: seq<Entry>, rest: seq<Token>)
    requires forall i :: 0 <= i < |es| ==> WritableEntry(es[i])
    ensures ParseTrailers(e, [LPar] + ([LBrc] + (LineEntries(es) + [RBrc] + ([RPar, Newline] + rest))))
            == Ok(Call(e, [DictE(AstEntries(es))]), [Newline] + rest)
  {
    var after := [RPar, Newline] + rest;
    var body := LineEntries(es) + [RBrc] + after;
    LinesParse(es, after);
    DictParses(body, AstEntries(es), after);
    OneArgument(e, DictE(AstEntries(es)), [LBrc] + body, rest);
  }

  lemma OneArgument(e: Expr, d: Expr, ts: seq<Token>, rest: seq<Token>)
    requires Starts(ts) && ParseExpr(ts) == Ok(d, [RPar, Newline] + rest)
    ensures ParseTrailers(e, [LPar] + ts) == Ok(Call(e, [d]), [Newline] + rest)
  {
    assert [RPar, Newline] + rest == [RPar] + ([Newline] + rest);
    ItemsClose(d, ts, RPar, false, [Newline] + rest);
    assert ([LPar] + ts)[1..] == ts;
  }

  lemma LineParses(ref: string, ts: seq<Token>, e: Expr, rest: seq<Token>)
    requires |ts| > 4 && ts[0] == Name("cls") && ts[1] == Dot && ts[2] == Name(ref) && ts[3] == Assign && IsIdent(ref)
    requires ParseExpr(ts[4..]) == Ok(e, [Newline] + rest)
    ensures ParseStmt(ts) == Ok(Stmt(ref, e), rest)
  {
    assert ([Newline] + rest)[1..] == rest;
  }

  lemma ModelParses(model: string, rest: seq<Token>)
    ensures ParseExpr([Name("cls")] +
      ([Dot, Name("env")] + ([LBrk, StrTok(model), RBrk] + ([Dot, Name("create")] + rest))))
            == ParseTrailers(Attr(ModelExpr(model), "create"), rest)
  {
    assert IsIdent("cls") && IsIdent("env") && IsIdent("create");
    var t1 := [Dot, Name("env")] + ([LBrk, StrTok(model), RBrk] + ([Dot, Name("create")] + rest));
    assert ([Name("cls")] + t1)[1..] == t1;
    DotStep(Var("cls"), "env", [LBrk, StrTok(model), RBrk] + ([Dot, Name("create")] + rest));
    IndexStep(Attr(Var("cls"), "env"), model, [Dot, Name("create")] + rest);
    DotStep(ModelExpr(model), "create", rest);
  }

  function CreateLine(ref: string, model: string, body: seq<Token>): seq<Token> {
    [Name("cls"), Dot, Name(ref), Assign]
    + [Name("cls"), Dot, Name("env"), LBrk, StrTok(model), RBrk, Dot, Name("create"), LPar, LBrc]
    + body + [RBrc, RPar, Newline]
  }

  lemma CreateShape(ref: string, model: string, body: seq<Token>, rest: seq<Token>)
    ensures var ts := CreateLine(ref, model, body) + rest;
            && |ts| > 4 && ts[0] == Name("cls") && ts[1] == Dot && ts[2] == Name(ref) && ts[3] == Assign
            && ts[4..] == [Name("cls")] + ([Dot, Name("env")] + ([LBrk, StrTok(model), RBrk] + ([Dot, Name("create")]
                          + ([LPar] + ([LBrc] + (body + [RBrc] + ([RPar, Newline] + rest)))))))
  { }

  lemma CreateParses(ref: string, model: string, es: seq<Entry>, rest: seq<Token>)
    requires IsIdent(ref) && forall i :: 0 <= i < |es| ==> WritableEntry(es[i])
    ensures ParseStmt(CreateLine(ref, model, LineEntries(es)) + rest)
            == Ok(Stmt(ref, Call(Attr(ModelExpr(model), "create"), [DictE(AstEntries(es))])), rest)
  {
    var tail := [LPar] + ([LBrc] + (LineEntries(es) + [RBrc] + ([RPar, Newline] + rest)));
    CreateShape(ref, model, LineEntries(es), rest);
    ModelParses(model, tail);
    ArgumentParses(Attr(ModelExpr(model), "create"), es, rest);
    LineParses(ref, CreateLine(ref, model, LineEntries(es)) + rest,
               Call(Attr(ModelExpr(model), "create"), [DictE(AstEntries(es))]), rest);
  }

  /** Each step renders, and its line reads back as its statement. */
  lemma StepParses(refs: set<string>, step: Step, rest: seq<Token>)
    requires PlainStep(refs, step) && forall r :: r in refs ==> IsIdent(r)
    ensures RenderStep(refs, step).Some?
    ensures ParseStmt(RenderStep(refs, step).value + rest) == Ok(AstStep(refs, step), rest)
  {
    var env: Env<int> := Env((w, m, v) => (w, None), (w, v, m) => (w, None), (w, v, a) => None);
    match step {
      case Method(ref, m, on) =>
        RefAgrees(env, 0, refs, map[], on);
        MethodParses(CodeResolve(refs, on).value.path, ref, m, rest);
      case Create(ref, model, values) =>
        EntriesAgree(env, 0, refs, map[], map[], values);
        CreateParses(ref, model, CodeResolveEntries(refs, values).value, rest);
    }
  }

  // ------------------------------------------------------------------------
  // Whole recipes
  // ------------------------------------------------------------------------

  function AstSteps(refs: set<string>, steps: seq<Step>): seq<Stmt>
    requires forall i :: 0 <= i < |steps| ==> RenderStep(refs, steps[i]).Some?
  {
    if steps == [] then []
    else
      assert RenderStep(refs, steps[0]).Some?;
      [AstStep(refs, steps[0])] + AstSteps(refs, steps[1..])
  }

  lemma {:induction false} ProgramParses(refs: set<string>, steps: seq<Step>)
    requires (forall i :: 0 <= i < |steps| ==> PlainStep(refs, steps[i])) && forall r :: r in refs ==> IsIdent(r)
    ensures forall i :: 0 <= i < |steps| ==> RenderStep(refs, steps[i]).Some?
    ensures RenderSteps(refs, steps).Some? &&
      ParseProgram(RenderSteps(refs, steps).value) == Some(AstSteps(refs, steps))
  {
    if steps != [] {
      ProgramParses(refs, steps[1..]);
      var rest := RenderSteps(refs, steps[1..]).value;
      StepParses(refs, steps[0], rest);
      forall i | 0 <= i < |steps| ensures RenderStep(refs, steps[i]).Some? {
        if i > 0 { assert steps[i] == steps[1..][i - 1]; }
      }
    }
  }

  /** Same world, same success; a create binds the same record in both, a method result only in code. */
  ghost predicate SameStep<W(!new)>(o: Outcome<W>, p: Outcome<W>, created: map<string, Val>, ns: map<string, Val>,
        step: Step)
  {
    && o.world == p.world && o.ok == p.ok
    && (o.ok ==>
          && step.ref in p.bound && p.bound == ns[step.ref := p.bound[step.ref]]
          && o.bound == if step.Create? then created[step.ref := p.bound[step.ref]] else created)
  }

  /** One step in both modes: the same outcome where the bindings agree, and none where a ref is missing. */
  ghost predicate StepsAgree<W(!new)>(env: Env<W>, w: W, refs: set<string>, created: map<string, Val>,
        ns: map<string, Val>, step: Step)
    requires PlainStep(refs, step) && RenderStep(refs, step).Some?
  {
    var o, p := ExecStep(env, w, created, step), RunStmt(env, w, ns, AstStep(refs, step));
    && StepUses(step) <= refs
    && (Agree(created, ns, StepUses(step)) ==> SameStep(o, p, created, ns, step))
    && (!(StepUses(step) <= created.Keys) ==> o == Outcome(w, false, created))
    && (!(StepUses(step) <= ns.Keys) ==> p == Outcome(w, false, ns))
  }

  lemma MethodAgrees<W(!new)>(env: Env<W>, w: W, refs: set<string>, created: map<string, Val>, ns: map<string, Val>,
        step: Step)
    requires PlainStep(refs, step) && (forall r :: r in refs ==> IsIdent(r)) && Describes(env)
    requires "env" in ns && ns["env"] == EnvObj && RenderStep(refs, step).Some? && step.Method?
    ensures StepsAgree(env, w, refs, created, ns, step)
  {
    ValueAgrees(env, w, refs, created, ns, step.on);
  }

  lemma CreateAgrees<W(!new)>(env: Env<W>, w: W, refs: set<string>, created: map<string, Val>, ns: map<string, Val>,
        step: Step)
    requires PlainStep(refs, step) && (forall r :: r in refs ==> IsIdent(r)) && Describes(env)
    requires "env" in ns && ns["env"] == EnvObj && RenderStep(refs, step).Some? && step.Create?
    ensures StepsAgree(env, w, refs, created, ns, step)
  {
    EntriesAgree(env, w, refs, created, ns, step.values);
    assert Eval(env, w, ns, ModelExpr(step.model)) == Some(Model(step.model));
  }

  lemma StepAgrees<W(!new)>(env: Env<W>, w: W, refs: set<string>, created: map<string, Val>, ns: map<string, Val>,
        step: Step)
    requires PlainStep(refs, step) && (forall r :: r in refs ==> IsIdent(r)) && Describes(env)
    requires "env" in ns && ns["env"] == EnvObj && RenderStep(refs, step).Some?
    ensures StepsAgree(env, w, refs, created, ns, step)
  {
    if step.Method? { MethodAgrees(env, w, refs, created, ns, step); }
    else { CreateAgrees(env, w, refs, created, ns, step); }
  }

  /** Where the two runs stand between steps: creates are bound alike, earlier method results are
      bound only in the generated class, and nothing else is. */
  ghost predicate InStep(refs: set<string>, created: map<string, Val>, ns: map<string, Val>, called: set<string>,
        steps: seq<Step>)
  {
    && (forall r :: r in refs ==> IsIdent(r))
    && (forall i :: 0 <= i < |steps| ==> PlainStep(refs, steps[i]) && RenderStep(refs, steps[i]).Some?)
    && (forall i, j :: 0 <= i < j < |steps| ==> steps[i].ref != steps[j].ref)
    && (forall i :: 0 <= i < |steps| ==> steps[i].ref in refs && steps[i].ref !in ns)
    && "env" in ns && ns["env"] == EnvObj && "env" !in refs
    && (forall r :: r in created ==> r in ns && ns[r] == created[r])
    && (forall r :: r in refs ==> (r in ns <==> r in created || r in called))
  }

  lemma InStepNext(refs: set<string>, created: map<string, Val>, ns: map<string, Val>, called: set<string>,
        steps: seq<Step>, v: Val)
    requires InStep(refs, created, ns, called, steps) && steps != []
    ensures var s := steps[0];
            InStep(refs, if s.Create? then created[s.ref := v] else created, ns[s.ref := v],
                   if s.Create? then called else called + {s.ref}, steps[1..])
  { }

  lemma {:induction false} RunsAgree<W(!new)>(env: Env<W>, w: W, refs: set<string>, created: map<string, Val>,
        ns: map<string, Val>,
                                              called: set<string>, steps: seq<Step>)
    requires InStep(refs, created, ns, called, steps) && Describes(env)
    requires Faithful(steps, created.Keys, called)
    ensures var o, p := ExecRun(env, w, created, steps), RunProgram(env, w, ns, AstSteps(refs, steps));
            o.world == p.world && o.ok == p.ok
    decreases steps
  {
    if steps != [] {
      StepAgrees(env, w, refs, created, ns, steps[0]);
      var o, p := ExecStep(env, w, created, steps[0]), RunStmt(env, w, ns, AstStep(refs, steps[0]));
      if StepUses(steps[0]) <= created.Keys {
        assert SameStep(o, p, created, ns, steps[0]);
        if o.ok {
          var v := p.bound[steps[0].ref];
          InStepNext(refs, created, ns, called, steps, v);
          assert o.bound.Keys == if steps[0].Create? then created.Keys + {steps[0].ref} else created.Keys;
          RunsAgree(env, o.world, refs, o.bound, p.bound,
            if steps[0].Create? then called else called + {steps[0].ref}, steps[1..]);
        }
      } else {
        var r :| r in StepUses(steps[0]) && r !in created.Keys + called;
        assert r !in ns;
      }
    }
  }

  /** For every environment: the rendered source parses, and running it performs the same creates
      and calls with the same arguments, ending in the same world and succeeding alike. */
  lemma CodeRunsAsExec<W(!new)>(env: Env<W>, w: W, base: map<string, Val>, steps: seq<Step>)
    requires WellFormed(steps, base) && Faithful(steps, {}, {}) && Describes(env)
    ensures RenderSteps(Refs(steps), steps).Some?
    ensures ParseProgram(RenderSteps(Refs(steps), steps).value).Some?
    ensures var program := ParseProgram(RenderSteps(Refs(steps), steps).value).value;
            var o, p := ExecRun(env, w, map[], steps), RunProgram(env, w, base, program);
            o.world == p.world && o.ok == p.ok
  {
    Begins(base, steps);
    var none: map<string, Val> := map[];
    assert none.Keys == {};
    RunsAgree(env, w, Refs(steps), none, base, {}, steps);
  }

  lemma Begins(base: map<string, Val>, steps: seq<Step>)
    requires WellFormed(steps, base)
    ensures InStep(Refs(steps), map[], base, {}, steps)
    ensures RenderSteps(Refs(steps), steps).Some?
    ensures ParseProgram(RenderSteps(Refs(steps), steps).value) == Some(AstSteps(Refs(steps), steps))
  {
    var refs := Refs(steps);
    forall r | r in refs ensures IsIdent(r) && r !in base {
      var i :| 0 <= i < |steps| && steps[i].ref == r;
      assert PlainStep(refs, steps[i]);
    }
    ProgramParses(refs, steps);
  }

  // ------------------------------------------------------------------------
  // The whole file
  // ------------------------------------------------------------------------

  lemma SelfAttr(name: string, rest: seq<Token>)
    requires IsIdent(name)
    ensures ParseExpr([Name("self"), Dot, Name(name)] + rest) == ParseTrailers(Attr(Var("self"), name), rest)
  {
    var ts := [Name("self"), Dot, Name(name)] + rest;
    assert IsIdent("self");
    assert ts[1..] == [Dot, Name(name)] + rest;
    DotStep(Var("self"), name, rest);
  }

  /** The test's line around what it asserts. */
  lemma TestLineShape(last: Option<string>)
    ensures var inner := [Name("self"), Dot, Name(if last.Some? then last.value else "None")] + [RPar, Newline];
            TestLine(last) == [Name("self"), Dot, Name("assertTrue")] + ([LPar] + inner)
  {
  }

  lemma TestLineParses(ref: string)
    requires IsIdent(ref)
    ensures ParseExpr(TestLine(Some(ref))) ==
      Ok(Call(Attr(Var("self"), "assertTrue"), [Attr(Var("self"), ref)]), [Newline])
  {
    var inner := [Name("self"), Dot, Name(ref)] + [RPar, Newline];
    TestLineShape(Some(ref));
    AssertTrueStep([LPar] + inner);
    SelfAttr(ref, [RPar, Newline]);
    LastArgument(Attr(Var("self"), "assertTrue"), Attr(Var("self"), ref), inner);
  }

  lemma AssertTrueStep(rest: seq<Token>)
    ensures ParseExpr([Name("self"), Dot, Name("assertTrue")] + rest) ==
      ParseTrailers(Attr(Var("self"), "assertTrue"), rest)
  {
    assert IsIdent("assertTrue");
    SelfAttr("assertTrue", rest);
  }

  lemma LastArgument(e: Expr, d: Expr, ts: seq<Token>)
    requires Starts(ts) && ParseExpr(ts) == Ok(d, [RPar, Newline])
    ensures ParseTrailers(e, [LPar] + ts) == Ok(Call(e, [d]), [Newline])
  {
    assert [RPar, Newline] == [RPar, Newline] + [] && [Newline] + [] == [Newline];
    OneArgument(e, d, ts, []);
  }

  /** `self.None` is not an expression. */
  lemma NoneIsNoAttribute()
    ensures ParseExpr([Name("self"), Dot, Name("None"), RPar, Newline]) == Fail
  {
    var ts := [Name("self"), Dot, Name("None"), RPar, Newline];
    assert IsIdent("self") && !IsIdent("None");
    assert ts[1..] == [Dot, Name("None"), RPar, Newline];
    assert ParseTrailers(Var("self"), ts[1..]) == Fail;
  }

  lemma TestLineFails()
    ensures ParseExpr(TestLine(None)) == Fail
  {
    var inner := [Name("self"), Dot, Name("None")] + [RPar, Newline];
    TestLineShape(None);
    AssertTrueStep([LPar] + inner);
    NoneIsNoAttribute();
    assert inner == [Name("self"), Dot, Name("None"), RPar, Newline];
    NoArgument(Attr(Var("self"), "assertTrue"), inner);
  }

  lemma NoArgument(e: Expr, ts: seq<Token>)
    requires Starts(ts) && ParseExpr(ts) == Fail
    ensures ParseTrailers(e, [LPar] + ts) == Fail
  {
    assert ([LPar] + ts)[1..] == ts;
    assert ParseItems(ts, RPar) == Fail;
  }

  lemma TestLineParsesFor(last: Option<string>)
    requires last.Some? ==> IsIdent(last.value)
    ensures var p := ParseExpr(TestLine(last)); (p.Ok? <==> last.Some?) && (p.Ok? ==> p.rest == [Newline])
  {
    if last.Some? { TestLineParses(last.value); } else { TestLineFails(); }
  }

  ghost predicate HasCreate(steps: seq<Step>) {
    exists i :: 0 <= i < |steps| && steps[i].Create?
  }

  lemma {:induction false} LastCreateIsCreate(steps: seq<Step>)
    ensures LastCreate(steps).Some? <==> HasCreate(steps)
    ensures LastCreate(steps).Some? ==> exists i :: 0 <= i < |steps| && steps[i].ref == LastCreate(steps).value
  {
    if steps != [] {
      var n := |steps| - 1;
      LastCreateIsCreate(steps[..n]);
      if !steps[n].Create? {
        if i :| 0 <= i < |steps| && steps[i].Create? { assert steps[..n][i].Create?; }
        if LastCreate(steps[..n]).Some? {
          var i :| 0 <= i < n && steps[..n][i].Create?;
          assert steps[i].Create?;
          var j :| 0 <= j < n && steps[..n][j].ref == LastCreate(steps[..n]).value;
          assert steps[j].ref == LastCreate(steps).value;
        }
      }
    }
  }

  /** The create step after which no other comes. */
  predicate LastCreateAt(steps: seq<Step>, k: int) {
    0 <= k < |steps| && steps[k].Create? && forall j :: k < j < |steps| ==> !steps[j].Create?
  }

  lemma {:induction false} LastCreateIsLast(steps: seq<Step>, k: int)
    requires LastCreateAt(steps, k)
    ensures LastCreate(steps) == Some(steps[k].ref)
  {
    var n := |steps| - 1;
    if k < n {
      LastCreateIsLast(steps[..n], k);
    }
  }

  lemma TestLineParsesIff(steps: seq<Step>)
    requires forall i :: 0 <= i < |steps| ==> IsIdent(steps[i].ref)
    ensures var p := ParseExpr(TestLine(LastCreate(steps)));
            (p.Ok? <==> HasCreate(steps)) && (p.Ok? ==> p.rest == [Newline])
  {
    LastCreateIsCreate(steps);
    TestLineParsesFor(LastCreate(steps));
  }

  lemma TestAsserts(steps: seq<Step>, k: int)
    requires LastCreateAt(steps, k) && IsIdent(steps[k].ref)
    ensures ParseExpr(TestLine(LastCreate(steps))) == Ok(AssertsRef(steps[k].ref), [Newline])
  {
    LastCreateIsLast(steps, k);
    TestLineParses(steps[k].ref);
  }

  /** `self.assertTrue(self.<ref>)`. */
  function AssertsRef(ref: string): Expr {
    Call(Attr(Var("self"), "assertTrue"), [Attr(Var("self"), ref)])
  }

  /** The file generated for a well-formed recipe compiles exactly when some step creates a record, and then its test
      asserts the record of the last step that does. */
  lemma FileParsesIff(base: map<string, Val>, steps: seq<Step>)
    requires WellFormed(steps, base)
    ensures FileOf(steps).Some?
    ensures ParseFile(FileOf(steps).value).Some? <==> HasCreate(steps)
    ensures ParseFile(FileOf(steps).value).Some? ==>
              Some(ParseFile(FileOf(steps).value).value.0) == ParseProgram(RenderSteps(Refs(steps), steps).value)
    ensures forall k :: LastCreateAt(steps, k) ==>
              ParseFile(FileOf(steps).value).Some? && ParseFile(FileOf(steps).value).value.1 == AssertsRef(steps[k].ref)
  {
    Begins(base, steps);
    forall i | 0 <= i < |steps| ensures IsIdent(steps[i].ref) {
      assert PlainStep(Refs(steps), steps[i]);
    }
    TestLineParsesIff(steps);
    SourceParsesIff(RenderSteps(Refs(steps), steps).value, TestLine(LastCreate(steps)));
    forall k | LastCreateAt(steps, k)
      ensures ParseExpr(TestLine(LastCreate(steps))) == Ok(AssertsRef(steps[k].ref), [Newline])
    {
      TestAsserts(steps, k);
    }
  }

  lemma SourceParsesIff(body: seq<Token>, test: seq<Token>)
    requires ParseProgram(body).Some? && (ParseExpr(test).Ok? ==> ParseExpr(test).rest == [Newline])
    ensures var file := ParseFile(Source(body, test));
            (file.Some? <==> ParseExpr(test).Ok?)
            && (file.Some? ==> Some(file.value.0) == ParseProgram(body) && file.value.1 == ParseExpr(test).value)
  {
  }

  /** So a file that compiles sets its class up exactly as the interpreter runs the recipe. */
  lemma FileRunsAsExec<W(!new)>(env: Env<W>, w: W, base: map<string, Val>, steps: seq<Step>)
    requires WellFormed(steps, base) && Faithful(steps, {}, {}) && Describes(env)
    requires HasCreate(steps)
    ensures FileOf(steps).Some? && ParseFile(FileOf(steps).value).Some?
    ensures var program := ParseFile(FileOf(steps).value).value.0;
            var o, p := ExecRun(env, w, map[], steps), RunProgram(env, w, base, program);
            o.world == p.world && o.ok == p.ok
  {
    FileParsesIff(base, steps);
    CodeRunsAsExec(env, w, base, steps);
  }

  // ------------------------------------------------------------------------
  // The condition is exact
  // ------------------------------------------------------------------------

  /** An environment in which everything succeeds and the world counts creates and calls. */
  function Counting(): Env<int> {
    Env((w, model, vals) => (w + 1, Some(Record(w))), (w, target, m) => (w + 1, Some(Record(w))),
      (w, v, name) => Some(v))
  }

  lemma {:induction false} ReadsSucceed(w: int, v: Val, names: seq<string>)
    ensures ReadAttrs(Counting(), w, v, names).Some?
  {
    if names != [] {
      ReadsSucceed(w, v, names[1..]);
    }
  }

  lemma {:induction false} ResolveSucceeds(w: int, created: map<string, Val>, v: Val)
    requires Uses(v) <= created.Keys
    ensures Resolve(Counting(), w, created, v).Some?
    decreases v, 0
  {
    match v {
      case Str(_) => if IsRef(v) { ReadsSucceed(w, created[RefName(v)], RefAttrs(v)); }
      case List(items) => ResolveAllSucceeds(w, created, items);
      case Tuple(items) => ResolveAllSucceeds(w, created, items);
      case Dict(entries) => ResolveEntriesSucceeds(w, created, entries);
      case _ =>
    }
  }

  lemma {:induction false} ResolveAllSucceeds(w: int, created: map<string, Val>, vs: seq<Val>)
    requires UsesAll(vs) <= created.Keys
    ensures ResolveAll(Counting(), w, created, vs).Some?
    decreases vs, 1
  {
    if vs != [] {
      ResolveSucceeds(w, created, vs[0]);
      ResolveAllSucceeds(w, created, vs[1..]);
    }
  }

  lemma {:induction false} ResolveEntrySucceeds(w: int, created: map<string, Val>, e: Entry)
    requires UsesEntry(e) <= created.Keys
    ensures ResolveEntry(Counting(), w, created, e).Some?
    decreases e, 0
  {
    ResolveSucceeds(w, created, e.val);
  }

  lemma {:induction false} ResolveEntriesSucceeds(w: int, created: map<string, Val>, es: seq<Entry>)
    requires UsesEntries(es) <= created.Keys
    ensures ResolveEntries(Counting(), w, created, es).Some?
    decreases es, 1
  {
    if es != [] {
      ResolveEntrySucceeds(w, created, es[0]);
      ResolveEntriesSucceeds(w, created, es[1..]);
    }
  }

  /** Everything a step needs is in reach of the given bindings, so its statement runs. */
  lemma StatementSucceeds(w: int, refs: set<string>, ns: map<string, Val>, step: Step)
    requires PlainStep(refs, step) && (forall r :: r in refs ==> IsIdent(r))
    requires "env" in ns && ns["env"] == EnvObj && RenderStep(refs, step).Some? && StepUses(step) <= ns.Keys
    ensures var p := RunStmt(Counting(), w, ns, AstStep(refs, step));
            p.ok && p.world == w + 1 && p.bound == ns[step.ref := Record(w)]
    ensures ExecStep(Counting(), w, ns, step).ok && ExecStep(Counting(), w, ns, step).world == w + 1
  {
    assert Agree(ns, ns, StepUses(step));
    StepAgrees(Counting(), w, refs, ns, ns, step);
    match step {
      case Method(_, _, on) => ResolveSucceeds(w, ns, on);
      case Create(_, _, values) => ResolveEntriesSucceeds(w, ns, values);
    }
  }

  lemma {:induction false} CountingGrows(w: int, ns: map<string, Val>, ss: seq<Stmt>)
    ensures RunProgram(Counting(), w, ns, ss).world >= w
    decreases ss
  {
    if ss != [] {
      var p := RunStmt(Counting(), w, ns, ss[0]);
      assert p.world >= w;
      if p.ok {
        CountingGrows(p.world, p.bound, ss[1..]);
      }
    }
  }

  lemma {:induction false} RunsDiverge(w: int, refs: set<string>, created: map<string, Val>, ns: map<string, Val>,
                                       called: set<string>, steps: seq<Step>)
    requires InStep(refs, created, ns, called, steps) && !Faithful(steps, created.Keys, called)
    requires called <= ns.Keys
    ensures ExecRun(Counting(), w, created, steps).world < RunProgram(Counting(), w, ns, AstSteps(refs, steps)).world
    decreases steps
  {
    UnfaithfulNext(steps, created.Keys, called);
    var s := steps[0];
    if StepUses(s) <= created.Keys {
      var created' := if s.Create? then created[s.ref := Record(w)] else created;
      var called' := if s.Create? then called else called + {s.ref};
      var ns' := ns[s.ref := Record(w)];
      BothGoOn(w, refs, created, ns, called, steps, created', ns', called');
      assert created'.Keys == if s.Create? then created.Keys + {s.ref} else created.Keys;
      RunsDiverge(w + 1, refs, created', ns', called', steps[1..]);
      assert ExecRun(Counting(), w, created, steps).world == ExecRun(Counting(), w + 1, created', steps[1..]).world;
      assert ExecRun(Counting(), w, created, steps).world < RunProgram(Counting(), w, ns, AstSteps(refs, steps)).world;
    } else {
      UsesAreBound(refs, created, ns, called, s);
      InterpreterStops(w, refs, created, ns, called, steps);
      assert ExecRun(Counting(), w, created, steps).world < RunProgram(Counting(), w, ns, AstSteps(refs, steps)).world;
    }
  }

  lemma UnfaithfulNext(steps: seq<Step>, created: set<string>, called: set<string>)
    requires !Faithful(steps, created, called)
    ensures steps != []
    ensures var s := steps[0];
            if StepUses(s) <= created then
              !Faithful(steps[1..], if s.Create? then created + {s.ref} else created,
                if s.Create? then called else called + {s.ref})
            else StepUses(s) <= created + called
  {
  }

  lemma UsesAreBound(refs: set<string>, created: map<string, Val>, ns: map<string, Val>, called: set<string>, s: Step)
    requires StepUses(s) <= created.Keys + called && called <= ns.Keys && forall r :: r in created ==> r in ns
    ensures StepUses(s) <= ns.Keys
  {
  }

  /** Where the interpreter has every record a step reads, both modes carry the step out. */
  lemma BothGoOn(w: int, refs: set<string>, created: map<string, Val>, ns: map<string, Val>, called: set<string>,
        steps: seq<Step>, created': map<string, Val>, ns': map<string, Val>, called': set<string>)
    requires InStep(refs, created, ns, called, steps) && steps != [] && StepUses(steps[0]) <= created.Keys
    requires created' == if steps[0].Create? then created[steps[0].ref := Record(w)] else created
    requires ns' == ns[steps[0].ref := Record(w)]
    requires called' == if steps[0].Create? then called else called + {steps[0].ref}
    ensures InStep(refs, created', ns', called', steps[1..])
    ensures ExecRun(Counting(), w, created, steps).world == ExecRun(Counting(), w + 1, created', steps[1..]).world
    ensures RunProgram(Counting(), w, ns, AstSteps(refs, steps)).world ==
            RunProgram(Counting(), w + 1, ns', AstSteps(refs, steps[1..])).world
  {
    var s := steps[0];
    assert Agree(created, ns, StepUses(s));
    StepAgrees(Counting(), w, refs, created, ns, s);
    StatementSucceeds(w, refs, ns, s);
    InStepNext(refs, created, ns, called, steps, Record(w));
  }

  /** The interpreter stops at a step that reads a ref it has no record for; the program carries it out. */
  lemma InterpreterStops(w: int, refs: set<string>, created: map<string, Val>, ns: map<string, Val>,
                         called: set<string>, steps: seq<Step>)
    requires InStep(refs, created, ns, called, steps) && steps != []
    requires !(StepUses(steps[0]) <= created.Keys) && StepUses(steps[0]) <= ns.Keys
    ensures ExecRun(Counting(), w, created, steps).world == w
    ensures RunProgram(Counting(), w, ns, AstSteps(refs, steps)).world > w
  {
    var s := steps[0];
    StepAgrees(Counting(), w, refs, created, ns, s);
    StatementSucceeds(w, refs, ns, s);
    CountingGrows(w + 1, RunStmt(Counting(), w, ns, AstStep(refs, s)).bound, AstSteps(refs, steps[1..]));
  }

  /** A well-formed recipe that is not faithful really does differ: in an environment where nothing
      fails, the interpreter stops at a step the generated code carries out. */
  lemma UnfaithfulDiverges(base: map<string, Val>, steps: seq<Step>)
    requires WellFormed(steps, base) && !Faithful(steps, {}, {})
    ensures RenderSteps(Refs(steps), steps).Some?
    ensures ParseProgram(RenderSteps(Refs(steps), steps).value).Some?
    ensures var program := ParseProgram(RenderSteps(Refs(steps), steps).value).value;
            ExecRun(Counting(), 0, map[], steps).world < RunProgram(Counting(), 0, base, program).world
    ensures Describes(Counting())
  {
    Begins(base, steps);
    var none: map<string, Val> := map[];
    assert none.Keys == {};
    RunsDiverge(0, Refs(steps), none, base, {}, steps);
  }

  /** Such a recipe: a record, a call on it, and a second record that is given the call's result. */
  function UsesACallResult(): seq<Step> {
    [Create("a", "m", []), Method("b", "run", Str("@a")), Create("c", "m", [Entry(Str("x"), Str("@b"))])]
  }

  lemma OneName(c: char)
    requires c != '.'
    ensures SplitDots([c]) == [[c]]
  {
    var rest := SplitDots("");
    assert [c][1..] == "" && rest[1..] == [] && [c] + rest[0] == [c];
  }

  lemma PlainRef(c: char)
    requires c != '.'
    ensures var v := Str(['@', c]); IsRef(v) && RefName(v) == [c] && RefAttrs(v) == [] && Uses(v) == {[c]}
  {
    assert ['@', c][1..] == [c];
    OneName(c);
  }

  lemma LastStepIsUnfaithful()
    ensures !Faithful(UsesACallResult()[2..], {"a"}, {"b"})
  {
    PlainRef('b');
    var values := [Entry(Str("x"), Str("@b"))];
    assert values[1..] == [] && UsesEntries(values) == UsesEntry(values[0]) == {"b"};
    assert UsesACallResult()[2..][0] == UsesACallResult()[2];
  }

  lemma CallsAreUnfaithful()
    ensures !Faithful(UsesACallResult(), {}, {})
  {
    var steps := UsesACallResult();
    LastStepIsUnfaithful();
    PlainRef('a');
    assert steps[1..][0] == steps[1] && steps[1..][1..] == steps[2..];
    assert {} + {"b"} == {"b"} && {} + {"a"} == {"a"};
    assert !Faithful(steps[1..], {"a"}, {});
  }

  lemma CallsArePlain(refs: set<string>)
    requires refs == {"a", "b", "c"}
    ensures forall i :: 0 <= i < |UsesACallResult()| ==> PlainStep(refs, UsesACallResult()[i])
  {
    PlainRef('a');
    PlainRef('b');
  }

  lemma RefsOfCalls()
    ensures Refs(UsesACallResult()) == {"a", "b", "c"}
  {
    var steps := UsesACallResult();
    assert steps[0] in steps && steps[1] in steps && steps[2] in steps;
    assert steps[0].ref == "a" && steps[1].ref == "b" && steps[2].ref == "c";
  }

  lemma UsesACallResultIsUnfaithful(base: map<string, Val>)
    requires base == map["env" := EnvObj]
    ensures WellFormed(UsesACallResult(), base) && !Faithful(UsesACallResult(), {}, {})
  {
    CallsAreUnfaithful();
    RefsOfCalls();
    CallsArePlain({"a", "b", "c"});
  }
}
