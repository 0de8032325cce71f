/** Fixture recipes of fixture_factory.py: one recipe is run directly (EXEC) and rendered as Python (CODE). */
module Fixture {
  import opened Orders

  /** Recipe and run-time values. A recipe holds only plain ones; running it adds records, the
      environment and its models, rendering adds source expressions. Dicts keep insertion order. */
  datatype Val =
    | Str(s: string) | Int(i: int) | Float(r: real) | Bool(b: bool) | None_
    | List(items: seq<Val>) | Tuple(items: seq<Val>) | Dict(entries: seq<Entry>)
    | Record(id: int) | EnvObj | Model(name: string)
    | Code(path: seq<string>)

  datatype Entry = Entry(key: Val, val: Val)

  datatype Step =
    | Create(ref: string, model: string, values: seq<Entry>)
    | Method(ref: string, method_: string, on: Val)

  // ------------------------------------------------------------------------
  // Back-references
  // ------------------------------------------------------------------------

  function SplitDots(s: string): (parts: seq<string>)
    ensures parts != []
  {
    if s == "" then [""]
    else
      var rest := SplitDots(s[1..]);
      if s[0] == '.' then [""] + rest else [[s[0]] + rest[0]] + rest[1..]
  }

  predicate IsRef(v: Val) {
    v.Str? && v.s != "" && v.s[0] == '@'
  }

  function RefName(v: Val): string
    requires IsRef(v)
  {
    SplitDots(v.s[1..])[0]
  }

  /** Attributes after the first dot; a bare trailing dot reads nothing. */
  function RefAttrs(v: Val): seq<string>
    requires IsRef(v)
  {
    var attrs := SplitDots(v.s[1..])[1..];
    if attrs == [""] then [] else attrs
  }

  // ------------------------------------------------------------------------
  // EXEC: resolving and running against an abstract environment
  // ------------------------------------------------------------------------

  /** What the environment does; `None` raises. Creating and calling change the world, also
      when they raise; reading an attribute does not. */
  datatype Env<!W> = Env(
    create: (W, string, Val) -> (W, Option<Val>),
    call: (W, Val, string) -> (W, Option<Val>),
    attr: (W, Val, string) -> Option<Val>)

  /** A freshly created record has an id and a display name. */
  ghost predicate Describes<W(!new)>(env: Env<W>) {
    forall w: W, model, vals ::
      var (w', rec) := env.create(w, model, vals);
      rec.Some? ==> env.attr(w', rec.value, "id").Some? && env.attr(w', rec.value, "display_name").Some?
  }

  function ReadAttrs<W>(env: Env<W>, w: W, v: Val, names: seq<string>): Option<Val>
    decreases names
  {
    if names == [] then Some(v)
    else
      match env.attr(w, v, names[0])
      case None => None
      case Some(x) => ReadAttrs(env, w, x, names[1..])
  }

  function Resolve<W>(env: Env<W>, w: W, created: map<string, Val>, v: Val): Option<Val>
    decreases v
  {
    match v
    case Str(_) =>
      if !IsRef(v) then Some(v)
      else if RefName(v) !in created then None
      else ReadAttrs(env, w, created[RefName(v)], RefAttrs(v))
    case List(items) =>
      (match ResolveAll(env, w, created, items) case None => None case Some(xs) => Some(List(xs)))
    case Tuple(items) =>
      (match ResolveAll(env, w, created, items) case None => None case Some(xs) => Some(Tuple(xs)))
    case Dict(entries) =>
      (match ResolveEntries(env, w, created, entries) case None => None case Some(xs) => Some(Dict(xs)))
    case _ => Some(v)
  }

  function ResolveAll<W>(env: Env<W>, w: W, created: map<string, Val>, vs: seq<Val>): Option<seq<Val>>
    decreases vs
  {
    if vs == [] then Some([])
    else
      match Resolve(env, w, created, vs[0])
      case None => None
      case Some(x) =>
        match ResolveAll(env, w, created, vs[1..])
        case None => None
        case Some(xs) => Some([x] + xs)
  }

  function ResolveEntries<W>(env: Env<W>, w: W, created: map<string, Val>, es: seq<Entry>): Option<seq<Entry>>
    decreases es
  {
    if es == [] then Some([])
    else
      match ResolveEntry(env, w, created, es[0])
      case None => None
      case Some(x) =>
        match ResolveEntries(env, w, created, es[1..])
        case None => None
        case Some(xs) => Some([x] + xs)
  }

  function ResolveEntry<W>(env: Env<W>, w: W, created: map<string, Val>, e: Entry): Option<Entry>
    decreases e
  {
    match Resolve(env, w, created, e.val) case None => None case Some(x) => Some(Entry(e.key, x))
  }

  /** The world afterwards, whether everything succeeded, and the bindings made. */
  datatype Outcome<W> = Outcome(world: W, ok: bool, bound: map<string, Val>)

  function ExecStep<W>(env: Env<W>, w: W, created: map<string, Val>, step: Step): Outcome<W>
  {
    match step
    case Method(ref, m, on) =>
      (match Resolve(env, w, created, on)
       case None => Outcome(w, false, created)
       case Some(target) =>
         var (w', result) := env.call(w, target, m);
         Outcome(w', result.Some?, created))
    case Create(ref, model, values) =>
      (match ResolveEntries(env, w, created, values)
       case None => Outcome(w, false, created)
       case Some(vals) =>
         var (w', rec) := env.create(w, model, Dict(vals));
         if rec.None? || env.attr(w', rec.value, "id").None? || env.attr(w', rec.value, "display_name").None?
         then Outcome(w', false, created)
         else Outcome(w', true, created[ref := rec.value]))
  }

  function ExecRun<W>(env: Env<W>, w: W, created: map<string, Val>, steps: seq<Step>): Outcome<W>
    decreases steps
  {
    if steps == [] then Outcome(w, true, created)
    else
      var o := ExecStep(env, w, created, steps[0]);
      if !o.ok then o else ExecRun(env, o.world, o.bound, steps[1..])
  }

  // ------------------------------------------------------------------------
  // CODE: rendering to Python tokens
  // ------------------------------------------------------------------------

  datatype Token =
    | Name(n: string) | StrTok(s: string) | IntTok(i: nat) | FloatTok(r: real)
    | Dot | Comma | Colon | LPar | RPar | LBrk | RBrk | LBrc | RBrc | Minus | Assign | Newline
    | Opaque

  function StartsWith(s: string, p: string): bool {
    |p| <= |s| && s[..|p|] == p
  }

  /** `_CodeRef.__getattr__` chains the expression; `expr` is the slot itself and dunders raise. */
  function CodeAttr(v: Val, name: string): Option<Val> {
    if !v.Code? || StartsWith(name, "__") then None
    else if name == "expr" then Some(Str(Dotted(v.path)))
    else Some(Code(v.path + [name]))
  }

  function Dotted(path: seq<string>): string {
    if path == [] then "" else if |path| == 1 then path[0] else path[0] + "." + Dotted(path[1..])
  }

  function CodeAttrs(v: Val, names: seq<string>): Option<Val>
    decreases names
  {
    if names == [] then Some(v)
    else
      match CodeAttr(v, names[0])
      case None => None
      case Some(x) => CodeAttrs(x, names[1..])
  }

  /** Every step's ref stands for `cls.<ref>`, whatever kind of step it is and wherever it comes. */
  function CodeResolve(refs: set<string>, v: Val): Option<Val>
    decreases v
  {
    match v
    case Str(_) =>
      if !IsRef(v) then Some(v)
      else if RefName(v) !in refs then None
      else CodeAttrs(Code(["cls", RefName(v)]), RefAttrs(v))
    case List(items) =>
      (match CodeResolveAll(refs, items) case None => None case Some(xs) => Some(List(xs)))
    case Tuple(items) =>
      (match CodeResolveAll(refs, items) case None => None case Some(xs) => Some(Tuple(xs)))
    case Dict(entries) =>
      (match CodeResolveEntries(refs, entries) case None => None case Some(xs) => Some(Dict(xs)))
    case _ => Some(v)
  }

  function CodeResolveAll(refs: set<string>, vs: seq<Val>): Option<seq<Val>>
    decreases vs
  {
    if vs == [] then Some([])
    else
      match CodeResolve(refs, vs[0])
      case None => None
      case Some(x) =>
        match CodeResolveAll(refs, vs[1..])
        case None => None
        case Some(xs) => Some([x] + xs)
  }

  function CodeResolveEntries(refs: set<string>, es: seq<Entry>): Option<seq<Entry>>
    decreases es
  {
    if es == [] then Some([])
    else
      match CodeResolveEntry(refs, es[0])
      case None => None
      case Some(x) =>
        match CodeResolveEntries(refs, es[1..])
        case None => None
        case Some(xs) => Some([x] + xs)
  }

  function CodeResolveEntry(refs: set<string>, e: Entry): Option<Entry>
    decreases e
  {
    match CodeResolve(refs, e.val) case None => None case Some(x) => Some(Entry(e.key, x))
  }

  function DotNames(names: seq<string>): seq<Token> {
    if names == [] then [] else [Dot, Name(names[0])] + DotNames(names[1..])
  }

  /** A value as Python source: `_py_literal`, including `(x,)` for a one-element tuple. */
  function Literal(v: Val): seq<Token>
    decreases v
  {
    match v
    case Str(s) => [StrTok(s)]
    case Int(i) => if i < 0 then [Minus, IntTok(-i)] else [IntTok(i)]
    case Float(r) => if r < 0.0 then [Minus, FloatTok(-r)] else [FloatTok(r)]
    case Bool(b) => [Name(if b then "True" else "False")]
    case None_ => [Name("None")]
    case List(items) => [LBrk] + Literals(items) + [RBrk]
    case Tuple(items) => [LPar] + Literals(items) + (if |items| == 1 then [Comma] else []) + [RPar]
    case Dict(entries) => [LBrc] + LiteralEntries(entries) + [RBrc]
    case Code(path) => if path == [] then [Opaque] else [Name(path[0])] + DotNames(path[1..])
    case _ => [Opaque]
  }

  function Literals(vs: seq<Val>): seq<Token>
    decreases vs
  {
    if vs == [] then []
    else if |vs| == 1 then Literal(vs[0])
    else Literal(vs[0]) + [Comma] + Literals(vs[1..])
  }

  function LiteralEntries(es: seq<Entry>): seq<Token>
    decreases es
  {
    if es == [] then []
    else if |es| == 1 then LiteralEntry(es[0])
    else LiteralEntry(es[0]) + [Comma] + LiteralEntries(es[1..])
  }

  function LiteralEntry(e: Entry): seq<Token>
    decreases e
  {
    Literal(e.key) + [Colon] + Literal(e.val)
  }

  /** Entries of a `create` call: one line each, every line with its comma. */
  function LineEntries(es: seq<Entry>): seq<Token>
  {
    if es == [] then [] else LiteralEntry(es[0]) + [Comma] + LineEntries(es[1..])
  }

  function RenderStep(refs: set<string>, step: Step): Option<seq<Token>>
  {
    var target := [Name("cls"), Dot, Name(step.ref), Assign];
    match step
    case Method(ref, m, on) =>
      (match CodeResolve(refs, on)
       case None => None
       case Some(t) => Some(target + Literal(t) + [Dot, Name(m), LPar, RPar, Newline]))
    case Create(ref, model, values) =>
      (match CodeResolveEntries(refs, values)
       case None => None
       case Some(vals) =>
         Some(target + [Name("cls"), Dot, Name("env"), LBrk, StrTok(model), RBrk, Dot, Name("create"), LPar, LBrc]
              + LineEntries(vals) + [RBrc, RPar, Newline]))
  }

  function RenderSteps(refs: set<string>, steps: seq<Step>): Option<seq<Token>>
  {
    if steps == [] then Some([])
    else
      match RenderStep(refs, steps[0])
      case None => None
      case Some(line) =>
        match RenderSteps(refs, steps[1..])
        case None => None
        case Some(lines) => Some(line + lines)
  }

  function Refs(steps: seq<Step>): set<string> {
    set s | s in steps :: s.ref
  }

  // ------------------------------------------------------------------------
  // Reading the rendered source back: the Python expression grammar it uses
  // ------------------------------------------------------------------------

  datatype Expr =
    | Var(name: string) | Const(v: Val) | Neg(e: Expr)
    | Attr(e: Expr, name: string) | Index(e: Expr, k: Expr) | Call(e: Expr, args: seq<Expr>)
    | ListE(es: seq<Expr>) | TupleE(es: seq<Expr>) | DictE(pairs: seq<(Expr, Expr)>)

  const KEYWORDS: set<string> := {
    "False", "None", "True", "and", "as", "assert", "async", "await", "break", "class", "continue", "def", "del",
    "elif", "else", "except", "finally", "for", "from", "global", "if", "import", "in", "is", "lambda", "nonlocal",
    "not", "or", "pass", "raise", "return", "try", "while", "with", "yield"
  }

  predicate NameChar(c: char) {
    'a' <= c <= 'z' || 'A' <= c <= 'Z' || c == '_' || '0' <= c <= '9'
  }

  predicate IsIdent(n: string) {
    n != "" && !('0' <= n[0] <= '9') && (forall i :: 0 <= i < |n| ==> NameChar(n[i])) && n !in KEYWORDS
  }

  datatype Parsed<T> = Fail | Ok(value: T, rest: seq<Token>)

  function ParseExpr(ts: seq<Token>): (p: Parsed<Expr>)
    ensures p.Ok? ==> |p.rest| < |ts|
    decreases |ts|, 3
  {
    if ts != [] && ts[0] == Minus then
      match ParseExpr(ts[1..])
      case Fail => Fail
      case Ok(e, rest) => Ok(Neg(e), rest)
    else
      match ParsePrimary(ts)
      case Fail => Fail
      case Ok(e, rest) => ParseTrailers(e, rest)
  }

  function ParsePrimary(ts: seq<Token>): (p: Parsed<Expr>)
    ensures p.Ok? ==> |p.rest| < |ts|
    decreases |ts|, 2
  {
    if ts == [] then Fail
    else
      match ts[0]
      case Name(n) =>
        if n == "True" then Ok(Const(Bool(true)), ts[1..])
        else if n == "False" then Ok(Const(Bool(false)), ts[1..])
        else if n == "None" then Ok(Const(None_), ts[1..])
        else if IsIdent(n) then Ok(Var(n), ts[1..]) else Fail
      case StrTok(s) => Ok(Const(Str(s)), ts[1..])
      case IntTok(i) => Ok(Const(Int(i)), ts[1..])
      case FloatTok(r) => Ok(Const(Float(r)), ts[1..])
      case LBrk =>
        (match ParseItems(ts[1..], RBrk)
         case Fail => Fail
         case Ok((es, _), rest) => Ok(ListE(es), rest))
      case LPar =>
        (match ParseItems(ts[1..], RPar)
         case Fail => Fail
         case Ok((es, trailing), rest) => Ok(if |es| == 1 && !trailing then es[0] else TupleE(es), rest))
      case LBrc =>
        (match ParseEntries(ts[1..])
         case Fail => Fail
         case Ok(es, rest) => Ok(DictE(es), rest))
      case _ => Fail
  }

  function ParseTrailers(e: Expr, ts: seq<Token>): (p: Parsed<Expr>)
    ensures p.Ok? ==> |p.rest| <= |ts|
    decreases |ts|, 1
  {
    if ts == [] then Ok(e, ts)
    else
      match ts[0]
      case Dot =>
        if |ts| > 1 && ts[1].Name? && IsIdent(ts[1].n) then ParseTrailers(Attr(e, ts[1].n), ts[2..]) else Fail
      case LPar =>
        (match ParseItems(ts[1..], RPar)
         case Fail => Fail
         case Ok((es, _), rest) => ParseTrailers(Call(e, es), rest))
      case LBrk =>
        (match ParseExpr(ts[1..])
         case Fail => Fail
         case Ok(k, rest) => if rest != [] && rest[0] == RBrk then ParseTrailers(Index(e, k), rest[1..]) else Fail)
      case _ => Ok(e, ts)
  }

  /** Comma-separated expressions up to `close`, and whether the last comma was a trailing one. */
  function ParseItems(ts: seq<Token>, close: Token): (p: Parsed<(seq<Expr>, bool)>)
    ensures p.Ok? ==> |p.rest| < |ts|
    decreases |ts|, 4
  {
    if ts == [] then Fail
    else if ts[0] == close then Ok(([], false), ts[1..])
    else
      match ParseExpr(ts)
      case Fail => Fail
      case Ok(e, rest) =>
        if rest == [] then Fail
        else if rest[0] == close then Ok(([e], false), rest[1..])
        else if rest[0] != Comma then Fail
        else
          match ParseItems(rest[1..], close)
          case Fail => Fail
          case Ok((es, trailing), rest') => Ok(([e] + es, es == [] || trailing), rest')
  }

  function ParseEntries(ts: seq<Token>): (p: Parsed<seq<(Expr, Expr)>>)
    ensures p.Ok? ==> |p.rest| < |ts|
    decreases |ts|, 4
  {
    if ts == [] then Fail
    else if ts[0] == RBrc then Ok([], ts[1..])
    else
      match ParseExpr(ts)
      case Fail => Fail
      case Ok(k, rest) =>
        if rest == [] || rest[0] != Colon then Fail
        else
          match ParseExpr(rest[1..])
          case Fail => Fail
          case Ok(v, rest') =>
            if rest' == [] then Fail
            else if rest'[0] == RBrc then Ok([(k, v)], rest'[1..])
            else if rest'[0] != Comma then Fail
            else
              match ParseEntries(rest'[1..])
              case Fail => Fail
              case Ok(es, rest'') => Ok([(k, v)] + es, rest'')
  }

  datatype Stmt = Stmt(ref: string, e: Expr)

  /** `cls.<name> = <expression>` and the end of the line. */
  function ParseStmt(ts: seq<Token>): (p: Parsed<Stmt>)
    ensures p.Ok? ==> |p.rest| < |ts|
  {
    if |ts| > 4 && ts[0] == Name("cls") && ts[1] == Dot && ts[2].Name? && IsIdent(ts[2].n) && ts[3] == Assign then
      match ParseExpr(ts[4..])
      case Fail => Fail
      case Ok(e, rest) => if rest != [] && rest[0] == Newline then Ok(Stmt(ts[2].n, e), rest[1..]) else Fail
    else Fail
  }

  function ParseProgram(ts: seq<Token>): Option<seq<Stmt>>
    decreases |ts|
  {
    if ts == [] then Some([])
    else
      match ParseStmt(ts)
      case Fail => None
      case Ok(s, rest) =>
        match ParseProgram(rest)
        case None => None
        case Some(ss) => Some([s] + ss)
  }

  // ------------------------------------------------------------------------
  // The generator and the interpreter as the script runs them
  // ------------------------------------------------------------------------

  function Appended(body: seq<Token>, rest: Option<seq<Token>>): Option<seq<Token>> {
    match rest case None => None case Some(lines) => Some(body + lines)
  }

  /** The two methods of the generated class: the statements of `setUpClass` and the line of its test. */
  datatype Source = Source(setUp: seq<Token>, test: seq<Token>)

  /** The ref of the last create step. */
  function LastCreate(steps: seq<Step>): Option<string> {
    if steps == [] then None
    else if steps[|steps| - 1].Create? then Some(steps[|steps| - 1].ref)
    else LastCreate(steps[..|steps| - 1])
  }

  /** `self.assertTrue(self.<last_ref>)`, where `last_ref` may be None. */
  function TestLine(last: Option<string>): seq<Token> {
    [Name("self"), Dot, Name("assertTrue"), LPar, Name("self"), Dot, Name(if last.Some? then last.value else "None"),
      RPar, Newline]
  }

  function FileOf(steps: seq<Step>): Option<Source> {
    match RenderSteps(Refs(steps), steps)
    case None => None
    case Some(body) => Some(Source(body, TestLine(LastCreate(steps))))
  }

  /** Python compiles the whole file or nothing. */
  function ParseFile(f: Source): Option<(seq<Stmt>, Expr)> {
    match ParseProgram(f.setUp)
    case None => None
    case Some(program) =>
      match ParseExpr(f.test)
      case Fail => None
      case Ok(e, rest) => if rest == [Newline] then Some((program, e)) else None
  }

  lemma NextLine(refs: set<string>, steps: seq<Step>, i: nat, lines: seq<Token>)
    requires i < |steps|
    ensures Appended(lines, RenderSteps(refs, steps[i..])) ==
            match RenderStep(refs, steps[i])
            case None => None
            case Some(line) => Appended(lines + line, RenderSteps(refs, steps[i + 1..]))
  {
    assert steps[i..][1..] == steps[i + 1..];
    var line, rest := RenderStep(refs, steps[i]), RenderSteps(refs, steps[i + 1..]);
    if line.Some? && rest.Some? {
      assert lines + (line.value + rest.value) == (lines + line.value) + rest.value;
    }
  }

  lemma NextCreate(steps: seq<Step>, i: nat)
    requires i < |steps|
    ensures LastCreate(steps[..i + 1]) == if steps[i].Create? then Some(steps[i].ref) else LastCreate(steps[..i])
  {
    assert steps[..i + 1][..i] == steps[..i];
  }

  /** The generated file; `None` when a back-reference raises. */
  method RenderFixtureCode(steps: seq<Step>) returns (file: Option<Source>)
    ensures file == FileOf(steps)
  {
    var refs := Refs(steps);
    var lines: seq<Token> := [];
    var lastRef: Option<string> := None;
    assert steps[0..] == steps && steps[..0] == [];
    assert RenderSteps(refs, steps).Some? ==> [] + RenderSteps(refs, steps).value == RenderSteps(refs, steps).value;
    for i := 0 to |steps|
      invariant RenderSteps(refs, steps) == Appended(lines, RenderSteps(refs, steps[i..]))
      invariant lastRef == LastCreate(steps[..i])
    {
      var line := RenderStep(refs, steps[i]);
      NextLine(refs, steps, i, lines);
      NextCreate(steps, i);
      if line == None {
        return None;
      }
      lines := lines + line.value;
      if steps[i].Create? {
        lastRef := Some(steps[i].ref);
      }
    }
    assert lines + [] == lines && steps[..|steps|] == steps;
    file := Some(Source(lines, TestLine(lastRef)));
  }

  class Session<W> {
    var world: W

    constructor (world: W)
      ensures this.world == world
    {
      this.world := world;
    }

    /** Run the steps under a savepoint: keep the effects only on a requested commit that fully
        succeeded, otherwise restore the world as it was. */
    method Exec(env: Env<W>, steps: seq<Step>, commit: bool)
      returns (error: bool, committed: bool, created: map<string, Val>)
      modifies this
      ensures var o := ExecRun(env, old(world), map[], steps);
              && error == !o.ok && created == o.bound
              && committed == (commit && o.ok)
              && world == if committed then o.world else old(world)
    {
      var savepoint := world;
      created, error := map[], false;
      ghost var o := ExecRun(env, world, map[], steps);
      var i := 0;
      while i < |steps| && !error
        invariant 0 <= i <= |steps|
        invariant !error ==> ExecRun(env, world, created, steps[i..]) == o
        invariant error ==> o == Outcome(world, false, created)
      {
        assert steps[i..][1..] == steps[i + 1..];
        var r := ExecStep(env, world, created, steps[i]);
        world, created, error := r.world, r.bound, !r.ok;
        i := i + 1;
      }
      committed := commit && !error;
      if !committed {
        world := savepoint;
      }
    }
  }
}
