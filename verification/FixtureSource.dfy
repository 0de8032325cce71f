/** Reading generated fixture source back: every value the generator writes, in its nested brackets, commas and
    one-item tuples, is parsed into the expression it stands for, whatever text follows it (fixture_factory.py). */
module FixtureSource {
  import opened Orders
  import opened Fixture

  function AttrChain(e: Expr, names: seq<string>): Expr
    decreases names
  {
    if names == [] then e else AttrChain(Attr(e, names[0]), names[1..])
  }

  /** The expression a rendered value denotes. */
  function Ast(v: Val): Expr
    decreases v
  {
    match v
    case Int(i) => if i < 0 then Neg(Const(Int(-i))) else Const(v)
    case Float(r) => if r < 0.0 then Neg(Const(Float(-r))) else Const(v)
    case List(items) => ListE(Asts(items))
    case Tuple(items) => TupleE(Asts(items))
    case Dict(entries) => DictE(AstEntries(entries))
    case Code(path) => if path == [] then Const(v) else AttrChain(Var(path[0]), path[1..])
    case _ => Const(v)
  }

  function Asts(vs: seq<Val>): (es: seq<Expr>)
    ensures |es| == |vs|
    decreases vs
  {
    if vs == [] then [] else [Ast(vs[0])] + Asts(vs[1..])
  }

  function AstEntries(es: seq<Entry>): seq<(Expr, Expr)>
    decreases es
  {
    if es == [] then [] else [AstEntry(es[0])] + AstEntries(es[1..])
  }

  function AstEntry(e: Entry): (Expr, Expr)
    decreases e
  {
    (Ast(e.key), Ast(e.val))
  }

  predicate Idents(names: seq<string>) {
    forall i :: 0 <= i < |names| ==> IsIdent(names[i])
  }

  /** Values that have a source form: plain data and expressions made of identifiers. */
  predicate Writable(v: Val)
    decreases v
  {
    match v
    case Record(_) => false
    case EnvObj => false
    case Model(_) => false
    case Code(path) => path != [] && Idents(path)
    case List(items) => forall i :: 0 <= i < |items| ==> Writable(items[i])
    case Tuple(items) => forall i :: 0 <= i < |items| ==> Writable(items[i])
    case Dict(entries) => forall i :: 0 <= i < |entries| ==> WritableEntry(entries[i])
    case _ => true
  }

  predicate WritableEntry(e: Entry)
    decreases e
  {
    Writable(e.key) && Writable(e.val)
  }

  predicate NoTrailer(rest: seq<Token>) {
    rest == [] || rest[0] !in {Dot, LPar, LBrk}
  }

  predicate Starts(ts: seq<Token>) {
    ts != [] && ts[0] !in {RPar, RBrk, RBrc, Comma, Colon}
  }

  lemma LiteralStarts(v: Val)
    requires Writable(v)
    ensures Starts(Literal(v))
  { }

  lemma {:induction false} NamesParse(e: Expr, names: seq<string>, rest: seq<Token>)
    requires Idents(names)
    ensures ParseTrailers(e, DotNames(names) + rest) == ParseTrailers(AttrChain(e, names), rest)
    decreases names
  {
    if names == [] {
      assert DotNames(names) + rest == rest;
    } else {
      var ts := DotNames(names) + rest;
      assert ts == [Dot, Name(names[0])] + (DotNames(names[1..]) + rest);
      assert ts[2..] == DotNames(names[1..]) + rest;
      NamesParse(Attr(e, names[0]), names[1..], rest);
    }
  }

  lemma PathParses(path: seq<string>, rest: seq<Token>)
    requires path != [] && Idents(path)
    ensures ParseExpr(Literal(Code(path)) + rest) == ParseTrailers(AttrChain(Var(path[0]), path[1..]), rest)
  {
    var ts := Literal(Code(path)) + rest;
    assert ts == [Name(path[0])] + (DotNames(path[1..]) + rest);
    assert ts[1..] == DotNames(path[1..]) + rest;
    NamesParse(Var(path[0]), path[1..], rest);
  }

  /** How a bracketed literal is laid out in front of what follows it. */
  lemma LiteralShape(v: Val, rest: seq<Token>)
    ensures v.List? ==> Literal(v) + rest == [LBrk] + (Literals(v.items) + Closing(RBrk, false, rest))
    ensures v.Tuple? ==> Literal(v) + rest == [LPar] + (Literals(v.items) + Closing(RPar, |v.items| == 1, rest))
    ensures v.Dict? ==> Literal(v) + rest == [LBrc] + (LiteralEntries(v.entries) + [RBrc] + rest)
  { }

  lemma EntriesShape(es: seq<Entry>, rest: seq<Token>)
    requires es != []
    ensures |es| == 1 ==> LiteralEntries(es) + [RBrc] + rest == LiteralEntry(es[0]) + ([RBrc] + rest)
    ensures |es| > 1 ==> LiteralEntries(es) + [RBrc] + rest ==
                         LiteralEntry(es[0]) + ([Comma] + (LiteralEntries(es[1..]) + [RBrc] + rest))
    ensures |es| == 1 ==> AstEntries(es) == [AstEntry(es[0])]
  {
    Append4(LiteralEntry(es[0]), [Comma], LiteralEntries(es[1..]), [RBrc], rest);
    if |es| == 1 {
      assert es[1..] == [];
    }
  }

  lemma LinesShape(es: seq<Entry>, rest: seq<Token>)
    requires es != []
    ensures LineEntries(es) + [RBrc] + rest == LiteralEntry(es[0]) + ([Comma] + (LineEntries(es[1..]) + [RBrc] + rest))
  {
    Append4(LiteralEntry(es[0]), [Comma], LineEntries(es[1..]), [RBrc], rest);
  }

  lemma Append4<T>(a: seq<T>, b: seq<T>, c: seq<T>, d: seq<T>, e: seq<T>)
    ensures a + b + c + d + e == a + (b + (c + d + e))
    ensures a + d + e == a + (d + e)
  { }

  lemma {:induction false} LiteralParses(v: Val, rest: seq<Token>)
    requires Writable(v) && NoTrailer(rest)
    ensures ParseExpr(Literal(v) + rest) == Ok(Ast(v), rest)
    decreases v, 0
  {
    LiteralShape(v, rest);
    match v {
      case List(items) =>
        ItemsParse(items, RBrk, false, rest);
        ListParses(Literals(items) + Closing(RBrk, false, rest), Asts(items), false, rest);
      case Tuple(items) =>
        var one := |items| == 1;
        ItemsParse(items, RPar, one, rest);
        TupleParses(Literals(items) + Closing(RPar, one, rest), Asts(items), one, rest);
      case Dict(entries) =>
        EntriesParse(entries, rest);
        DictParses(LiteralEntries(entries) + [RBrc] + rest, AstEntries(entries), rest);
      case Code(path) =>
        PathParses(path, rest);
      case Int(i) => NumberParses(v, rest);
      case Float(r) => NumberParses(v, rest);
      case Str(_) => OneTokenParses(v, rest);
      case Bool(_) => OneTokenParses(v, rest);
      case None_ => OneTokenParses(v, rest);
      case Record(_) =>
      case EnvObj =>
      case Model(_) =>
    }
  }

  lemma OneTokenParses(v: Val, rest: seq<Token>)
    requires (v.Str? || v.Bool? || v.None_?) && NoTrailer(rest)
    ensures ParseExpr(Literal(v) + rest) == Ok(Ast(v), rest)
  {
    assert (Literal(v) + rest)[1..] == rest;
  }

  lemma ListParses(body: seq<Token>, es: seq<Expr>, trailing: bool, rest: seq<Token>)
    requires ParseItems(body, RBrk) == Ok((es, trailing), rest) && NoTrailer(rest)
    ensures ParseExpr([LBrk] + body) == Ok(ListE(es), rest)
  {
    assert ([LBrk] + body)[1..] == body;
  }

  /** One item without a comma would only be parenthesised; the trailing comma keeps the tuple. */
  lemma TupleParses(body: seq<Token>, es: seq<Expr>, trailing: bool, rest: seq<Token>)
    requires ParseItems(body, RPar) == Ok((es, trailing), rest) && NoTrailer(rest)
    ensures ParseExpr([LPar] + body) == Ok(if |es| == 1 && !trailing then es[0] else TupleE(es), rest)
  {
    assert ([LPar] + body)[1..] == body;
  }

  lemma DictParses(body: seq<Token>, es: seq<(Expr, Expr)>, rest: seq<Token>)
    requires ParseEntries(body) == Ok(es, rest) && NoTrailer(rest)
    ensures ParseExpr([LBrc] + body) == Ok(DictE(es), rest)
  {
    assert ([LBrc] + body)[1..] == body;
  }

  lemma NumberParses(v: Val, rest: seq<Token>)
    requires (v.Int? || v.Float?) && NoTrailer(rest)
    ensures ParseExpr(Literal(v) + rest) == Ok(Ast(v), rest)
  {
    var ts := Literal(v) + rest;
    if ts[0] == Minus {
      assert ts[1..] == [ts[1]] + rest;
      AtomParses(ts[1], rest);
    } else {
      assert ts == [ts[0]] + rest;
      AtomParses(ts[0], rest);
    }
  }

  lemma AtomParses(t: Token, rest: seq<Token>)
    requires (t.IntTok? || t.FloatTok?) && NoTrailer(rest)
    ensures ParseExpr([t] + rest) == Ok(Const(if t.IntTok? then Int(t.i) else Float(t.r)), rest)
  {
    assert ([t] + rest)[1..] == rest;
  }

  /** What follows the items of a list or tuple: perhaps a comma, then the closer. */
  function Closing(close: Token, trailing: bool, rest: seq<Token>): seq<Token> {
    if trailing then [Comma] + ([close] + rest) else [close] + rest
  }

  lemma ItemsClose(e: Expr, ts: seq<Token>, close: Token, trailing: bool, rest: seq<Token>)
    requires close in {RPar, RBrk} && Starts(ts) && ParseExpr(ts) == Ok(e, Closing(close, trailing, rest))
    ensures ParseItems(ts, close) == Ok(([e], trailing), rest)
  {
    assert ([close] + rest)[1..] == rest;
    if trailing {
      assert Closing(close, trailing, rest)[1..] == [close] + rest;
      assert ParseItems([close] + rest, close) == Ok(([], false), rest);
      assert [e] + [] == [e];
    }
  }

  lemma ItemsContinue(e: Expr, ts: seq<Token>, close: Token, more: seq<Token>, es: seq<Expr>, trailing: bool,
        rest: seq<Token>)
    requires close in {RPar, RBrk} && Starts(ts) && ParseExpr(ts) == Ok(e, [Comma] + more)
    requires es != [] && ParseItems(more, close) == Ok((es, trailing), rest)
    ensures ParseItems(ts, close) == Ok(([e] + es, trailing), rest)
  {
    assert ([Comma] + more)[1..] == more;
  }

  lemma {:induction false} ItemsParse(vs: seq<Val>, close: Token, trailing: bool, rest: seq<Token>)
    requires close in {RPar, RBrk} && (trailing ==> vs != [])
    requires forall i :: 0 <= i < |vs| ==> Writable(vs[i])
    ensures ParseItems(Literals(vs) + Closing(close, trailing, rest), close) == Ok((Asts(vs), trailing), rest)
    decreases vs, 1
  {
    var tail := Closing(close, trailing, rest);
    var ts := Literals(vs) + tail;
    if vs == [] {
      assert ts == [close] + rest && ts[1..] == rest;
    } else {
      LiteralStarts(vs[0]);
      if |vs| == 1 {
        LiteralParses(vs[0], tail);
        ItemsClose(Ast(vs[0]), ts, close, trailing, rest);
        assert Asts(vs) == [Ast(vs[0])];
      } else {
        var more := Literals(vs[1..]) + tail;
        assert ts == Literal(vs[0]) + ([Comma] + more);
        LiteralParses(vs[0], [Comma] + more);
        ItemsParse(vs[1..], close, trailing, rest);
        ItemsContinue(Ast(vs[0]), ts, close, more, Asts(vs[1..]), trailing, rest);
      }
    }
  }

  lemma EntriesContinue(es: seq<(Expr, Expr)>, e: Entry, more: seq<Token>, rest: seq<Token>)
    requires var ts := LiteralEntry(e) + ([Comma] + more);
             && Starts(ts)
             && ParseExpr(ts) == Ok(Ast(e.key), [Colon] + (Literal(e.val) + ([Comma] + more)))
             && ParseExpr(Literal(e.val) + ([Comma] + more)) == Ok(Ast(e.val), [Comma] + more)
    requires ParseEntries(more) == Ok(es, rest)
    ensures ParseEntries(LiteralEntry(e) + ([Comma] + more)) == Ok([AstEntry(e)] + es, rest)
  {
    var after := Literal(e.val) + ([Comma] + more);
    assert ([Colon] + after)[1..] == after && ([Comma] + more)[1..] == more;
  }

  lemma EntriesClose(e: Entry, rest: seq<Token>)
    requires var ts := LiteralEntry(e) + ([RBrc] + rest);
             && Starts(ts)
             && ParseExpr(ts) == Ok(Ast(e.key), [Colon] + (Literal(e.val) + ([RBrc] + rest)))
             && ParseExpr(Literal(e.val) + ([RBrc] + rest)) == Ok(Ast(e.val), [RBrc] + rest)
    ensures ParseEntries(LiteralEntry(e) + ([RBrc] + rest)) == Ok([AstEntry(e)], rest)
  {
    var after := Literal(e.val) + ([RBrc] + rest);
    assert ([Colon] + after)[1..] == after && ([RBrc] + rest)[1..] == rest;
  }

  lemma {:induction false} EntriesParse(es: seq<Entry>, rest: seq<Token>)
    requires forall i :: 0 <= i < |es| ==> WritableEntry(es[i])
    ensures ParseEntries(LiteralEntries(es) + [RBrc] + rest) == Ok(AstEntries(es), rest)
    decreases es, 1
  {
    if es == [] {
      assert LiteralEntries(es) + [RBrc] + rest == [RBrc] + rest && ([RBrc] + rest)[1..] == rest;
    } else {
      EntriesShape(es, rest);
      if |es| == 1 {
        EntryParses(es[0], [RBrc] + rest);
        EntriesClose(es[0], rest);
      } else {
        var more := LiteralEntries(es[1..]) + [RBrc] + rest;
        EntryParses(es[0], [Comma] + more);
        EntriesParse(es[1..], rest);
        EntriesContinue(AstEntries(es[1..]), es[0], more, rest);
      }
    }
  }

  /** Key, colon and value, in front of whatever follows. */
  lemma {:induction false} EntryParses(e: Entry, rest: seq<Token>)
    requires WritableEntry(e) && NoTrailer(rest)
    ensures var ts := LiteralEntry(e) + rest;
            && Starts(ts)
            && ParseExpr(ts) == Ok(Ast(e.key), [Colon] + (Literal(e.val) + rest))
            && ParseExpr(Literal(e.val) + rest) == Ok(Ast(e.val), rest)
    decreases e, 0
  {
    LiteralStarts(e.key);
    assert LiteralEntry(e) + rest == Literal(e.key) + ([Colon] + (Literal(e.val) + rest));
    LiteralParses(e.key, [Colon] + (Literal(e.val) + rest));
    LiteralParses(e.val, rest);
  }

  lemma {:induction false} LinesParse(es: seq<Entry>, rest: seq<Token>)
    requires forall i :: 0 <= i < |es| ==> WritableEntry(es[i])
    ensures ParseEntries(LineEntries(es) + [RBrc] + rest) == Ok(AstEntries(es), rest)
  {
    if es == [] {
      assert LineEntries(es) + [RBrc] + rest == [RBrc] + rest && ([RBrc] + rest)[1..] == rest;
    } else {
      var more := LineEntries(es[1..]) + [RBrc] + rest;
      LinesShape(es, rest);
      EntryParses(es[0], [Comma] + more);
      LinesParse(es[1..], rest);
      EntriesContinue(AstEntries(es[1..]), es[0], more, rest);
    }
  }
}
