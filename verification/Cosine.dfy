/** TF-IDF recall over the card corpus (native_check.py), over the reals. */
module Cosine {
  import opened Orders
  import opened JsonDoc

  // ------------------------------------------------------------------------
  // Sums over finite sets
  // ------------------------------------------------------------------------

  type Weight = string -> real

  ghost function Sum(f: Weight, s: set<string>): real {
    if s == {} then 0.0
    else
      var x :| x in s;
      f(x) + Sum(f, s - {x})
  }

  /** A sum does not depend on the order its terms are taken in. */
  lemma {:induction false} SumTake(f: Weight, s: set<string>, x: string)
    requires x in s
    ensures Sum(f, s) == f(x) + Sum(f, s - {x})
    decreases |s|
  {
    var y :| y in s && Sum(f, s) == f(y) + Sum(f, s - {y});
    if y != x {
      SumTake(f, s - {y}, x);
      SumTake(f, s - {x}, y);
      assert s - {y} - {x} == s - {x} - {y};
    }
  }

  lemma {:induction false} SumZeros(f: Weight, s: set<string>, extra: set<string>)
    requires forall x :: x in extra ==> f(x) == 0.0
    requires s !! extra
    ensures Sum(f, s + extra) == Sum(f, s)
    decreases |extra|
  {
    if extra == {} {
      assert s + extra == s;
    } else {
      var x :| x in extra;
      SumTake(f, s + extra, x);
      assert s + extra - {x} == s + (extra - {x});
      SumZeros(f, s, extra - {x});
    }
  }

  lemma {:induction false} SumNonNegative(f: Weight, s: set<string>)
    requires forall x :: x in s ==> f(x) >= 0.0
    ensures Sum(f, s) >= 0.0
    ensures Sum(f, s) == 0.0 <==> forall x :: x in s ==> f(x) == 0.0
    decreases |s|
  {
    if s != {} {
      var x :| x in s;
      SumTake(f, s, x);
      SumNonNegative(f, s - {x});
      assert forall y :: y in s ==> y == x || y in s - {x};
    }
  }

  // ------------------------------------------------------------------------
  // Sparse vectors
  // ------------------------------------------------------------------------

  type Vector = map<string, real>

  function At(a: Vector, t: string): real {
    if t in a then a[t] else 0.0
  }

  function Product(a: Vector, b: Vector): Weight {
    t => At(a, t) * At(b, t)
  }

  /** Only the tokens the two share are looked at. */
  ghost function Dot(a: Vector, b: Vector): real {
    Sum(Product(a, b), a.Keys * b.Keys)
  }

  ghost function Norm2(a: Vector): real {
    Sum(Product(a, a), a.Keys)
  }

  /** sum(v * v for v in a.values()), and the same for a dot product: in whatever order the keys come. */
  method SumProducts(a: Vector, b: Vector, keys: set<string>) returns (total: real)
    requires keys <= a.Keys && keys <= b.Keys
    ensures total == Sum(Product(a, b), keys)
  {
    total := 0.0;
    var rest := keys;
    while rest != {}
      invariant rest <= keys && total + Sum(Product(a, b), rest) == Sum(Product(a, b), keys)
      decreases |rest|
    {
      var t :| t in rest;
      SumTake(Product(a, b), rest, t);
      total := total + Product(a, b)(t);
      rest := rest - {t};
    }
  }

  /** The same sums over any set that holds both vectors' tokens. */
  lemma OverAll(a: Vector, b: Vector, all: set<string>)
    requires a.Keys <= all && b.Keys <= all
    ensures Dot(a, b) == Sum(Product(a, b), all)
    ensures Norm2(a) == Sum(Product(a, a), all) && Norm2(b) == Sum(Product(b, b), all)
  {
    var both := a.Keys * b.Keys;
    SumZeros(Product(a, b), both, all - both);
    SumZeros(Product(a, a), a.Keys, all - a.Keys);
    SumZeros(Product(b, b), b.Keys, all - b.Keys);
    assert both + (all - both) == all && a.Keys + (all - a.Keys) == all && b.Keys + (all - b.Keys) == all;
  }

  // ------------------------------------------------------------------------
  // The same vectors as two lists of coordinates
  // ------------------------------------------------------------------------

  function Dots(xs: seq<real>, ys: seq<real>): real
    requires |xs| == |ys|
  {
    if xs == [] then 0.0 else xs[0] * ys[0] + Dots(xs[1..], ys[1..])
  }

  /** A sum along a list of tokens. */
  function SumAlong(f: Weight, keys: seq<string>): real {
    if keys == [] then 0.0 else f(keys[0]) + SumAlong(f, keys[1..])
  }

  lemma {:induction false} SumIsAlong(f: Weight, s: set<string>, keys: seq<string>)
    requires Enumerates(keys, s)
    ensures Sum(f, s) == SumAlong(f, keys)
    decreases |keys|
  {
    if keys == [] {
      assert s == {};
    } else {
      assert keys[0] in s;
      SumTake(f, s, keys[0]);
      assert forall t :: t in keys <==> t == keys[0] || t in keys[1..];
      SumIsAlong(f, s - {keys[0]}, keys[1..]);
    }
  }

  lemma {:induction false} SomeListing(s: set<string>) returns (keys: seq<string>)
    ensures Enumerates(keys, s)
    decreases |s|
  {
    if s == {} {
      keys := [];
    } else {
      var t :| t in s;
      var rest := SomeListing(s - {t});
      keys := [t] + rest;
    }
  }

  function Coords(a: Vector, keys: seq<string>): (r: seq<real>)
    ensures |r| == |keys|
  {
    seq(|keys|, i requires 0 <= i < |keys| => At(a, keys[i]))
  }

  lemma {:induction false} AlongIsDots(a: Vector, b: Vector, keys: seq<string>)
    ensures SumAlong(Product(a, b), keys) == Dots(Coords(a, keys), Coords(b, keys))
  {
    if keys != [] {
      AlongIsDots(a, b, keys[1..]);
      assert Coords(a, keys)[1..] == Coords(a, keys[1..]);
      assert Coords(b, keys)[1..] == Coords(b, keys[1..]);
    }
  }

  // Arithmetic

  lemma Distribute(c: real, x: real, y: real, z: real)
    requires z == x + y
    ensures c * z == c * x + c * y
  {
  }

  lemma Positive(x: real, y: real)
    requires x > 0.0 && y > 0.0
    ensures x * y > 0.0
  {
  }

  lemma PositiveProduct(x: real, y: real, z: real)
    requires x > 0.0 && y > 0.0 && z == x * y
    ensures z > 0.0
  {
    Positive(x, y);
  }

  lemma Negated(x: real, y: real)
    requires y == -x
    ensures y * y == x * x
  {
  }

  lemma NegativeSquare(x: real, y: real, z: real)
    requires x < 0.0 && y < 0.0 && z == x * y
    ensures z > 0.0
  {
    PositiveProduct(-x, -y, (-x) * (-y));
  }

  lemma ZeroTimes(x: real, y: real)
    requires x == 0.0
    ensures x * y == 0.0 && y * x == 0.0
  {
  }

  lemma Square(x: real, xx: real)
    requires xx == x * x
    ensures xx >= 0.0 && (xx == 0.0 <==> x == 0.0)
  {
    if x == 0.0 {
      ZeroTimes(x, x);
    } else if x > 0.0 {
      PositiveProduct(x, x, xx);
    } else {
      NegativeSquare(x, x, xx);
    }
  }

  // The residue

  function Off(A: real, D: real, x: real, y: real): real {
    A * y - D * x
  }

  function Sq(x: real): real {
    x * x
  }

  /** The sum of (A·y − D·x)². */
  function Residue(xs: seq<real>, ys: seq<real>, A: real, D: real): real
    requires |xs| == |ys|
  {
    if xs == [] then 0.0 else Sq(Off(A, D, xs[0], ys[0])) + Residue(xs[1..], ys[1..], A, D)
  }

  lemma Expand(A: real, D: real, x: real, y: real, bb: real, ab: real, aa: real, yy: real, xy: real, xx: real)
    requires bb == A * A && ab == -2.0 * A * D && aa == D * D && yy == y * y && xy == x * y && xx == x * x
    ensures Sq(Off(A, D, x, y)) == bb * yy + ab * xy + aa * xx
  {
    var p, q := A * y, D * x;
    assert p * p == bb * yy && q * q == aa * xx && p * q == (A * D) * xy;
    assert (p - q) * (p - q) == p * p - 2.0 * (p * q) + q * q;
  }

  lemma {:induction false} ResidueLinear(xs: seq<real>, ys: seq<real>, A: real, D: real, bb: real, ab: real, aa: real)
    requires |xs| == |ys| && bb == A * A && ab == -2.0 * A * D && aa == D * D
    ensures Residue(xs, ys, A, D) == bb * Dots(ys, ys) + ab * Dots(xs, ys) + aa * Dots(xs, xs)
  {
    if xs == [] {
      ZeroTimes(0.0, bb);
      ZeroTimes(0.0, ab);
      ZeroTimes(0.0, aa);
    } else {
      var x, y, us, vs := xs[0], ys[0], xs[1..], ys[1..];
      ResidueLinear(us, vs, A, D, bb, ab, aa);
      Expand(A, D, x, y, bb, ab, aa, y * y, x * y, x * x);
      Distribute(bb, y * y, Dots(vs, vs), Dots(ys, ys));
      Distribute(ab, x * y, Dots(us, vs), Dots(xs, ys));
      Distribute(aa, x * x, Dots(us, us), Dots(xs, xs));
    }
  }

  lemma Assemble(total: real, bb: real, ab: real, aa: real, A: real, B: real, D: real, r: real)
    requires bb == A * A && ab == -2.0 * A * D && aa == D * D && total == bb * B + ab * D + aa * A && r == A * B - D * D
    ensures total == A * r
  {
    var p, q := A * B, D * D;
    assert bb * B == A * p && ab * D == -2.0 * (A * q) && aa * A == A * q;
    assert A * (p - q) == A * p - A * q;
  }

  /** The sum of the residue's squares is A·(A·B − D²). */
  lemma ResidueSum(xs: seq<real>, ys: seq<real>, A: real, B: real, D: real, r: real)
    requires |xs| == |ys| && A == Dots(xs, xs) && B == Dots(ys, ys) && D == Dots(xs, ys) && r == A * B - D * D
    ensures Residue(xs, ys, A, D) == A * r
  {
    ResidueFrom(xs, ys, A, B, D, r, A * A, -2.0 * A * D, D * D);
  }

  lemma ResidueFrom(xs: seq<real>, ys: seq<real>, A: real, B: real, D: real, r: real, bb: real, ab: real, aa: real)
    requires |xs| == |ys| && A == Dots(xs, xs) && B == Dots(ys, ys) && D == Dots(xs, ys) && r == A * B - D * D
    requires bb == A * A && ab == -2.0 * A * D && aa == D * D
    ensures Residue(xs, ys, A, D) == A * r
  {
    ResidueLinear(xs, ys, A, D, bb, ab, aa);
    Assemble(Residue(xs, ys, A, D), bb, ab, aa, A, B, D, r);
  }

  lemma {:induction false} ResidueNonNegative(xs: seq<real>, ys: seq<real>, A: real, D: real)
    requires |xs| == |ys|
    ensures Residue(xs, ys, A, D) >= 0.0
    ensures Residue(xs, ys, A, D) == 0.0 ==> forall i :: 0 <= i < |xs| ==> Off(A, D, xs[i], ys[i]) == 0.0
  {
    if xs != [] {
      var d := Off(A, D, xs[0], ys[0]);
      Square(d, Sq(d));
      ResidueNonNegative(xs[1..], ys[1..], A, D);
    }
  }

  lemma DivideOut(A: real, x: real)
    requires A > 0.0 && A * x >= 0.0
    ensures x >= 0.0
  {
    if x < 0.0 { Positive(A, -x); }
  }

  lemma ZeroFactor(A: real, x: real)
    requires A > 0.0 && A * x == 0.0
    ensures x == 0.0
  {
    if x < 0.0 { Positive(A, -x); } else if x > 0.0 { Positive(A, x); }
  }

  lemma NormFacts(a: Vector)
    ensures Norm2(a) >= 0.0
    ensures Norm2(a) == 0.0 <==> forall t :: t in a ==> a[t] == 0.0
  {
    forall t ensures Product(a, a)(t) >= 0.0 && (Product(a, a)(t) == 0.0 <==> At(a, t) == 0.0) {
      Square(At(a, t), Product(a, a)(t));
    }
    SumNonNegative(Product(a, a), a.Keys);
  }

  lemma DotOfNull(a: Vector, b: Vector)
    requires Norm2(a) == 0.0
    ensures Dot(a, b) == 0.0
  {
    NormFacts(a);
    forall t ensures Product(a, b)(t) == 0.0 {
      ZeroTimes(At(a, t), At(b, t));
    }
    SumNonNegative(Product(a, b), a.Keys * b.Keys);
  }

  /** Products and norms over any listing of the tokens involved. */
  lemma DotsOf(a: Vector, b: Vector, keys: seq<string>)
    requires Enumerates(keys, a.Keys + b.Keys)
    ensures Dot(a, b) == Dots(Coords(a, keys), Coords(b, keys))
    ensures Norm2(a) == Dots(Coords(a, keys), Coords(a, keys))
    ensures Norm2(b) == Dots(Coords(b, keys), Coords(b, keys))
  {
    OverAll(a, b, a.Keys + b.Keys);
    SumIsAlong(Product(a, b), a.Keys + b.Keys, keys);
    SumIsAlong(Product(a, a), a.Keys + b.Keys, keys);
    SumIsAlong(Product(b, b), a.Keys + b.Keys, keys);
    AlongIsDots(a, b, keys);
    AlongIsDots(a, a, keys);
    AlongIsDots(b, b, keys);
  }

  lemma ListCauchySchwarz(xs: seq<real>, ys: seq<real>, A: real, B: real, D: real, r: real)
    requires |xs| == |ys| && A == Dots(xs, xs) && B == Dots(ys, ys) && D == Dots(xs, ys) && r == A * B - D * D
    requires A > 0.0
    ensures r >= 0.0
  {
    ResidueSum(xs, ys, A, B, D, r);
    ResidueNonNegative(xs, ys, A, D);
    DivideOut(A, r);
  }

  lemma ListCauchySchwarzAny(xs: seq<real>, ys: seq<real>, A: real, B: real, D: real)
    requires |xs| == |ys| && A == Dots(xs, xs) && B == Dots(ys, ys) && D == Dots(xs, ys)
    requires A >= 0.0 && (A == 0.0 ==> D == 0.0)
    ensures D * D <= A * B
  {
    if A == 0.0 {
      ZeroTimes(D, D);
      ZeroTimes(A, B);
    } else {
      ListCauchySchwarz(xs, ys, A, B, D, A * B - D * D);
    }
  }

  lemma NullDot(a: Vector, b: Vector)
    ensures Norm2(a) >= 0.0 && (Norm2(a) == 0.0 ==> Dot(a, b) == 0.0)
  {
    NormFacts(a);
    if Norm2(a) == 0.0 { DotOfNull(a, b); }
  }

  lemma CauchySchwarz(a: Vector, b: Vector)
    ensures Dot(a, b) * Dot(a, b) <= Norm2(a) * Norm2(b)
  {
    var keys := SomeListing(a.Keys + b.Keys);
    NullDot(a, b);
    DotsOf(a, b, keys);
    ListCauchySchwarzAny(Coords(a, keys), Coords(b, keys), Norm2(a), Norm2(b), Dot(a, b));
  }

  // ------------------------------------------------------------------------
  // Cosine
  // ------------------------------------------------------------------------

  /** The real square root. */
  ghost predicate IsSqrt(sqrt: real -> real) {
    forall x :: x >= 0.0 ==> sqrt(x) >= 0.0 && sqrt(x) * sqrt(x) == x
  }

  ghost function CosineOf(sqrt: real -> real, a: Vector, b: Vector): real {
    if a == map[] || b == map[] then 0.0
    else
      var na, nb := sqrt(Norm2(a)), sqrt(Norm2(b));
      Ratio(Dot(a, b), na, nb)
  }

  function Ratio(dot: real, na: real, nb: real): real {
    if na != 0.0 && nb != 0.0 then Quotient(dot, na * nb) else 0.0
  }

  function Quotient(x: real, y: real): real {
    if y == 0.0 then 0.0 else x / y
  }

  method ComputeCosine(sqrt: real -> real, a: Vector, b: Vector) returns (r: real)
    ensures r == CosineOf(sqrt, a, b)
  {
    if a == map[] || b == map[] {
      return 0.0;
    }
    var dot := SumProducts(a, b, a.Keys * b.Keys);
    var aa := SumProducts(a, a, a.Keys);
    var bb := SumProducts(b, b, b.Keys);
    var na, nb := sqrt(aa), sqrt(bb);
    r := Ratio(dot, na, nb);
  }

  lemma RootFacts(sqrt: real -> real, x: real)
    requires IsSqrt(sqrt) && x >= 0.0
    ensures sqrt(x) >= 0.0 && sqrt(x) * sqrt(x) == x && (sqrt(x) == 0.0 <==> x == 0.0)
  {
    Square(sqrt(x), x);
  }

  lemma GreaterSquare(x: real, n: real)
    requires 0.0 <= n < x
    ensures n * n < x * x
  {
    Positive(x - n, x + n);
    assert (x - n) * (x + n) == x * x - n * n;
  }

  lemma SquaresBound(D: real, n: real)
    requires n >= 0.0 && D * D <= n * n
    ensures -n <= D <= n
  {
    if D > n {
      GreaterSquare(D, n);
    } else if -D > n {
      Negated(D, -D);
      GreaterSquare(-D, n);
    }
  }

  lemma QuotientBound(D: real, n: real)
    requires n > 0.0
    ensures -n <= D <= n ==> -1.0 <= Quotient(D, n) <= 1.0
    ensures D >= 0.0 ==> Quotient(D, n) >= 0.0
    ensures Quotient(D, n) == 1.0 <==> D == n
  {
    assert Quotient(D, n) * n == D;
  }

  /** What the code divides by is positive, and its square is the product of the squared norms. */
  lemma Denominator(sqrt: real -> real, a: Vector, b: Vector)
    requires IsSqrt(sqrt) && Norm2(a) != 0.0 && Norm2(b) != 0.0
    ensures var n := sqrt(Norm2(a)) * sqrt(Norm2(b));
            n > 0.0 && n * n == Norm2(a) * Norm2(b) && CosineOf(sqrt, a, b) == Quotient(Dot(a, b), n)
  {
    NormFacts(a);
    NormFacts(b);
    RootFacts(sqrt, Norm2(a));
    RootFacts(sqrt, Norm2(b));
    var na, nb := sqrt(Norm2(a)), sqrt(Norm2(b));
    assert (na * nb) * (na * nb) == (na * na) * (nb * nb);
  }

  lemma NullCosine(sqrt: real -> real, a: Vector, b: Vector)
    requires IsSqrt(sqrt) && (Norm2(a) == 0.0 || Norm2(b) == 0.0)
    ensures CosineOf(sqrt, a, b) == 0.0
  {
    RootFacts(sqrt, 0.0);
  }

  predicate NonNegative(a: Vector) {
    forall t :: t in a ==> a[t] >= 0.0
  }

  /** Cosines lie in [-1, 1], and in [0, 1] for vectors without negative weights. */
  lemma CosineInRange(sqrt: real -> real, a: Vector, b: Vector)
    requires IsSqrt(sqrt)
    ensures -1.0 <= CosineOf(sqrt, a, b) <= 1.0
    ensures NonNegative(a) && NonNegative(b) ==> CosineOf(sqrt, a, b) >= 0.0
  {
    if Norm2(a) == 0.0 || Norm2(b) == 0.0 {
      NullCosine(sqrt, a, b);
    } else {
      Denominator(sqrt, a, b);
      CauchySchwarz(a, b);
      var D, n := Dot(a, b), sqrt(Norm2(a)) * sqrt(Norm2(b));
      SquaresBound(D, n);
      QuotientBound(D, n);
      if NonNegative(a) && NonNegative(b) {
        SumNonNegative(Product(a, b), a.Keys * b.Keys);
      }
    }
  }

  /** A vector with a non-zero weight is at cosine 1 from itself. */
  lemma CosineOfSelf(sqrt: real -> real, a: Vector)
    requires IsSqrt(sqrt)
    ensures CosineOf(sqrt, a, a) == if exists t :: t in a && a[t] != 0.0 then 1.0 else 0.0
  {
    NormFacts(a);
    if Norm2(a) == 0.0 {
      NullCosine(sqrt, a, a);
    } else {
      Denominator(sqrt, a, a);
      RootFacts(sqrt, Norm2(a));
      assert a.Keys * a.Keys == a.Keys;
      QuotientBound(Dot(a, a), sqrt(Norm2(a)) * sqrt(Norm2(a)));
    }
  }

  /** b is a positive multiple of a. */
  ghost predicate SameDirection(a: Vector, b: Vector) {
    exists k :: Scales(a, b, k)
  }

  ghost predicate Scales(a: Vector, b: Vector, k: real) {
    k > 0.0 && OnTokens(a, b, k)
  }

  ghost predicate OnTokens(a: Vector, b: Vector, k: real) {
    forall t :: t in a.Keys + b.Keys ==> At(b, t) == k * At(a, t)
  }

  ghost predicate InProportion(xs: seq<real>, ys: seq<real>, k: real)
    requires |xs| == |ys|
  {
    forall i :: 0 <= i < |xs| ==> ys[i] == k * xs[i]
  }

  /** Cosine 1 is reached by parallel vectors and by no others. */
  lemma CosineOneIff(sqrt: real -> real, a: Vector, b: Vector)
    requires IsSqrt(sqrt) && Norm2(a) != 0.0 && Norm2(b) != 0.0
    ensures CosineOf(sqrt, a, b) == 1.0 <==> SameDirection(a, b)
  {
    var A, B, D, n := Norm2(a), Norm2(b), Dot(a, b), sqrt(Norm2(a)) * sqrt(Norm2(b));
    NormFacts(a);
    Denominator(sqrt, a, b);
    QuotientBound(D, n);
    if D == n {
      TightMeansParallel(a, b);
    }
    if k :| Scales(a, b, k) {
      ParallelMeansTight(a, b, k);
      RootsEqual(D, n, A, B);
    }
  }

  /** The bound of Cauchy and Schwarz, reached. */
  predicate Tight(A: real, B: real, D: real) {
    D * D == A * B
  }

  lemma RootsEqual(x: real, y: real, A: real, B: real)
    requires x > 0.0 && y > 0.0 && Tight(A, B, x) && y * y == A * B
    ensures x == y
  {
    assert (x - y) * (x + y) == 0.0;
  }

  lemma TightResidue(xs: seq<real>, ys: seq<real>, A: real, B: real, D: real)
    requires |xs| == |ys| && A == Dots(xs, xs) && B == Dots(ys, ys) && D == Dots(xs, ys) && Tight(A, B, D)
    ensures Residue(xs, ys, A, D) == 0.0
  {
    ResidueSum(xs, ys, A, B, D, 0.0);
    ZeroTimes(0.0, A);
  }

  /** Where the bound is tight, every coordinate is in the same proportion. */
  lemma TightLists(xs: seq<real>, ys: seq<real>, A: real, B: real, D: real, k: real)
    requires |xs| == |ys| && A == Dots(xs, xs) && B == Dots(ys, ys) && D == Dots(xs, ys)
    requires A > 0.0 && Tight(A, B, D) && k == Quotient(D, A)
    ensures InProportion(xs, ys, k)
  {
    TightResidue(xs, ys, A, B, D);
    ResidueNonNegative(xs, ys, A, D);
    forall i | 0 <= i < |xs| ensures ys[i] == k * xs[i] {
      SolveFor(A, ys[i], D, xs[i]);
    }
  }

  lemma TightOver(a: Vector, b: Vector, keys: seq<string>, A: real, B: real, D: real) returns (k: real)
    requires Enumerates(keys, a.Keys + b.Keys)
    requires A == Dots(Coords(a, keys), Coords(a, keys)) && B == Dots(Coords(b, keys), Coords(b, keys))
    requires D == Dots(Coords(a, keys), Coords(b, keys))
    requires A > 0.0 && D > 0.0 && Tight(A, B, D)
    ensures Scales(a, b, k)
  {
    k := Quotient(D, A);
    QuotientPositive(D, A);
    TightLists(Coords(a, keys), Coords(b, keys), A, B, D, k);
    Proportional(a, b, keys, k);
  }

  lemma TightMeansParallel(a: Vector, b: Vector)
    requires Norm2(a) > 0.0 && Dot(a, b) > 0.0 && Tight(Norm2(a), Norm2(b), Dot(a, b))
    ensures SameDirection(a, b)
  {
    var keys := SomeListing(a.Keys + b.Keys);
    DotsOf(a, b, keys);
    var k := TightOver(a, b, keys, Norm2(a), Norm2(b), Dot(a, b));
  }

  lemma Proportional(a: Vector, b: Vector, keys: seq<string>, k: real)
    requires Enumerates(keys, a.Keys + b.Keys)
    ensures InProportion(Coords(a, keys), Coords(b, keys), k) <==> OnTokens(a, b, k)
  {
    if InProportion(Coords(a, keys), Coords(b, keys), k) {
      forall t | t in a.Keys + b.Keys ensures At(b, t) == k * At(a, t) {
        var i :| 0 <= i < |keys| && keys[i] == t;
        assert Coords(b, keys)[i] == k * Coords(a, keys)[i];
      }
    }
  }

  lemma QuotientPositive(D: real, A: real)
    requires D > 0.0 && A > 0.0
    ensures Quotient(D, A) > 0.0
  {
    assert Quotient(D, A) * A == D;
  }

  lemma SolveFor(A: real, y: real, D: real, x: real)
    requires A > 0.0 && Off(A, D, x, y) == 0.0
    ensures y == Quotient(D, A) * x
  {
    var k := Quotient(D, A);
    assert k * A == D;
    assert A * (k * x) == D * x;
    Distribute(A, y, -(k * x), y - k * x);
    ZeroFactor(A, y - k * x);
  }

  lemma {:induction false} ParallelDots(xs: seq<real>, ys: seq<real>, k: real, kk: real)
    requires |xs| == |ys| && kk == k * k && InProportion(xs, ys, k)
    ensures Dots(xs, ys) == k * Dots(xs, xs) && Dots(ys, ys) == kk * Dots(xs, xs)
  {
    if xs == [] {
      ZeroTimes(0.0, k);
      ZeroTimes(0.0, kk);
    } else {
      var x, us := xs[0], xs[1..];
      ParallelDots(us, ys[1..], k, kk);
      ScaledSquares(k, x, ys[0], kk);
      Distribute(k, x * x, Dots(us, us), Dots(xs, xs));
      Distribute(kk, x * x, Dots(us, us), Dots(xs, xs));
    }
  }

  lemma ParallelOver(a: Vector, b: Vector, keys: seq<string>, k: real, A: real, B: real, D: real)
    requires Enumerates(keys, a.Keys + b.Keys) && Scales(a, b, k)
    requires A == Dots(Coords(a, keys), Coords(a, keys)) && B == Dots(Coords(b, keys), Coords(b, keys))
    requires D == Dots(Coords(a, keys), Coords(b, keys)) && A > 0.0
    ensures D > 0.0 && Tight(A, B, D)
  {
    Proportional(a, b, keys, k);
    TightDots(Coords(a, keys), Coords(b, keys), k, A, B, D);
  }

  lemma ParallelMeansTight(a: Vector, b: Vector, k: real)
    requires Scales(a, b, k) && Norm2(a) > 0.0
    ensures Dot(a, b) > 0.0 && Tight(Norm2(a), Norm2(b), Dot(a, b))
  {
    var keys := SomeListing(a.Keys + b.Keys);
    DotsOf(a, b, keys);
    var A, B, D := Norm2(a), Norm2(b), Dot(a, b);
    ParallelOver(a, b, keys, k, A, B, D);
  }

  lemma TightDots(xs: seq<real>, ys: seq<real>, k: real, A: real, B: real, D: real)
    requires |xs| == |ys| && A == Dots(xs, xs) && B == Dots(ys, ys) && D == Dots(xs, ys)
    requires k > 0.0 && A > 0.0 && InProportion(xs, ys, k)
    ensures D > 0.0 && Tight(A, B, D)
  {
    ParallelDots(xs, ys, k, k * k);
    TightFrom(k, k * k, A, D, B);
  }

  lemma TightFrom(k: real, kk: real, A: real, D: real, B: real)
    requires k > 0.0 && A > 0.0 && kk == k * k && D == k * A && B == kk * A
    ensures D > 0.0 && Tight(A, B, D)
  {
    Positive(k, A);
    assert (k * A) * (k * A) == A * ((k * k) * A);
  }

  lemma ScaledSquares(k: real, x: real, y: real, kk: real)
    requires y == k * x && kk == k * k
    ensures x * y == k * (x * x) && y * y == kk * (x * x)
  {
    assert (k * x) * (k * x) == (k * k) * (x * x);
  }

  // ------------------------------------------------------------------------
  // The corpus
  // ------------------------------------------------------------------------

  /** A card's tokens (of its title, intents, domain and primitive) and its folded intent phrases. */
  datatype Card = Card(tokens: set<string>, intents: seq<string>)

  /** How many cards have the token. */
  function Frequency(cards: seq<Card>, t: string): nat {
    if cards == [] then 0
    else Frequency(cards[..|cards| - 1], t) + if t in cards[|cards| - 1].tokens then 1 else 0
  }

  function Vocabulary(cards: seq<Card>): set<string> {
    set i, t | 0 <= i < |cards| && t in cards[i].tokens :: t
  }

  /** Of the logarithm only this is used. */
  ghost predicate LogLike(log: real -> real) {
    forall x :: x >= 1.0 ==> log(x) >= 0.0
  }

  function Smoothed(log: real -> real, n: nat, d: nat): real {
    log((1 + n) as real / (1 + d) as real) + 1.0
  }

  /** `len(cards) or 1` */
  function Size(cards: seq<Card>): nat {
    if |cards| == 0 then 1 else |cards|
  }

  function Idf(log: real -> real, cards: seq<Card>): Vector {
    map t | t in Vocabulary(cards) :: Smoothed(log, Size(cards), Frequency(cards, t))
  }

  /** Of the logarithm this is used when weights are compared. */
  ghost predicate Grows(log: real -> real) {
    log(1.0) == 0.0 && forall x, y :: 0.0 < x < y ==> log(x) < log(y)
  }

  lemma SmallerQuotient(n: nat, d: nat, e: nat)
    requires d < e
    ensures (1 + n) as real / (1 + e) as real < (1 + n) as real / (1 + d) as real
  {
    var a, b, c := (1 + n) as real, (1 + d) as real, (1 + e) as real;
    assert a / c * c == a && a / b * b == a;
    if a / c >= a / b {
      assert a / c * c >= a / b * c > a / b * b;
    }
  }

  lemma SmallerWeighsMore(log: real -> real, n: nat, d: nat, e: nat)
    requires Grows(log) && d < e
    ensures Smoothed(log, n, d) > Smoothed(log, n, e)
  {
    SmallerQuotient(n, d, e);
    PositiveQuotient((1 + n) as real, (1 + e) as real);
  }

  lemma PositiveQuotient(x: real, y: real)
    requires x > 0.0 && y > 0.0
    ensures x / y > 0.0
  {
  }

  lemma AllWeighOne(log: real -> real, n: nat)
    requires Grows(log)
    ensures Smoothed(log, n, n) == 1.0
  {
    var x := (1 + n) as real;
    assert x / x == 1.0;
  }

  /** A token found in fewer cards weighs more, and one that every card has weighs exactly 1. */
  lemma RarerWeighsMore(log: real -> real, cards: seq<Card>, t: string, u: string)
    requires Grows(log) && t in Vocabulary(cards) && u in Vocabulary(cards)
    ensures Frequency(cards, t) < Frequency(cards, u) ==> Idf(log, cards)[t] > Idf(log, cards)[u]
    ensures Frequency(cards, t) == |cards| ==> Idf(log, cards)[t] == 1.0
  {
    FrequencyAtMost(cards, t);
    FrequencyAtMost(cards, u);
    if Frequency(cards, t) < Frequency(cards, u) {
      SmallerWeighsMore(log, Size(cards), Frequency(cards, t), Frequency(cards, u));
    }
    AllWeighOne(log, |cards|);
  }

  lemma {:induction false} FrequencyAtMost(cards: seq<Card>, t: string)
    ensures Frequency(cards, t) <= |cards|
    ensures Frequency(cards, t) > 0 <==> t in Vocabulary(cards)
    decreases |cards|
  {
    if cards != [] {
      var n := |cards| - 1;
      FrequencyAtMost(cards[..n], t);
      if t in Vocabulary(cards[..n]) {
        var i :| 0 <= i < n && t in cards[..n][i].tokens;
        assert t in cards[i].tokens;
      }
      if t in Vocabulary(cards) {
        var i :| 0 <= i < |cards| && t in cards[i].tokens;
        assert i < n ==> t in cards[..n][i].tokens;
      }
    }
  }

  lemma RatioAtLeastOne(x: real, y: real)
    requires 0.0 < y <= x
    ensures x / y >= 1.0
  {
  }

  /** No token weighs less than 1: no token is in more cards than there are. */
  lemma IdfAtLeastOne(log: real -> real, cards: seq<Card>, t: string)
    requires LogLike(log) && t in Vocabulary(cards)
    ensures Idf(log, cards)[t] >= 1.0
  {
    FrequencyAtMost(cards, t);
    var n, d := |cards|, Frequency(cards, t);
    assert n != 0;
    RatioAtLeastOne((1 + n) as real, (1 + d) as real);
  }

  method CorpusIdf(log: real -> real, cards: seq<Card>) returns (idf: Vector)
    ensures idf == Idf(log, cards)
  {
    var n := Size(cards);
    var df: map<string, nat> := map[];
    for i := 0 to |cards|
      invariant CountsOf(df, cards[..i])
    {
      assert cards[..i + 1] == cards[..i] + [cards[i]];
      df := CountTokens(df, cards[..i], cards[i]);
    }
    assert cards[..|cards|] == cards;
    forall t ensures t in df <==> t in Vocabulary(cards) { FrequencyAtMost(cards, t); }
    idf := map t | t in df :: Smoothed(log, n, df[t]);
  }

  ghost predicate CountsOf(df: map<string, nat>, cards: seq<Card>) {
    forall t :: (t in df <==> Frequency(cards, t) > 0) && (t in df ==> df[t] == Frequency(cards, t))
  }

  method CountTokens(df: map<string, nat>, ghost cards: seq<Card>, card: Card) returns (r: map<string, nat>)
    requires CountsOf(df, cards)
    ensures CountsOf(r, cards + [card])
  {
    r := df;
    var rest := card.tokens;
    while rest != {}
      invariant rest <= card.tokens
      invariant forall t :: (t in r <==> t in df || t in card.tokens - rest)
      invariant forall t :: t in r ==> r[t] == (if t in df then df[t] else 0) + if t in card.tokens - rest then 1 else 0
      decreases |rest|
    {
      var t :| t in rest;
      r := r[t := (if t in r then r[t] else 0) + 1];
      rest := rest - {t};
    }
    assert (cards + [card])[..|cards|] == cards;
  }

  /** Token count times weight, 0 for tokens outside the corpus. */
  function TfIdf(tokens: multiset<string>, idf: Vector): Vector {
    map t | t in tokens :: Weigh(tokens[t], At(idf, t))
  }

  function Weigh(count: nat, weight: real): real {
    count as real * weight
  }

  /** The tokens may come in any order. */
  method TfidfVector(tokens: multiset<string>, idf: Vector) returns (v: Vector)
    ensures v == TfIdf(tokens, idf)
    ensures forall t :: t in v <==> t in tokens
    ensures forall t :: t in v ==> v[t] == tokens[t] as real * (if t in idf then idf[t] else 0.0)
  {
    var tf: map<string, nat> := map[];
    var rest := tokens;
    while rest != multiset{}
      invariant rest <= tokens
      invariant forall t :: (t in tf <==> rest[t] < tokens[t]) && (t in tf ==> tf[t] == tokens[t] - rest[t])
      decreases |rest|
    {
      var t :| t in rest;
      tf := tf[t := (if t in tf then tf[t] else 0) + 1];
      rest := rest - multiset{t};
    }
    assert forall t :: t in tf <==> t in tokens;
    v := map t | t in tf :: Weigh(tf[t], At(idf, t));
  }

  lemma WeighFacts(count: nat, weight: real)
    requires weight >= 0.0
    ensures Weigh(count, weight) >= 0.0
    ensures count > 0 && weight > 0.0 ==> Weigh(count, weight) > 0.0
  {
  }

  /** The vectors compared here have no negative weight; a card's own has only positive ones. */
  lemma VectorsNonNegative(log: real -> real, cards: seq<Card>, tokens: multiset<string>)
    requires LogLike(log)
    ensures var v := TfIdf(tokens, Idf(log, cards));
            NonNegative(v) && forall t :: t in v && t in Vocabulary(cards) ==> v[t] > 0.0
  {
    var idf := Idf(log, cards);
    forall t | t in tokens ensures Weigh(tokens[t], At(idf, t)) >= 0.0 &&
      (t in Vocabulary(cards) ==> Weigh(tokens[t], At(idf, t)) > 0.0) {
      if t in Vocabulary(cards) { IdfAtLeastOne(log, cards, t); }
      WeighFacts(tokens[t], At(idf, t));
    }
  }

  /** A requirement with exactly a card's tokens is at cosine 1 from it. */
  lemma CardMatchesItself(sqrt: real -> real, log: real -> real, cards: seq<Card>, i: nat)
    requires IsSqrt(sqrt) && LogLike(log) && i < |cards| && cards[i].tokens != {}
    ensures var v := TfIdf(multiset(cards[i].tokens), Idf(log, cards)); CosineOf(sqrt, v, v) == 1.0
  {
    var v := TfIdf(multiset(cards[i].tokens), Idf(log, cards));
    var t :| t in cards[i].tokens;
    assert t in Vocabulary(cards);
    VectorsNonNegative(log, cards, multiset(cards[i].tokens));
    assert t in v && v[t] != 0.0;
    CosineOfSelf(sqrt, v);
  }

  // ------------------------------------------------------------------------
  // Ranking
  // ------------------------------------------------------------------------

  /** Intents that appear verbatim in the requirement. */
  function Phrases(requirement: string, intents: seq<string>): nat {
    if intents == [] then 0
    else Phrases(requirement, intents[..|intents| - 1])
         + if intents[|intents| - 1] != "" && Contains(requirement, intents[|intents| - 1]) then 1 else 0
  }

  method PhraseBonus(requirement: string, card: Card) returns (bonus: real)
    ensures bonus == 2.0 * Phrases(requirement, card.intents) as real
  {
    bonus := 0.0;
    for i := 0 to |card.intents|
      invariant bonus == 2.0 * Phrases(requirement, card.intents[..i]) as real
    {
      assert card.intents[..i + 1][..i] == card.intents[..i];
      if card.intents[i] != "" && Contains(requirement, card.intents[i]) {
        bonus := bonus + 2.0;
      }
    }
    assert card.intents[..|card.intents|] == card.intents;
  }

  /** The functions that are not modelled: square root, logarithm and rounding to four places. */
  datatype Numerics = Numerics(sqrt: real -> real, log: real -> real, round: real -> real)

  /** A folded requirement and its tokens. */
  datatype Query = Query(text: string, tokens: multiset<string>)

  ghost function Score(m: Numerics, q: Query, cards: seq<Card>, c: Card): real {
    var idf := Idf(m.log, cards);
    CosineOf(m.sqrt, TfIdf(q.tokens, idf), TfIdf(multiset(c.tokens), idf)) + 2.0 * Phrases(q.text, c.intents) as real
  }

  type Scored = (real, Card)

  predicate ScoreGe(a: Scored, b: Scored) {
    a.0 >= b.0
  }

  /** Cards above the threshold with their rounded scores, in corpus order. */
  ghost function Kept(m: Numerics, q: Query, cards: seq<Card>, corpus: seq<Card>, least: real): seq<Scored> {
    if cards == [] then []
    else
      var c := cards[|cards| - 1];
      var s := Score(m, q, corpus, c);
      Kept(m, q, cards[..|cards| - 1], corpus, least) + if s > least then [(m.round(s), c)] else []
  }

  /** Python's `s[:k]`, also for negative k. */
  function Take<T>(s: seq<T>, k: int): seq<T> {
    if k >= |s| then s else if k >= 0 then s[..k] else if -k >= |s| then [] else s[..|s| + k]
  }

  function Drop<T>(s: seq<T>, k: int): seq<T> {
    s[|Take(s, k)|..]
  }

  method MatchCards(m: Numerics, q: Query, cards: seq<Card>, topK: int, least: real) returns (out: seq<Scored>)
    ensures out == Take(Sort(ScoreGe, Kept(m, q, cards, cards, least)), topK)
  {
    if cards == [] {
      return [];
    }
    var idf := CorpusIdf(m.log, cards);
    var qv := TfidfVector(q.tokens, idf);
    out := [];
    for i := 0 to |cards|
      invariant out == Kept(m, q, cards[..i], cards, least)
    {
      var cv := TfidfVector(multiset(cards[i].tokens), idf);
      var cosine := ComputeCosine(m.sqrt, qv, cv);
      var bonus := PhraseBonus(q.text, cards[i]);
      var score := cosine + bonus;
      assert score == Score(m, q, cards, cards[i]);
      assert cards[..i + 1][..i] == cards[..i];
      if score > least {
        out := out + [(m.round(score), cards[i])];
      }
    }
    assert cards[..|cards|] == cards;
    out := Take(Sort(ScoreGe, out), topK);
  }

  lemma Parts<T>(s: seq<T>, k: int)
    ensures Take(s, k) + Drop(s, k) == s
    ensures k >= 0 ==> |Take(s, k)| == if k < |s| then k else |s|
    ensures k < 0 ==> |Take(s, k)| == if |s| + k > 0 then |s| + k else 0
  {
  }

  lemma SortedParts(a: seq<Scored>, b: seq<Scored>)
    requires Sorted(ScoreGe, a + b)
    ensures Sorted(ScoreGe, a)
    ensures forall x, y :: x in a && y in b ==> x.0 >= y.0
  {
    var all := a + b;
    assert forall i :: 0 <= i < |a| ==> all[i] == a[i];
    forall x, y | x in a && y in b ensures x.0 >= y.0 {
      var i :| 0 <= i < |a| && a[i] == x;
      var j :| 0 <= j < |b| && b[j] == y;
      assert all[i] == x && all[|a| + j] == y && ScoreGe(all[i], all[|a| + j]);
    }
  }

  ghost predicate BestFirst(s: seq<Scored>) {
    forall i, j :: 0 <= i < j < |s| ==> s[i].0 >= s[j].0
  }

  /** Nothing is left out that scores above something returned, and exactly the surplus is left out. */
  lemma TopIsBest(kept: seq<Scored>, k: int)
    ensures var all := Sort(ScoreGe, kept);
            multiset(Take(all, k)) + multiset(Drop(all, k)) == multiset(kept)
            && (k >= 0 ==> |Take(all, k)| == if k < |kept| then k else |kept|)
            && BestFirst(all) && BestFirst(Take(all, k))
            && forall x, y :: x in Take(all, k) && y in Drop(all, k) ==> x.0 >= y.0
  {
    var all := Sort(ScoreGe, kept);
    SortSorts(ScoreGe, kept);
    Parts(all, k);
    SortedParts(Take(all, k), Drop(all, k));
    SortedIsBestFirst(all);
    SortedIsBestFirst(Take(all, k));
  }

  lemma SortedIsBestFirst(s: seq<Scored>)
    requires Sorted(ScoreGe, s)
    ensures BestFirst(s)
  {
    forall i, j | 0 <= i < j < |s| ensures s[i].0 >= s[j].0 { assert ScoreGe(s[i], s[j]); }
  }

  /** Cards that score alike stay in the order of the corpus. */
  lemma TiesStayInOrder(kept: seq<Scored>, x: Scored)
    ensures Alike(ScoreGe, x, Sort(ScoreGe, kept)) == Alike(ScoreGe, x, kept)
  {
    SortIsStable(ScoreGe, kept, x);
  }

  /** The corpus card at `i`, above the threshold, with its rounded score. */
  ghost predicate KeptAt(m: Numerics, q: Query, corpus: seq<Card>, least: real, x: Scored, i: int) {
    0 <= i < |corpus| && Score(m, q, corpus, corpus[i]) > least &&
      x == (m.round(Score(m, q, corpus, corpus[i])), corpus[i])
  }

  lemma {:induction false} KeptAre(m: Numerics, q: Query, corpus: seq<Card>, least: real, n: nat, x: Scored)
    requires n <= |corpus|
    ensures x in Kept(m, q, corpus[..n], corpus, least) <==> exists i :: i < n && KeptAt(m, q, corpus, least, x, i)
  {
    if n > 0 {
      KeptAre(m, q, corpus, least, n - 1, x);
      KeptNext(m, q, corpus, least, n - 1, x);
      if i :| i < n && KeptAt(m, q, corpus, least, x, i) {
        assert i == n - 1 || (i < n - 1 && KeptAt(m, q, corpus, least, x, i));
      }
    }
  }

  lemma KeptNext(m: Numerics, q: Query, corpus: seq<Card>, least: real, n: nat, x: Scored)
    requires n < |corpus|
    ensures x in Kept(m, q, corpus[..n + 1], corpus, least) <==>
              x in Kept(m, q, corpus[..n], corpus, least) || KeptAt(m, q, corpus, least, x, n)
  {
    assert corpus[..n + 1][..n] == corpus[..n] && corpus[..n + 1][n] == corpus[n];
  }

  ghost predicate RoundsInOrder(m: Numerics) {
    forall x, y :: x <= y ==> m.round(x) <= m.round(y)
  }

  /** What matching returns: corpus cards above the threshold with their rounded scores, best first; and a card above
      the threshold that is not returned has a rounded score no higher than any returned one's, and a truly higher
      score only than cards whose score rounds to the same. */
  lemma MatchReturnsBest(m: Numerics, q: Query, corpus: seq<Card>, topK: int, least: real, out: seq<Scored>)
    requires out == Take(Sort(ScoreGe, Kept(m, q, corpus, corpus, least)), topK) && RoundsInOrder(m)
    ensures BestFirst(out) && forall x :: x in out ==> exists i :: KeptAt(m, q, corpus, least, x, i)
    ensures forall x, y, i, j ::
              x in out && KeptAt(m, q, corpus, least, x, i) && KeptAt(m, q, corpus, least, y, j) && y !in out ==>
                y.0 <= x.0 && (Score(m, q, corpus, corpus[j]) > Score(m, q, corpus, corpus[i]) ==> y.0 == x.0)
  {
    var kept := Kept(m, q, corpus, corpus, least);
    var all := Sort(ScoreGe, kept);
    assert corpus[..|corpus|] == corpus;
    TopIsBest(kept, topK);
    SortMembers(ScoreGe, kept);
    Parts(all, topK);
    forall x | x in out ensures exists i :: KeptAt(m, q, corpus, least, x, i) {
      assert x in all;
      KeptAre(m, q, corpus, least, |corpus|, x);
    }
    forall x, y, i, j | x in out && KeptAt(m, q, corpus, least, x, i) && KeptAt(m, q, corpus, least, y, j) && y !in out
      ensures y.0 <= x.0 && (Score(m, q, corpus, corpus[j]) > Score(m, q, corpus, corpus[i]) ==> y.0 == x.0)
    {
      KeptAre(m, q, corpus, least, |corpus|, y);
      assert y in all && y in Drop(all, topK);
    }
  }

  /** Scores exceed the phrase bonus by at most 1, so a card with more phrases verbatim in the requirement outscores
      every card with fewer, whatever their tokens. */
  lemma PhrasesDominate(m: Numerics, q: Query, cards: seq<Card>, c: Card, d: Card)
    requires IsSqrt(m.sqrt) && LogLike(m.log)
    ensures var bonus := 2.0 * Phrases(q.text, c.intents) as real; bonus <= Score(m, q, cards, c) <= bonus + 1.0
    ensures Phrases(q.text, c.intents) > Phrases(q.text, d.intents) ==> Score(m, q, cards, c) > Score(m, q, cards, d)
  {
    ScoreRange(m, q, cards, c);
    ScoreRange(m, q, cards, d);
  }

  lemma ScoreRange(m: Numerics, q: Query, cards: seq<Card>, c: Card)
    requires IsSqrt(m.sqrt) && LogLike(m.log)
    ensures var bonus := 2.0 * Phrases(q.text, c.intents) as real; bonus <= Score(m, q, cards, c) <= bonus + 1.0
  {
    var idf := Idf(m.log, cards);
    VectorsNonNegative(m.log, cards, q.tokens);
    VectorsNonNegative(m.log, cards, multiset(c.tokens));
    CosineInRange(m.sqrt, TfIdf(q.tokens, idf), TfIdf(multiset(c.tokens), idf));
  }
}
