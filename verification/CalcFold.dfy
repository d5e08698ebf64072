/** The function calc of tcp/calc_server.c: a left fold over 32-bit operands. */
module CalcFold {
  import opened ByteTypes
  import opened Sequences

  /** What calc comes to: a result, behaviour that C leaves undefined, or the exit of errorHandling. */
  datatype Outcome = Value(v: int32) | Undefined | Exit

  const PLUS: byte := 43
  const MINUS: byte := 45
  const TIMES: byte := 42
  const DIVIDE: byte := 47

  predicate Known(opt: byte) { opt == PLUS || opt == MINUS || opt == TIMES || opt == DIVIDE }

  /** Division that truncates towards zero: section 6.5.5 of ISO/IEC 9899:2011. */
  function TruncDiv(a: int, b: int): int
    requires b != 0
  {
    if (a >= 0) == (b > 0) then Abs(a) / Abs(b) else -(Abs(a) / Abs(b))
  }

  function Abs(a: int): nat { if a < 0 then -a else a }

  /** One pass of the loop body; signed overflow and division by zero are undefined. */
  function Apply(opt: byte, a: int32, b: int32): Outcome
    requires Known(opt)
  {
    if opt == DIVIDE && b == 0 then Undefined
    else
      var r := Exactly(opt, a, b);
      if Fits(r) then Value(r) else Undefined
  }

  /** The operation on the integers. */
  function Exactly(opt: byte, a: int, b: int): int
    requires Known(opt) && (opt == DIVIDE ==> b != 0)
  {
    if opt == PLUS then a + b
    else if opt == MINUS then a - b
    else if opt == TIMES then a * b
    else TruncDiv(a, b)
  }

  function Fold(opt: byte, result: int32, rest: seq<int32>): Outcome
    requires Known(opt)
    decreases rest
  {
    if rest == [] then Value(result)
    else
      match Apply(opt, result, rest[0])
      case Value(v) => Fold(opt, v, rest[1..])
      case other => other
  }

  function Calc(opnds: seq<int32>, opt: byte): Outcome
    requires opnds != []
  {
    if Known(opt) then Fold(opt, opnds[0], opnds[1..]) else Exit
  }

  /** calc as written: a loop that updates result, left when the behaviour becomes undefined. */
  method CalcLoop(opnds: seq<int32>, opt: byte) returns (r: Outcome)
    requires opnds != []
    ensures r == Calc(opnds, opt)
  {
    var result := opnds[0];
    if !Known(opt) { return Exit; }
    assert opnds[1..] == opnds[1..][0..];
    for i := 1 to |opnds|
      invariant Fold(opt, result, opnds[i..]) == Calc(opnds, opt)
    {
      match Apply(opt, result, opnds[i]) {
        case Value(v) => result := v;
        case other => return other;
      }
    }
    return Value(result);
  }

  // ----- What the fold computes

  function Product(xs: seq<int>): int { if xs == [] then 1 else xs[0] * Product(xs[1..]) }

  /** The fold over the unbounded integers. */
  function MathFold(opt: byte, a: int, rest: seq<int>): int
    requires Known(opt) && (opt == DIVIDE ==> 0 !in rest)
    decreases rest
  {
    if rest == [] then a else MathFold(opt, Exactly(opt, a, rest[0]), rest[1..])
  }

  /** Every intermediate result is a 32-bit integer, and no divisor is zero. */
  ghost predicate AllFit(opt: byte, a: int, rest: seq<int>)
    requires Known(opt)
  {
    && (opt == DIVIDE ==> 0 !in rest)
    && forall k :: 0 <= k <= |rest| ==> Fits(MathFold(opt, a, rest[..k]))
  }

  lemma AllFitTail(opt: byte, a: int32, rest: seq<int32>)
    requires Known(opt) && rest != [] && (opt == DIVIDE ==> 0 !in rest)
    requires Fits(Exactly(opt, a, rest[0]))
    ensures AllFit(opt, a, rest) <==> AllFit(opt, Exactly(opt, a, rest[0]), rest[1..])
  {
    var b := Exactly(opt, a, rest[0]);
    forall k: nat | k < |rest|
      ensures MathFold(opt, a, rest[..k + 1]) == MathFold(opt, b, rest[1..][..k])
    {
      assert rest[..k + 1][1..] == rest[1..][..k];
    }
    if AllFit(opt, b, rest[1..]) {
      forall k | 0 <= k <= |rest|
        ensures Fits(MathFold(opt, a, rest[..k]))
      {
        if k > 0 { assert Fits(MathFold(opt, b, rest[1..][..k - 1])); }
      }
    }
    if AllFit(opt, a, rest) {
      forall k | 0 <= k <= |rest[1..]|
        ensures Fits(MathFold(opt, b, rest[1..][..k]))
      {
        assert Fits(MathFold(opt, a, rest[..k + 1]));
      }
    }
  }

  /** calc is defined exactly when every intermediate result fits, and then it is the integer fold. */
  lemma {:induction false} FoldExact(opt: byte, a: int32, rest: seq<int32>)
    requires Known(opt)
    ensures Fold(opt, a, rest).Value? <==> AllFit(opt, a, rest)
    ensures Fold(opt, a, rest).Value? ==> Fold(opt, a, rest).v == MathFold(opt, a, rest)
    decreases rest
  {
    if rest == [] {
    } else if opt == DIVIDE && rest[0] == 0 {
    } else if !Fits(Exactly(opt, a, rest[0])) {
      if opt == DIVIDE ==> 0 !in rest {
        assert MathFold(opt, a, rest[..1]) == MathFold(opt, Exactly(opt, a, rest[0]), rest[..1][1..]);
      }
    } else {
      var b := Exactly(opt, a, rest[0]);
      FoldExact(opt, b, rest[1..]);
      if opt == DIVIDE ==> 0 !in rest { AllFitTail(opt, a, rest); }
    }
  }

  lemma {:induction false} PlusFold(a: int, rest: seq<int>)
    ensures MathFold(PLUS, a, rest) == a + Sum(rest)
    decreases rest
  {
    if rest == [] {
    } else {
      PlusFold(a + rest[0], rest[1..]);
    }
  }

  lemma {:induction false} MinusFold(a: int, rest: seq<int>)
    ensures MathFold(MINUS, a, rest) == a - Sum(rest)
    decreases rest
  {
    if rest == [] {
    } else {
      MinusFold(a - rest[0], rest[1..]);
    }
  }

  lemma {:induction false} TimesFold(a: int, rest: seq<int>)
    ensures MathFold(TIMES, a, rest) == a * Product(rest)
    decreases rest
  {
    if rest == [] {
    } else {
      TimesFold(a * rest[0], rest[1..]);
    }
  }

  // ----- Truncating division

  lemma MulSwap(r: int, b: int, c: int)
    ensures r * (b * c) == (r * c) * b
  {
  }

  lemma QuotientBounds(d: nat, m: nat)
    requires m > 0
    ensures (d / m) * m <= d < (d / m + 1) * m
  {
  }

  /** The quotient is the only r with r * m <= d < (r + 1) * m. */
  lemma QuotientUnique(d: nat, m: nat, r: nat)
    requires m > 0 && r * m <= d < (r + 1) * m
    ensures d / m == r
  {
    var q := d / m;
    QuotientBounds(d, m);
    if q < r { MulMono(m, q + 1, r); assert false; }
    if r < q { MulMono(m, r + 1, q); assert false; }
  }

  /** q and r bound a as a quotient by b * c would. */
  lemma NestedBounds(a: int, b: nat, c: nat, q: int, r: int)
    requires q * b <= a < (q + 1) * b && r * c <= q < (r + 1) * c
    ensures r * (b * c) <= a < (r + 1) * (b * c)
  {
    MulMono(b, r * c, q);
    MulMono(b, q + 1, (r + 1) * c);
    MulSwap(r, b, c);
    MulSwap(r + 1, b, c);
  }

  lemma DivTwice(a: nat, b: nat, c: nat)
    requires b > 0 && c > 0
    ensures b * c > 0 && a / b / c == a / (b * c)
  {
    var q := a / b;
    var r := q / c;
    QuotientBounds(a, b);
    QuotientBounds(q, c);
    PositiveProduct(b, c);
    NestedBounds(a, b, c, q, r);
    QuotientUnique(a, b * c, r);
  }

  lemma PositiveProduct(b: nat, c: nat)
    requires b > 0 && c > 0
    ensures b * c > 0
  {
  }

  lemma SignProduct(b: int, c: int)
    requires b != 0 && c != 0
    ensures b * c != 0 && (b * c > 0 <==> (b > 0) == (c > 0))
    ensures Abs(b * c) == Abs(b) * Abs(c)
  {
  }

  /** Only the signs matter once the magnitudes are q of the first division and n of both. */
  lemma TruncDivSigns(a: int, b: int, c: int, q: nat, n: nat)
    requires b != 0 && c != 0 && b * c != 0 && (b * c > 0 <==> (b > 0) == (c > 0))
    requires q == Abs(a) / Abs(b) && n == q / Abs(c) && n == Abs(a) / Abs(b * c)
    ensures TruncDiv(TruncDiv(a, b), c) == TruncDiv(a, b * c)
  {
    var t := TruncDiv(a, b);
    assert Abs(t) == q;
    if q == 0 { assert n == 0; }
  }

  lemma TruncDivTwice(a: int, b: int, c: int)
    requires b != 0 && c != 0
    ensures b * c != 0 && TruncDiv(TruncDiv(a, b), c) == TruncDiv(a, b * c)
  {
    DivTwice(Abs(a), Abs(b), Abs(c));
    SignProduct(b, c);
    TruncDivSigns(a, b, c, Abs(a) / Abs(b), Abs(a) / Abs(b) / Abs(c));
  }

  lemma {:induction false} ProductNonzero(xs: seq<int>)
    requires 0 !in xs
    ensures Product(xs) != 0
  {
    if xs == [] {
    } else {
      ProductNonzero(xs[1..]);
      SignProduct(xs[0], Product(xs[1..]));
    }
  }

  /** Dividing by one divisor after another is one truncating division by their product. */
  lemma {:induction false} DivideFold(a: int, rest: seq<int>)
    requires 0 !in rest
    ensures Product(rest) != 0 && MathFold(DIVIDE, a, rest) == TruncDiv(a, Product(rest))
    decreases rest
  {
    ProductNonzero(rest);
    if rest == [] {
    } else {
      DivideFold(TruncDiv(a, rest[0]), rest[1..]);
      TruncDivTwice(a, rest[0], Product(rest[1..]));
    }
  }

  // ----- The results of calc

  /** The sum, the difference with the sum of the rest, the product, or the quotient by the product of the rest. */
  ghost predicate IsResult(opnds: seq<int32>, opt: byte, v: int)
    requires opnds != []
  {
    var rest := opnds[1..];
    && Known(opt)
    && (opt == PLUS ==> v == Sum(opnds))
    && (opt == MINUS ==> v == opnds[0] - Sum(rest))
    && (opt == TIMES ==> v == Product(opnds))
    && (opt == DIVIDE ==> Product(rest) != 0 && v == TruncDiv(opnds[0], Product(rest)))
  }

  /** Whenever calc returns a number it is the one that arithmetic on the operands gives. */
  lemma CalcClosedForm(opnds: seq<int32>, opt: byte)
    requires opnds != [] && Calc(opnds, opt).Value?
    ensures IsResult(opnds, opt, Calc(opnds, opt).v)
  {
    var a, rest := opnds[0], opnds[1..];
    FoldExact(opt, a, rest);
    PlusFold(a, rest);
    MinusFold(a, rest);
    TimesFold(a, rest);
    if opt == DIVIDE { DivideFold(a, rest); }
  }

  /** calc returns a number exactly if the operator is known and no intermediate result leaves 32 bits. */
  lemma CalcDefined(opnds: seq<int32>, opt: byte)
    requires opnds != []
    ensures Calc(opnds, opt).Value? <==> Known(opt) && AllFit(opt, opnds[0], opnds[1..])
    ensures Calc(opnds, opt).Exit? <==> !Known(opt)
  {
    if Known(opt) { FoldExact(opt, opnds[0], opnds[1..]); }
    NoExit(opt, opnds[0], opnds[1..]);
  }

  lemma {:induction false} NoExit(opt: byte, a: int32, rest: seq<int32>)
    ensures Known(opt) ==> !Fold(opt, a, rest).Exit?
    decreases rest
  {
    if !Known(opt) || rest == [] {
    } else {
      match Apply(opt, a, rest[0])
      case Value(v) => NoExit(opt, v, rest[1..]);
      case _ =>
    }
  }

  /** The first divisor other than 1. */
  function FirstNotOne(xs: seq<int>): int { if xs == [] then 1 else if xs[0] != 1 then xs[0] else FirstNotOne(xs[1..]) }

  lemma QuotientHalves(d: nat, m: nat)
    requires m >= 2
    ensures 2 * (d / m) <= d
  {
    var q := d / m;
    assert q * m <= d by { QuotientBounds(d, m); }
    TwiceAtMost(d, m, q);
  }

  lemma TwiceAtMost(d: nat, m: nat, q: nat)
    requires m >= 2 && q * m <= d
    ensures 2 * q <= d
  {
    MulMono(q, 2, m);
  }

  lemma EitherSign(a: int, b: int, q: int)
    requires b != 0 && q == Abs(a) / Abs(b)
    ensures TruncDiv(a, b) == q || TruncDiv(a, b) == -q
  {
  }

  lemma DivideByMore(a: int, b: int)
    requires -0x8000_0000 <= a <= 0x7FFF_FFFF && Abs(b) >= 2
    ensures -0x4000_0000 <= TruncDiv(a, b) <= 0x4000_0000
  {
    QuotientHalves(Abs(a), Abs(b));
    EitherSign(a, b, Abs(a) / Abs(b));
  }

  lemma DivideByOne(a: int)
    ensures TruncDiv(a, 1) == a && TruncDiv(a, -1) == 0 - a
  {
  }

  lemma DivideStep(a: int, b: int)
    requires Fits(a) && b != 0
    ensures Fits(TruncDiv(a, b)) <==> !(a == INT_MIN && b == -1)
    ensures TruncDiv(a, b) == INT_MIN <==> a == INT_MIN && b == 1
  {
    if Abs(b) >= 2 { DivideByMore(a, b); } else { DivideByOne(a); }
  }

  /** Division fails only for a zero divisor, or when INT_MIN is divided by -1 before any other division. */
  lemma {:induction false} DivideDefined(a: int32, rest: seq<int32>)
    ensures Fold(DIVIDE, a, rest).Value? <==> 0 !in rest && !(a == INT_MIN && FirstNotOne(rest) == -1)
    decreases rest
  {
    if rest == [] || rest[0] == 0 {
    } else {
      DivideStep(a, rest[0]);
      if rest[0] == 1 { assert TruncDiv(a, 1) == a; }
      if Fits(TruncDiv(a, rest[0])) { DivideDefined(TruncDiv(a, rest[0]), rest[1..]); }
    }
  }

  function Total(opt: byte, xs: seq<int>): int
    requires opt == PLUS || opt == TIMES
  {
    if opt == PLUS then Sum(xs) else Product(xs)
  }

  /** Any element may be taken first. */
  lemma {:induction false} TotalTake(opt: byte, xs: seq<int>, j: nat)
    requires (opt == PLUS || opt == TIMES) && j < |xs|
    ensures Total(opt, xs) == Exactly(opt, xs[j], Total(opt, xs[..j] + xs[j + 1..]))
    decreases j
  {
    var others := xs[..j] + xs[j + 1..];
    if j == 0 {
      assert others == xs[1..];
    } else {
      TotalTake(opt, xs[1..], j - 1);
      assert others[0] == xs[0] && others[1..] == xs[1..][..j - 1] + xs[1..][j..];
      MulSwap(xs[0], xs[j], Total(opt, others[1..]));
    }
  }

  lemma WithoutOne(xs: seq<int>, j: nat)
    requires j < |xs|
    ensures multiset(xs[..j] + xs[j + 1..]) == multiset(xs) - multiset{xs[j]}
  {
    assert xs == xs[..j] + [xs[j]] + xs[j + 1..];
    assert multiset(xs) == multiset(xs[..j] + xs[j + 1..]) + multiset{xs[j]};
  }

  lemma DropSame(xs: seq<int>, ys: seq<int>, j: nat)
    requires xs != [] && j < |ys| && ys[j] == xs[0] && multiset(xs) == multiset(ys)
    ensures multiset(xs[1..]) == multiset(ys[..j] + ys[j + 1..])
  {
    WithoutOne(xs, 0);
    WithoutOne(ys, j);
    assert xs[..0] + xs[1..] == xs[1..];
  }

  lemma {:induction false} TotalPermutes(opt: byte, xs: seq<int>, ys: seq<int>)
    requires (opt == PLUS || opt == TIMES) && multiset(xs) == multiset(ys)
    ensures Total(opt, xs) == Total(opt, ys)
    decreases |xs|
  {
    assert |multiset(xs)| == |xs| == |ys|;
    if xs == [] {
    } else {
      assert xs[0] in multiset(ys);
      var j :| 0 <= j < |ys| && ys[j] == xs[0];
      TotalTake(opt, ys, j);
      DropSame(xs, ys, j);
      TotalPermutes(opt, xs[1..], ys[..j] + ys[j + 1..]);
    }
  }

  /** The order of the operands of + and * does not matter, as long as both orders stay within 32 bits. */
  lemma OrderIrrelevant(xs: seq<int32>, ys: seq<int32>, opt: byte)
    requires xs != [] && ys != [] && multiset(xs) == multiset(ys) && (opt == PLUS || opt == TIMES)
    requires Calc(xs, opt).Value? && Calc(ys, opt).Value?
    ensures Calc(xs, opt) == Calc(ys, opt)
  {
    CalcClosedForm(xs, opt);
    CalcClosedForm(ys, opt);
    TotalPermutes(opt, xs, ys);
  }

  // ----- When + and * are defined in every order

  predicate Positive(x: int) { x > 0 }

  predicate NotPositive(x: int) { x <= 0 }

  predicate Zero(x: int) { x == 0 }

  predicate NonZero(x: int) { x != 0 }

  /** The elements to keep, in order. */
  function Select(xs: seq<int32>, keep: int -> bool): (r: seq<int32>)
    ensures forall x :: x in r ==> keep(x)
  {
    if xs == [] then [] else (if keep(xs[0]) then [xs[0]] else []) + Select(xs[1..], keep)
  }

  lemma {:induction false} SelectCounts(xs: seq<int32>, keep: int -> bool, x: int32)
    ensures multiset(Select(xs, keep))[x] == if keep(x) then multiset(xs)[x] else 0
  {
    if xs == [] {
    } else {
      SelectCounts(xs[1..], keep, x);
      assert xs == [xs[0]] + xs[1..];
    }
  }

  /** The selected elements of a permutation are a permutation of the selected elements. */
  lemma SelectPermutes(opt: byte, xs: seq<int32>, ys: seq<int32>, keep: int -> bool)
    requires multiset(xs) == multiset(ys) && (opt == PLUS || opt == TIMES)
    ensures Total(opt, Select(xs, keep)) == Total(opt, Select(ys, keep))
  {
    forall x: int32
      ensures multiset(Select(xs, keep))[x] == multiset(Select(ys, keep))[x]
    {
      SelectCounts(xs, keep, x);
      SelectCounts(ys, keep, x);
    }
    assert multiset(Select(xs, keep)) == multiset(Select(ys, keep));
    TotalPermutes(opt, Select(xs, keep), Select(ys, keep));
  }

  /** One kind first and then the other is an order of the elements. */
  lemma SelectedFirst(xs: seq<int32>, keep: int -> bool, other: int -> bool)
    requires forall x: int32 :: keep(x) <==> !other(x)
    ensures multiset(Select(xs, keep) + Select(xs, other)) == multiset(xs)
  {
    forall x: int32
      ensures multiset(Select(xs, keep) + Select(xs, other))[x] == multiset(xs)[x]
    {
      SelectCounts(xs, keep, x);
      SelectCounts(xs, other, x);
    }
  }

  lemma TotalFront(opt: byte, x: int, xs: seq<int>)
    requires opt == PLUS || opt == TIMES
    ensures Total(opt, [x] + xs) == Exactly(opt, x, Total(opt, xs))
  {
    assert ([x] + xs)[1..] == xs;
  }

  lemma SelectOne(opt: byte, xs: seq<int32>, keep: int -> bool)
    requires xs != [] && (opt == PLUS || opt == TIMES)
    ensures var rest := Total(opt, Select(xs[1..], keep));
            Total(opt, Select(xs, keep)) == if keep(xs[0]) then Exactly(opt, xs[0], rest) else rest
  {
    var rest := Select(xs[1..], keep);
    if keep(xs[0]) {
      TotalFront(opt, xs[0], rest);
      assert Select(xs, keep) == [xs[0]] + rest;
    } else {
      assert Select(xs, keep) == rest;
    }
  }

  /** The first k elements, of which there is at least one. */
  lemma TakeOne(opt: byte, xs: seq<int32>, k: nat)
    requires 0 < k <= |xs| && (opt == PLUS || opt == TIMES)
    ensures Total(opt, xs[..k]) == Exactly(opt, xs[0], Total(opt, xs[1..][..k - 1]))
  {
    TotalFront(opt, xs[0], xs[1..][..k - 1]);
    assert xs[..k] == [xs[0]] + xs[1..][..k - 1];
  }

  /** Every partial result fits. */
  ghost predicate PartialsFit(opt: byte, xs: seq<int32>)
    requires opt == PLUS || opt == TIMES
  {
    forall k :: 1 <= k <= |xs| ==> Fits(Total(opt, xs[..k]))
  }

  /** calc adds or multiplies without overflow exactly if every partial result fits. */
  lemma PartialsDefine(opt: byte, xs: seq<int32>)
    requires xs != [] && (opt == PLUS || opt == TIMES)
    ensures Calc(xs, opt).Value? <==> PartialsFit(opt, xs)
  {
    CalcDefined(xs, opt);
    var a, rest := xs[0], xs[1..];
    forall k: nat | k <= |rest|
      ensures MathFold(opt, a, rest[..k]) == Total(opt, xs[..k + 1])
    {
      PlusFold(a, rest[..k]);
      TimesFold(a, rest[..k]);
      TakeOne(opt, xs, k + 1);
    }
    if Calc(xs, opt).Value? {
      forall k | 1 <= k <= |xs|
        ensures Fits(Total(opt, xs[..k]))
      {
        assert Fits(MathFold(opt, a, rest[..k - 1]));
      }
    }
  }

  /** An order that begins with ys has the total of ys as a partial result. */
  lemma PartialOfOrder(opt: byte, ys: seq<int32>, zs: seq<int32>)
    requires (opt == PLUS || opt == TIMES) && ys + zs != [] && Calc(ys + zs, opt).Value?
    ensures Fits(Total(opt, ys))
  {
    PartialsDefine(opt, ys + zs);
    assert (ys + zs)[..|ys|] == ys;
    if ys != [] { assert Fits(Total(opt, (ys + zs)[..|ys|])); }
  }

  /** Every order of the operands is defined. */
  ghost predicate AnyOrder(opt: byte, xs: seq<int32>) {
    forall ys: seq<int32> :: multiset(ys) == multiset(xs) && ys != [] ==> Calc(ys, opt).Value?
  }

  lemma {:induction false} SelectedSigns(xs: seq<int32>)
    ensures Sum(Select(xs, NotPositive)) <= 0 <= Sum(Select(xs, Positive))
  {
    if xs == [] {
    } else {
      SelectedSigns(xs[1..]);
      SelectOne(PLUS, xs, Positive);
      SelectOne(PLUS, xs, NotPositive);
    }
  }

  /** A partial sum lies between the sum of the elements that are not positive and that of the positive ones. */
  lemma {:induction false} PartialSumBounds(xs: seq<int32>, k: nat)
    requires k <= |xs|
    ensures Sum(Select(xs, NotPositive)) <= Sum(xs[..k]) <= Sum(Select(xs, Positive))
    decreases xs
  {
    if k == 0 {
      SelectedSigns(xs);
    } else {
      PartialSumBounds(xs[1..], k - 1);
      SelectOne(PLUS, xs, Positive);
      SelectOne(PLUS, xs, NotPositive);
      TakeOne(PLUS, xs, k);
    }
  }

  lemma SumsBetween(xs: seq<int32>, ys: seq<int32>)
    requires multiset(ys) == multiset(xs) && ys != []
    requires Sum(Select(xs, Positive)) <= INT_MAX && Sum(Select(xs, NotPositive)) >= INT_MIN
    ensures Calc(ys, PLUS).Value?
  {
    SelectPermutes(PLUS, ys, xs, Positive);
    SelectPermutes(PLUS, ys, xs, NotPositive);
    forall k | 1 <= k <= |ys|
      ensures Fits(Total(PLUS, ys[..k]))
    {
      PartialSumBounds(ys, k);
    }
    PartialsDefine(PLUS, ys);
  }

  /** Some order has the sum of the elements to keep as a partial sum. */
  lemma KeptFirst(xs: seq<int32>, keep: int -> bool, other: int -> bool)
    requires xs != [] && AnyOrder(PLUS, xs) && forall x: int32 :: keep(x) <==> !other(x)
    ensures Fits(Sum(Select(xs, keep)))
  {
    var first, rest := Select(xs, keep), Select(xs, other);
    SelectedFirst(xs, keep, other);
    assert |multiset(first + rest)| == |multiset(xs)| == |xs|;
    PartialOfOrder(PLUS, first, rest);
  }

  /**
   The sum is defined whatever the order of the operands, if and only if the positive operands alone do not
   exceed INT_MAX and the negative ones alone do not fall below INT_MIN.
   */
  lemma AnyOrderDefined(xs: seq<int32>)
    requires xs != []
    ensures AnyOrder(PLUS, xs) <==>
            Sum(Select(xs, Positive)) <= INT_MAX && Sum(Select(xs, NotPositive)) >= INT_MIN
  {
    if AnyOrder(PLUS, xs) {
      KeptFirst(xs, Positive, NotPositive);
      KeptFirst(xs, NotPositive, Positive);
    } else {
      var ys: seq<int32> :| multiset(ys) == multiset(xs) && ys != [] && !Calc(ys, PLUS).Value?;
      if Sum(Select(xs, Positive)) <= INT_MAX && Sum(Select(xs, NotPositive)) >= INT_MIN {
        SumsBetween(xs, ys);
        assert false;
      }
    }
  }

  // ----- Products

  /** A partial product is 0, or it divides the product of all nonzero elements. */
  lemma {:induction false} PartialProductDivides(xs: seq<int32>, k: nat) returns (q: int, others: seq<int32>)
    requires k <= |xs|
    ensures others == Select(xs[k..], NonZero) && q == Product(others)
    ensures Product(xs[..k]) == 0 || Product(xs[..k]) * q == Product(Select(xs, NonZero))
    decreases xs
  {
    others := Select(xs[k..], NonZero);
    q := Product(others);
    if k == 0 {
      assert xs[0..] == xs;
    } else {
      var q1, others1 := PartialProductDivides(xs[1..], k - 1);
      assert xs[1..][k - 1..] == xs[k..];
      TakeOne(TIMES, xs, k);
      SelectOne(TIMES, xs, NonZero);
      MulAssoc(xs[0], Product(xs[1..][..k - 1]), q);
    }
  }

  lemma MulAssoc(a: int, b: int, c: int)
    ensures (a * b) * c == a * (b * c)
    ensures b == 0 ==> a * b == 0
    ensures a == 0 ==> a * b == 0
  {
  }

  lemma UnitFactors(a: int, b: int)
    requires a * b == -1
    ensures a == 1 || a == -1
  {
    SignProduct(a, b);
    if Abs(a) >= 2 { MulMono(Abs(b), 2, Abs(a)); }
  }

  /** Only with a factor -1 is a product of integers -1. */
  lemma {:induction false} MinusOneFactor(xs: seq<int>)
    requires Product(xs) == -1
    ensures -1 in xs
  {
    if xs == [] {
    } else {
      UnitFactors(xs[0], Product(xs[1..]));
      if xs[0] == 1 { MinusOneFactor(xs[1..]); }
    }
  }

  /** A divisor of p is no larger, and it is the opposite of p only with quotient -1. */
  lemma DivisorFits(a: int, q: int, p: int)
    requires a * q == p && p != 0 && Fits(p) && !(p == INT_MIN && q == -1)
    ensures Fits(a)
  {
    SignProduct(a, q);
    if Abs(q) == 1 {
    } else {
      MulMono(Abs(a), 2, Abs(q));
    }
  }

  lemma PartialProductsFit(xs: seq<int32>, k: nat)
    requires k <= |xs| && Fits(Product(Select(xs, NonZero)))
    requires Product(Select(xs, NonZero)) == INT_MIN ==> -1 !in xs
    ensures Fits(Product(xs[..k]))
  {
    ProductNonzero(Select(xs, NonZero));
    var q, others := PartialProductDivides(xs, k);
    if Product(xs[..k]) != 0 {
      if q == -1 {
        MinusOneFactor(others);
        SelectCounts(xs[k..], NonZero, -1);
        assert multiset(others)[-1] > 0;
        assert -1 in xs[k..];
      }
      DivisorFits(Product(xs[..k]), q, Product(Select(xs, NonZero)));
    }
  }

  /** All but one nonzero element, then that, then the zeros. */
  lemma LastNonZero(xs: seq<int32>, j: nat) returns (first: seq<int32>, rest: seq<int32>)
    requires j < |Select(xs, NonZero)|
    ensures multiset(first + rest) == multiset(xs) && first + rest != []
    ensures Product(Select(xs, NonZero)) == Select(xs, NonZero)[j] * Product(first)
  {
    var all, zeros := Select(xs, NonZero), Select(xs, Zero);
    first, rest := all[..j] + all[j + 1..], [all[j]] + zeros;
    TotalTake(TIMES, all, j);
    SelectedFirst(xs, NonZero, Zero);
    assert all == all[..j] + [all[j]] + all[j + 1..];
    assert multiset(all) == multiset(first) + multiset{all[j]};
    assert multiset(first + rest) == multiset(first) + multiset{all[j]} + multiset(zeros);
    assert multiset(all + zeros) == multiset(all) + multiset(zeros);
  }

  lemma ProductsFit(xs: seq<int32>, ys: seq<int32>)
    requires multiset(ys) == multiset(xs) && ys != []
    requires Fits(Product(Select(xs, NonZero))) && (Product(Select(xs, NonZero)) == INT_MIN ==> -1 !in xs)
    ensures Calc(ys, TIMES).Value?
  {
    SelectPermutes(TIMES, ys, xs, NonZero);
    assert -1 in ys ==> -1 in multiset(xs);
    forall k | 1 <= k <= |ys|
      ensures Fits(Total(TIMES, ys[..k]))
    {
      PartialProductsFit(ys, k);
    }
    PartialsDefine(TIMES, ys);
  }

  /** Some order has the product of all nonzero elements as a partial product. */
  lemma NonZeroFirst(xs: seq<int32>)
    requires xs != [] && AnyOrder(TIMES, xs)
    ensures Fits(Product(Select(xs, NonZero)))
  {
    var all, zeros := Select(xs, NonZero), Select(xs, Zero);
    SelectedFirst(xs, NonZero, Zero);
    assert |multiset(all + zeros)| == |multiset(xs)| == |xs|;
    PartialOfOrder(TIMES, all, zeros);
  }

  /** And if -1 is among them, some order has the product of the others. */
  lemma MinusOneLast(xs: seq<int32>)
    requires -1 in xs && AnyOrder(TIMES, xs)
    ensures Product(Select(xs, NonZero)) != INT_MIN
  {
    var all := Select(xs, NonZero);
    SelectCounts(xs, NonZero, -1);
    assert -1 in multiset(all);
    var j :| 0 <= j < |all| && all[j] == -1;
    var first, rest := LastNonZero(xs, j);
    PartialOfOrder(TIMES, first, rest);
  }

  /**
   The product is defined whatever the order of the operands, if and only if the product of the nonzero ones
   fits and, where it is INT_MIN, no operand is -1: multiplied last, that would meet 2^31 before.
   */
  lemma AnyOrderTimes(xs: seq<int32>)
    requires xs != []
    ensures var p := Product(Select(xs, NonZero)); AnyOrder(TIMES, xs) <==> Fits(p) && !(p == INT_MIN && -1 in xs)
  {
    if AnyOrder(TIMES, xs) {
      NonZeroFirst(xs);
      if -1 in xs { MinusOneLast(xs); }
    } else {
      var ys: seq<int32> :| multiset(ys) == multiset(xs) && ys != [] && !Calc(ys, TIMES).Value?;
      var p := Product(Select(xs, NonZero));
      if Fits(p) && !(p == INT_MIN && -1 in xs) {
        ProductsFit(xs, ys);
        assert false;
      }
    }
  }
}
