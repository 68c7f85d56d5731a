/**
  What the operators mean: laws that pin down the arithmetic on wrapping 64-bit
  numbers, the comparisons, and how far `=` is equality.
 */
module Operators {
  import opened Words
  import opened Values

  function Number(r: Outcome<Value>): uword
    requires r.Done? && r.value.Long?
  {
    r.value.n
  }

  /** Subtracting what was added gives the number back, wrapped or not. */
  lemma SubtractUndoesAdd(a: uword, b: uword)
    ensures
      var sum := ExecBinary(Add, Long(a), Long(b));
      && sum.Done? && sum.value.Long?
      && ExecBinary(Subtract, sum.value, Long(b)) == Done(Long(a))
      && (a + b < TWO_TO_64 ==> Number(sum) == a + b)
  {
  }

  /** Multiplication is repeated addition. */
  lemma MultiplyAddsAgain(a: uword, b: uword)
    requires b + 1 < TWO_TO_64
    ensures ExecBinary(Multiply, Long(a), Long(0)) == Done(Long(0))
    ensures
      var product := ExecBinary(Multiply, Long(a), Long(b));
      && product.Done? && product.value.Long?
      && ExecBinary(Multiply, Long(a), Long(b + 1)) == ExecBinary(Add, product.value, Long(a))
  {
    assert a * (b + 1) == a * b + a;
    AddedModulo(a * b, a, TWO_TO_64);
  }

  lemma AddedModulo(n: nat, a: nat, m: nat)
    requires m > 0
    ensures (n + a) % m == (n % m + a) % m
  {
    var r := n % m + a;
    var p, q := n / m, r / m;
    assert n + a == p * m + r && r == q * m + r % m;
    assert p * m + q * m == (p + q) * m;
    ModuloUnique(n + a, m, p + q, r % m);
  }

  /** Quotient and remainder make up the dividend; only zero cannot be divided by. */
  lemma DivisionIsExact(a: uword, b: uword)
    ensures ExecBinary(Divide, Long(a), Long(b)).Crash? <==> b == 0
    ensures ExecBinary(Modulus, Long(a), Long(b)).Crash? <==> b == 0
    ensures
      b != 0 ==>
        var q, r := ExecBinary(Divide, Long(a), Long(b)), ExecBinary(Modulus, Long(a), Long(b));
        && q.Done? && q.value.Long? && r.Done? && r.value.Long?
        && Number(r) < b && Number(q) * b + Number(r) == a
  {
    if b != 0 {
      var q, r := Quotient(a, b);
      assert Arithmetic(Divide, Long(a), Long(b)) == Done(Long(q));
      assert Arithmetic(Modulus, Long(a), Long(b)) == Done(Long(r));
    }
  }

  lemma Quotient(a: nat, b: nat) returns (q: nat, r: nat)
    requires b > 0
    ensures q == a / b && r == a % b && q * b + r == a && r < b && q <= a
  {
    q, r := a / b, a % b;
    AtLeast(q, b);
  }

  lemma AtLeast(q: nat, b: nat)
    requires b > 0
    ensures q * b >= q
  {
    assert q * b == q + q * (b - 1);
  }

  /** The four comparisons order numbers as unsigned ones, and crash on anything else. */
  lemma ComparisonsOrder(x: Value, y: Value)
    ensures
      forall op :: op in {LessThan, LessThanEqual, GreaterThan, GreaterThanEqual} ==>
        (ExecBinary(op, x, y).Crash? <==> !(x.Long? && y.Long?))
    ensures
      x.Long? && y.Long? ==>
        && ExecBinary(LessThan, x, y) == Done(Bool(x.n < y.n))
        && ExecBinary(GreaterThan, x, y) == ExecBinary(LessThan, y, x)
        && ExecBinary(LessThanEqual, x, y) == Done(Bool(!(y.n < x.n)))
        && ExecBinary(GreaterThanEqual, x, y) == ExecBinary(LessThanEqual, y, x)
  {
  }

  predicate HasProcedure(v: Value) {
    v.Proc? || (v.Pair? && (HasProcedure(v.car) || HasProcedure(v.cdr)))
  }

  predicate HasNull(v: Value) {
    v.Null? || (v.Pair? && (HasNull(v.car) || HasNull(v.cdr)))
  }

  predicate HasSymbol(v: Value) {
    v.Symbol? || (v.Pair? && (HasSymbol(v.car) || HasSymbol(v.cdr)))
  }

  /** `y` is `x`, but for symbols in the place of strings that are their names. */
  predicate Alike(x: Value, y: Value) {
    match x
    case Str(s) => y == x || y == Symbol(s)
    case Pair(a, d) => y.Pair? && Alike(a, y.car) && Alike(d, y.cdr)
    case _ => y == x
  }

  /** Without symbols to take for strings, alike is the same. */
  lemma {:induction false} AlikeIsSame(x: Value, y: Value)
    requires !HasSymbol(y)
    ensures Alike(x, y) <==> x == y
    decreases x
  {
    if x.Pair? && y.Pair? {
      AlikeIsSame(x.car, y.car);
      AlikeIsSame(x.cdr, y.cdr);
    }
  }

  /** On values without procedures `=` decides equality, but for strings and symbols, whenever it returns at all. */
  lemma {:induction false} EqualsDecides(x: Value, y: Value)
    requires !HasProcedure(x) && EqualTo(x, Some(y)).Done?
    ensures EqualTo(x, Some(y)).value <==> Alike(x, y)
    ensures !HasSymbol(y) ==> (EqualTo(x, Some(y)).value <==> x == y)
    decreases x
  {
    if x.Pair? && y.Pair? {
      EqualsDecides(x.car, y.car);
      if EqualTo(x.car, Some(y.car)).value {
        EqualsDecides(x.cdr, y.cdr);
      }
    } else if x.Pair? && y.Null? {
      EqualsNothing(x.car);
    }
    if !HasSymbol(y) { AlikeIsSame(x, y); }
  }

  /** `=` is not symmetric: a string equals the symbol of its name, the symbol does not equal the string. */
  lemma StringEqualsSymbol(s: string)
    ensures EqualTo(Str(s), Some(Symbol(s))) == Done(true) && EqualTo(Symbol(s), Some(Str(s))) == Done(false)
  {
  }

  /** The values that can be compared with a null pointer. */
  predicate BearsNothing(x: Value) {
    x.Long? || x.Str? || x.Symbol?
  }

  /** They differ from it. */
  lemma EqualsNothing(x: Value)
    ensures EqualTo(x, None) == if BearsNothing(x) then Done(false) else Crash
  {
  }

  /** A value that holds neither Null nor a procedure. */
  predicate Solid(v: Value) {
    !HasNull(v) && !HasProcedure(v)
  }

  /**
    Where `=` comes to a halt: Null against Null or a pair, and a pair against
    Null unless its first element can be compared with a null pointer.
   */
  predicate Stuck(x: Value, y: Value) {
    (x.Null? && (y.Null? || y.Pair?)) || (x.Pair? && y.Null? && !BearsNothing(x.car))
  }

  /**
    The operands `=` can compare: walking both from the left, as far as their
    parts are alike and solid, meets no place where it gets stuck.
   */
  predicate Comparable(x: Value, y: Value) {
    && !Stuck(x, y)
    && (x.Pair? && y.Pair? ==>
         Comparable(x.car, y.car) && (Alike(x.car, y.car) && Solid(x.car) ==> Comparable(x.cdr, y.cdr)))
  }

  /** `=` returns exactly on comparable operands, and says yes exactly to solid ones that are alike. */
  lemma {:induction false} EqualsReturns(x: Value, y: Value)
    ensures EqualTo(x, Some(y)).Done? <==> Comparable(x, y)
    ensures EqualTo(x, Some(y)) == Done(true) <==> Alike(x, y) && Solid(x)
    ensures !HasNull(x) && !HasNull(y) ==> Comparable(x, y)
    decreases x
  {
    if x.Pair? && y.Pair? {
      EqualsReturns(x.car, y.car);
      EqualsReturns(x.cdr, y.cdr);
    } else if x.Pair? && y.Null? {
      EqualsNothing(x.car);
    }
  }

  /** The lists agree in their first `k` elements, all of them solid. */
  predicate AgreeTo(xs: seq<Value>, ys: seq<Value>, k: nat)
    requires k <= |xs| && k <= |ys|
  {
    forall i :: 0 <= i < k ==> Alike(xs[i], ys[i]) && Solid(xs[i])
  }

  /**
    What comes after `k` elements cannot be compared: the left list ends, or the
    right one does and the next element on the left cannot be compared with a null
    pointer, or the next elements are not comparable.
   */
  predicate StuckAt(xs: seq<Value>, ys: seq<Value>, k: nat)
    requires k <= |xs| && k <= |ys|
  {
    if k == |xs| then true
    else if k == |ys| then !BearsNothing(xs[k])
    else !Comparable(xs[k], ys[k])
  }

  /** Comparing two lists crashes exactly when they agree up to a place where the comparison gets stuck. */
  lemma {:induction false} EqualListsCrash(xs: seq<Value>, ys: seq<Value>)
    ensures EqualTo(ListOf(xs), Some(ListOf(ys))) == Crash <==>
            exists k :: 0 <= k <= |xs| && k <= |ys| && AgreeTo(xs, ys, k) && StuckAt(xs, ys, k)
    decreases |xs|
  {
    hide Comparable, Solid, Alike, EqualTo;
    EqualsReturns(ListOf(xs), ListOf(ys));
    assert AgreeTo(xs, ys, 0);
    ListsComparable(xs, ys);
    if xs != [] && ys != [] {
      EqualListsCrash(xs[1..], ys[1..]);
      EqualsReturns(ListOf(xs[1..]), ListOf(ys[1..]));
      forall k | 0 <= k < |xs| && k < |ys|
        ensures AgreeTo(xs, ys, k + 1) <==> Alike(xs[0], ys[0]) && Solid(xs[0]) && AgreeTo(xs[1..], ys[1..], k)
        ensures StuckAt(xs, ys, k + 1) <==> StuckAt(xs[1..], ys[1..], k)
      {
        AgreeOneMore(xs, ys, k);
      }
      if k :| 0 <= k <= |xs| && k <= |ys| && AgreeTo(xs, ys, k) && StuckAt(xs, ys, k) {
        if k > 0 { assert AgreeTo(xs[1..], ys[1..], k - 1) && StuckAt(xs[1..], ys[1..], k - 1); }
      }
      if k :| 0 <= k <= |xs[1..]| && k <= |ys[1..]| && AgreeTo(xs[1..], ys[1..], k) && StuckAt(xs[1..], ys[1..], k) {
        if Alike(xs[0], ys[0]) && Solid(xs[0]) { assert AgreeTo(xs, ys, k + 1) && StuckAt(xs, ys, k + 1); }
      }
    }
  }

  lemma ListsComparable(xs: seq<Value>, ys: seq<Value>)
    ensures
      Comparable(ListOf(xs), ListOf(ys)) <==>
        && !StuckAt(xs, ys, 0)
        && (xs != [] && ys != [] && Alike(xs[0], ys[0]) && Solid(xs[0]) ==>
             Comparable(ListOf(xs[1..]), ListOf(ys[1..])))
  {
  }

  lemma AgreeOneMore(xs: seq<Value>, ys: seq<Value>, k: nat)
    requires k < |xs| && k < |ys|
    ensures AgreeTo(xs, ys, k + 1) <==> Alike(xs[0], ys[0]) && Solid(xs[0]) && AgreeTo(xs[1..], ys[1..], k)
    ensures StuckAt(xs, ys, k + 1) <==> StuckAt(xs[1..], ys[1..], k)
  {
    hide Comparable, Solid, Alike;
    if AgreeTo(xs, ys, k + 1) {
      forall i | 0 <= i < k ensures Solid(xs[1..][i]) && Alike(xs[1..][i], ys[1..][i]) {
        assert xs[1..][i] == xs[i + 1] && ys[1..][i] == ys[i + 1];
      }
    }
    if Alike(xs[0], ys[0]) && Solid(xs[0]) && AgreeTo(xs[1..], ys[1..], k) {
      forall i | 0 <= i < k + 1 ensures Solid(xs[i]) && Alike(xs[i], ys[i]) {
        if i > 0 { assert xs[i] == xs[1..][i - 1] && ys[i] == ys[1..][i - 1]; }
      }
    }
  }

  predicate IsAtom(v: Value) {
    v.Long? || v.Str? || v.Bool?
  }

  /** Lists of numbers, strings and Bools: comparing crashes when one is the start of the other, but for one case. */
  lemma AtomListsCrash(xs: seq<Value>, ys: seq<Value>)
    requires forall v :: v in xs + ys ==> IsAtom(v)
    ensures EqualTo(ListOf(xs), Some(ListOf(ys))) == Crash <==> xs <= ys || (ys < xs && xs[|ys|].Bool?)
  {
    EqualListsCrash(xs, ys);
    forall i | 0 <= i < |xs| ensures IsAtom(xs[i]) {
      assert xs[i] in xs + ys;
    }
    forall i | 0 <= i < |ys| ensures IsAtom(ys[i]) {
      assert ys[i] in xs + ys;
    }
    if xs <= ys {
      assert AgreeTo(xs, ys, |xs|) && StuckAt(xs, ys, |xs|);
    } else if ys < xs && xs[|ys|].Bool? {
      assert AgreeTo(xs, ys, |ys|) && StuckAt(xs, ys, |ys|);
    }
  }

  // Pairs and lists.

  /** `car` and `cdr` take apart what `cons` has put together. */
  lemma ConsTakenApart(a: Value, d: Value)
    ensures
      var p := ExecBinary(Cons, a, d);
      p.Done? && ExecUnary(Car, p.value) == Done(a) && ExecUnary(Cdr, p.value) == Done(d)
  {
  }

  /** `cons` puts its left operand in front of a list. */
  lemma ConsExtends(x: Value, xs: seq<Value>)
    ensures ExecBinary(Cons, x, ListOf(xs)) == Done(ListOf([x] + xs))
  {
    assert ([x] + xs)[1..] == xs;
  }

  /** `cdr`, taken `n` times. */
  function Cdrs(v: Value, n: nat): Outcome<Value> {
    if n == 0 then Done(v)
    else
      var rest :- ExecUnary(Cdr, v);
      Cdrs(rest, n - 1)
  }

  /** The elements of a list, and its end, are found by `cdr` and `car`. */
  lemma {:induction false} ElementOfList(xs: seq<Value>, i: nat)
    requires i <= |xs|
    ensures
      var rest := Cdrs(ListOf(xs), i);
      && rest.Done?
      && (i < |xs| ==> rest.value != Null && ExecUnary(Car, rest.value) == Done(xs[i]))
      && (i == |xs| ==> rest.value == Null)
  {
    if i > 0 { ElementOfList(xs[1..], i - 1); }
  }

  /** Nothing can be taken from Null, and only pairs and Null can be taken from. */
  lemma TakenFrom(v: Value)
    ensures forall op :: op in {Car, Cdr} ==> (ExecUnary(op, v).Crash? <==> !v.Pair? && v != Null)
    ensures forall op :: op in {Car, Cdr} ==> ExecUnary(op, Null) == Done(Null)
  {
  }

  // Truth values.

  /** The questions about one value: only Null and the Bool #F are not true. */
  lemma UnaryAnswers(v: Value)
    ensures ExecUnary(Not, v) == Done(Bool(v == Null || v == Bool(false)))
    ensures ExecUnary(IsNull, v) == Done(Bool(v == Null))
    ensures ExecUnary(Nonnull, v) == Done(Bool(v != Null))
  {
  }

  /** The truth value of a value, by `not` alone. */
  function NotNot(v: Value): Outcome<Value> {
    ExecUnary(Not, ExecUnary(Not, v).value)
  }

  /**
    `and` and `or` give the truth value of the right operand when the left one, a
    Bool, leaves it open; a left operand that is no Bool gives Null.
   */
  lemma LogicDecides(x: Value, y: Value)
    ensures ExecBinary(BinaryAnd, Bool(true), y) == NotNot(y)
    ensures ExecBinary(BinaryAnd, Bool(false), y) == Done(Bool(false))
    ensures ExecBinary(BinaryOr, Bool(false), y) == NotNot(y)
    ensures ExecBinary(BinaryOr, Bool(true), y) == Done(Bool(true))
    ensures !x.Bool? ==> ExecBinary(BinaryAnd, x, y) == ExecBinary(BinaryOr, x, y) == Done(Null)
  {
  }

  /** De Morgan's law, for any right operand. */
  lemma DeMorgan(b: bool, y: Value)
    ensures
      var both, either := ExecBinary(BinaryAnd, Bool(b), y), ExecBinary(BinaryOr, Bool(b), y);
      var noX, noY := ExecUnary(Not, Bool(b)), ExecUnary(Not, y);
      && both.Done? && either.Done? && noX.Done? && noY.Done?
      && ExecUnary(Not, both.value) == ExecBinary(BinaryOr, noX.value, noY.value)
      && ExecUnary(Not, either.value) == ExecBinary(BinaryAnd, noX.value, noY.value)
  {
  }

  /** No value of this model is a class, so nothing can be asked to be an instance of it. */
  lemma NoClasses(x: Value, y: Value)
    ensures ExecBinary(InstanceOf, x, y) == Crash
  {
  }

  /** Arithmetic on anything but two numbers gives Null. */
  lemma ArithmeticOnOthers(op: BinaryOp, x: Value, y: Value)
    requires op in {Add, Subtract, Multiply, Divide, Modulus} && !(x.Long? && y.Long?)
    ensures ExecBinary(op, x, y) == Done(Null)
  {
  }
}
