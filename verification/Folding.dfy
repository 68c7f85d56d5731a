/**
  Constant folding against the run-time path, and which programs compile.
 */
module Folding {
  import opened Words
  import opened Values
  import opened Bytecode
  import opened Layout
  import opened Source
  import opened Emission

  predicate OnlyArithmetic(v: Val) {
    match v
    case Bin(op, l, r) => IsArithmetic(op) && OnlyArithmetic(l) && OnlyArithmetic(r)
    case List(children, _) => forall i :: 0 <= i < |children| ==> OnlyArithmetic(children[i])
    case _ => true
  }

  /**
    Two literals under an operator: the five arithmetic ones fold to what they compute at
    run time, the others do not fold.
   */
  lemma LiteralsFold(op: BinaryOp, x: Value, y: Value)
    ensures
      Fold(Bin(op, Lit(x, 0), Lit(y, 0))) ==
        if op in {Add, Subtract, Multiply, Divide, Modulus} then ExecBinary(op, x, y) else Crash
  {
  }

  /** Every symbol in the expression reads as itself. */
  predicate ReadsAsNames(v: Val, L: Locals) {
    match v
    case Local(i, name) => i < |L| && L[i] == Symbol(name)
    case Named(name, value, _) => value == Symbol(name)
    case Bin(_, l, r) => ReadsAsNames(l, L) && ReadsAsNames(r, L)
    case Un(_, operand) => ReadsAsNames(operand, L)
    case List(children, _) => forall i :: 0 <= i < |children| ==> ReadsAsNames(children[i], L)
    case _ => true
  }

  lemma {:induction false} SelfNamedReads(v: Val, L: Locals)
    requires SelfNamed(v)
    ensures ReadsAsNames(v, L)
  {
    match v
    case Bin(_, l, r) =>
      SelfNamedReads(l, L);
      SelfNamedReads(r, L);
    case Un(_, operand) => SelfNamedReads(operand, L);
    case List(children, _) =>
      forall i | 0 <= i < |children| ensures ReadsAsNames(children[i], L) { SelfNamedReads(children[i], L); }
    case _ =>
  }

  /**
    Folding is evaluation in which every symbol reads as itself: with arithmetic
    operators only, it gives what evaluation gives then, crashes included.
   */
  lemma {:induction false} ArithmeticFolds(p: Program, v: Val, L: Locals, fuel: nat)
    requires IsConstant(v) && OnlyArithmetic(v) && ReadsAsNames(v, L)
    ensures Fold(v) == EvalVal(p, v, L, fuel)
    decreases v, 1, 0
  {
    match v
    case Lit(_, _) =>
    case Local(_, _) =>
    case Named(_, _, _) =>
    case Bin(_, l, r) =>
      ArithmeticFolds(p, l, L, fuel);
      ArithmeticFolds(p, r, L, fuel);
    case List(children, _) =>
      ArithmeticFoldsAll(p, v, |children|, L, fuel);
  }

  lemma {:induction false} ArithmeticFoldsAll(p: Program, v: Val, n: nat, L: Locals, fuel: nat)
    requires v.List? && n <= |v.children| && IsConstant(v) && OnlyArithmetic(v) && ReadsAsNames(v, L)
    ensures FoldAll(v, n) == EvalChildren(p, v, n, L, fuel)
    decreases v, 0, n
  {
    if n > 0 {
      ArithmeticFoldsAll(p, v, n - 1, L, fuel);
      ArithmeticFolds(p, v.children[n - 1], L, fuel);
    }
  }

  /** Any other operator makes folding crash. */
  lemma {:induction false} OthersCrash(v: Val)
    requires !OnlyArithmetic(v)
    ensures Fold(v) == Crash
  {
    match v
    case Bin(_, l, r) =>
      if !OnlyArithmetic(l) { OthersCrash(l); }
      if !OnlyArithmetic(r) { OthersCrash(r); }
    case List(children, _) =>
      var i :| 0 <= i < |children| && !OnlyArithmetic(children[i]);
      OthersCrash(children[i]);
      FoldAllByIndex(v, |children|);
    case _ =>
  }

  /** Evaluates to a number: made of numbers, and of symbols that stand for numbers, by operators. */
  predicate IsNumber(v: Val, L: Locals) {
    match v
    case Lit(value, _) => value.Long?
    case Local(i, _) => i < |L| && L[i].Long?
    case Named(_, value, _) => value.Long?
    case Bin(_, l, r) => IsNumber(l, L) && IsNumber(r, L)
    case _ => false
  }

  /**
    It does not matter that symbols fold to themselves: each one reads as itself, or
    is an operand of an operator whose operands are not both numbers, which gives
    Null either way.
   */
  predicate Settled(v: Val, L: Locals) {
    match v
    case Local(i, name) => i < |L| && L[i] == Symbol(name)
    case Named(name, value, _) => value == Symbol(name)
    case Bin(_, l, r) => (Settled(l, L) && Settled(r, L)) || !IsNumber(l, L) || !IsNumber(r, L)
    case List(children, _) => forall i :: 0 <= i < |children| ==> Settled(children[i], L)
    case _ => true
  }

  lemma {:induction false} NumberIff(p: Program, v: Val, L: Locals, fuel: nat)
    requires IsConstant(v) && OnlyArithmetic(v) && EvalVal(p, v, L, fuel).Done?
    ensures EvalVal(p, v, L, fuel).value.Long? <==> IsNumber(v, L)
    decreases v
  {
    if v.Bin? {
      NumberIff(p, v.left, L, fuel);
      NumberIff(p, v.right, L, fuel);
    } else if v.List? {
      NoNumber(p, v, L, fuel);
    }
  }

  lemma NoNumber(p: Program, v: Val, L: Locals, fuel: nat)
    requires v.List? && EvalVal(p, v, L, fuel).Done?
    ensures !EvalVal(p, v, L, fuel).value.Long?
  {
  }

  /** What folds to a number holds no symbol, so it evaluates to that number. */
  lemma {:induction false} FoldedNumber(p: Program, v: Val, L: Locals, fuel: nat)
    requires IsConstant(v) && Fold(v).Done? && Fold(v).value.Long?
    ensures EvalVal(p, v, L, fuel) == Fold(v) && OnlyArithmetic(v) && Settled(v, L)
    decreases v
  {
    match v
    case Lit(_, _) =>
    case Bin(_, l, r) =>
      FoldedNumber(p, l, L, fuel);
      FoldedNumber(p, r, L, fuel);
    case List(_, _) =>
  }

  lemma {:induction false} SettledIff(p: Program, v: Val, L: Locals, fuel: nat)
    requires IsConstant(v) && OnlyArithmetic(v) && EvalVal(p, v, L, fuel).Done?
    ensures Fold(v).Done? && (Fold(v) == EvalVal(p, v, L, fuel) <==> Settled(v, L))
    decreases v, 1, 0
  {
    match v
    case Lit(_, _) =>
    case Local(_, _) =>
    case Named(_, _, _) =>
    case Bin(_, l, r) =>
      SettledIff(p, l, L, fuel);
      SettledIff(p, r, L, fuel);
      NumberIff(p, l, L, fuel);
      NumberIff(p, r, L, fuel);
      if Fold(l).value.Long? { FoldedNumber(p, l, L, fuel); }
      if Fold(r).value.Long? { FoldedNumber(p, r, L, fuel); }
    case List(children, _) =>
      SettledAll(p, v, |children|, L, fuel);
      if FoldAll(v, |children|).value != EvalChildren(p, v, |children|, L, fuel).value {
        ListsDiffer(FoldAll(v, |children|).value, EvalChildren(p, v, |children|, L, fuel).value);
      }
  }

  lemma {:induction false} SettledAll(p: Program, v: Val, n: nat, L: Locals, fuel: nat)
    requires v.List? && n <= |v.children| && IsConstant(v) && OnlyArithmetic(v) && EvalChildren(p, v, n, L, fuel).Done?
    ensures
      && FoldAll(v, n).Done?
      && (FoldAll(v, n) == EvalChildren(p, v, n, L, fuel) <==> forall i :: 0 <= i < n ==> Settled(v.children[i], L))
    decreases v, 0, n
  {
    if n > 0 {
      SettledAll(p, v, n - 1, L, fuel);
      SettledIff(p, v.children[n - 1], L, fuel);
      var vs, ws := FoldAll(v, n).value, EvalChildren(p, v, n, L, fuel).value;
      assert vs[..n - 1] == FoldAll(v, n - 1).value && ws[..n - 1] == EvalChildren(p, v, n - 1, L, fuel).value;
      assert vs == vs[..n - 1] + [vs[n - 1]] && ws == ws[..n - 1] + [ws[n - 1]];
    }
  }

  lemma {:induction false} ListsDiffer(vs: seq<Value>, ws: seq<Value>)
    requires |vs| == |ws| && vs != ws
    ensures ListOf(vs) != ListOf(ws)
  {
    if vs[0] == ws[0] {
      assert vs == [vs[0]] + vs[1..] && ws == [ws[0]] + ws[1..];
      ListsDiffer(vs[1..], ws[1..]);
    }
  }

  /**
    A constant expression that has a value folds to that value if and only if every
    operator in it is arithmetic and it does not matter that its symbols fold to
    themselves. With another operator the compiler crashes on it. That no symbol
    stands for something else is enough, whatever the locals; in a list without
    operators, it is needed that each reads as itself.
   */
  lemma FoldingMatchesIff(p: Program, v: Val, L: Locals, fuel: nat)
    requires IsConstant(v) && EvalVal(p, v, L, fuel).Done?
    ensures Fold(v) == EvalVal(p, v, L, fuel) <==> OnlyArithmetic(v) && Settled(v, L)
    ensures Fold(v).Done? <==> OnlyArithmetic(v)
    ensures SelfNamed(v) ==> Settled(v, L)
    ensures NoOperators(v) ==> OnlyArithmetic(v) && (Settled(v, L) <==> ReadsAsNames(v, L))
  {
    if OnlyArithmetic(v) {
      SettledIff(p, v, L, fuel);
    } else {
      OthersCrash(v);
    }
    if SelfNamed(v) {
      SelfNamedReads(v, L);
      ReadsSettles(v, L);
    }
    if NoOperators(v) { WithoutOperators(v, L); }
  }

  predicate NoOperators(v: Val) {
    match v
    case Bin(_, _, _) => false
    case List(children, _) => forall i :: 0 <= i < |children| ==> NoOperators(children[i])
    case _ => true
  }

  lemma {:induction false} ReadsSettles(v: Val, L: Locals)
    requires ReadsAsNames(v, L)
    ensures Settled(v, L)
  {
    match v
    case Bin(_, l, r) =>
      ReadsSettles(l, L);
      ReadsSettles(r, L);
    case List(children, _) =>
      forall i | 0 <= i < |children| ensures Settled(children[i], L) { ReadsSettles(children[i], L); }
    case _ =>
  }

  lemma {:induction false} WithoutOperators(v: Val, L: Locals)
    requires NoOperators(v) && IsConstant(v)
    ensures OnlyArithmetic(v) && (Settled(v, L) <==> ReadsAsNames(v, L))
  {
    if v.List? {
      forall i | 0 <= i < |v.children|
        ensures OnlyArithmetic(v.children[i]) && (Settled(v.children[i], L) <==> ReadsAsNames(v.children[i], L))
      {
        WithoutOperators(v.children[i], L);
      }
    }
  }

  /**
    The list of 1 and a variable: it is constant, compiles to one push of the list
    of 1 and the variable's name, and evaluates to the list of 1 and its value.
   */
  lemma VariableFoldsToItsName(p: Program, native: uword, name: string, address: uword, id: nat, L: Locals, fuel: nat)
    requires |L| > 1
    ensures
      var v := List([Lit(Long(1), 0), Local(1, name)], address);
      && IsConstant(v) && Fold(v) == Done(Pair(Long(1), Pair(Symbol(name), Null)))
      && TraceVal(native, v, id) == [Op(PushQ(address))]
      && EvalVal(p, v, L, fuel) == Done(Pair(Long(1), Pair(L[1], Null)))
      && (Settled(v, L) <==> L[1] == Symbol(name))
  {
    var v := List([Lit(Long(1), 0), Local(1, name)], address);
    assert forall i :: 0 <= i < 2 ==> IsConstant(v.children[i]);
    assert v.children[0] == Lit(Long(1), 0) && v.children[1] == Local(1, name);
    assert [] + [Long(1)] == [Long(1)] && [Long(1)] + [Symbol(name)] == [Long(1), Symbol(name)];
    assert [Long(1)] + [L[1]] == [Long(1), L[1]];
    assert FoldAll(v, 0) == Done([]);
    assert FoldAll(v, 1) == Done([Long(1)]);
    assert FoldAll(v, 2) == Done([Long(1), Symbol(name)]);
    assert EvalChildren(p, v, 0, L, fuel) == Done([]);
    assert EvalChildren(p, v, 1, L, fuel) == Done([Long(1)]);
    assert EvalChildren(p, v, 2, L, fuel) == Done([Long(1), L[1]]);
    ListOfTwo(Long(1), Symbol(name));
    ListOfTwo(Long(1), L[1]);
  }

  lemma ListOfTwo(x: Value, y: Value)
    ensures ListOf([x, y]) == Pair(x, Pair(y, Null))
  {
    assert [x, y][1..] == [y] && [y][1..] == [];
    assert ListOf([]) == Null && ListOf([y]) == Pair(y, Null);
  }

  /** The list of `1 < 2` has a value but does not compile. */
  lemma ComparisonDoesNotFold(p: Program)
    ensures
      var v := List([Bin(LessThan, Lit(Long(1), 0), Lit(Long(2), 0))], 0);
      && IsConstant(v) && !Compiles(v)
      && EvalVal(p, v, [], 0) == Done(Pair(Bool(true), Null))
  {
    var child := Bin(LessThan, Lit(Long(1), 0), Lit(Long(2), 0));
    var v := List([child], 0);
    assert !OnlyArithmetic(child);
    assert v.children[0] == child;
    OthersCrash(v);
    assert EvalVal(p, child, [], 0) == Done(Bool(true));
    assert EvalChildren(p, v, 0, [], 0) == Done([]);
    assert [] + [Bool(true)] == [Bool(true)];
    assert EvalChildren(p, v, 1, [], 0) == Done([Bool(true)]);
    assert ListOf([Bool(true)]) == Pair(Bool(true), ListOf([]));
  }

  // Programs that are accepted also compile.

  lemma {:induction false} OkCompiles(p: Program, objects: map<uword, Value>, v: Val)
    requires OkVal(p, objects, v)
    ensures Compiles(v)
    decreases v, 1
  {
    match v
    case Bin(_, l, r) =>
      OkCompiles(p, objects, l);
      OkCompiles(p, objects, r);
    case Un(_, operand) => OkCompiles(p, objects, operand);
    case List(children, _) =>
      forall i | 0 <= i < |children| ensures Compiles(children[i]) { OkCompiles(p, objects, children[i]); }
    case Call(_, args) =>
      forall i | 0 <= i < |args| ensures CompilesCtl(args[i]) { OkCtlCompiles(p, objects, args[i]); }
    case _ =>
  }

  lemma {:induction false} OkCtlCompiles(p: Program, objects: map<uword, Value>, c: Ctl)
    requires OkCtl(p, objects, c)
    ensures CompilesCtl(c)
    decreases c, 1
  {
    match c
    case Just(v) => OkCompiles(p, objects, v);
    case Cond(test, conseq, alt) =>
      OkCtlCompiles(p, objects, test);
      OkCtlCompiles(p, objects, conseq);
      OkCtlCompiles(p, objects, alt);
  }

  /** The bodies the correctness results speak about are bodies the compiler gets through. */
  lemma OkBodyCompiles(p: Program, objects: map<uword, Value>, body: seq<Stmt>)
    requires OkBody(p, objects, body)
    ensures forall i :: 0 <= i < |body| ==> CompilesStmt(body[i])
  {
    forall i | 0 <= i < |body| ensures CompilesStmt(body[i]) {
      match body[i]
      case Do(c) => OkCtlCompiles(p, objects, c);
      case Set(_, v) => OkCompiles(p, objects, v);
    }
  }
}
