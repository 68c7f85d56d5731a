/**
  The compiled language: values, control expressions and statements of a lambda
  body, with their meaning as a big-step evaluator.

  `fuel` bounds the depth of lambda calls; an evaluation that needs more is a
  `Timeout`.
 */
module Source {
  import opened Words
  import opened Values

  datatype Param = Param(optional: bool, vararg: bool)

  /**
    Expressions that leave a definition behind. `address` is where a constant lives
    on the heap. A literal that is a symbol is either the `Local` in slot `index` or
    `Named`: the value of a local that has one, or itself when no local has its
    name.
   */
  datatype Val =
    | Lit(value: Value, address: uword)
    | Local(index: uword, name: string)
    | Named(name: string, value: Value, address: uword)
    | Bin(op: BinaryOp, left: Val, right: Val)
    | Un(unary: UnaryOp, operand: Val)
    | List(children: seq<Val>, address: uword)
    | Call(func: uword, args: seq<Ctl>)

  /** A value, or a `cond` with one clause, one action and an alternate. */
  datatype Ctl =
    | Just(v: Val)
    | Cond(test: Ctl, conseq: Ctl, alt: Ctl)

  datatype Stmt =
    | Do(c: Ctl)
    | Set(index: uword, v: Val)

  datatype Lambda = Lambda(params: seq<Param>, body: seq<Stmt>)

  datatype Program = Program(lambdas: map<uword, Lambda>, listNative: uword)

  // Constant folding.

  /** Every literal is constant, symbols included. */
  predicate IsConstant(v: Val) {
    match v
    case Lit(_, _) => true
    case Local(_, _) => true
    case Named(_, _, _) => true
    case Bin(_, l, r) => IsConstant(l) && IsConstant(r)
    case List(children, _) => forall i :: 0 <= i < |children| ==> IsConstant(children[i])
    case _ => false
  }

  predicate IsArithmetic(op: BinaryOp) {
    op.Add? || op.Subtract? || op.Multiply? || op.Divide? || op.Modulus?
  }

  /** `EvalToConstant`: a symbol folds to itself; only arithmetic folds, any other operator is a fatal error. */
  function Fold(v: Val): (r: Outcome<Value>)
    ensures !r.Timeout?
    decreases v, 1, 0
  {
    match v
    case Lit(value, _) => Done(value)
    case Local(_, name) => Done(Symbol(name))
    case Named(name, _, _) => Done(Symbol(name))
    case Bin(op, l, r) =>
      var a :- Fold(l);
      var b :- Fold(r);
      if IsArithmetic(op) then Arithmetic(op, a, b) else Crash
    case List(children, _) =>
      var vs :- FoldAll(v, |children|);
      Done(ListOf(vs))
    case _ => Crash
  }

  function FoldAll(v: Val, n: nat): (r: Outcome<seq<Value>>)
    requires v.List? && n <= |v.children|
    ensures !r.Timeout?
    ensures r.Done? ==> |r.value| == n
    decreases v, 0, n
  {
    if n == 0 then Done([])
    else
      var vs :- FoldAll(v, n - 1);
      var x :- Fold(v.children[n - 1]);
      Done(vs + [x])
  }

  /** No symbol stands for anything but itself. */
  predicate SelfNamed(v: Val) {
    match v
    case Local(_, _) => false
    case Named(name, value, _) => value == Symbol(name)
    case Bin(_, l, r) => SelfNamed(l) && SelfNamed(r)
    case Un(_, operand) => SelfNamed(operand)
    case List(children, _) => forall i :: 0 <= i < |children| ==> SelfNamed(children[i])
    case _ => true
  }

  /** The compiler gets through the expression: every constant list in it folds. */
  predicate Compiles(v: Val)
    decreases v, 1
  {
    match v
    case Bin(_, l, r) => Compiles(l) && Compiles(r)
    case Un(_, operand) => Compiles(operand)
    case List(children, _) =>
      if IsConstant(v) then Fold(v).Done? else forall i :: 0 <= i < |children| ==> Compiles(children[i])
    case Call(_, args) => forall i :: 0 <= i < |args| ==> CompilesCtl(args[i])
    case _ => true
  }

  predicate CompilesCtl(c: Ctl)
    decreases c, 1
  {
    match c
    case Just(v) => Compiles(v)
    case Cond(test, conseq, alt) => CompilesCtl(test) && CompilesCtl(conseq) && CompilesCtl(alt)
  }

  predicate CompilesStmt(s: Stmt) {
    match s
    case Do(c) => CompilesCtl(c)
    case Set(_, v) => Compiles(v)
  }

  // Evaluation.

  type Locals = seq<Value>

  /**
    Whether the calling convention can bind `numArgs` arguments: as many as there
    are parameters, or fewer when all the rest are optional and none collects a
    list of arguments.
   */
  predicate Accepts(params: seq<Param>, numArgs: nat) {
    && numArgs <= |params|
    && (numArgs < |params| ==> forall i :: 0 <= i < |params| ==> !params[i].vararg)
    && (forall i :: numArgs <= i < |params| ==> params[i].optional)
  }

  function Nulls(n: nat): (vs: seq<Value>)
    ensures |vs| == n
    ensures forall i :: 0 <= i < n ==> vs[i] == Null
  {
    seq(n, _ => Null)
  }

  /** The locals of a call: the procedure itself, its arguments, and Null for each missing one. */
  function Entered(func: uword, params: seq<Param>, args: seq<Value>): Locals
    requires |args| <= |params|
  {
    [Proc(func)] + args + Nulls(|params| - |args|)
  }

  function EvalVal(p: Program, v: Val, L: Locals, fuel: nat): (r: Outcome<Value>)
    decreases fuel, v, 1, 0
  {
    match v
    case Lit(value, _) => Done(value)
    case Local(i, _) => if i < |L| then Done(L[i]) else Crash
    case Named(_, value, _) => Done(value)
    case Bin(op, l, r) =>
      var a :- EvalVal(p, l, L, fuel);
      var b :- EvalVal(p, r, L, fuel);
      ExecBinary(op, a, b)
    case Un(op, operand) =>
      var a :- EvalVal(p, operand, L, fuel);
      ExecUnary(op, a)
    case List(children, _) =>
      var vs :- EvalChildren(p, v, |children|, L, fuel);
      Done(ListOf(vs))
    case Call(func, args) =>
      var vs :- EvalArgs(p, v, |args|, L, fuel);
      if func !in p.lambdas || !Accepts(p.lambdas[func].params, |vs|) then Crash
      else if fuel == 0 then Timeout
      else EvalBody(p, p.lambdas[func].body, Entered(func, p.lambdas[func].params, vs), fuel - 1)
  }

  function EvalChildren(p: Program, v: Val, n: nat, L: Locals, fuel: nat): (r: Outcome<seq<Value>>)
    requires v.List? && n <= |v.children|
    ensures r.Done? ==> |r.value| == n
    decreases fuel, v, 0, n
  {
    if n == 0 then Done([])
    else
      var vs :- EvalChildren(p, v, n - 1, L, fuel);
      var x :- EvalVal(p, v.children[n - 1], L, fuel);
      Done(vs + [x])
  }

  function EvalArgs(p: Program, v: Val, n: nat, L: Locals, fuel: nat): (r: Outcome<seq<Value>>)
    requires v.Call? && n <= |v.args|
    ensures r.Done? ==> |r.value| == n
    decreases fuel, v, 0, n
  {
    if n == 0 then Done([])
    else
      var vs :- EvalArgs(p, v, n - 1, L, fuel);
      var x :- EvalCtl(p, v.args[n - 1], L, fuel);
      Done(vs + [x])
  }

  function EvalCtl(p: Program, c: Ctl, L: Locals, fuel: nat): (r: Outcome<Value>)
    decreases fuel, c, 1, 0
  {
    match c
    case Just(v) => EvalVal(p, v, L, fuel)
    case Cond(test, conseq, alt) =>
      var t :- EvalCtl(p, test, L, fuel);
      if Truth(t) then EvalCtl(p, conseq, L, fuel) else EvalCtl(p, alt, L, fuel)
  }

  datatype Progress = Progress(locals: Locals, last: Value)

  /** A statement changes the locals and has a value; the value of `set!` is Null. */
  function EvalStmt(p: Program, s: Stmt, L: Locals, fuel: nat): (r: Outcome<Progress>)
    ensures r.Done? ==> |r.value.locals| == |L|
    decreases fuel, s, 1, 0
  {
    match s
    case Do(c) =>
      var x :- EvalCtl(p, c, L, fuel);
      Done(Progress(L, x))
    case Set(i, v) =>
      var x :- EvalVal(p, v, L, fuel);
      if i < |L| then Done(Progress(L[i := x], Null)) else Crash
  }

  /** After the first `n` statements: the locals, and the value of the last statement. */
  function EvalStmts(p: Program, body: seq<Stmt>, n: nat, L: Locals, fuel: nat): (r: Outcome<Progress>)
    requires n <= |body|
    ensures r.Done? ==> |r.value.locals| == |L|
    decreases fuel, body, 0, n
  {
    if n == 0 then Done(Progress(L, Null))
    else
      var before :- EvalStmts(p, body, n - 1, L, fuel);
      EvalStmt(p, body[n - 1], before.locals, fuel)
  }

  /** The value of a lambda body; a body without expressions cannot be compiled. */
  function EvalBody(p: Program, body: seq<Stmt>, L: Locals, fuel: nat): (r: Outcome<Value>)
    decreases fuel, body, 1, 0
  {
    if body == [] then Crash
    else
      var end :- EvalStmts(p, body, |body|, L, fuel);
      Done(end.last)
  }

  // Programs the compiler accepts.

  /**
    Constants are where their addresses say, constant lists fold and mention no
    symbol that stands for something else, and no call has more arguments than
    parameters.
   */
  predicate OkVal(p: Program, objects: map<uword, Value>, v: Val)
    decreases v, 1
  {
    match v
    case Lit(value, address) => OkConstant(objects, value, address)
    case Local(_, _) => true
    case Named(_, value, address) => OkConstant(objects, value, address)
    case Bin(_, l, r) => OkVal(p, objects, l) && OkVal(p, objects, r)
    case Un(_, operand) => OkVal(p, objects, operand)
    case List(children, address) =>
      && (forall i :: 0 <= i < |children| ==> OkVal(p, objects, children[i]))
      && |children| < TWO_TO_64
      && (IsConstant(v) ==> SelfNamed(v) && Fold(v).Done? && OkConstant(objects, Fold(v).value, address))
    case Call(func, args) =>
      && (forall i :: 0 <= i < |args| ==> OkCtl(p, objects, args[i]))
      && |args| < TWO_TO_64
      && (func in p.lambdas ==> |args| <= |p.lambdas[func].params|)
  }

  predicate OkCtl(p: Program, objects: map<uword, Value>, c: Ctl)
    decreases c, 1
  {
    match c
    case Just(v) => OkVal(p, objects, v)
    case Cond(test, conseq, alt) => OkCtl(p, objects, test) && OkCtl(p, objects, conseq) && OkCtl(p, objects, alt)
  }

  predicate OkStmt(p: Program, objects: map<uword, Value>, s: Stmt) {
    match s
    case Do(c) => OkCtl(p, objects, c)
    case Set(_, v) => OkVal(p, objects, v)
  }

  predicate OkBody(p: Program, objects: map<uword, Value>, body: seq<Stmt>) {
    forall i :: 0 <= i < |body| ==> OkStmt(p, objects, body[i])
  }

  /** Constants without a short form are pushed by address. */
  predicate OkConstant(objects: map<uword, Value>, value: Value, address: uword) {
    value.Null? || value.Bool? || value.Long? || (address in objects && objects[address] == value)
  }

  // Folding preserves meaning.

  /**
    A constant expression that folds and whose symbols stand for themselves
    evaluates to the folded value, for any locals.
   */
  lemma {:induction false} FoldingPreservesMeaning(p: Program, v: Val, L: Locals, fuel: nat)
    requires IsConstant(v) && SelfNamed(v) && Fold(v).Done?
    ensures EvalVal(p, v, L, fuel) == Fold(v)
    decreases v, 1, 0
  {
    match v
    case Lit(_, _) =>
    case Named(_, _, _) =>
    case Bin(_, l, r) =>
      FoldingPreservesMeaning(p, l, L, fuel);
      FoldingPreservesMeaning(p, r, L, fuel);
    case List(children, _) =>
      FoldingChildren(p, v, |children|, L, fuel);
  }

  lemma {:induction false} FoldingChildren(p: Program, v: Val, n: nat, L: Locals, fuel: nat)
    requires v.List? && n <= |v.children| && IsConstant(v) && SelfNamed(v) && FoldAll(v, n).Done?
    ensures EvalChildren(p, v, n, L, fuel) == FoldAll(v, n)
    decreases v, 0, n
  {
    if n > 0 {
      FoldingChildren(p, v, n - 1, L, fuel);
      FoldingPreservesMeaning(p, v.children[n - 1], L, fuel);
    }
  }

  /** `EvalToConstant`; the list is built from its last child to its first. */
  method EvalToConstant(v: Val) returns (r: Outcome<Value>)
    ensures r == Fold(v)
    decreases v
  {
    match v
    case Lit(value, _) =>
      r := Done(value);
    case Local(_, name) =>
      r := Done(Symbol(name));
    case Named(name, _, _) =>
      r := Done(Symbol(name));
    case Bin(op, l, right) =>
      var a := EvalToConstant(l);
      if !a.Done? { return a; }
      var b := EvalToConstant(right);
      if !b.Done? { return b; }
      r := if IsArithmetic(op) then Arithmetic(op, a.value, b.value) else Crash;
    case List(children, _) =>
      var value := Null;
      var failed := false;
      ghost var tail: seq<Value> := [];
      var idx := |children|;
      while idx > 0
        invariant 0 <= idx <= |children|
        invariant !failed ==> value == ListOf(tail)
        invariant !failed ==> |tail| == |children| - idx
        invariant !failed ==> forall i :: idx <= i < |children| ==> Fold(children[i]) == Done(tail[i - idx])
        invariant failed ==> exists i :: idx <= i < |children| && Fold(children[i]) == Crash
      {
        var child := EvalToConstant(children[idx - 1]);
        idx := idx - 1;
        if child.Done? {
          value := Pair(child.value, value);
          tail := [child.value] + tail;
        } else {
          failed := true;
        }
      }
      FoldAllByIndex(v, |children|);
      assert !failed ==> FoldAll(v, |children|).Done? && FoldAll(v, |children|).value == tail;
      r := if failed then Crash else Done(value);
    case _ =>
      r := Crash;
  }

  lemma {:induction false} FoldAllByIndex(v: Val, n: nat)
    requires v.List? && n <= |v.children|
    ensures (exists i :: 0 <= i < n && Fold(v.children[i]) == Crash) <==> FoldAll(v, n) == Crash
    ensures FoldAll(v, n).Done? ==> forall i :: 0 <= i < n ==> Fold(v.children[i]) == Done(FoldAll(v, n).value[i])
  {
    if n > 0 {
      FoldAllByIndex(v, n - 1);
    }
  }
}
