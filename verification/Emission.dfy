/**
  The assembler trace of a compiled lambda, as a function of its body.

  Block ids are handed out in visiting order: a `cond` takes three, for the
  alternate, the join and the clause, before its parts are visited, and its
  action is visited before its test.
 */
module Emission {
  import opened Words
  import opened Values
  import opened Bytecode
  import opened Layout
  import opened Source

  /** Ids 0 and 1 belong to the graph entry and the entry block of the body. */
  const FIRST_BLOCK: nat := 2

  function BlocksVal(v: Val): nat
    decreases v, 1, 0
  {
    match v
    case Bin(_, l, r) => BlocksVal(l) + BlocksVal(r)
    case Un(_, operand) => BlocksVal(operand)
    case List(children, _) => if IsConstant(v) then 0 else BlocksChildren(v, |children|)
    case Call(_, args) => BlocksArgs(v, |args|)
    case _ => 0
  }

  function BlocksChildren(v: Val, n: nat): nat
    requires v.List? && n <= |v.children|
    decreases v, 0, n
  {
    if n == 0 then 0 else BlocksChildren(v, n - 1) + BlocksVal(v.children[n - 1])
  }

  function BlocksArgs(v: Val, n: nat): nat
    requires v.Call? && n <= |v.args|
    decreases v, 0, n
  {
    if n == 0 then 0 else BlocksArgs(v, n - 1) + BlocksCtl(v.args[n - 1])
  }

  function BlocksCtl(c: Ctl): nat
    decreases c, 1, 0
  {
    match c
    case Just(v) => BlocksVal(v)
    case Cond(test, conseq, alt) => 3 + BlocksCtl(conseq) + BlocksCtl(test) + BlocksCtl(alt)
  }

  function BlocksStmt(s: Stmt): nat {
    match s
    case Do(c) => BlocksCtl(c)
    case Set(_, v) => BlocksVal(v)
  }

  function BlocksStmts(body: seq<Stmt>, n: nat): nat
    requires n <= |body|
  {
    if n == 0 then 0 else BlocksStmts(body, n - 1) + BlocksStmt(body[n - 1])
  }

  // Traces.

  function Count(n: nat): uword {
    n % TWO_TO_64
  }

  /** The constant a foldable list is replaced by. */
  function Folded(v: Val): Value {
    var r := Fold(v);
    if r.Done? then r.value else Null
  }

  function TraceVal(native: uword, v: Val, id: nat): Trace
    decreases v, 1, 0
  {
    match v
    case Lit(value, address) => [Op(PushOf(value, address))]
    case Local(i, _) => [Op(LoadLocal(i))]
    case Named(_, value, address) => [Op(PushOf(value, address))]
    case Bin(op, l, r) => TraceVal(native, l, id) + TraceVal(native, r, id + BlocksVal(l)) + [Op(Binary(op))]
    case Un(op, operand) => TraceVal(native, operand, id) + [Op(Unary(op))]
    case List(children, address) =>
      if IsConstant(v) then [Op(PushOf(Folded(v), address))]
      else TraceChildren(native, v, |children|, id) + [Op(InvokeNative(native, Count(|children|)))]
    case Call(func, args) => TraceArgs(native, v, |args|, id) + [Op(Invoke(func, Count(|args|)))]
  }

  function TraceChildren(native: uword, v: Val, n: nat, id: nat): Trace
    requires v.List? && n <= |v.children|
    decreases v, 0, n
  {
    if n == 0 then []
    else TraceChildren(native, v, n - 1, id) + TraceVal(native, v.children[n - 1], id + BlocksChildren(v, n - 1))
  }

  function TraceArgs(native: uword, v: Val, n: nat, id: nat): Trace
    requires v.Call? && n <= |v.args|
    decreases v, 0, n
  {
    if n == 0 then []
    else TraceArgs(native, v, n - 1, id) + TraceCtl(native, v.args[n - 1], id + BlocksArgs(v, n - 1))
  }

  /** An equality test is compiled into the branch itself. */
  predicate IsFused(c: Ctl) {
    c.Just? && c.v.Bin? && c.v.op.Equals?
  }

  function TraceTest(native: uword, c: Ctl, id: nat): Trace
    decreases c, 2, 0
  {
    if IsFused(c) then
      TraceVal(native, c.v.left, id) + TraceVal(native, c.v.right, id + BlocksVal(c.v.left))
    else TraceCtl(native, c, id)
  }

  function JumpTo(kind: JumpKind, id: nat): Trace {
    [Code([JumpCode(kind)]), Link(id)]
  }

  function BranchKind(test: Ctl): JumpKind {
    if IsFused(test) then Jne else Jnz
  }

  /** One arm of a `cond`: its block, its code, and the jump to the join. */
  function Arm(block: nat, code: Trace, join: nat): Trace {
    [Mark(block)] + (code + JumpTo(Always, join))
  }

  /** A `cond` after its test: the conditional jump, the two arms and the join. */
  function CondTrace(kind: JumpKind, alt: nat, join: nat, target: nat, conseqCode: Trace, altCode: Trace): Trace {
    JumpTo(kind, alt) + (Arm(target, conseqCode, join) + (Arm(alt, altCode, join) + [Mark(join)]))
  }

  function TraceCtl(native: uword, c: Ctl, id: nat): Trace
    decreases c, 1, 0
  {
    match c
    case Just(v) => TraceVal(native, v, id)
    case Cond(test, conseq, alt) =>
      var idTest := id + 3 + BlocksCtl(conseq);
      TraceTest(native, test, idTest)
      + CondTrace(BranchKind(test), id, id + 1, id + 2, TraceCtl(native, conseq, id + 3),
                  TraceCtl(native, alt, idTest + BlocksCtl(test)))
  }

  function TraceStmt(native: uword, s: Stmt, id: nat): Trace {
    match s
    case Do(c) => TraceCtl(native, c, id)
    case Set(i, v) => TraceVal(native, v, id) + [Op(StoreLocal(i))]
  }

  function TraceStmts(native: uword, body: seq<Stmt>, n: nat): Trace
    requires n <= |body|
  {
    if n == 0 then []
    else TraceStmts(native, body, n - 1) + TraceStmt(native, body[n - 1], FIRST_BLOCK + BlocksStmts(body, n - 1))
  }

  /** The return; a last statement that leaves no value returns Null. */
  function TraceReturn(last: Stmt): Trace {
    if last.Set? then [Op(PushN), Op(Ret)] else [Op(Ret)]
  }

  function TraceBody(native: uword, body: seq<Stmt>): Trace
    requires body != []
  {
    TraceStmts(native, body, |body|) + TraceReturn(body[|body| - 1])
  }

  /** The code of a lambda. */
  function CodeOf(native: uword, body: seq<Stmt>): seq<byte>
    requires body != []
  {
    Assembled(TraceBody(native, body))
  }
}
