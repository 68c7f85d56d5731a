/**
  The instruction graph: nodes linked in place through `next` and `previous`.
  A branch holds the heads of three further chains. `Shape` names, for
  specifications only, which node objects a chain consists of.
 */
module FlowGraph {
  import opened Words
  import opened Values
  import opened Bytecode
  import opened Layout
  import opened Emission

  datatype Condition = IfTrue | IfEqual

  datatype Kind =
    | GraphEntry(id: nat)
    | TargetEntry(id: nat)
    | JoinEntry(id: nat)
    | Constant(value: Value, address: uword)
    | LoadLocalKind(index: uword)
    | StoreLocalKind(index: uword)
    | BinaryOpKind(binary: BinaryOp)
    | UnaryOpKind(unary: UnaryOp)
    | InvokeKind(func: uword, numArgs: uword)
    | InvokeNativeKind(func: uword, numArgs: uword)
    | Return
    | Goto(target: Instruction)
    | Branch(condition: Condition, trueTarget: Instruction, falseTarget: Instruction?, join: Instruction)

  class Instruction {
    const kind: Kind
    var next: Instruction?
    var previous: Instruction?

    constructor (kind: Kind)
      ensures this.kind == kind && next == null && previous == null
    {
      this.kind := kind;
      next := null;
      previous := null;
    }

    static method Link(lhs: Instruction, rhs: Instruction)
      modifies lhs, rhs
      ensures lhs.next == rhs && rhs.previous == lhs
      ensures lhs != rhs ==> lhs.previous == old(lhs.previous) && rhs.next == old(rhs.next)
    {
      lhs.next := rhs;
      rhs.previous := lhs;
    }

    /** Walks to the end of the chain that starts here and puts `instr` there. */
    method Append(instr: Instruction, ghost c: Shape, ghost m: NextMap)
      requires c != End && IsChain(m, this, c) && Nodes(c) <= m.Keys
      requires forall y :: y in Nodes(c) ==> y.next == m[y]
      modifies TopEnd(c), instr
      ensures TopEnd(c).next == instr && instr.previous == TopEnd(c)
      ensures TopEnd(c) != instr ==> instr.next == old(instr.next)
      decreases c
    {
      HeadOfChain(m, next, c.rest);
      if next != null {
        next.Append(instr, c.rest, m);
      } else {
        next := instr;
        instr.previous := this;
      }
    }

    /** `Append` of the whole chain `d` that starts at `instr`. */
    method AppendChain(instr: Instruction, ghost c: Shape, ghost m: NextMap, ghost d: Shape, ghost more: NextMap)
      returns (ghost m': NextMap)
      requires c != End && IsChain(m, this, c) && m.Keys == Nodes(c) && Holds(m)
      requires d != End && IsChain(more, instr, d) && more.Keys == Nodes(d) && Holds(more)
      requires Nodes(c) !! Nodes(d)
      modifies Nodes(c), instr
      ensures IsChain(m', this, AppendTop(c, d)) && m'.Keys == m.Keys + more.Keys == Nodes(AppendTop(c, d)) && Holds(m')
      ensures TraceOf(AppendTop(c, d)) == TraceOf(c) + TraceOf(d)
    {
      hide WellFormed, Distinct, LinkedIn, AppendTop, TraceOf;
      m' := (m + more)[TopEnd(c) := instr];
      HeadOfChain(more, instr, d);
      JoinTop(m, more, m', this, c, instr, d);
      Append(instr, c, m);
    }
  }

  /** The links of the nodes in the heap are those of the map. */
  ghost predicate Holds(m: NextMap)
    reads m.Keys
  {
    forall y :: y in m.Keys ==> y.next == m[y]
  }

  predicate IsEntry(k: Kind) {
    k.GraphEntry? || k.TargetEntry? || k.JoinEntry?
  }

  function BlockId(k: Kind): nat {
    match k
    case GraphEntry(id) => id
    case TargetEntry(id) => id
    case JoinEntry(id) => id
    case _ => 0
  }

  // Shapes.

  datatype Shape =
    | End
    | Then(node: Instruction, rest: Shape)
    | Fork(node: Instruction, t: Shape, f: Shape, j: Shape, rest: Shape)

  ghost function Nodes(c: Shape): set<Instruction> {
    match c
    case End => {}
    case Then(x, rest) => {x} + Nodes(rest)
    case Fork(x, t, f, j, rest) => ({x} + Nodes(t) + Nodes(f) + Nodes(j)) + Nodes(rest)
  }

  /** No node occurs twice. */
  ghost predicate Distinct(c: Shape) {
    match c
    case End => true
    case Then(x, rest) => x !in Nodes(rest) && Distinct(rest)
    case Fork(x, t, f, j, rest) =>
      && x !in Nodes(t) + Nodes(f) && Nodes(t) !! Nodes(f)
      && Distinct(t) && Distinct(f) && Distinct(j) && Distinct(rest)
      && ({x} + Nodes(t) + Nodes(f)) !! Nodes(j)
      && ({x} + Nodes(t) + Nodes(f) + Nodes(j)) !! Nodes(rest)
  }

  /** The chains of a branch start with entry nodes; the alternate may be missing. */
  ghost predicate WellFormed(c: Shape) {
    match c
    case End => true
    case Then(x, rest) => !x.kind.Branch? && WellFormed(rest)
    case Fork(x, t, f, j, rest) =>
      && x.kind.Branch?
      && t.Then? && (f.End? || f.Then?) && j.Then?
      && WellFormed(t) && WellFormed(f) && WellFormed(j) && WellFormed(rest)
  }

  type NextMap = map<Instruction, Instruction?>

  /** The chain that starts at `n` consists of exactly the nodes of the shape, linked in its order by `m`. */
  ghost predicate LinkedIn(m: NextMap, n: Instruction?, c: Shape) {
    match c
    case End => n == null
    case Then(x, rest) => n == x && x in m && LinkedIn(m, m[x], rest)
    case Fork(x, t, f, j, rest) =>
      && n == x && x in m && x.kind.Branch?
      && LinkedIn(m, x.kind.trueTarget, t) && LinkedIn(m, x.kind.falseTarget, f) && LinkedIn(m, x.kind.join, j)
      && LinkedIn(m, m[x], rest)
  }

  /** A well-formed chain of distinct nodes starts at `n`. */
  ghost predicate IsChain(m: NextMap, n: Instruction?, c: Shape) {
    WellFormed(c) && Distinct(c) && LinkedIn(m, n, c)
  }

  /** The node after which a fragment is continued: the end of the chain, or of its last branch's join. */
  ghost function OpenEnd(c: Shape): (x: Instruction?)
    ensures if c == End then x == null else x in Nodes(c)
  {
    match c
    case End => null
    case Then(x, rest) => if rest == End then x else OpenEnd(rest)
    case Fork(x, _, _, j, rest) => if rest != End then OpenEnd(rest) else if j != End then OpenEnd(j) else x
  }

  ghost function AppendOpen(c: Shape, d: Shape): Shape {
    match c
    case End => d
    case Then(x, rest) => Then(x, AppendOpen(rest, d))
    case Fork(x, t, f, j, rest) =>
      if rest == End then Fork(x, t, f, AppendOpen(j, d), End) else Fork(x, t, f, j, AppendOpen(rest, d))
  }

  ghost function AppendTop(c: Shape, d: Shape): Shape {
    match c
    case End => d
    case Then(x, rest) => Then(x, AppendTop(rest, d))
    case Fork(x, t, f, j, rest) => Fork(x, t, f, j, AppendTop(rest, d))
  }

  // The trace of a chain.

  ghost function TraceOfKind(k: Kind): Trace {
    match k
    case Constant(value, address) => [Op(PushOf(value, address))]
    case LoadLocalKind(i) => [Op(LoadLocal(i))]
    case StoreLocalKind(i) => [Op(StoreLocal(i))]
    case BinaryOpKind(op) => [Op(Binary(op))]
    case UnaryOpKind(op) => [Op(Unary(op))]
    case InvokeKind(f, n) => [Op(Invoke(f, n))]
    case InvokeNativeKind(f, n) => [Op(InvokeNative(f, n))]
    case Return => [Op(Ret)]
    case Goto(target) => JumpTo(Always, BlockId(target.kind))
    case _ => []
  }

  function ConditionKind(c: Condition): JumpKind {
    if c.IfTrue? then Jnz else Jne
  }

  /** The block a branch jumps to when its condition fails. */
  function Otherwise(k: Kind): nat
    requires k.Branch?
  {
    if k.falseTarget != null then BlockId(k.falseTarget.kind) else BlockId(k.join.kind)
  }

  /** A branch up to and including its join: the conditional jump, then the two arms. */
  ghost function BranchTrace(k: Kind, t: Trace, f: Trace): Trace {
    if !k.Branch? then [] else
    JumpTo(ConditionKind(k.condition), Otherwise(k))
    + ([Mark(BlockId(k.trueTarget.kind))] + t)
    + (if k.falseTarget == null then [] else [Mark(BlockId(k.falseTarget.kind))] + f)
    + [Mark(BlockId(k.join.kind))]
  }

  ghost function TraceOf(c: Shape): Trace {
    match c
    case End => []
    case Then(x, rest) => TraceOfKind(x.kind) + TraceOf(rest)
    case Fork(x, t, f, j, rest) => BranchTrace(x.kind, TraceOf(t), TraceOf(f)) + TraceOf(j) + TraceOf(rest)
  }

  // Appending.

  lemma {:induction false} AppendOpenFacts(c: Shape, d: Shape)
    requires WellFormed(c) && WellFormed(d)
    ensures WellFormed(AppendOpen(c, d))
    ensures c.Then? ==> AppendOpen(c, d).Then?
    ensures d != End ==> AppendOpen(c, d) != End && OpenEnd(AppendOpen(c, d)) == OpenEnd(d)
  {
    match c
    case End =>
    case Then(x, rest) => AppendOpenFacts(rest, d);
    case Fork(x, t, f, j, rest) => AppendOpenFacts(if rest == End then j else rest, d);
  }

  lemma {:induction false} AppendOpenNodes(c: Shape, d: Shape)
    ensures Nodes(AppendOpen(c, d)) == Nodes(c) + Nodes(d)
  {
    match c
    case End =>
    case Then(x, rest) => AppendOpenNodes(rest, d);
    case Fork(x, t, f, j, rest) => AppendOpenNodes(if rest == End then j else rest, d);
  }

  lemma {:induction false} AppendOpenDistinct(c: Shape, d: Shape)
    requires Distinct(c) && Distinct(d) && Nodes(c) !! Nodes(d)
    ensures Distinct(AppendOpen(c, d))
  {
    match c
    case End =>
    case Then(x, rest) =>
      AppendOpenDistinct(rest, d);
      AppendOpenNodes(rest, d);
    case Fork(x, t, f, j, rest) =>
      if rest == End {
        AppendOpenDistinct(j, d);
        AppendOpenNodes(j, d);
      } else {
        AppendOpenDistinct(rest, d);
        AppendOpenNodes(rest, d);
      }
  }

  lemma {:induction false} AppendTopNodes(c: Shape, d: Shape)
    ensures Nodes(AppendTop(c, d)) == Nodes(c) + Nodes(d)
  {
    match c
    case End =>
    case Then(x, rest) => AppendTopNodes(rest, d);
    case Fork(x, t, f, j, rest) => AppendTopNodes(rest, d);
  }

  lemma {:induction false} AppendTopDistinct(c: Shape, d: Shape)
    requires Distinct(c) && Distinct(d) && Nodes(c) !! Nodes(d)
    ensures Distinct(AppendTop(c, d))
  {
    match c
    case End =>
    case Then(x, rest) =>
      AppendTopDistinct(rest, d);
      AppendTopNodes(rest, d);
    case Fork(x, t, f, j, rest) =>
      AppendTopDistinct(rest, d);
      AppendTopNodes(rest, d);
  }

  lemma {:induction false} AppendOpenTrace(c: Shape, d: Shape)
    ensures TraceOf(AppendOpen(c, d)) == TraceOf(c) + TraceOf(d)
  {
    match c
    case End =>
    case Then(x, rest) =>
      AppendOpenTrace(rest, d);
      Associates(TraceOfKind(x.kind), TraceOf(rest), TraceOf(d));
    case Fork(x, t, f, j, rest) =>
      var b := BranchTrace(x.kind, TraceOf(t), TraceOf(f));
      if rest == End {
        AppendOpenTrace(j, d);
        AssociatesClosed(b, TraceOf(j), TraceOf(d));
        assert TraceOf(AppendOpen(c, d)) == b + TraceOf(AppendOpen(j, d)) + [];
      } else {
        AppendOpenTrace(rest, d);
        Associates(b + TraceOf(j), TraceOf(rest), TraceOf(d));
      }
  }

  lemma Associates(a: Trace, b: Trace, c: Trace)
    ensures a + (b + c) == (a + b) + c
  {
  }

  lemma AssociatesClosed(a: Trace, b: Trace, c: Trace)
    ensures a + (b + c) + [] == a + b + [] + c
  {
  }

  lemma {:induction false} AppendTopFacts(c: Shape, d: Shape)
    requires WellFormed(c) && WellFormed(d)
    ensures WellFormed(AppendTop(c, d))
    ensures c.Then? ==> AppendTop(c, d).Then? && AppendTop(c, d).node == c.node
    ensures TraceOf(AppendTop(c, d)) == TraceOf(c) + TraceOf(d)
  {
    match c
    case End =>
    case Then(x, rest) =>
      AppendTopFacts(rest, d);
      Associates(TraceOfKind(x.kind), TraceOf(rest), TraceOf(d));
    case Fork(x, t, f, j, rest) =>
      AppendTopFacts(rest, d);
      Associates(BranchTrace(x.kind, TraceOf(t), TraceOf(f)) + TraceOf(j), TraceOf(rest), TraceOf(d));
  }

  lemma {:induction false} LinkedAgree(m: NextMap, m': NextMap, n: Instruction?, c: Shape)
    requires LinkedIn(m, n, c)
    requires forall x :: x in Nodes(c) ==> x in m && x in m' && m[x] == m'[x]
    ensures LinkedIn(m', n, c)
  {
    match c
    case End =>
    case Then(x, rest) => LinkedAgree(m, m', m[x], rest);
    case Fork(x, t, f, j, rest) =>
      LinkedAgree(m, m', x.kind.trueTarget, t);
      LinkedAgree(m, m', x.kind.falseTarget, f);
      LinkedAgree(m, m', x.kind.join, j);
      LinkedAgree(m, m', m[x], rest);
  }

  lemma HeadOfChain(m: NextMap, n: Instruction?, c: Shape)
    requires LinkedIn(m, n, c)
    ensures n == null <==> c == End
    ensures n != null ==> n == c.node && n in Nodes(c)
  {
  }

  lemma SingleChain(x: Instruction)
    requires !x.kind.Branch?
    ensures IsChain(map[x := null], x, Then(x, End))
    ensures Nodes(Then(x, End)) == {x} && OpenEnd(Then(x, End)) == x
    ensures TraceOf(Then(x, End)) == TraceOfKind(x.kind)
  {
  }

  ghost function ForkOf(x: Instruction, t: Shape, f: Shape, j: Instruction): Shape {
    Fork(x, t, f, Then(j, End), End)
  }

  lemma ForkChain(x: Instruction, t: Shape, tl: NextMap, f: Shape, fl: NextMap, j: Instruction)
    requires x.kind.Branch? && x.kind.join == j && j.kind.JoinEntry?
    requires t.Then? && IsChain(tl, x.kind.trueTarget, t) && tl.Keys == Nodes(t)
    requires f.Then? && IsChain(fl, x.kind.falseTarget, f) && fl.Keys == Nodes(f)
    requires tl.Keys !! fl.Keys && x != j && x !in tl.Keys + fl.Keys && j !in tl.Keys + fl.Keys
    ensures IsChain((tl + fl)[x := null][j := null], x, ForkOf(x, t, f, j))
    ensures Nodes(ForkOf(x, t, f, j)) == tl.Keys + fl.Keys + {x, j}
    ensures OpenEnd(ForkOf(x, t, f, j)) == j
    ensures TraceOf(ForkOf(x, t, f, j)) == BranchTrace(x.kind, TraceOf(t), TraceOf(f))
  {
    var m := (tl + fl)[x := null][j := null];
    LinkedAgree(tl, m, x.kind.trueTarget, t);
    LinkedAgree(fl, m, x.kind.falseTarget, f);
    SingleChain(j);
    LinkedAgree(map[j := null], m, j, Then(j, End));
  }

  /** Redirecting the open end of `c` to the head of `d` joins the two chains there. */
  lemma {:induction false} LinkAtOpenEnd(m: NextMap, m': NextMap, n: Instruction?, c: Shape, head: Instruction,
      d: Shape)
    requires c != End && WellFormed(c) && Distinct(c) && LinkedIn(m, n, c) && LinkedIn(m', head, d)
    requires forall x :: x in Nodes(c) ==> x in m && x in m'
    requires forall x :: x in Nodes(c) && x != OpenEnd(c) ==> m[x] == m'[x]
    requires m'[OpenEnd(c)] == head
    ensures LinkedIn(m', n, AppendOpen(c, d))
  {
    match c
    case Then(x, rest) =>
      if rest != End { LinkAtOpenEnd(m, m', m[x], rest, head, d); }
    case Fork(x, t, f, j, rest) =>
      LinkedAgree(m, m', x.kind.trueTarget, t);
      LinkedAgree(m, m', x.kind.falseTarget, f);
      if rest == End {
        LinkAtOpenEnd(m, m', x.kind.join, j, head, d);
      } else {
        LinkedAgree(m, m', x.kind.join, j);
        LinkAtOpenEnd(m, m', m[x], rest, head, d);
      }
  }

  /** The last node of the chain itself. */
  ghost function TopEnd(c: Shape): Instruction
    requires c != End
    ensures TopEnd(c) in Nodes(c)
  {
    if c.rest == End then c.node else TopEnd(c.rest)
  }

  lemma {:induction false} LinkAtTopEnd(m: NextMap, m': NextMap, n: Instruction?, c: Shape, head: Instruction, d: Shape)
    requires c != End && WellFormed(c) && Distinct(c) && LinkedIn(m, n, c) && LinkedIn(m', head, d)
    requires forall x :: x in Nodes(c) ==> x in m && x in m'
    requires forall x :: x in Nodes(c) && x != TopEnd(c) ==> m[x] == m'[x]
    requires m'[TopEnd(c)] == head
    ensures LinkedIn(m', n, AppendTop(c, d))
  {
    match c
    case Then(x, rest) =>
      if rest != End { LinkAtTopEnd(m, m', m[x], rest, head, d); }
    case Fork(x, t, f, j, rest) =>
      LinkedAgree(m, m', x.kind.trueTarget, t);
      LinkedAgree(m, m', x.kind.falseTarget, f);
      LinkedAgree(m, m', x.kind.join, j);
      if rest != End { LinkAtTopEnd(m, m', m[x], rest, head, d); }
  }

  /** The links of two fragments after the open end of `c` has been linked to `x`, the head of the second one. */
  ghost function Joined(c: Shape, m: NextMap, x: Instruction, more: NextMap): (m': NextMap)
    ensures Nodes(c) <= m.Keys ==> m'.Keys == m.Keys + more.Keys
  {
    if c == End then m + more else (m + more)[OpenEnd(c) := x]
  }

  lemma JoinOpen(m: NextMap, more: NextMap, n: Instruction?, c: Shape, x: Instruction, d: Shape)
    requires IsChain(m, n, c) && IsChain(more, x, d) && d != End
    requires m.Keys == Nodes(c) && more.Keys == Nodes(d) && Nodes(c) !! Nodes(d)
    ensures IsChain(Joined(c, m, x, more), if c == End then x else n, AppendOpen(c, d))
    ensures Nodes(AppendOpen(c, d)) == Nodes(c) + Nodes(d)
    ensures TraceOf(AppendOpen(c, d)) == TraceOf(c) + TraceOf(d)
    ensures OpenEnd(AppendOpen(c, d)) == OpenEnd(d)
  {
    AppendOpenFacts(c, d);
    AppendOpenNodes(c, d);
    AppendOpenDistinct(c, d);
    AppendOpenTrace(c, d);
    LinkedAgree(more, Joined(c, m, x, more), x, d);
    if c != End {
      LinkAtOpenEnd(m, Joined(c, m, x, more), n, c, x, d);
    }
  }

  lemma JoinTop(m: NextMap, tail: NextMap, m': NextMap, n: Instruction?, c: Shape, x: Instruction, d: Shape)
    requires IsChain(m, n, c) && IsChain(tail, x, d) && c != End && d != End && Nodes(c) !! Nodes(d)
    requires forall y :: y in Nodes(d) ==> y in tail && y in m' && tail[y] == m'[y]
    requires forall y :: y in Nodes(c) ==> y in m && y in m'
    requires m'[TopEnd(c)] == x
    requires forall y :: y in Nodes(c) && y != TopEnd(c) ==> m[y] == m'[y]
    ensures IsChain(m', n, AppendTop(c, d))
    ensures Nodes(AppendTop(c, d)) == Nodes(c) + Nodes(d)
    ensures TraceOf(AppendTop(c, d)) == TraceOf(c) + TraceOf(d)
  {
    AppendTopFacts(c, d);
    AppendTopNodes(c, d);
    AppendTopDistinct(c, d);
    LinkedAgree(tail, m', x, d);
    LinkAtTopEnd(m, m', n, c, x, d);
  }
}
