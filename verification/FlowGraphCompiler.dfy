/**
  The flow graph compiler: walks the chains of the graph, each instruction
  compiling itself into calls on the assembler. A branch compiles the chains of
  its blocks recursively.
 */
module FlowGraphCompiler {
  import opened Sequences
  import opened Words
  import opened Values
  import opened Bytecode
  import opened Layout
  import opened Source
  import opened Emission
  import opened Blocks
  import opened Assembler
  import opened FlowGraph
  import Builder = FlowGraphBuilder

  /** All label ids of the trace have an entry in the table. */
  ghost predicate Within(items: Trace, n: nat) {
    (forall id :: id in MarkSet(items) ==> id < n) && (forall id :: id in LinkSet(items) ==> id < n)
  }

  /** The trace `more` can be emitted after `items`: its labels exist and its jumps go forward. */
  ghost predicate Emittable(items: Trace, more: Trace, n: nat, room: nat) {
    Within(more, n) && ForwardOnly(items + more) && Size(items) + Size(more) <= room
  }

  lemma EmittableSplit(items: Trace, a: Trace, b: Trace, n: nat, room: nat)
    requires Emittable(items, a + b, n, room)
    ensures Emittable(items, a, n, room) && Emittable(items + a, b, n, room)
  {
    SizeConcat(a, b);
    SizeConcat(items, a);
    ConcatSets(a, b);
    assert items + (a + b) == (items + a) + b;
    ForwardPrefix(items + a, b);
  }

  lemma ForwardPrefix(a: Trace, b: Trace)
    requires ForwardOnly(a + b)
    ensures ForwardOnly(a)
  {
    assert forall i :: 0 <= i < |a| ==> a[i] == (a + b)[i];
  }

  /** A jump that can be emitted refers to a label that is not bound yet. */
  lemma EmittableJump(items: Trace, kind: JumpKind, id: nat, n: nat, room: nat)
    requires Emittable(items, JumpTo(kind, id), n, room)
    ensures id < n && id !in Marks(items) && Size(items) + JUMP_SIZE <= room
    ensures AfterJump(items, JumpCode(kind), id) == Done(items + JumpTo(kind, id))
  {
    var more := JumpTo(kind, id);
    assert more[1] == Link(id);
    assert id in LinkSet(more);
    assert Front(more) == [Code([JumpCode(kind)])];
    assert Size(Front(more)) == 1 by { assert Front(Front(more)) == []; }
    MarksAreMarkSet(items);
    var whole := items + more;
    assert whole[|items| + 1] == Link(id);
    assert forall i :: 0 <= i < |items| ==> whole[i] == items[i];
    assert items + [Code([JumpCode(kind)])] + [Link(id)] == whole;
  }

  /** A jump is of no concern to other labels. */
  lemma JumpLabels(items: Trace, kind: JumpKind, id: nat)
    ensures forall l :: l != id ==> LabelWord(items + JumpTo(kind, id), l) == LabelWord(items, l)
  {
    hide LabelWord;
    SnocFacts(items, Code([JumpCode(kind)]));
    SnocFacts(items + [Code([JumpCode(kind)])], Link(id));
    assert items + JumpTo(kind, id) == items + [Code([JumpCode(kind)])] + [Link(id)];
  }

  lemma EmittableOp(items: Trace, i: Instr, n: nat, room: nat)
    requires Emittable(items, [Op(i)], n, room)
    ensures Size(items) + |Encode(i)| <= room
  {
    assert Front([Op(i)]) == [];
  }

  lemma EmittableMark(items: Trace, id: nat, n: nat, room: nat)
    requires Emittable(items, [Mark(id)], n, room)
    ensures id < n
  {
    assert [Mark(id)][0].Mark?;
    assert id in MarkSet([Mark(id)]);
  }

  ghost predicate IsPlain(k: Kind) {
    !k.Branch? && !k.Goto? && !IsEntry(k)
  }

  ghost function InstrOf(k: Kind): Instr
    requires IsPlain(k)
    ensures TraceOfKind(k) == [Op(InstrOf(k))]
  {
    TraceOfKind(k)[0].instr
  }

  /** The `Compile` methods of the instructions that make one byte code. */
  method EmitKind(a: Assembler, k: Kind)
    requires IsPlain(k) && a.Valid() && a.HasRoom(|Encode(InstrOf(k))|)
    modifies a, a.buffer, a.buffer.bytes
    ensures a.Valid() && a.trace == old(a.trace) + TraceOfKind(k)
  {
    hide Encode;
    match k
    case Constant(value, address) => a.Push(value, address);
    case LoadLocalKind(idx) => a.LoadLocal(idx);
    case StoreLocalKind(idx) => a.StoreLocal(idx);
    case BinaryOpKind(op) => a.EmitSimple(Binary(op));
    case UnaryOpKind(op) => a.EmitSimple(Unary(op));
    case InvokeKind(f, n) => a.EmitWithOperands(Invoke(f, n), f, n);
    case InvokeNativeKind(f, n) => a.EmitWithOperands(InvokeNative(f, n), f, n);
    case Return => a.EmitSimple(Ret);
    case _ =>
  }

  class FlowGraphCompiler {
    const assembler: Assembler
    const info: seq<Label>

    /** The assembler is consistent and every block's label records how its code has used it. */
    ghost predicate Valid()
      reads this, assembler, assembler.buffer, assembler.buffer.bytes, info
    {
      && assembler.Valid()
      && assembler.buffer.bytes.Length < TWO_TO_63 - WORD_SIZE
      && forall i :: 0 <= i < |info| ==> info[i].id == i && info[i].pos == LabelWord(assembler.trace, i)
    }

    ghost function Footprint(): set<object>
      reads this, assembler, assembler.buffer
    {
      {assembler, assembler.buffer, assembler.buffer.bytes} + set l | l in info
    }

    constructor (bufferSize: nat, numBlocks: nat)
      requires bufferSize < TWO_TO_63 - WORD_SIZE
      ensures Valid() && |info| == numBlocks && assembler.trace == [] && assembler.buffer.bytes.Length == bufferSize
      ensures fresh(Footprint())
    {
      var a := new Assembler(bufferSize);
      var labels: seq<Label> := [];
      while |labels| < numBlocks
        invariant |labels| <= numBlocks && a.Valid() && a.trace == [] && a.buffer.bytes.Length == bufferSize
        invariant fresh(a) && fresh(a.buffer) && fresh(a.buffer.bytes)
        invariant forall i :: 0 <= i < |labels| ==> labels[i].id == i && labels[i].pos == 0 && fresh(labels[i])
      {
        var l := new Label(|labels|);
        labels := labels + [l];
      }
      assembler := a;
      info := labels;
    }

    /** `more` can be emitted next. */
    ghost predicate Ready(more: Trace)
      reads this, assembler, assembler.buffer, assembler.buffer.bytes, info
    {
      Valid() && Emittable(assembler.trace, more, |info|, assembler.buffer.bytes.Length)
    }

    lemma ReadySplit(a: Trace, b: Trace)
      requires Ready(a + b)
      ensures Ready(a) && Emittable(assembler.trace + a, b, |info|, assembler.buffer.bytes.Length)
    {
      EmittableSplit(assembler.trace, a, b, |info|, assembler.buffer.bytes.Length);
    }

    method Jump(kind: JumpKind, id: nat)
      requires Ready(JumpTo(kind, id))
      modifies Footprint()
      ensures Valid() && assembler.trace == old(assembler.trace) + JumpTo(kind, id)
    {
      hide Emittable, AfterJump, LabelWord, JumpTo, JumpCode, Size, Assembled;
      EmittableJump(assembler.trace, kind, id, |info|, assembler.buffer.bytes.Length);
      JumpLabels(assembler.trace, kind, id);
      var ok := assembler.Jump(JumpCode(kind), info[id]);
    }

    method Bind(id: nat)
      requires Valid() && id < |info|
      modifies Footprint()
      ensures Valid() && assembler.trace == old(assembler.trace) + [Mark(id)]
    {
      SnocFacts(assembler.trace, Mark(id));
      assembler.Bind(info[id]);
    }

    /** An instruction other than a branch. */
    method CompileSimple(k: Kind)
      requires Ready(TraceOfKind(k)) && !k.Branch?
      modifies Footprint()
      ensures Valid() && assembler.trace == old(assembler.trace) + TraceOfKind(k)
    {
      if k.Goto? {
        Jump(Always, BlockId(k.target.kind));
      } else if !IsEntry(k) {
        ghost var i := InstrOf(k);
        EmittableOp(assembler.trace, i, |info|, assembler.buffer.bytes.Length);
        SnocFacts(assembler.trace, Op(i));
        EmitKind(assembler, k);
      }
    }

    /** Compiles the instructions from `start` to the end of its chain. */
    method AssembleChain(start: Instruction?, ghost c: Shape, ghost m: NextMap)
      requires Ready(TraceOf(c)) && WellFormed(c) && LinkedIn(m, start, c) && Holds(m)
      modifies Footprint()
      ensures Valid() && assembler.trace == old(assembler.trace) + TraceOf(c)
      decreases c, 2
    {
      var current := start;
      hide Emittable, Valid, TraceOf, HeadTrace, Assembled, LabelWord, Size;
      ghost var rest, done: Trace := c, [];
      while current != null
        invariant Ready(TraceOf(rest)) && WellFormed(rest) && LinkedIn(m, current, rest) && Holds(m)
        invariant assembler.trace == old(assembler.trace) + done && done + TraceOf(rest) == TraceOf(c)
        invariant rest == c || rest < c
        decreases rest
      {
        var next := current;
        current := next.next;
        ghost var t, head := assembler.trace, HeadTrace(rest);
        HeadAndRest(rest);
        ReadySplit(head, TraceOf(rest.rest));
        Compile(next, rest, m);
        done := done + head;
        rest := rest.rest;
      }
      HeadOfChain(m, current, rest);
      TraceOfEnd();
    }

    method Compile(x: Instruction, ghost c: Shape, ghost m: NextMap)
      requires c != End && Ready(HeadTrace(c)) && WellFormed(c) && LinkedIn(m, x, c) && Holds(m)
      modifies Footprint()
      ensures Valid() && assembler.trace == old(assembler.trace) + HeadTrace(c)
      decreases c, 1
    {
      if x.kind.Branch? {
        CompileBranch(x.kind, c, m);
      } else {
        CompileSimple(x.kind);
      }
    }

    /** The conditional jump, then the blocks of the branch one after the other, the join last. */
    method CompileBranch(k: Kind, ghost c: Shape, ghost m: NextMap)
      requires c.Fork? && c.node.kind == k && Ready(HeadTrace(c)) && WellFormed(c) && LinkedIn(m, c.node, c) && Holds(m)
      modifies Footprint()
      ensures Valid() && assembler.trace == old(assembler.trace) + HeadTrace(c)
      decreases c, 0
    {
      hide Emittable, Valid, HeadTrace, TraceOf, JumpTo, BlockTrace, BranchTrace;
      ghost var jump, t, f, j := JumpTo(ConditionKind(k.condition), Otherwise(k)), BlockTrace(k.trueTarget, c.t),
                                 BlockTrace(k.falseTarget, c.f), BlockTrace(k.join, c.j);
      BranchBlocks(c);
      ReadySplit(jump, t + (f + j));
      Jump(ConditionKind(k.condition), Otherwise(k));
      ReadySplit(t, f + j);
      CompileBlock(k.trueTarget, c.t, m);
      ReadySplit(f, j);
      if k.falseTarget != null {
        CompileBlock(k.falseTarget, c.f, m);
      } else {
        assert assembler.trace + f == assembler.trace;
      }
      CompileBlock(k.join, c.j, m);
    }

    method CompileBlock(entry: Instruction, ghost c: Shape, ghost m: NextMap)
      requires Ready(BlockTrace(entry, c)) && WellFormed(c) && LinkedIn(m, entry, c) && Holds(m)
      modifies Footprint()
      ensures Valid() && assembler.trace == old(assembler.trace) + BlockTrace(entry, c)
      decreases c, 3
    {
      hide Emittable, Valid, TraceOf;
      var id := BlockId(entry.kind);
      ReadySplit([Mark(id)], TraceOf(c));
      EmittableMark(assembler.trace, id, |info|, assembler.buffer.bytes.Length);
      Bind(id);
      AssembleChain(entry, c, m);
    }
  }

  /** The trace of the first node of a chain. */
  ghost function HeadTrace(c: Shape): Trace {
    match c
    case End => []
    case Then(x, _) => TraceOfKind(x.kind)
    case Fork(x, t, f, j, _) => BranchTrace(x.kind, TraceOf(t), TraceOf(f)) + TraceOf(j)
  }

  /** A block: its label, then its chain; a missing block has no code. */
  ghost function BlockTrace(entry: Instruction?, c: Shape): Trace {
    if entry == null then [] else [Mark(BlockId(entry.kind))] + TraceOf(c)
  }

  lemma BranchBlocks(c: Shape)
    requires c.Fork? && c.node.kind.Branch?
    ensures var k := c.node.kind;
            HeadTrace(c) == JumpTo(ConditionKind(k.condition), Otherwise(k)) +
                            (BlockTrace(k.trueTarget, c.t) + (BlockTrace(k.falseTarget, c.f) + BlockTrace(k.join, c.j)))
    ensures c.node.kind.falseTarget == null ==> BlockTrace(c.node.kind.falseTarget, c.f) == []
  {
  }

  lemma TraceOfEnd()
    ensures TraceOf(End) == []
  {
  }

  lemma HeadAndRest(c: Shape)
    requires c != End
    ensures TraceOf(c) == HeadTrace(c) + TraceOf(c.rest)
  {
  }

  const BUFFER_SIZE: nat := 4096

  lemma BodyEmittable(native: uword, body: seq<Stmt>, n: nat)
    requires body != [] && Size(TraceBody(native, body)) <= BUFFER_SIZE
    requires n == FIRST_BLOCK + BlocksStmts(body, |body|)
    ensures Emittable([], TraceBody(native, body), n, BUFFER_SIZE)
  {
    hide TraceBody, ForwardOnly, MarkSet, LinkSet, MarkedOnce, Ids;
    UsesBody(native, body);
    assert [] + TraceBody(native, body) == TraceBody(native, body);
  }

  /**
    Compiles the body of a lambda. It fails on an empty body and on a body the
    graph builder cannot visit; otherwise the code region holds exactly the code
    that `Emission` assigns to the body. The buffer does not grow, so the code is
    required to fit.
   */
  method CompileTarget(listNative: uword, body: seq<Stmt>) returns (code: Option<seq<byte>>)
    requires body != [] ==> Size(TraceBody(listNative, body)) <= BUFFER_SIZE
    ensures code.Some? <==> body != [] && forall i :: 0 <= i < |body| ==> CompilesStmt(body[i])
    ensures code.Some? ==> code.value == CodeOf(listNative, body)
  {
    hide TraceBody, CompilesStmt, WellFormed, Distinct, LinkedIn, TraceOf, Emittable;
    if body == [] { return None; }
    var graphEntry, shape, links, numBlocks := Builder.Build(listNative, body);
    if graphEntry == null { return None; }
    var compiler := new FlowGraphCompiler(BUFFER_SIZE, numBlocks);
    BodyEmittable(listNative, body, numBlocks);
    assert [] + TraceOf(shape) == TraceOf(shape);
    compiler.AssembleChain(graphEntry, shape, links);
    assert compiler.assembler.trace == TraceBody(listNative, body);
    var region := compiler.assembler.Assemble();
    code := Some(region);
  }
}
