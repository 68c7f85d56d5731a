/**
  The flow graph builder. Each expression is visited by a visitor of its own,
  which collects a fragment of linked instructions between `entry` and `exit`;
  fragments are then linked together. The trace of the finished fragment is the
  trace `Emission` assigns to the expression.
 */
module FlowGraphBuilder {
  import opened Words
  import opened Values
  import opened Bytecode
  import opened Layout
  import opened Source
  import opened Emission
  import opened FlowGraph

  class FlowGraphBuilder {
    var numBlocks: nat
    const listNative: uword

    constructor (listNative: uword)
      ensures numBlocks == 0 && this.listNative == listNative
    {
      numBlocks := 0;
      this.listNative := listNative;
    }

    method GetNextBlockId() returns (id: nat)
      modifies this
      ensures id == old(numBlocks) && numBlocks == id + 1
    {
      id := numBlocks;
      numBlocks := numBlocks + 1;
    }
  }

  class ValueVisitor {
    const owner: FlowGraphBuilder
    var entry: Instruction?
    var exit: Instruction?
    var value: Instruction?
    ghost var shape: Shape
    ghost var nodes: set<Instruction>
    ghost var links: NextMap
    ghost var trace: Trace

    /** The fragment is a well-formed chain of distinct nodes that starts at `entry`. */
    ghost predicate Linked()
      reads this, nodes
    {
      && nodes == Nodes(shape) == links.Keys && trace == TraceOf(shape)
      && IsChain(links, entry, shape) && Holds(links)
    }

    /** ... and `exit` is the node after which it continues. */
    ghost predicate Valid()
      reads this, nodes
    {
      Linked() && exit == OpenEnd(shape)
    }

    ghost predicate Empty()
      reads this
    {
      nodes == {} && trace == [] && entry == null && value == null
    }

    constructor (owner: FlowGraphBuilder)
      ensures this.owner == owner && Empty() && Valid()
    {
      this.owner := owner;
      entry, exit, value := null, null, null;
      shape, nodes, links, trace := End, {}, map[], [];
    }

    /** Puts `x` after the last instruction of the fragment; the fragment now ends at `last`. */
    method LinkExit(x: Instruction, last: Instruction)
      requires entry != null ==> exit != null && exit != x
      modifies this`entry, this`exit, if entry == null then {} else {exit as object, x}
      ensures exit == last && entry == if old(entry) == null then x else old(entry)
      ensures old(entry) != null ==> old(exit).next == x && x.next == old(x.next)
    {
      if entry == null {
        entry := x;
      } else {
        Instruction.Link(exit, x);
      }
      exit := last;
    }

    /** Links the chain `d` that starts at `x` to the end of the fragment. */
    method AddChain(x: Instruction, last: Instruction, ghost d: Shape, ghost more: NextMap)
      requires Valid() && d != End && more.Keys == Nodes(d) && IsChain(more, x, d) && nodes !! more.Keys
      requires Holds(more)
      modifies this`entry, this`exit, this`shape, this`nodes, this`links, this`trace, nodes, x
      ensures Linked() && exit == last && OpenEnd(shape) == OpenEnd(d)
      ensures nodes == old(nodes) + more.Keys && trace == old(trace) + TraceOf(d) && entry != null
    {
      hide WellFormed, Distinct, LinkedIn, AppendOpen, TraceOf, Nodes, OpenEnd;
      ghost var newShape, newLinks := AppendOpen(shape, d), Joined(shape, links, x, more);
      ghost var newNodes, newTrace := nodes + more.Keys, trace + TraceOf(d);
      ghost var end := OpenEnd(shape);
      HeadOfChain(links, entry, shape);
      HeadOfChain(more, x, d);
      JoinOpen(links, more, entry, shape, x, d);
      LinkExit(x, last);
      shape, links, nodes, trace := newShape, newLinks, newNodes, newTrace;
    }

    method Append(rhs: ValueVisitor)
      requires Valid() && rhs.Valid() && rhs != this && nodes !! rhs.nodes
      modifies this`entry, this`exit, this`shape, this`nodes, this`links, this`trace, nodes, rhs.nodes
      ensures Valid() && nodes == old(nodes) + rhs.nodes && trace == old(trace) + rhs.trace
      ensures rhs.entry != null || old(entry) != null ==> entry != null
    {
      HeadOfChain(rhs.links, rhs.entry, rhs.shape);
      if rhs.entry != null {
        AddChain(rhs.entry, rhs.exit, rhs.shape, rhs.links);
      }
    }

    /** Puts a new instruction at the end of the fragment. */
    method Add(instr: Instruction)
      requires Valid() && instr !in nodes && instr.next == null && !instr.kind.Branch?
      modifies this`entry, this`exit, this`shape, this`nodes, this`links, this`trace, nodes, instr
      ensures Valid() && nodes == old(nodes) + {instr} && entry != null && exit == instr
      ensures trace == old(trace) + TraceOfKind(instr.kind)
    {
      SingleChain(instr);
      AddChain(instr, instr, Then(instr, End), map[instr := null]);
    }

    /** The fragment is the earlier one followed by new instructions with the given trace. */
    twostate predicate Grown(more: Trace)
      reads this, nodes
    {
      Valid() && entry != null && fresh(nodes - old(nodes)) && trace == old(trace) + more
    }

    /** A visitor that started empty holds new instructions with the given trace. */
    twostate predicate Visited(all: Trace)
      reads this, nodes
    {
      Valid() && entry != null && fresh(nodes) && trace == all
    }

    /** `ReturnDefinition` of a new instruction, which becomes the value. */
    method ReturnDefinition(kind: Kind)
      requires Valid() && !kind.Branch?
      modifies this, nodes
      ensures Grown(TraceOfKind(kind)) && value != null
    {
      var defn := new Instruction(kind);
      Add(defn);
      value := defn;
    }

    /** Visits a part of the expression with a visitor of its own and appends the fragment. */
    method AppendVal(v: Val) returns (ok: bool)
      requires Valid()
      modifies this, owner, nodes
      ensures ok <==> Compiles(v)
      ensures ok ==> Grown(TraceVal(owner.listNative, v, old(owner.numBlocks))) && value == old(value)
      ensures ok ==> owner.numBlocks == old(owner.numBlocks) + BlocksVal(v)
      decreases v, 3, 0
    {
      hide ValueVisitor.Valid;
      var forValue := new ValueVisitor(owner);
      ok := forValue.VisitVal(v);
      if ok {
        Append(forValue);
      }
    }

    method VisitVal(v: Val) returns (ok: bool)
      requires Empty() && Valid()
      modifies this, owner
      ensures ok <==> Compiles(v)
      ensures ok ==> Visited(TraceVal(owner.listNative, v, old(owner.numBlocks))) && value != null
      ensures ok ==> owner.numBlocks == old(owner.numBlocks) + BlocksVal(v)
      decreases v, 2, 0
    {
      match v
      case Lit(c, address) =>
        ReturnDefinition(Constant(c, address));
        ok := true;
      case Local(i, _) =>
        ReturnDefinition(LoadLocalKind(i));
        ok := true;
      case Named(_, c, address) =>
        ReturnDefinition(Constant(c, address));
        ok := true;
      case Bin(_, _, _) =>
        ok := VisitBinaryOpExpr(v);
      case Un(_, _) =>
        ok := VisitUnaryExpr(v);
      case List(_, _) =>
        ok := VisitListExpr(v);
      case Call(_, _) =>
        ok := VisitCallProcExpr(v);
    }

    method VisitBinaryOpExpr(v: Val) returns (ok: bool)
      requires v.Bin? && Empty() && Valid()
      modifies this, owner
      ensures ok <==> Compiles(v)
      ensures ok ==> Visited(TraceVal(owner.listNative, v, old(owner.numBlocks))) && value != null
      ensures ok ==> owner.numBlocks == old(owner.numBlocks) + BlocksVal(v)
      decreases v, 1, 0
    {
      hide ValueVisitor.Valid;
      ok := AppendVal(v.left);
      if ok {
        assert trace == TraceVal(owner.listNative, v.left, old(owner.numBlocks));
        ok := AppendVal(v.right);
        if ok {
          ReturnDefinition(BinaryOpKind(v.op));
        }
      }
    }

    method VisitUnaryExpr(v: Val) returns (ok: bool)
      requires v.Un? && Empty() && Valid()
      modifies this, owner
      ensures ok <==> Compiles(v)
      ensures ok ==> Visited(TraceVal(owner.listNative, v, old(owner.numBlocks))) && value != null
      ensures ok ==> owner.numBlocks == old(owner.numBlocks) + BlocksVal(v)
      decreases v, 1, 0
    {
      hide ValueVisitor.Valid;
      ok := AppendVal(v.operand);
      if ok {
        assert trace == TraceVal(owner.listNative, v.operand, old(owner.numBlocks));
        ReturnDefinition(UnaryOpKind(v.unary));
      }
    }

    /** A constant list is replaced by its value; otherwise the `list` native is called on the children. */
    method VisitListExpr(v: Val) returns (ok: bool)
      requires v.List? && Empty() && Valid()
      modifies this, owner
      ensures ok <==> Compiles(v)
      ensures ok ==> Visited(TraceVal(owner.listNative, v, old(owner.numBlocks))) && value != null
      ensures ok ==> owner.numBlocks == old(owner.numBlocks) + BlocksVal(v)
      decreases v, 1, 0
    {
      hide ValueVisitor.Valid;
      if IsConstant(v) {
        var constant := EvalToConstant(v);
        ok := constant.Done?;
        if ok {
          ReturnDefinition(Constant(constant.value, v.address));
        }
        return;
      }
      ok := true;
      var i := 0;
      ghost var id := owner.numBlocks;
      while i < |v.children|
        invariant 0 <= i <= |v.children| && Valid() && fresh(nodes)
        invariant trace == TraceChildren(owner.listNative, v, i, id)
        invariant owner.numBlocks == id + BlocksChildren(v, i)
        invariant forall j :: 0 <= j < i ==> Compiles(v.children[j])
      {
        ok := AppendVal(v.children[i]);
        if !ok { return; }
        i := i + 1;
      }
      ReturnDefinition(InvokeNativeKind(owner.listNative, Count(|v.children|)));
    }

    /** A call whose target is a constant lambda; its arguments may be any control expressions. */
    method VisitCallProcExpr(v: Val) returns (ok: bool)
      requires v.Call? && Empty() && Valid()
      modifies this, owner
      ensures ok <==> Compiles(v)
      ensures ok ==> Visited(TraceVal(owner.listNative, v, old(owner.numBlocks))) && value != null
      ensures ok ==> owner.numBlocks == old(owner.numBlocks) + BlocksVal(v)
      decreases v, 1, 0
    {
      hide ValueVisitor.Valid;
      ok := true;
      var i := 0;
      ghost var id := owner.numBlocks;
      while i < |v.args|
        invariant 0 <= i <= |v.args| && Valid() && fresh(nodes)
        invariant trace == TraceArgs(owner.listNative, v, i, id)
        invariant owner.numBlocks == id + BlocksArgs(v, i)
        invariant forall j :: 0 <= j < i ==> CompilesCtl(v.args[j])
      {
        ok := AppendCtl(v.args[i]);
        if !ok { return; }
        i := i + 1;
      }
      ReturnDefinition(InvokeKind(v.func, Count(|v.args|)));
    }

    method AppendCtl(c: Ctl) returns (ok: bool)
      requires Valid()
      modifies this, owner, nodes
      ensures ok <==> CompilesCtl(c)
      ensures ok ==> Grown(TraceCtl(owner.listNative, c, old(owner.numBlocks))) && value == old(value)
      ensures ok ==> owner.numBlocks == old(owner.numBlocks) + BlocksCtl(c)
      decreases c, 3, 0
    {
      hide ValueVisitor.Valid;
      var forValue := new ValueVisitor(owner);
      ok := forValue.VisitCtl(c);
      if ok {
        Append(forValue);
      }
    }

    method VisitCtl(c: Ctl) returns (ok: bool)
      requires Empty() && Valid()
      modifies this, owner
      ensures ok <==> CompilesCtl(c)
      ensures ok ==> Visited(TraceCtl(owner.listNative, c, old(owner.numBlocks)))
      ensures ok ==> owner.numBlocks == old(owner.numBlocks) + BlocksCtl(c)
      ensures ok ==> (value != null <==> c.Just?) && (c.Cond? ==> exit != null && exit.kind.JoinEntry?)
      decreases c, 2, 0
    {
      match c
      case Just(v) =>
        ok := VisitVal(v);
      case Cond(_, _, _) =>
        ok := VisitCondExpr(c);
    }

    /** The test of a `cond`; an equality is left as its two operands for the branch to compare. */
    method VisitTest(c: Ctl) returns (ok: bool)
      requires Empty() && Valid()
      modifies this, owner
      ensures ok <==> CompilesCtl(c)
      ensures ok ==> Visited(TraceTest(owner.listNative, c, old(owner.numBlocks))) && value == null
      ensures ok ==> owner.numBlocks == old(owner.numBlocks) + BlocksCtl(c)
      decreases c, 4, 0
    {
      hide ValueVisitor.Valid;
      if c.Just? && c.v.Bin? && c.v.op == Equals {
        ok := AppendVal(c.v.left);
        if ok {
          ok := AppendVal(c.v.right);
        }
      } else {
        ok := AppendCtl(c);
      }
    }

    /** Links a new branch to the end of the fragment, which continues after the join. */
    method AddBranch(condition: Condition, target: Instruction, altTarget: Instruction, join: Instruction,
                     ghost t: Shape, ghost tl: NextMap, ghost f: Shape, ghost fl: NextMap)
      requires Valid() && join.kind.JoinEntry? && join.next == null
      requires t.Then? && IsChain(tl, target, t) && tl.Keys == Nodes(t) && Holds(tl)
      requires f.Then? && IsChain(fl, altTarget, f) && fl.Keys == Nodes(f) && Holds(fl)
      requires nodes !! tl.Keys !! fl.Keys !! {join}
      modifies this`entry, this`exit, this`shape, this`nodes, this`links, this`trace, nodes
      ensures Valid() && entry != null && exit == join
      ensures fresh(nodes - old(nodes) - tl.Keys - fl.Keys - {join})
      ensures trace == old(trace) + BranchTrace(Branch(condition, target, altTarget, join), TraceOf(t), TraceOf(f))
    {
      hide WellFormed, Distinct, LinkedIn, TraceOf, BranchTrace;
      var branch := new Instruction(Branch(condition, target, altTarget, join));
      ForkChain(branch, t, tl, f, fl, join);
      ghost var more: NextMap := (tl + fl)[branch := null][join := null];
      AddChain(branch, join, ForkOf(branch, t, f, join), more);
    }

    /** Makes the blocks of a `cond` out of the visited action and alternate, and branches to them. */
    method AddBlocks(condition: Condition, altId: nat, joinId: nat, targetId: nat, forAction: ValueVisitor,
        forAlt: ValueVisitor)
      requires Valid() && forAction.Valid() && forAlt.Valid() && forAction.entry != null && forAlt.entry != null
      requires this != forAction && this != forAlt && nodes !! forAction.nodes !! forAlt.nodes
      modifies this`entry, this`exit, this`shape, this`nodes, this`links, this`trace, nodes, forAction.nodes,
          forAlt.nodes
      ensures Valid() && entry != null && fresh(nodes - old(nodes) - forAction.nodes - forAlt.nodes)
      ensures exit != null && exit.kind.JoinEntry?
      ensures trace == old(trace)
          + CondTrace(ConditionKind(condition), altId, joinId, targetId, forAction.trace, forAlt.trace)
    {
      hide ValueVisitor.Valid, IsChain, Nodes, TraceOf, BranchTrace, CondTrace;
      var join := new Instruction(JoinEntry(joinId));
      var target, t, tl := BuildArm(targetId, forAction, join);
      var altTarget, f, fl := BuildArm(altId, forAlt, join);
      assert fresh(tl.Keys + fl.Keys + {join} - forAction.nodes - forAlt.nodes);
      BranchIsCond(Branch(condition, target, altTarget, join), forAction.trace, forAlt.trace);
      AddBranch(condition, target, altTarget, join, t, tl, f, fl);
    }

    /** Hands out the ids of the blocks, then visits the action, the test and the alternate. */
    method VisitParts(c: Ctl, forAction: ValueVisitor, forAlt: ValueVisitor) returns (ok: bool)
      requires c.Cond? && Empty() && Valid() && this != forAction && this != forAlt && forAction != forAlt
      requires forAction.Empty() && forAction.Valid() && forAlt.Empty() && forAlt.Valid()
      requires owner == forAction.owner == forAlt.owner
      modifies this, owner, forAction, forAlt
      ensures ok <==> CompilesCtl(c)
      ensures
        ok ==>
          var native, id := owner.listNative, old(owner.numBlocks);
          var idTest := id + 3 + BlocksCtl(c.conseq);
          && Visited(TraceTest(native, c.test, idTest)) && value == null
          && forAction.Visited(TraceCtl(native, c.conseq, id + 3))
          && forAlt.Visited(TraceCtl(native, c.alt, idTest + BlocksCtl(c.test)))
          && nodes !! forAction.nodes !! forAlt.nodes
      ensures ok ==> owner.numBlocks == old(owner.numBlocks) + BlocksCtl(c)
      decreases c, 0, 0
    {
      hide ValueVisitor.Valid, TraceCtl, TraceTest;
      var altId := owner.GetNextBlockId();
      var joinId := owner.GetNextBlockId();
      var targetId := owner.GetNextBlockId();
      ok := forAction.VisitCtl(c.conseq);
      if ok {
        ok := VisitTest(c.test);
        if ok {
          ok := forAlt.VisitCtl(c.alt);
        }
      }
    }

    /**
      A `cond` with one clause, one action and an alternate. The branch is linked
      in when both of its blocks are complete; its fragment continues at the join.
     */
    method VisitCondExpr(c: Ctl) returns (ok: bool)
      requires c.Cond? && Empty() && Valid()
      modifies this, owner
      ensures ok <==> CompilesCtl(c)
      ensures ok ==> Visited(TraceCtl(owner.listNative, c, old(owner.numBlocks))) && value == null
      ensures ok ==> owner.numBlocks == old(owner.numBlocks) + BlocksCtl(c)
      ensures ok ==> exit != null && exit.kind.JoinEntry?
      decreases c, 1, 0
    {
      hide ValueVisitor.Valid, CondTrace, TraceCtl, TraceTest, BlocksCtl;
      TraceOfCond(owner.listNative, c, owner.numBlocks);
      var id := owner.numBlocks;
      var forAction := new ValueVisitor(owner);
      var forAlt := new ValueVisitor(owner);
      ok := VisitParts(c, forAction, forAlt);
      if ok {
        AddBlocks(if IsFused(c.test) then IfEqual else IfTrue, id, id + 1, id + 2, forAction, forAlt);
      }
    }

    /** A statement; `set!` stores the value its operand leaves. */
    method VisitStmt(s: Stmt) returns (ok: bool)
      requires Empty() && Valid()
      modifies this, owner
      ensures ok <==> CompilesStmt(s)
      ensures ok ==> Visited(TraceStmt(owner.listNative, s, old(owner.numBlocks)))
      ensures ok ==> owner.numBlocks == old(owner.numBlocks) + BlocksStmt(s)
      ensures ok ==> exit != null && (value != null || exit.kind.JoinEntry? <==> s.Do?)
    {
      match s
      case Do(c) =>
        ok := VisitCtl(c);
      case Set(_, _) =>
        ok := VisitSetLocalExpr(s);
    }

    method VisitSetLocalExpr(s: Stmt) returns (ok: bool)
      requires s.Set? && Empty() && Valid()
      modifies this, owner
      ensures ok <==> CompilesStmt(s)
      ensures ok ==> Visited(TraceStmt(owner.listNative, s, old(owner.numBlocks)))
      ensures ok ==> owner.numBlocks == old(owner.numBlocks) + BlocksStmt(s)
      ensures ok ==> value == null && exit != null && exit.kind.StoreLocalKind?
    {
      hide ValueVisitor.Valid;
      ok := AppendVal(s.v);
      if ok {
        var store := new Instruction(StoreLocalKind(s.index));
        Add(store);
      }
    }

    /** Puts the final return after the last statement, which may have left no value. */
    method AddReturn(last: Stmt, forValue: ValueVisitor)
      requires Valid() && forValue.exit != null
      requires forValue.value != null || forValue.exit.kind.JoinEntry? <==> last.Do?
      modifies this, nodes
      ensures Valid() && entry != null && fresh(nodes - old(nodes))
      ensures trace == old(trace) + TraceReturn(last)
    {
      hide ValueVisitor.Valid;
      if forValue.value == null && !forValue.exit.kind.JoinEntry? {
        var returnValue := new Instruction(Constant(Null, 0));
        Add(returnValue);
      }
      var ret := new Instruction(Return);
      Add(ret);
    }

    /** Visits one statement of a lambda body; the last one is followed by the return. */
    method AppendStmt(s: Stmt, isLast: bool) returns (ok: bool)
      requires Valid()
      modifies this, owner, nodes
      ensures ok <==> CompilesStmt(s)
      ensures ok ==> Grown(TraceStmt(owner.listNative, s, old(owner.numBlocks)) + if isLast then TraceReturn(s) else [])
      ensures ok ==> owner.numBlocks == old(owner.numBlocks) + BlocksStmt(s)
    {
      hide ValueVisitor.Valid, TraceStmt, CompilesStmt, BlocksStmt, TraceReturn;
      var forValue := new ValueVisitor(owner);
      ok := forValue.VisitStmt(s);
      if ok {
        Append(forValue);
        if isLast {
          AddReturn(s, forValue);
        }
      }
    }

    /** Visits the statements of a lambda body in order. */
    method VisitLambda(body: seq<Stmt>) returns (ok: bool)
      requires Empty() && Valid() && body != [] && owner.numBlocks == FIRST_BLOCK
      modifies this, owner
      ensures ok <==> forall i :: 0 <= i < |body| ==> CompilesStmt(body[i])
      ensures ok ==> Visited(TraceBody(owner.listNative, body))
      ensures ok ==> owner.numBlocks == FIRST_BLOCK + BlocksStmts(body, |body|)
    {
      hide ValueVisitor.Valid, TraceStmts, TraceBody, BlocksStmts, TraceStmt, CompilesStmt, BlocksStmt, TraceReturn;
      NoStmts(owner.listNative, body);
      ok := true;
      var index := 0;
      while index < |body|
        invariant 0 <= index <= |body| && Valid() && fresh(nodes)
        invariant trace == if index < |body| then TraceStmts(owner.listNative, body, index)
            else TraceBody(owner.listNative, body)
        invariant index > 0 ==> entry != null
        invariant owner.numBlocks == FIRST_BLOCK + BlocksStmts(body, index)
        invariant forall i :: 0 <= i < index ==> CompilesStmt(body[i])
      {
        var s := body[index];
        index := index + 1;
        OneMoreStmt(owner.listNative, body, index);
        ok := AppendStmt(s, index == |body|);
        if !ok { return; }
      }
    }
  }

  lemma NoStmts(native: uword, body: seq<Stmt>)
    ensures TraceStmts(native, body, 0) == [] && BlocksStmts(body, 0) == 0
  {
  }

  lemma OneMoreStmt(native: uword, body: seq<Stmt>, n: nat)
    requires 0 < n <= |body|
    ensures
      var before, s := TraceStmts(native, body, n - 1),
          TraceStmt(native, body[n - 1], FIRST_BLOCK + BlocksStmts(body, n - 1));
      && before + (s + if n == |body| then TraceReturn(body[n - 1]) else [])
         == (if n < |body| then TraceStmts(native, body, n) else TraceBody(native, body))
      && BlocksStmts(body, n) == BlocksStmts(body, n - 1) + BlocksStmt(body[n - 1])
  {
    hide TraceStmt, TraceReturn;
  }

  /** Puts a visited fragment after a new entry node. */
  method AppendFragment(entry: Instruction, vis: ValueVisitor) returns (ghost c: Shape, ghost links: NextMap)
    requires entry.next == null && !entry.kind.Branch? && TraceOfKind(entry.kind) == []
    requires vis.Valid() && vis.entry != null && entry !in vis.nodes
    modifies entry, vis.nodes
    ensures c.Then? && IsChain(links, entry, c) && links.Keys == Nodes(c) == vis.nodes + {entry} && Holds(links)
    ensures TraceOf(c) == vis.trace
  {
    SingleChain(entry);
    links := entry.AppendChain(vis.entry, Then(entry, End), map[entry := null], vis.shape, vis.links);
    c := AppendTop(Then(entry, End), vis.shape);
  }

  /** The graph of a lambda body; no graph when an expression cannot be visited. */
  method Build(listNative: uword, body: seq<Stmt>)
    returns (graphEntry: Instruction?, ghost shape: Shape, ghost links: NextMap, numBlocks: nat)
    requires body != []
    ensures graphEntry != null <==> forall i :: 0 <= i < |body| ==> CompilesStmt(body[i])
    ensures graphEntry != null ==>
              && shape != End && IsChain(links, graphEntry, shape) && Holds(links) && fresh(links.Keys)
                   && links.Keys == Nodes(shape)
              && TraceOf(shape) == TraceBody(listNative, body)
              && numBlocks == FIRST_BLOCK + BlocksStmts(body, |body|)
  {
    hide ValueVisitor.Valid, TraceBody, WellFormed, Distinct, LinkedIn;
    var builder := new FlowGraphBuilder(listNative);
    var graphId := builder.GetNextBlockId();
    var entry := new Instruction(GraphEntry(graphId));
    var targetId := builder.GetNextBlockId();
    var target := new Instruction(TargetEntry(targetId));
    var forValue := new ValueVisitor(builder);
    var ok := forValue.VisitLambda(body);
    numBlocks := builder.numBlocks;
    if !ok { return null, End, map[], numBlocks; }
    shape, links := AppendFragment(target, forValue);
    graphEntry := entry;
    SingleChain(entry);
    links := entry.AppendChain(target, Then(entry, End), map[entry := null], shape, links);
    shape := AppendTop(Then(entry, End), shape);
  }


  lemma TraceOfCond(native: uword, c: Ctl, id: nat)
    requires c.Cond?
    ensures
      var condition := if IsFused(c.test) then IfEqual else IfTrue;
      var idTest := id + 3 + BlocksCtl(c.conseq);
      TraceCtl(native, c, id) ==
      [] + TraceTest(native, c.test, idTest) +
      CondTrace(ConditionKind(condition), id, id + 1, id + 2, TraceCtl(native, c.conseq, id + 3),
                TraceCtl(native, c.alt, idTest + BlocksCtl(c.test)))
    ensures BlocksCtl(c) == 3 + BlocksCtl(c.conseq) + BlocksCtl(c.test) + BlocksCtl(c.alt)
  {
    var idTest := id + 3 + BlocksCtl(c.conseq);
    assert [] + TraceTest(native, c.test, idTest) == TraceTest(native, c.test, idTest);
  }

  lemma BranchIsCond(k: Kind, a: Trace, b: Trace)
    requires k.Branch? && k.falseTarget != null
    ensures var join := BlockId(k.join.kind);
            BranchTrace(k, a + JumpTo(Always, join), b + JumpTo(Always, join)) ==
            CondTrace(ConditionKind(k.condition), BlockId(k.falseTarget.kind), join, BlockId(k.trueTarget.kind), a, b)
  {
  }

  /** A block of a `cond`: its entry node, the fragment of its action, and the jump to the join. */
  method BuildArm(id: nat, action: ValueVisitor, join: Instruction)
    returns (target: Instruction, ghost arm: Shape, ghost links: NextMap)
    requires action.Valid() && action.entry != null
    modifies action.nodes
    ensures arm.Then? && IsChain(links, target, arm) && links.Keys == Nodes(arm) && Holds(links)
    ensures fresh(links.Keys - action.nodes) && target.kind == TargetEntry(id)
    ensures TraceOf(arm) == action.trace + JumpTo(Always, BlockId(join.kind))
  {
    target := new Instruction(TargetEntry(id));
    var goto := new Instruction(Goto(join));
    arm, links := AppendFragment(target, action);
    SingleChain(goto);
    links := target.AppendChain(goto, arm, links, Then(goto, End), map[goto := null]);
    arm := AppendTop(arm, Then(goto, End));
  }
}
