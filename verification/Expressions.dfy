/**
  Compiler correctness for values and control expressions, by induction on the
  expression: the code placed in memory pushes what the expression evaluates to.
 */
module Expressions {
  import opened Sequences
  import opened Words
  import opened Values
  import opened Bytecode
  import opened Layout
  import opened Source
  import opened Emission
  import opened Machine
  import opened Paths
  import opened Placement
  import opened Simulation

  /** The code at `base` is that of an expression of an accepted program, and `st` is about to run it. */
  ghost predicate Runs(c: Ctx, items: Trace, base: nat, st: State) {
    && Sound(c) && Starts(c, st, base) && Placed(c.m.env.mem, c.start, items, base, c.marks)
    && c.start + base + Size(items) <= c.m.limit
  }

  lemma RunsSplit(c: Ctx, a: Trace, b: Trace, base: nat, st: State)
    requires Runs(c, a + b, base, st)
    ensures Runs(c, a, base, st) && Size(a + b) == Size(a) + Size(b)
    ensures Placed(c.m.env.mem, c.start, b, base + Size(a), c.marks)
  {
    hide Sound, Placed, Size;
    PlacedSplit(c.m.env.mem, c.start, a, b, base, c.marks);
  }

  function LocalsOf(st: State): Locals {
    if st.scopes == [] then [] else Back(st.scopes)
  }

  lemma {:induction false} SimVal(c: Ctx, v: Val, id: nat, base: nat, st: State) returns (path: Path)
    requires Runs(c, TraceVal(c.p.listNative, v, id), base, st) && OkVal(c.p, c.m.env.objects, v)
    ensures Leaves(c, st, path, c.start + base + Size(TraceVal(c.p.listNative, v, id)),
        One(EvalVal(c.p, v, LocalsOf(st), c.fuel)))
    decreases v, 1, 0
  {
    hide Leaves, Sound, Placed, Size, Replaces;
    match v
    case Lit(value, address) =>
      ReplacesByPush(c, st, base, value, address);
      path := Leaf(c, v, id, base, st);
    case Local(i, _) =>
      ReplacesByLoad(c, st, base, i);
      path := Leaf(c, v, id, base, st);
    case Named(_, value, address) =>
      ReplacesByPush(c, st, base, value, address);
      path := Leaf(c, v, id, base, st);
    case Bin(_, _, _) =>
      path := SimBinary(c, v, id, base, st);
    case Un(op, operand) =>
      path := SimUnary(c, v, id, base, st);
    case List(children, address) =>
      if IsConstant(v) {
        FoldingPreservesMeaning(c.p, v, LocalsOf(st), c.fuel);
        ReplacesByPush(c, st, base, Fold(v).value, address);
        path := Leaf(c, v, id, base, st);
      } else {
        path := SimList(c, v, id, base, st);
      }
    case Call(_, _) =>
      path := SimCall(c, v, id, base, st);
  }

  /** A value compiled to one instruction. */
  lemma Leaf(c: Ctx, v: Val, id: nat, base: nat, st: State) returns (path: Path)
    requires Runs(c, TraceVal(c.p.listNative, v, id), base, st)
    requires Replaces(c, st, c.start + base, [], c.start + base + Size(TraceVal(c.p.listNative, v, id)),
        EvalVal(c.p, v, LocalsOf(st), c.fuel))
    ensures Leaves(c, st, path, c.start + base + Size(TraceVal(c.p.listNative, v, id)),
        One(EvalVal(c.p, v, LocalsOf(st), c.fuel)))
  {
    hide Leaves, Size, EvalVal, TraceVal, Next, Fetch;
    path := LeavesNothing(c, st);
    path := LeavesReplaced(c, st, path, c.start + base, Done([]),
        c.start + base + Size(TraceVal(c.p.listNative, v, id)),
                           EvalVal(c.p, v, LocalsOf(st), c.fuel));
  }

  lemma {:induction false} SimBinary(c: Ctx, v: Val, id: nat, base: nat, st: State) returns (path: Path)
    requires v.Bin? && Runs(c, TraceVal(c.p.listNative, v, id), base, st) && OkVal(c.p, c.m.env.objects, v)
    ensures Leaves(c, st, path, c.start + base + Size(TraceVal(c.p.listNative, v, id)),
        One(EvalVal(c.p, v, LocalsOf(st), c.fuel)))
    decreases v, 0, 1
  {
    hide Leaves, Sound, Placed, Size, Replaces, ExecBinary, TraceTwo;
    var op, two := [Op(Binary(v.op))], TraceTwo(c.p.listNative, v, id);
    var r := EvalTwo(c.p, v, LocalsOf(st), c.fuel);
    TraceOfBin(c.p.listNative, v, id);
    RunsSplit(c, two, op, base, st);
    path := SimTwo(c, v, id, base, st);
    if r.Done? {
      assert r.value == [r.value[0], r.value[1]];
      ReplacesByBinary(c, st, base + Size(two), r.value[0], r.value[1], v.op);
    }
    path := LeavesReplaced(c, st, path, c.start + base + Size(two), r, c.start + base + Size(two) + Size(op),
                           EvalVal(c.p, v, LocalsOf(st), c.fuel));
  }

  function TraceTwo(native: uword, v: Val, id: nat): Trace
    requires v.Bin?
  {
    TraceVal(native, v.left, id) + TraceVal(native, v.right, id + BlocksVal(v.left))
  }

  lemma TraceOfBin(native: uword, v: Val, id: nat)
    requires v.Bin?
    ensures TraceVal(native, v, id) == TraceTwo(native, v, id) + [Op(Binary(v.op))]
  {
  }

  function EvalTwo(p: Program, v: Val, L: Locals, fuel: nat): (r: Outcome<seq<Value>>)
    requires v.Bin?
    ensures r.Done? ==> |r.value| == 2
  {
    Both(One(EvalVal(p, v.left, L, fuel)), One(EvalVal(p, v.right, L, fuel)))
  }

  /** The operands of a binary operation, one after the other. */
  lemma {:induction false} SimTwo(c: Ctx, v: Val, id: nat, base: nat, st: State) returns (path: Path)
    requires v.Bin? && Runs(c, TraceTwo(c.p.listNative, v, id), base, st)
    requires OkVal(c.p, c.m.env.objects, v.left) && OkVal(c.p, c.m.env.objects, v.right)
    ensures Leaves(c, st, path, c.start + base + Size(TraceTwo(c.p.listNative, v, id)),
        EvalTwo(c.p, v, LocalsOf(st), c.fuel))
    decreases v, 0, 0
  {
    hide Leaves, Sound, Placed, Size, EvalVal, TraceVal;
    var l, r := TraceVal(c.p.listNative, v.left, id), TraceVal(c.p.listNative, v.right, id + BlocksVal(v.left));
    var mid := c.start + base + Size(l);
    RunsSplit(c, l, r, base, st);
    path := SimVal(c, v.left, id, base, st);
    var a := EvalVal(c.p, v.left, LocalsOf(st), c.fuel);
    var second := path;
    if a.Done? {
      second := SimVal(c, v.right, id + BlocksVal(v.left), base + Size(l), At(st, mid, Stack(st) + [a.value]));
    }
    path := LeavesThen(c, st, path, mid, One(a), second, mid + Size(r),
        One(EvalVal(c.p, v.right, LocalsOf(st), c.fuel)));
  }

  lemma {:induction false} SimUnary(c: Ctx, v: Val, id: nat, base: nat, st: State) returns (path: Path)
    requires v.Un? && Runs(c, TraceVal(c.p.listNative, v, id), base, st) && OkVal(c.p, c.m.env.objects, v)
    ensures Leaves(c, st, path, c.start + base + Size(TraceVal(c.p.listNative, v, id)),
        One(EvalVal(c.p, v, LocalsOf(st), c.fuel)))
    decreases v, 0, 1
  {
    hide Leaves, Sound, Placed, Size, Replaces, ExecUnary;
    var op, items := [Op(Unary(v.unary))], TraceVal(c.p.listNative, v.operand, id);
    RunsSplit(c, items, op, base, st);
    path := SimVal(c, v.operand, id, base, st);
    var a := EvalVal(c.p, v.operand, LocalsOf(st), c.fuel);
    if a.Done? {
      ReplacesByUnary(c, st, base + Size(items), a.value, v.unary);
    }
    path := LeavesReplaced(c, st, path, c.start + base + Size(items), One(a), c.start + base + Size(items) + Size(op),
                           EvalVal(c.p, v, LocalsOf(st), c.fuel));
  }

  lemma {:induction false} SimList(c: Ctx, v: Val, id: nat, base: nat, st: State) returns (path: Path)
    requires v.List? && !IsConstant(v) && Runs(c, TraceVal(c.p.listNative, v, id), base, st)
    requires OkVal(c.p, c.m.env.objects, v)
    ensures Leaves(c, st, path, c.start + base + Size(TraceVal(c.p.listNative, v, id)),
        One(EvalVal(c.p, v, LocalsOf(st), c.fuel)))
    decreases v, 0, |v.children| + 1
  {
    hide Leaves, Placed, Size, Replaces, CallsAgree;
    var n := |v.children|;
    var op, items := [Op(InvokeNative(c.p.listNative, n))], TraceChildren(c.p.listNative, v, n, id);
    RunsSplit(c, items, op, base, st);
    path := SimChildren(c, v, n, id, base, st);
    var r := EvalChildren(c.p, v, n, LocalsOf(st), c.fuel);
    if r.Done? {
      ReplacesByList(c, st, base + Size(items), r.value);
    }
    path := LeavesReplaced(c, st, path, c.start + base + Size(items), r, c.start + base + Size(items) + Size(op),
                           EvalVal(c.p, v, LocalsOf(st), c.fuel));
  }

  lemma {:induction false} SimChildren(c: Ctx, v: Val, n: nat, id: nat, base: nat, st: State) returns (path: Path)
    requires v.List? && n <= |v.children| && Runs(c, TraceChildren(c.p.listNative, v, n, id), base, st)
    requires OkVal(c.p, c.m.env.objects, v)
    ensures Leaves(c, st, path, c.start + base + Size(TraceChildren(c.p.listNative, v, n, id)),
        EvalChildren(c.p, v, n, LocalsOf(st), c.fuel))
    decreases v, 0, n
  {
    hide Leaves, Sound, Placed, TraceVal, EvalVal;
    if n == 0 {
      path := StartOf(c, base, st);
    } else {
      var child := v.children[n - 1];
      var idChild := id + BlocksChildren(v, n - 1);
      var before, items := TraceChildren(c.p.listNative, v, n - 1, id), TraceVal(c.p.listNative, child, idChild);
      var mid := c.start + base + Size(before);
      RunsSplit(c, before, items, base, st);
      path := SimChildren(c, v, n - 1, id, base, st);
      var r := EvalChildren(c.p, v, n - 1, LocalsOf(st), c.fuel);
      var second := path;
      if r.Done? {
        second := SimVal(c, child, idChild, base + Size(before), At(st, mid, Stack(st) + r.value));
      }
      path := LeavesThen(c, st, path, mid, r, second, mid + Size(items),
          One(EvalVal(c.p, child, LocalsOf(st), c.fuel)));
    }
  }

  lemma StartOf(c: Ctx, base: nat, st: State) returns (path: Path)
    requires Runs(c, [], base, st)
    ensures Leaves(c, st, path, c.start + base, Done([]))
  {
    hide Leaves;
    path := LeavesNothing(c, st);
  }

  lemma {:induction false} SimCall(c: Ctx, v: Val, id: nat, base: nat, st: State) returns (path: Path)
    requires v.Call? && Runs(c, TraceVal(c.p.listNative, v, id), base, st) && OkVal(c.p, c.m.env.objects, v)
    ensures Leaves(c, st, path, c.start + base + Size(TraceVal(c.p.listNative, v, id)),
        One(EvalVal(c.p, v, LocalsOf(st), c.fuel)))
    decreases v, 0, |v.args| + 1
  {
    hide Leaves, Sound, Placed, Size, Replaces, Accepts;
    var n := |v.args|;
    var op, items := [Op(Invoke(v.func, n))], TraceArgs(c.p.listNative, v, n, id);
    RunsSplit(c, items, op, base, st);
    path := SimArgs(c, v, n, id, base, st);
    var r := EvalArgs(c.p, v, n, LocalsOf(st), c.fuel);
    if r.Done? {
      ReplacesByCall(c, st, base + Size(items), v.func, r.value);
    }
    path := LeavesReplaced(c, st, path, c.start + base + Size(items), r, c.start + base + Size(items) + Size(op),
                           EvalVal(c.p, v, LocalsOf(st), c.fuel));
  }

  lemma {:induction false} SimArgs(c: Ctx, v: Val, n: nat, id: nat, base: nat, st: State) returns (path: Path)
    requires v.Call? && n <= |v.args| && Runs(c, TraceArgs(c.p.listNative, v, n, id), base, st)
    requires OkVal(c.p, c.m.env.objects, v)
    ensures Leaves(c, st, path, c.start + base + Size(TraceArgs(c.p.listNative, v, n, id)),
        EvalArgs(c.p, v, n, LocalsOf(st), c.fuel))
    decreases v, 0, n
  {
    hide Leaves, Sound, Placed, TraceCtl, EvalCtl;
    if n == 0 {
      path := StartOf(c, base, st);
    } else {
      var arg := v.args[n - 1];
      var idArg := id + BlocksArgs(v, n - 1);
      var before, items := TraceArgs(c.p.listNative, v, n - 1, id), TraceCtl(c.p.listNative, arg, idArg);
      var mid := c.start + base + Size(before);
      RunsSplit(c, before, items, base, st);
      path := SimArgs(c, v, n - 1, id, base, st);
      var r := EvalArgs(c.p, v, n - 1, LocalsOf(st), c.fuel);
      var second := path;
      if r.Done? {
        second := SimCtl(c, arg, idArg, base + Size(before), At(st, mid, Stack(st) + r.value));
      }
      path := LeavesThen(c, st, path, mid, r, second, mid + Size(items), One(EvalCtl(c.p, arg, LocalsOf(st), c.fuel)));
    }
  }

  // Conditionals.

  /** What the code of a test leaves on the stack. */
  function EvalTest(p: Program, test: Ctl, L: Locals, fuel: nat): (r: Outcome<seq<Value>>)
    ensures r.Done? ==> |r.value| == if IsFused(test) then 2 else 1
  {
    if IsFused(test) then EvalTwo(p, test.v, L, fuel) else One(EvalCtl(p, test, L, fuel))
  }

  /** How the branch decides. */
  function Decision(test: Ctl, vs: seq<Value>): (r: Outcome<bool>)
    requires |vs| == if IsFused(test) then 2 else 1
    ensures !r.Timeout?
  {
    if IsFused(test) then EqualTo(vs[0], Some(vs[1])) else Done(Truth(vs[0]))
  }

  /** The value of the arm the test decides for. */
  function Chosen(p: Program, ctl: Ctl, vs: seq<Value>, L: Locals, fuel: nat): Outcome<Value>
    requires ctl.Cond? && |vs| == if IsFused(ctl.test) then 2 else 1
  {
    var b :- Decision(ctl.test, vs);
    EvalCtl(p, if b then ctl.conseq else ctl.alt, L, fuel)
  }

  /** Comparing in the branch and branching on a comparison are the same. */
  lemma TestMeaning(p: Program, ctl: Ctl, L: Locals, fuel: nat)
    requires ctl.Cond?
    ensures
      var vs, r := EvalTest(p, ctl.test, L, fuel), EvalCtl(p, ctl, L, fuel);
      if vs.Done? then r == Chosen(p, ctl, vs.value, L, fuel) else r == if vs.Crash? then Crash else Timeout
  {
    if IsFused(ctl.test) {
      var v := ctl.test.v;
      assert EvalCtl(p, ctl.test, L, fuel) == EvalVal(p, v, L, fuel);
      var a, b := EvalVal(p, v.left, L, fuel), EvalVal(p, v.right, L, fuel);
      if a.Done? && b.Done? {
        assert EvalTest(p, ctl.test, L, fuel) == Done([a.value] + [b.value]);
        assert EvalVal(p, v, L, fuel) == ExecBinary(Equals, a.value, b.value);
      }
    }
  }

  lemma {:induction false} SimTest(c: Ctx, test: Ctl, id: nat, base: nat, st: State) returns (path: Path)
    requires Runs(c, TraceTest(c.p.listNative, test, id), base, st) && OkCtl(c.p, c.m.env.objects, test)
    ensures Leaves(c, st, path, c.start + base + Size(TraceTest(c.p.listNative, test, id)),
        EvalTest(c.p, test, LocalsOf(st), c.fuel))
    decreases test, 2, 0
  {
    hide Leaves, Runs, Size, EvalTwo, EvalCtl;
    if IsFused(test) {
      path := SimTwo(c, test.v, id, base, st);
    } else {
      path := SimCtl(c, test, id, base, st);
    }
  }

  lemma {:induction false} SimCtl(c: Ctx, ctl: Ctl, id: nat, base: nat, st: State) returns (path: Path)
    requires Runs(c, TraceCtl(c.p.listNative, ctl, id), base, st) && OkCtl(c.p, c.m.env.objects, ctl)
    ensures Leaves(c, st, path, c.start + base + Size(TraceCtl(c.p.listNative, ctl, id)),
        One(EvalCtl(c.p, ctl, LocalsOf(st), c.fuel)))
    decreases ctl, 1, 0
  {
    hide Leaves, Runs, Size;
    match ctl
    case Just(v) => path := SimVal(c, v, id, base, st);
    case Cond(_, _, _) => path := SimCond(c, ctl, id, base, st);
  }

  /** Where the parts of a placed `cond` lie. */
  lemma CondLayout(c: Ctx, kind: JumpKind, alt: nat, join: nat, target: nat, conseqCode: Trace, altCode: Trace,
      base: nat)
    requires |c.m.env.mem| < TWO_TO_63
    requires Placed(c.m.env.mem, c.start, CondTrace(kind, alt, join, target, conseqCode, altCode), base, c.marks)
    ensures
      var m, s, a, b := c.m.env.mem, c.start, base + JUMP_SIZE, base + 2 * JUMP_SIZE + Size(conseqCode);
      var end := b + Size(altCode) + JUMP_SIZE;
      && Size(CondTrace(kind, alt, join, target, conseqCode, altCode)) == end - base
      && Placed(m, s, conseqCode, a, c.marks) && Placed(m, s, altCode, b, c.marks)
      && s + end <= |m|
      && Fetch(m, s + base) == Some(Fetched(Jump(kind, b - base), s + a))
      && Fetch(m, s + a + Size(conseqCode)) == Some(Fetched(Jump(Always, end - (a + Size(conseqCode))), s + b))
      && Fetch(m, s + b + Size(altCode)) == Some(Fetched(Jump(Always, end - (b + Size(altCode))), s + end))
  {
    hide Placed, Size, JumpTo, Fetch;
    var m, s := c.m.env.mem, c.start;
    var arm, altArm := Arm(target, conseqCode, join), Arm(alt, altCode, join);
    PlacedSplit(m, s, JumpTo(kind, alt), arm + (altArm + [Mark(join)]), base, c.marks);
    var a := base + Size(JumpTo(kind, alt));
    PlacedSplit(m, s, arm, altArm + [Mark(join)], a, c.marks);
    PlacedArm(m, s, target, conseqCode, join, a, c.marks);
    var b := a + Size(arm);
    PlacedSplit(m, s, altArm, [Mark(join)], b, c.marks);
    PlacedArm(m, s, alt, altCode, join, b, c.marks);
    PlacedMark(m, s, join, b + Size(altArm), c.marks);
    PlacedJump(m, s, kind, alt, base, c.marks);
    PlacedJump(m, s, Always, join, a + Size(conseqCode), c.marks);
    PlacedJump(m, s, Always, join, b + Size(altCode), c.marks);
  }

  lemma PlacedArm(m: seq<byte>, s: nat, block: nat, code: Trace, join: nat, base: nat, marks: map<nat, nat>)
    requires Placed(m, s, Arm(block, code, join), base, marks)
    ensures block in marks && marks[block] == base && s + base <= |m|
    ensures Placed(m, s, code, base, marks) && Placed(m, s, JumpTo(Always, join), base + Size(code), marks)
    ensures Size(Arm(block, code, join)) == Size(code) + Size(JumpTo(Always, join))
  {
    hide Placed, Size, JumpTo;
    PlacedSplit(m, s, [Mark(block)], code + JumpTo(Always, join), base, marks);
    PlacedMark(m, s, block, base, marks);
    PlacedSplit(m, s, code, JumpTo(Always, join), base, marks);
  }

  /** The conditional jump: pops the test and goes on with the clause, or to the alternate. */
  lemma Branches(c: Ctx, st: State, test: Ctl, vs: seq<Value>, from: nat, offset: word, next: nat) returns (path: Path)
    requires st.frames != [] && |vs| == (if IsFused(test) then 2 else 1)
    requires Fetch(c.m.env.mem, from) == Some(Fetched(Jump(BranchKind(test), offset), next))
    requires next <= from + offset <= c.m.limit
    ensures
      var b := Decision(test, vs);
      Reaches(c.m, Stack(st), At(st, from, Stack(st) + vs), path,
              if b.Done? then Done(At(st, if b.value then next else from + offset, Stack(st))) else Crash)
  {
    hide Fetch, Steps;
    var s := At(st, from, Stack(st) + vs);
    var b := Decision(test, vs);
    var r := if b.Done? then Done(At(st, if b.value then next else from + offset, Stack(st))) else Crash;
    FetchInside(c.m.env.mem, from);
    NextIsExec(c.m.env, s, c.m.d, Jump(BranchKind(test), offset), next);
    var stack := Stack(st) + vs;
    assert stack[..|stack| - |vs|] == Stack(st);
    assert s.(current := next) == At(st, next, stack);
    path := ReachesByOne(c.m, Stack(st), s, r);
  }

  /** After an arm, the jump to the join. */
  lemma LeavesJump(c: Ctx, st: State, first: Path, from: nat, r: Outcome<seq<Value>>, offset: word, next: nat)
      returns (path: Path)
    requires Leaves(c, st, first, from, r)
    requires Fetch(c.m.env.mem, from) == Some(Fetched(Jump(Always, offset), next))
    requires next <= from + offset <= c.m.limit
    ensures Leaves(c, st, path, from + offset, r)
  {
    hide Fetch, Steps;
    var end := from + offset;
    var s1 := After(st, from, r);
    var second: Path := [];
    if r.Done? {
      FetchInside(c.m.env.mem, from);
      NextIsExec(c.m.env, s1.value, c.m.d, Jump(Always, offset), next);
      second := ReachesByOne(c.m, Stack(st), s1.value, After(st, end, r));
    }
    path := Continued(first, s1, second);
    ReachesThen(c.m, Stack(st), st, first, s1, Stack(st), second, After(st, end, r));
  }

  /** The arm that was chosen, up to the join. */
  lemma {:induction false} SimArm(c: Ctx, arm: Ctl, id: nat, base: nat, st: State, end: nat) returns (path: Path)
    requires Runs(c, TraceCtl(c.p.listNative, arm, id), base, st) && OkCtl(c.p, c.m.env.objects, arm)
    requires
      var from := c.start + base + Size(TraceCtl(c.p.listNative, arm, id));
      && from + JUMP_SIZE <= end <= c.m.limit && end < TWO_TO_63
      && Fetch(c.m.env.mem, from) == Some(Fetched(Jump(Always, end - from), from + JUMP_SIZE))
    ensures Leaves(c, st, path, end, One(EvalCtl(c.p, arm, LocalsOf(st), c.fuel)))
    decreases arm, 2
  {
    hide Leaves, Runs, Size, Fetch, EvalCtl, TraceCtl;
    var from := c.start + base + Size(TraceCtl(c.p.listNative, arm, id));
    path := SimCtl(c, arm, id, base, st);
    path := LeavesJump(c, st, path, from, One(EvalCtl(c.p, arm, LocalsOf(st), c.fuel)), end - from, from + JUMP_SIZE);
  }

  /** The part of a `cond` after its test: `vs` is what the test left on top of the stack of `st`. */
  lemma {:induction false} SimBranch(c: Ctx, ctl: Ctl, id: nat, base: nat, st: State, vs: seq<Value>)
      returns (path: Path)
    requires ctl.Cond? && Sound(c) && OkCtl(c.p, c.m.env.objects, ctl) && st.frames != [] && st.scopes != []
    requires Placed(c.m.env.mem, c.start, BranchOf(c.p.listNative, ctl, id), base, c.marks)
    requires c.start + base + Size(BranchOf(c.p.listNative, ctl, id)) <= c.m.limit
    requires |vs| == if IsFused(ctl.test) then 2 else 1
    ensures Reaches(c.m, Stack(st), At(st, c.start + base, Stack(st) + vs), path,
                    After(st, c.start + base + Size(BranchOf(c.p.listNative, ctl, id)),
                        One(Chosen(c.p, ctl, vs, LocalsOf(st), c.fuel))))
    decreases ctl, 0, 0
  {
    hide Reaches, Leaves, CallsAgree, Placed, Size, Fetch, Decision, EvalCtl, TraceCtl, BlocksCtl, CondTrace;
    var native, s, idTest := c.p.listNative, c.start, id + 3 + BlocksCtl(ctl.conseq);
    var idAlt := idTest + BlocksCtl(ctl.test);
    var conseqCode, altCode := TraceCtl(native, ctl.conseq, id + 3), TraceCtl(native, ctl.alt, idAlt);
    CondLayout(c, BranchKind(ctl.test), id, id + 1, id + 2, conseqCode, altCode, base);
    var a, b := base + JUMP_SIZE, base + 2 * JUMP_SIZE + Size(conseqCode);
    var end := s + b + Size(altCode) + JUMP_SIZE;
    var d := Decision(ctl.test, vs);
    var first := Branches(c, st, ctl.test, vs, s + base, b - base, s + a);
    var r1 := if d.Done? then Done(At(st, if d.value then s + a else s + b, Stack(st))) else Crash;
    var second := first;
    if d.Done? {
      if d.value {
        second := SimArm(c, ctl.conseq, id + 3, a, r1.value, end);
      } else {
        second := SimArm(c, ctl.alt, idAlt, b, r1.value, end);
      }
    }
    path := ArmTaken(c, st, At(st, s + base, Stack(st) + vs), first, r1, second, end,
        Chosen(c.p, ctl, vs, LocalsOf(st), c.fuel));
  }

  lemma ArmTaken(c: Ctx, st: State, s0: State, first: Path, r1: Outcome<State>, second: Path, end: nat,
      r: Outcome<Value>)
    returns (path: Path)
    requires st.frames != [] && Reaches(c.m, Stack(st), s0, first, r1)
    requires
      r1.Done? ==>
        && r1.value.frames != [] && r1.value == At(st, r1.value.current, Stack(st))
        && Leaves(c, r1.value, second, end, One(r))
    requires r1.Crash? ==> r.Crash?
    requires r1.Timeout? ==> r.Timeout?
    ensures Reaches(c.m, Stack(st), s0, path, After(st, end, One(r)))
  {
    hide Steps;
    path := Continued(first, r1, second);
    ReachesThen(c.m, Stack(st), s0, first, r1, Stack(st), second, After(st, end, One(r)));
  }

  function BranchOf(native: uword, ctl: Ctl, id: nat): Trace
    requires ctl.Cond?
  {
    var idTest := id + 3 + BlocksCtl(ctl.conseq);
    CondTrace(BranchKind(ctl.test), id, id + 1, id + 2, TraceCtl(native, ctl.conseq, id + 3),
              TraceCtl(native, ctl.alt, idTest + BlocksCtl(ctl.test)))
  }

  lemma {:induction false} SimCond(c: Ctx, ctl: Ctl, id: nat, base: nat, st: State) returns (path: Path)
    requires ctl.Cond? && Runs(c, TraceCtl(c.p.listNative, ctl, id), base, st) && OkCtl(c.p, c.m.env.objects, ctl)
    ensures Leaves(c, st, path, c.start + base + Size(TraceCtl(c.p.listNative, ctl, id)),
        One(EvalCtl(c.p, ctl, LocalsOf(st), c.fuel)))
    decreases ctl, 0, 1
  {
    hide Reaches, Leaves, Sound, Placed, Size, EvalTest, Chosen, BranchOf, EvalCtl;
    var native, idTest := c.p.listNative, id + 3 + BlocksCtl(ctl.conseq);
    var test, branch := TraceTest(native, ctl.test, idTest), BranchOf(native, ctl, id);
    TraceOfCond(native, ctl, id);
    RunsSplit(c, test, branch, base, st);
    var first := SimTest(c, ctl.test, idTest, base, st);
    var r := EvalTest(c.p, ctl.test, LocalsOf(st), c.fuel);
    TestMeaning(c.p, ctl, LocalsOf(st), c.fuel);
    var second := first;
    if r.Done? {
      second := SimBranch(c, ctl, id, base + Size(test), st, r.value);
    }
    path := TestThen(c, st, first, c.start + base + Size(test), r, second, c.start + base + Size(test) + Size(branch),
                     EvalCtl(c.p, ctl, LocalsOf(st), c.fuel));
  }

  lemma TestThen(c: Ctx, st: State, first: Path, mid: nat, r: Outcome<seq<Value>>, second: Path, end: nat,
      v: Outcome<Value>)
    returns (path: Path)
    requires Leaves(c, st, first, mid, r)
    requires r.Done? ==> Reaches(c.m, Stack(st), At(st, mid, Stack(st) + r.value), second, After(st, end, One(v)))
    requires r.Crash? ==> v.Crash?
    requires r.Timeout? ==> v.Timeout?
    ensures Leaves(c, st, path, end, One(v))
  {
    hide Steps;
    var r1 := After(st, mid, r);
    path := Continued(first, r1, second);
    ReachesThen(c.m, Stack(st), st, first, r1, Stack(st), second, After(st, end, One(v)));
  }

  lemma TraceOfCond(native: uword, ctl: Ctl, id: nat)
    requires ctl.Cond?
    ensures TraceCtl(native, ctl, id) ==
        TraceTest(native, ctl.test, id + 3 + BlocksCtl(ctl.conseq)) + BranchOf(native, ctl, id)
  {
  }
}
