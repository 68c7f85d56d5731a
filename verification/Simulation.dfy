/**
  The code of an expression does what the expression means: run from any operand
  stack, it pushes the value, or fails as the evaluation fails. The part of the
  stack that was there before is never popped, and the position only grows.
 */
module Simulation {
  import opened Sequences
  import opened Words
  import opened Values
  import opened Bytecode
  import opened Layout
  import opened Source
  import opened Emission
  import opened Machine
  import opened Calls
  import opened Paths
  import opened Placement

  /** Memory holds the code of every lambda of the program, and the procedures are those of the program. */
  ghost predicate Linked(p: Program, env: Env) {
    && |env.mem| < TWO_TO_63
    && (forall func :: func in p.lambdas ==> func in env.procs && env.procs[func].LambdaProc?)
    && (forall func :: func in env.procs && env.procs[func].LambdaProc? ==> func in p.lambdas && HasCode(p, env, func))
    && p.listNative in env.procs && env.procs[p.listNative].ListProc?
  }

  ghost predicate HasCode(p: Program, env: Env, func: uword)
    requires func in p.lambdas && func in env.procs && env.procs[func].LambdaProc?
  {
    var body := p.lambdas[func].body;
    && env.procs[func].params == p.lambdas[func].params
    && body != [] && OkBody(p, env.objects, body)
    && CodeAt(env.mem, env.procs[func].entry, CodeOf(p.listNative, body))
  }

  /** Code at `start` with label table `marks`; calls of the source have `fuel`. */
  datatype Ctx = Ctx(p: Program, m: Setting, start: nat, marks: map<nat, nat>, fuel: nat)

  function Padded(params: seq<Param>, vs: seq<Value>): seq<Value>
    requires |vs| <= |params|
  {
    vs + Nulls(|params| - |vs|)
  }

  /** What a call of a lambda means. */
  function CallOutcome(p: Program, func: uword, vs: seq<Value>, fuel: nat): Outcome<Value>
    requires func in p.lambdas && |vs| <= |p.lambdas[func].params|
  {
    if fuel == 0 then Timeout
    else EvalBody(p, p.lambdas[func].body, Entered(func, p.lambdas[func].params, vs), fuel - 1)
  }

  /** A call that pushes the value of `r`, or fails like `r`, up to the provisos about fuel. */
  ghost predicate CallMatches(m: Outcome<State>, r: Outcome<Value>, s: State, exact: bool)
    requires s.frames != []
  {
    (!exact && m.Timeout?) ||
    match r
    case Done(v) => m == Done(Pushed(s, v))
    case Crash => m.Crash?
    case Timeout => exact
  }

  ghost predicate CallAgrees(c: Ctx, func: uword, vs: seq<Value>, s: State)
    requires func in c.p.lambdas && Accepts(c.p.lambdas[func].params, |vs|) && s.frames != []
  {
    CallMatches(CallProcedure(c.m.env, s, func, Padded(c.p.lambdas[func].params, vs), c.m.d),
                CallOutcome(c.p, func, vs, c.fuel), s, c.m.exact)
  }

  /** Every accepted call from any state gives what the source says. */
  ghost predicate CallsAgree(c: Ctx) {
    forall func: uword, vs: seq<Value>, s: State ::
      func in c.p.lambdas && Accepts(c.p.lambdas[func].params, |vs|) && s.frames != [] && s.current != 0 ==>
        CallAgrees(c, func, vs, s)
  }

  lemma LinkedLambda(p: Program, env: Env, func: uword)
    requires Linked(p, env) && func in p.lambdas
    ensures func in env.procs && env.procs[func].LambdaProc? && env.procs[func].params == p.lambdas[func].params
  {
    hide OkBody, CodeOf;
    assert HasCode(p, env, func);
  }

  lemma CallAgreesAt(c: Ctx, func: uword, vs: seq<Value>, s: State)
    requires CallsAgree(c) && func in c.p.lambdas
    requires Accepts(c.p.lambdas[func].params, |vs|) && s.frames != [] && s.current != 0
    ensures CallMatches(CallProcedure(c.m.env, s, func, Padded(c.p.lambdas[func].params, vs), c.m.d),
                        CallOutcome(c.p, func, vs, c.fuel), s, c.m.exact)
  {
    hide CallMatches, CallProcedure, CallOutcome, Padded, Accepts;
    assert CallAgrees(c, func, vs, s);
  }

  ghost predicate Sound(c: Ctx) {
    Linked(c.p, c.m.env) && CallsAgree(c)
  }

  ghost predicate Starts(c: Ctx, st: State, base: nat) {
    st.frames != [] && st.scopes != [] && st.current == c.start + base
  }

  // Outcomes as states.

  function One(r: Outcome<Value>): Outcome<seq<Value>> {
    var v :- r;
    Done([v])
  }

  function Both(r1: Outcome<seq<Value>>, r2: Outcome<seq<Value>>): Outcome<seq<Value>> {
    var a :- r1;
    var b :- r2;
    Done(a + b)
  }

  /** The state at `end` with the values pushed. */
  function After(st: State, end: nat, r: Outcome<seq<Value>>): Outcome<State>
    requires st.frames != []
  {
    var vs :- r;
    Done(At(st, end, Stack(st) + vs))
  }

  /** The path pushes the values of `r` and arrives at `end`, or fails as `r` does. */
  ghost predicate Leaves(c: Ctx, st: State, path: Path, end: nat, r: Outcome<seq<Value>>) {
    st.frames != [] && Reaches(c.m, Stack(st), st, path, After(st, end, r))
  }

  lemma LeavesNothing(c: Ctx, st: State) returns (path: Path)
    requires st.frames != [] && st.current <= c.m.limit
    ensures Leaves(c, st, path, st.current, Done([]))
  {
    path := [st];
    AtTwice(st, 0, [], 0, []);
    assert Stack(st) + [] == Stack(st);
  }

  lemma LeavesThen(c: Ctx, st: State, first: Path, mid: nat, r1: Outcome<seq<Value>>, second: Path, end: nat,
      r2: Outcome<seq<Value>>)
    returns (path: Path)
    requires Leaves(c, st, first, mid, r1)
    requires r1.Done? ==> Leaves(c, At(st, mid, Stack(st) + r1.value), second, end, r2)
    ensures Leaves(c, st, path, end, Both(r1, r2))
  {
    hide Steps, Next;
    var s1 := After(st, mid, r1);
    if r1.Done? {
      AtTwice(st, mid, Stack(st) + r1.value, end, if r2.Done? then Stack(st) + r1.value + r2.value else []);
      assert r2.Done? ==> Stack(st) + r1.value + r2.value == Stack(st) + (r1.value + r2.value);
      assert After(s1.value, end, r2) == After(st, end, Both(r1, r2));
    }
    path := Continued(first, s1, second);
    ReachesThen(c.m, Stack(st), st, first, s1, if r1.Done? then Stack(s1.value) else [], second,
                After(st, end, Both(r1, r2)));
  }

  /** From `mid` with `vs` on the stack, one instruction replaces them by the value of `r`, or fails as `r` does. */
  ghost predicate Replaces(c: Ctx, st: State, mid: nat, vs: seq<Value>, end: nat, r: Outcome<Value>)
    requires st.frames != []
  {
    var s := At(st, mid, Stack(st) + vs);
    && mid < end <= c.m.limit
    && NoUnderflow(c.m.env, s, |Stack(st)|)
    && ((r.Done? && Next(c.m.env, s, c.m.d) == Done(At(st, end, Stack(st) + [r.value])))
        || Fails(c.m, |Stack(st)|, s, r))
  }

  lemma LeavesReplaced(c: Ctx, st: State, first: Path, mid: nat, r1: Outcome<seq<Value>>, end: nat, r: Outcome<Value>)
    returns (path: Path)
    requires Leaves(c, st, first, mid, r1)
    requires r1.Done? ==> Replaces(c, st, mid, r1.value, end, r)
    requires r1.Crash? ==> r.Crash?
    requires r1.Timeout? ==> r.Timeout?
    ensures Leaves(c, st, path, end, One(r))
  {
    hide Steps, Next;
    var s1 := After(st, mid, r1);
    var second: Path := [];
    if r1.Done? {
      second := ReachesByOne(c.m, Stack(st), s1.value, After(st, end, One(r)));
    }
    path := Continued(first, s1, second);
    ReachesThen(c.m, Stack(st), st, first, s1, Stack(st), second, After(st, end, One(r)));
  }

  // Single instructions.

  /** An instruction other than a call. */
  lemma ReplacesByExec(c: Ctx, st: State, base: nat, vs: seq<Value>, i: Instr, r: Outcome<Value>)
    requires st.frames != [] && Placed(c.m.env.mem, c.start, [Op(i)], base, c.marks)
    requires !i.Invoke? && !i.InvokeNative? && !i.InvokeDynamic? && !i.Ret? && Pops(i) <= |vs|
    requires var s := At(st, c.start + base + Size([Op(i)]), Stack(st) + vs);
             match r
             case Done(v) => Exec(c.m.env, s, i, c.start + base) == Done(At(st, s.current, Stack(st) + [v]))
             case Crash => Exec(c.m.env, s, i, c.start + base).Crash?
             case Timeout => false
    requires c.start + base + Size([Op(i)]) <= c.m.limit
    ensures Replaces(c, st, c.start + base, vs, c.start + base + Size([Op(i)]), r)
  {
    hide Exec, Placed, Size, Next, Fetch;
    PlacedOp(c.m.env.mem, c.start, i, base, c.marks);
    var next := c.start + base + Size([Op(i)]);
    var s := At(st, c.start + base, Stack(st) + vs);
    assert s.(current := next) == At(st, next, Stack(st) + vs);
    NextIsExec(c.m.env, s, c.m.d, i, next);
  }

  lemma NextIsExec(env: Env, s: State, d: nat, i: Instr, next: nat)
    requires s.frames != [] && Fetch(env.mem, s.current) == Some(Fetched(i, next))
    requires !i.Invoke? && !i.InvokeNative? && !i.InvokeDynamic?
    ensures Next(env, s, d) == Exec(env, s.(current := next), i, s.current)
    ensures next <= |env.mem|
  {
  }

  lemma ReplacesByPush(c: Ctx, st: State, base: nat, value: Value, address: uword)
    requires st.frames != [] && OkConstant(c.m.env.objects, value, address)
    requires Placed(c.m.env.mem, c.start, [Op(PushOf(value, address))], base, c.marks)
    requires c.start + base + Size([Op(PushOf(value, address))]) <= c.m.limit
    ensures Replaces(c, st, c.start + base, [], c.start + base + Size([Op(PushOf(value, address))]), Done(value))
  {
    hide Placed, Size, Replaces, Exec, PushOf, OkConstant;
    assert Stack(st) + [] == Stack(st);
    var i := PushOf(value, address);
    var s := At(st, c.start + base + Size([Op(i)]), Stack(st) + []);
    PushExec(c.m.env, s, value, address, c.start + base);
    AtTwice(st, s.current, Stack(st), s.current, Stack(st) + [value]);
    ReplacesByExec(c, st, base, [], i, Done(value));
  }

  lemma PushExec(env: Env, s: State, value: Value, address: uword, at: nat)
    requires s.frames != [] && OkConstant(env.objects, value, address)
    ensures var i := PushOf(value, address);
            && !i.Invoke? && !i.InvokeNative? && !i.InvokeDynamic? && !i.Ret? && Pops(i) == 0
            && Exec(env, s, i, at) == Done(At(s, s.current, Stack(s) + [value]))
  {
  }

  lemma ReplacesByLoad(c: Ctx, st: State, base: nat, idx: uword)
    requires st.frames != [] && st.scopes != [] && Placed(c.m.env.mem, c.start, [Op(LoadLocal(idx))], base, c.marks)
    requires c.start + base + Size([Op(LoadLocal(idx))]) <= c.m.limit
    ensures Replaces(c, st, c.start + base, [], c.start + base + Size([Op(LoadLocal(idx))]),
                     if idx < |Back(st.scopes)| then Done(Back(st.scopes)[idx]) else Crash)
  {
    hide Placed, Size, Replaces;
    assert Stack(st) + [] == Stack(st);
    ReplacesByExec(c, st, base, [], LoadLocal(idx),
        if idx < |Back(st.scopes)| then Done(Back(st.scopes)[idx]) else Crash);
  }

  lemma ReplacesByBinary(c: Ctx, st: State, base: nat, a: Value, b: Value, op: BinaryOp)
    requires st.frames != [] && Placed(c.m.env.mem, c.start, [Op(Binary(op))], base, c.marks)
    requires c.start + base + Size([Op(Binary(op))]) <= c.m.limit
    ensures Replaces(c, st, c.start + base, [a, b], c.start + base + Size([Op(Binary(op))]), ExecBinary(op, a, b))
  {
    hide Placed, Size, ExecBinary;
    var s := Stack(st) + [a, b];
    assert s[..|s| - 2] == Stack(st);
    ReplacesByExec(c, st, base, [a, b], Binary(op), ExecBinary(op, a, b));
  }

  lemma ReplacesByUnary(c: Ctx, st: State, base: nat, a: Value, op: UnaryOp)
    requires st.frames != [] && Placed(c.m.env.mem, c.start, [Op(Unary(op))], base, c.marks)
    requires c.start + base + Size([Op(Unary(op))]) <= c.m.limit
    ensures Replaces(c, st, c.start + base, [a], c.start + base + Size([Op(Unary(op))]), ExecUnary(op, a))
  {
    hide Placed, Size, ExecUnary;
    assert Front(Stack(st) + [a]) == Stack(st);
    ReplacesByExec(c, st, base, [a], Unary(op), ExecUnary(op, a));
  }

  // Calls.

  /** An invoke collects the arguments of its callee and calls it. */
  lemma InvokeIsCall(env: Env, st: State, callee: Callee, func: uword, numArgs: nat, d: nat)
    requires st.frames != [] && func in env.procs
    requires (callee == Static(func) && env.procs[func].LambdaProc?)
        || (callee == Native(func) && env.procs[func].ListProc?)
    ensures
      var b := CollectArgs(ParamsOf(env.procs[func]), Stack(st), numArgs);
      InvokeProc(env, st, callee, numArgs, d) ==
      if b.Done? then CallProcedure(env, WithStack(st, b.value.stack), func, b.value.args, d)
      else if b.Crash? then Crash else Timeout
  {
    hide CollectArgs, CallProcedure;
  }

  /** A native call of `list` replaces its arguments by the list of them. */
  lemma ListCall(env: Env, st: State, native: uword, base: seq<Value>, vs: seq<Value>, d: nat)
    requires st.frames != [] && st.current != 0 && Stack(st) == base + vs
    requires native in env.procs && env.procs[native].ListProc?
    ensures InvokeProc(env, st, Native(native), |vs|, d) == Done(WithStack(st, base + [ListOf(vs)]))
  {
    hide CollectArgs, InvokeProc, ListOf;
    ListConvention(base, vs);
    InvokeIsCall(env, st, Native(native), native, |vs|, d);
    var popped := WithStack(st, base);
    var entered := Enter(popped, native, vs);
    LeaveEntered(popped, entered, Pushed(entered, ListOf(vs)));
    assert CallProcedure(env, popped, native, vs, d) == Done(Leave(Pushed(entered, ListOf(vs))));
    assert Pushed(popped, ListOf(vs)) == WithStack(st, base + [ListOf(vs)]);
  }

  /** The meaning of a call with evaluated arguments. */
  function Applied(p: Program, func: uword, vs: seq<Value>, fuel: nat): Outcome<Value> {
    if func !in p.lambdas || !Accepts(p.lambdas[func].params, |vs|) then Crash else CallOutcome(p, func, vs, fuel)
  }

  lemma LambdaCall(c: Ctx, st: State, func: uword, base: seq<Value>, vs: seq<Value>)
    requires Sound(c) && st.frames != [] && st.current != 0 && Stack(st) == base + vs
    requires func in c.p.lambdas ==> |vs| <= |c.p.lambdas[func].params|
    ensures CallMatches(InvokeProc(c.m.env, st, Static(func), |vs|, c.m.d), Applied(c.p, func, vs, c.fuel),
        WithStack(st, base), c.m.exact)
  {
    hide CollectArgs, CallProcedure, CallOutcome, InvokeProc, Accepts, CallAgrees;
    if func !in c.p.lambdas {
      NoLambda(c.m.env, st, func, |vs|, c.m.d);
    } else if Accepts(c.p.lambdas[func].params, |vs|) {
      AcceptedCall(c, st, func, base, vs);
    } else {
      assert HasCode(c.p, c.m.env, func);
      RejectedCall(c.m.env, st, func, base, vs, c.m.d);
    }
  }

  lemma AcceptedCall(c: Ctx, st: State, func: uword, base: seq<Value>, vs: seq<Value>)
    requires Sound(c) && st.frames != [] && st.current != 0 && Stack(st) == base + vs
    requires func in c.p.lambdas && Accepts(c.p.lambdas[func].params, |vs|)
    ensures CallMatches(InvokeProc(c.m.env, st, Static(func), |vs|, c.m.d), CallOutcome(c.p, func, vs, c.fuel),
        WithStack(st, base), c.m.exact)
  {
    hide CollectArgs, CallProcedure, CallOutcome, InvokeProc, Accepts, CallMatches, CallsAgree, Linked;
    LinkedLambda(c.p, c.m.env, func);
    Convention(c.p.lambdas[func].params, base, vs);
    InvokeIsCall(c.m.env, st, Static(func), func, |vs|, c.m.d);
    CallAgreesAt(c, func, vs, WithStack(st, base));
  }

  lemma RejectedCall(env: Env, st: State, func: uword, base: seq<Value>, vs: seq<Value>, d: nat)
    requires st.frames != [] && Stack(st) == base + vs
    requires func in env.procs && env.procs[func].LambdaProc?
    requires |vs| <= |env.procs[func].params| && !Accepts(env.procs[func].params, |vs|)
    ensures InvokeProc(env, st, Static(func), |vs|, d) == Crash
  {
    hide CollectArgs, CallProcedure, InvokeProc, Accepts;
    Convention(env.procs[func].params, base, vs);
    InvokeIsCall(env, st, Static(func), func, |vs|, d);
    var r := CollectArgs(env.procs[func].params, base + vs, |vs|);
    if r.Done? {
      WrongNumber(env, WithStack(st, r.value.stack), func, r.value.args, d);
    }
  }

  lemma NoLambda(env: Env, st: State, func: uword, numArgs: nat, d: nat)
    requires st.frames != [] && !(func in env.procs && env.procs[func].LambdaProc?)
    ensures InvokeProc(env, st, Static(func), numArgs, d) == Crash
  {
  }

  lemma WrongNumber(env: Env, st: State, func: uword, args: seq<Value>, d: nat)
    requires func in env.procs && env.procs[func].LambdaProc? && |args| != |env.procs[func].params|
    ensures CallProcedure(env, st, func, args, d) == Crash
  {
  }

  lemma ReplacesByList(c: Ctx, st: State, base: nat, vs: seq<Value>)
    requires c.p.listNative in c.m.env.procs && c.m.env.procs[c.p.listNative].ListProc?
    requires st.frames != [] && |vs| < TWO_TO_64
    requires Placed(c.m.env.mem, c.start, [Op(InvokeNative(c.p.listNative, |vs|))], base, c.marks)
    requires c.start + base + Size([Op(InvokeNative(c.p.listNative, |vs|))]) <= c.m.limit
    ensures Replaces(c, st, c.start + base, vs, c.start + base + Size([Op(InvokeNative(c.p.listNative, |vs|))]),
        Done(ListOf(vs)))
  {
    hide Placed, Size, Fetch, InvokeProc, Exec, ListOf, Linked;
    var i := InvokeNative(c.p.listNative, |vs|);
    PlacedOp(c.m.env.mem, c.start, i, base, c.marks);
    var s := At(st, c.start + base, Stack(st) + vs);
    var next := c.start + base + Size([Op(i)]);
    FetchInside(c.m.env.mem, c.start + base);
    ListCall(c.m.env, s.(current := next), c.p.listNative, Stack(st), vs, c.m.d);
  }

  lemma FetchInside(mem: seq<byte>, pos: nat)
    requires Fetch(mem, pos).Some?
    ensures pos < Fetch(mem, pos).value.next <= |mem|
  {
  }

  lemma ReplacesByCall(c: Ctx, st: State, base: nat, func: uword, vs: seq<Value>)
    requires Sound(c) && st.frames != [] && |vs| < TWO_TO_64
    requires func in c.p.lambdas ==> |vs| <= |c.p.lambdas[func].params|
    requires Placed(c.m.env.mem, c.start, [Op(Invoke(func, |vs|))], base, c.marks)
    requires c.start + base + Size([Op(Invoke(func, |vs|))]) <= c.m.limit
    ensures Replaces(c, st, c.start + base, vs, c.start + base + Size([Op(Invoke(func, |vs|))]),
        Applied(c.p, func, vs, c.fuel))
  {
    hide Placed, Size, Fetch, InvokeProc, Exec, Applied, CallsAgree, Linked;
    var i := Invoke(func, |vs|);
    PlacedOp(c.m.env.mem, c.start, i, base, c.marks);
    var s := At(st, c.start + base, Stack(st) + vs);
    var next := c.start + base + Size([Op(i)]);
    FetchInside(c.m.env.mem, c.start + base);
    LambdaCall(c, s.(current := next), func, Stack(st), vs);
  }
}
