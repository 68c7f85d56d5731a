/**
  Which way control goes: what a `cond` and the conditional jumps choose, in terms
  of the values themselves.
 */
module Meanings {
  import opened Sequences
  import opened Words
  import opened Values
  import opened Operators
  import opened Bytecode
  import opened Source
  import opened Machine

  /** A `cond` takes its alternate if and only if its test is Null or #F. */
  lemma CondChooses(p: Program, test: Ctl, conseq: Ctl, alt: Ctl, L: Locals, fuel: nat, t: Value)
    requires EvalCtl(p, test, L, fuel) == Done(t)
    ensures
      EvalCtl(p, Cond(test, conseq, alt), L, fuel) ==
        if t == Null || t == Bool(false) then EvalCtl(p, alt, L, fuel) else EvalCtl(p, conseq, L, fuel)
  {
  }

  /** A lambda without a body cannot be compiled, so its call crashes. */
  lemma EmptyBody(p: Program, L: Locals, fuel: nat)
    ensures EvalBody(p, [], L, fuel) == Crash
  {
  }

  /** `jnz` pops a value and jumps if and only if it is Null or #F. */
  lemma JnzJumps(st: State, target: nat)
    requires st.frames != []
    ensures
      var s := Stack(st);
      if s == [] then ExecJump(st, Jnz, target) == Crash
      else
        var popped, top := WithStack(st, s[..|s| - 1]), s[|s| - 1];
        ExecJump(st, Jnz, target) ==
          Done(if top == Null || top == Bool(false) then popped.(current := target) else popped)
  {
  }

  /**
    `jne` pops two values; it crashes if they cannot be compared, and jumps if and
    only if they differ, or hold a Null or a procedure.
   */
  lemma JneJumps(st: State, target: nat)
    requires st.frames != [] && |Stack(st)| >= 2
    ensures
      var s := Stack(st);
      var popped, x, y := WithStack(st, s[..|s| - 2]), s[|s| - 2], s[|s| - 1];
      ExecJump(st, Jne, target) ==
        if !Comparable(x, y) then Crash
        else if Alike(x, y) && Solid(x) then Done(popped)
        else Done(popped.(current := target))
  {
    var s := Stack(st);
    EqualsReturns(s[|s| - 2], s[|s| - 1]);
  }

  /**
    A dynamic invoke pops the procedure and does what a static or native invoke of
    it would do; anything but a procedure on top crashes.
   */
  lemma DynamicInvoke(env: Env, st: State, numArgs: nat, fuel: nat)
    requires st.frames != []
    ensures
      var s, r := Stack(st), InvokeProc(env, st, Dynamic, numArgs, fuel);
      if s == [] || !s[|s| - 1].Proc? then r == Crash
      else
        var rest, func := WithStack(st, s[..|s| - 1]), s[|s| - 1].address;
        if func in env.procs && env.procs[func].ListProc? then r == InvokeProc(env, rest, Native(func), numArgs, fuel)
        else r == InvokeProc(env, rest, Static(func), numArgs, fuel)
  {
    hide CollectArgs, CallProcedure;
  }

  /** A static invoke takes lambdas only, a native one natives only. */
  lemma WrongCallee(env: Env, st: State, func: uword, numArgs: nat, fuel: nat)
    requires st.frames != []
    ensures !(func in env.procs && env.procs[func].LambdaProc?) ==>
        InvokeProc(env, st, Static(func), numArgs, fuel) == Crash
    ensures !(func in env.procs && env.procs[func].ListProc?) ==>
        InvokeProc(env, st, Native(func), numArgs, fuel) == Crash
  {
  }

  /** What has been pushed is popped; without a value there is nothing to pop. */
  lemma PopUndoesPush(env: Env, st: State, v: Value)
    requires st.frames != []
    ensures Exec(env, Pushed(st, v), Pop, 0) == Done(st)
    ensures Exec(env, st, Pop, 0) == Crash <==> Stack(st) == []
    ensures Exec(env, st, Nop, 0) == Done(st)
  {
    assert Front(Stack(st) + [v]) == Stack(st);
    assert Front(st.frames) + [Back(st.frames)] == st.frames;
  }

  /**
    What is not there crashes: a slot outside the scope, for the machine and for the
    evaluator, a constant that is not on the heap, a value that has not been pushed.
   */
  lemma NothingThere(env: Env, st: State, idx: uword, address: uword, p: Program, name: string, L: Locals, fuel: nat)
    requires st.frames != []
    ensures
      var unknown := st.scopes == [] || idx >= |st.scopes[|st.scopes| - 1]|;
      && (Exec(env, st, Instr.LoadLocal(idx), 0).Crash? <==> unknown)
      && (Exec(env, st, Instr.StoreLocal(idx), 0).Crash? <==> unknown || Stack(st) == [])
    ensures EvalVal(p, Local(idx, name), L, fuel).Crash? <==> idx >= |L|
    ensures Exec(env, st, PushQ(address), 0).Crash? <==> address !in env.objects
  {
  }

  /** An unconditional jump always jumps; the jumps that the run-time system does not implement crash. */
  lemma OtherJumps(st: State, target: int)
    requires st.frames != []
    ensures ExecJump(st, Always, target) == if target >= 0 then Done(st.(current := target)) else Crash
    ensures ExecJump(st, Jz, target) == Crash && ExecJump(st, Jeq, target) == Crash
  {
  }

  /**
    The end of a call: frame and scope go, the position is the return address if
    there is one, and the value, the top of the frame's stack or Null, goes to the
    caller's stack or, without a caller, becomes the result.
   */
  lemma LeaveEffect(outer: State, frame: Frame, locals: seq<Value>)
    ensures
      var st := outer.(frames := outer.frames + [frame], scopes := outer.scopes + [locals]);
      var value := if frame.stack == [] then Null else frame.stack[|frame.stack| - 1];
      var back := if frame.returnAddress == 0 then outer.current else frame.returnAddress;
      Leave(st) ==
        if outer.frames == [] then outer.(current := back, result := Some(value))
        else Pushed(outer, value).(current := back)
  {
    var st := outer.(frames := outer.frames + [frame], scopes := outer.scopes + [locals]);
    assert Front(st.frames) == outer.frames && Front(st.scopes) == outer.scopes;
  }

  /** A lambda is called with as many arguments as it has parameters, or not at all. */
  lemma WrongCount(env: Env, st: State, func: uword, args: seq<Value>, fuel: nat)
    requires func in env.procs ==> env.procs[func].LambdaProc? && |args| != |env.procs[func].params|
    ensures CallProcedure(env, st, func, args, fuel) == Crash
  {
  }
}
