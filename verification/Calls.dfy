/**
  Properties of calls that hold for any callee: the calling convention, that a
  call is transparent to its caller, and that a run does not depend on how much
  fuel is left over.
 */
module Calls {
  import opened Sequences
  import opened Words
  import opened Values
  import opened Bytecode
  import opened Source
  import opened Machine

  // The calling convention.

  /** Popping all of `vs` from the top of the stack reverses them. */
  lemma {:induction false} PopAllTakes(base: seq<Value>, vs: seq<Value>, taken: seq<Value>)
    ensures PopAll(Binding(taken, base + vs, |vs|)) == Done(Binding(taken + Reverse(vs), base, 0))
    decreases |vs|
  {
    var b := Binding(taken, base + vs, |vs|);
    if vs == [] {
      assert base + vs == base && taken + Reverse(vs) == taken;
    } else {
      var last := Back(vs);
      assert Front(base + vs) == base + Front(vs) && Back(base + vs) == last;
      PopAllTakes(base, Front(vs), taken + [last]);
      assert taken + [last] + Reverse(Front(vs)) == taken + Reverse(vs);
    }
  }

  predicate NoVararg(params: seq<Param>, from: nat) {
    forall i :: from <= i < |params| ==> !params[i].vararg
  }

  /** The parameters that are left over when the arguments have run out. */
  lemma {:induction false} BindMissing(params: seq<Param>, i: nat, b: Binding)
    requires i <= |params| && b.remaining <= 0
    ensures
      var r := BindParams(params, i, b);
      if (forall j :: i <= j < |params| ==> params[j].optional) && NoVararg(params, i) then
        r == Done(b.(remaining := b.remaining - (|params| - i)))
      else r.Crash? || (r.Done? && r.value.args == b.args && r.value.remaining > b.remaining - (|params| - i))
    decreases |params| - i
  {
    if i < |params| && !params[i].vararg && params[i].optional {
      BindMissing(params, i + 1, b.(remaining := b.remaining - 1));
    }
  }

  /** What the loop over the parameters makes of `vs` on top of `base`, from parameter `i` on. */
  ghost predicate BindsFrom(params: seq<Param>, i: nat, base: seq<Value>, vs: seq<Value>, taken: seq<Value>,
      r: Outcome<Binding>)
    requires i <= |params|
  {
    var n := |params| - i;
    if |vs| <= n then
      if |vs| == n || ((forall j :: i + |vs| <= j < |params| ==> params[j].optional) && NoVararg(params, i)) then
        r == Done(Binding(taken + Reverse(vs), base, |vs| - n))
      else
        r.Crash? || (r.Done? && |r.value.args| == |taken| + |vs| && r.value.remaining > |vs| - n)
    else if NoVararg(params, i) then
      r == Done(Binding(taken + Reverse(vs[|vs| - n..]), base + vs[..|vs| - n], |vs| - n))
    else r == Done(Binding(taken + Reverse(vs), base, 0))
  }

  lemma {:induction false} BindFrom(params: seq<Param>, i: nat, base: seq<Value>, vs: seq<Value>, taken: seq<Value>)
    requires i <= |params|
    ensures BindsFrom(params, i, base, vs, taken, BindParams(params, i, Binding(taken, base + vs, |vs|)))
    decreases |params| - i
  {
    var b := Binding(taken, base + vs, |vs|);
    if i == |params| {
      assert vs[|vs|..] == [] && vs[..|vs|] == vs && Reverse<Value>([]) == [] && taken + [] == taken;
      assert vs == [] ==> base + vs == base;
    } else if params[i].vararg {
      PopAllTakes(base, vs, taken);
    } else if vs == [] {
      BindMissing(params, i, b);
      assert base + vs == base && taken + Reverse(vs) == taken;
    } else {
      var last := Back(vs);
      assert Front(base + vs) == base + Front(vs) && Back(base + vs) == last;
      BindFrom(params, i + 1, base, Front(vs), taken + [last]);
      BindOne(params, i, base, vs, taken, BindParams(params, i, b));
    }
  }

  lemma BindOne(params: seq<Param>, i: nat, base: seq<Value>, vs: seq<Value>, taken: seq<Value>, r: Outcome<Binding>)
    requires i < |params| && !params[i].vararg && vs != []
    requires BindsFrom(params, i + 1, base, Front(vs), taken + [Back(vs)], r)
    ensures BindsFrom(params, i, base, vs, taken, r)
  {
    var n := |params| - i;
    assert taken + [Back(vs)] + Reverse(Front(vs)) == taken + Reverse(vs);
    assert NoVararg(params, i) <==> NoVararg(params, i + 1);
    if |vs| > n {
      assert taken + [Back(vs)] + Reverse(Front(vs)[|vs| - n..]) == taken + Reverse(vs[|vs| - n..]);
      assert Front(vs)[..|vs| - n] == vs[..|vs| - n];
    }
  }

  lemma ReverseTwice<T>(s: seq<T>)
    ensures Reverse(Reverse(s)) == s
  {
  }

  /**
    Which calls can be bound, for any parameters and any number of arguments on
    the stack: the argument list has the length the callee needs exactly when
    the call is accepted, or when there are too many arguments and no parameter
    collects them. In the first case the arguments are passed in order, followed
    by Null for each missing one, and the rest of the stack is untouched; in the
    second the last arguments are taken and the first ones stay on the stack.
   */
  lemma Convention(params: seq<Param>, base: seq<Value>, vs: seq<Value>)
    ensures
      var r, n, k := CollectArgs(params, base + vs, |vs|), |params|, |vs|;
      && (r.Done? && |r.value.args| == n <==> Accepts(params, k) || (k > n && NoVararg(params, 0)))
      && (Accepts(params, k) ==> r == Done(Binding(vs + Nulls(n - k), base, k - n)))
      && (k > n && NoVararg(params, 0) ==> r == Done(Binding(vs[k - n..], base + vs[..k - n], k - n)))
  {
    hide BindParams, Reverse;
    BindFrom(params, 0, base, vs, []);
    ReverseTwice(vs);
    if |vs| > |params| {
      ReverseTwice(vs[|vs| - |params|..]);
      var last := vs[|vs| - |params|..];
      assert [] + Reverse(last) == Reverse(last) && last + Nulls(0) == last;
    }
    assert [] + Reverse(vs) == Reverse(vs);
  }

  /** The `list` native receives all its arguments in order. */
  lemma ListConvention(base: seq<Value>, vs: seq<Value>)
    ensures CollectArgs(ParamsOf(ListProc), base + vs, |vs|) == Done(Binding(vs, base, 0))
  {
    PopAllTakes(base, vs, []);
    ReverseTwice(vs);
    assert [] + Reverse(vs) == Reverse(vs) && vs + Nulls(0) == vs;
  }

  // Monotonicity.

  lemma {:induction false} RunMore(env: Env, st: State, g: nat, h: nat)
    requires st.frames != [] && g <= h && !Run(env, st, g).Timeout?
    ensures Run(env, st, h) == Run(env, st, g)
    decreases g, 0
  {
    hide Next, Fetch;
    var f := Fetch(env.mem, st.current);
    if f.Some? && !f.value.instr.Ret? {
      NextMore(env, st, g - 1, h - 1);
      if Next(env, st, g - 1).Done? {
        RunMore(env, Next(env, st, g - 1).value, g - 1, h - 1);
      }
    }
  }

  lemma {:induction false} CallMore(env: Env, st: State, func: uword, args: seq<Value>, g: nat, h: nat)
    requires g <= h && !CallProcedure(env, st, func, args, g).Timeout?
    ensures CallProcedure(env, st, func, args, h) == CallProcedure(env, st, func, args, g)
    decreases g, 1
  {
    if func in env.procs && env.procs[func].LambdaProc? && |args| == |env.procs[func].params| {
      RunMore(env, Enter(st, func, [Proc(func)] + args).(current := env.procs[func].entry), g, h);
    }
  }

  lemma {:induction false} InvokeMore(env: Env, st: State, callee: Callee, numArgs: nat, g: nat, h: nat)
    requires st.frames != [] && g <= h && !InvokeProc(env, st, callee, numArgs, g).Timeout?
    ensures InvokeProc(env, st, callee, numArgs, h) == InvokeProc(env, st, callee, numArgs, g)
    decreases g, 2
  {
    hide CallProcedure, BindParams;
    var (func, stack) := CalleeOf(st, callee);
    if func in env.procs {
      var b := CollectArgs(ParamsOf(env.procs[func]), stack, numArgs);
      var popped := if callee.Dynamic? then WithStack(st, stack) else st;
      if b.Done? && !CallProcedure(env, WithStack(popped, b.value.stack), func, b.value.args, g).Timeout? {
        CallMore(env, WithStack(popped, b.value.stack), func, b.value.args, g, h);
      }
    }
  }

  /** More fuel does not change the outcome of an instruction, a call or a run that did not run out of it. */
  lemma {:induction false} NextMore(env: Env, st: State, g: nat, h: nat)
    requires st.frames != [] && g <= h && !Next(env, st, g).Timeout?
    ensures Next(env, st, h) == Next(env, st, g)
    decreases g, 3
  {
    hide Fetch, Exec, InvokeProc;
    var f := Fetch(env.mem, st.current);
    if f.Some? {
      var s := st.(current := f.value.next);
      match f.value.instr
      case Invoke(func, n) => InvokeMore(env, s, Static(func), n, g, h);
      case InvokeNative(func, n) => InvokeMore(env, s, Native(func), n, g, h);
      case InvokeDynamic(n) => InvokeMore(env, s, Dynamic, n, g, h);
      case _ =>
    }
  }

  /** The callee of an invoke, and the stack without it. */
  function CalleeOf(st: State, callee: Callee): (uword, seq<Value>)
    requires st.frames != []
  {
    match callee
    case Static(func) => (func, Stack(st))
    case Native(func) => (func, Stack(st))
    case Dynamic =>
      var s := Stack(st);
      if s != [] && Back(s).Proc? then (Back(s).address, Front(s)) else (0, s)
  }

  // Transparency.

  /** The same frames and scopes, except for the stack of the innermost frame and the locals of the innermost scope. */
  predicate Framed(st: State, st': State) {
    && |st'.frames| == |st.frames| && |st'.scopes| == |st.scopes| && st'.result == st.result
    && (st.frames != [] ==>
          Front(st'.frames) == Front(st.frames) && Back(st'.frames) == Back(st.frames).(stack := Stack(st')))
    && (st.scopes != [] ==> Front(st'.scopes) == Front(st.scopes) && |Back(st'.scopes)| == |Back(st.scopes)|)
  }

  lemma ExecFramed(env: Env, st: State, i: Instr, at: nat)
    requires st.frames != []
    ensures Exec(env, st, i, at).Done? ==> Framed(st, Exec(env, st, i, at).value)
  {
  }

  lemma {:induction false} RunFramed(env: Env, st: State, g: nat)
    requires st.frames != []
    ensures Run(env, st, g).Done? ==> Framed(st, Run(env, st, g).value)
    decreases g, 0
  {
    hide Next, Fetch;
    var f := Fetch(env.mem, st.current);
    if g > 0 && f.Some? && !f.value.instr.Ret? {
      NextFramed(env, st, g - 1);
      if Next(env, st, g - 1).Done? {
        RunFramed(env, Next(env, st, g - 1).value, g - 1);
      }
    }
  }

  /**
    A call is transparent: whatever code the callee runs, to whatever depth it
    calls others, if it returns then the caller's frames, scopes and position
    are as before the call, and its stack has one more value.
   */
  lemma {:induction false} CallTransparent(env: Env, st: State, func: uword, args: seq<Value>, g: nat)
    requires st.frames != [] && st.current != 0
    ensures CallProcedure(env, st, func, args, g).Done? ==>
              exists v :: CallProcedure(env, st, func, args, g).value == Pushed(st, v)
    decreases g, 1
  {
    if CallProcedure(env, st, func, args, g).Done? {
      if env.procs[func].LambdaProc? {
        var entered := Enter(st, func, [Proc(func)] + args).(current := env.procs[func].entry);
        RunFramed(env, entered, g);
        LeaveEntered(st, entered, Run(env, entered, g).value);
      } else {
        var entered := Enter(st, func, args);
        LeaveEntered(st, entered, Pushed(entered, ListOf(args)));
      }
    }
  }

  lemma LeaveEntered(st: State, entered: State, done: State)
    requires st.frames != [] && st.current != 0 && Framed(entered, done) && entered.result == st.result
    requires entered.frames != [] && Front(entered.frames) == st.frames
    requires Back(entered.frames).returnAddress == st.current
    requires entered.scopes != [] && Front(entered.scopes) == st.scopes
    ensures Leave(done) == Pushed(st, if Stack(done) == [] then Null else Back(Stack(done)))
  {
  }

  /**
    An invoke takes what it pops off the caller's stack and puts one result there; nothing
    else of the caller changes.
   */
  lemma {:induction false} NextFramed(env: Env, st: State, g: nat)
    requires st.frames != []
    ensures Next(env, st, g).Done? ==> Framed(st, Next(env, st, g).value)
    decreases g, 3
  {
    hide Fetch, Exec, InvokeProc, CollectArgs;
    var f := Fetch(env.mem, st.current);
    if f.Some? {
      var s := st.(current := f.value.next);
      match f.value.instr
      case Invoke(func, n) => InvokeTransparent(env, s, Static(func), n, g);
      case InvokeNative(func, n) => InvokeTransparent(env, s, Native(func), n, g);
      case InvokeDynamic(n) => InvokeTransparent(env, s, Dynamic, n, g);
      case i => ExecFramed(env, s, i, st.current);
    }
  }

  lemma {:induction false} InvokeTransparent(env: Env, st: State, callee: Callee, numArgs: nat, g: nat)
    requires st.frames != [] && st.current != 0
    ensures
      var r := InvokeProc(env, st, callee, numArgs, g);
      r.Done? ==>
        var (func, stack) := CalleeOf(st, callee);
        && func in env.procs
        && var b := CollectArgs(ParamsOf(env.procs[func]), stack, numArgs);
           b.Done? && exists v :: r.value == WithStack(st, b.value.stack + [v])
    decreases g, 2
  {
    hide CallProcedure, CollectArgs;
    var r := InvokeProc(env, st, callee, numArgs, g);
    if r.Done? {
      var (func, stack) := CalleeOf(st, callee);
      var taken := if callee.Dynamic? then WithStack(st, stack) else st;
      assert func in env.procs && r == CallWithNArgs(env, taken, func, numArgs, g) && Stack(taken) == stack;
      var b := CollectArgs(ParamsOf(env.procs[func]), stack, numArgs).value;
      var popped := WithStack(taken, b.stack);
      assert r == CallProcedure(env, popped, func, b.args, g);
      CallTransparent(env, popped, func, b.args, g);
      var v :| r.value == Pushed(popped, v);
      assert r.value == WithStack(st, b.stack + [v]);
    }
  }
}
