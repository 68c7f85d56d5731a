/**
  Consequences for whole pieces of code: a placed expression, call-free code,
  and a program started from outside.
 */
module Theorems {
  import opened Sequences
  import opened Words
  import opened Values
  import opened Bytecode
  import opened Layout
  import opened Source
  import opened Emission
  import opened Machine
  import opened Calls
  import opened Paths
  import opened Placement
  import opened Simulation
  import opened Expressions
  import opened Statements
  import opened Correctness

  /** The next instruction crashes, though it takes no more than lies above `floor`. */
  ghost predicate CrashesAbove(env: Env, s: State, floor: nat, d: nat) {
    s.frames != [] && NoUnderflow(env, s, floor) && Next(env, s, d).Crash?
  }

  /**
    The code of a control expression, placed anywhere, from any operand stack and
    locals. When the expression has a value, the run gets to the byte after the
    code with the value pushed and everything else as it was, in at most as many
    steps as the code has bytes; when its evaluation crashes, so does the run. On
    the way the position only grows, no instruction pops any of the values that
    were on the stack, and those values stay where they are; nor does the
    instruction that crashes reach down to them.
   */
  lemma ExpressionCorrect(p: Program, env: Env, ctl: Ctl, id: nat, start: nat, base: nat, marks: map<nat, nat>,
      st: State, f: nat)
    returns (path: Path)
    requires Linked(p, env) && OkCtl(p, env.objects, ctl) && st.frames != []
    requires st.scopes != [] && st.current == start + base
    requires Placed(env.mem, start, TraceCtl(p.listNative, ctl, id), base, marks)
    ensures
      var size, r := Size(TraceCtl(p.listNative, ctl, id)), EvalCtl(p, ctl, LocalsOf(st), f);
      var m := Setting(env, start + base + size, Depth(env, f), true);
      && Steps(m, Stack(st), st, path) && path[0] == st
      && (r.Done? ==>
            && |path| - 1 <= size
            && Back(path) == At(st, start + base + size, Stack(st) + [r.value])
            && forall g :: g >= m.d + |path| ==> Run(env, st, g) == Run(env, Back(path), g - (|path| - 1)))
      && (r.Crash? ==>
            && CrashesAbove(env, Back(path), |Stack(st)|, m.d)
            && forall g :: g >= m.d + size ==> Run(env, st, g) == Crash)
  {
    hide Steps, Linked, CallsAgree, Placed, Size, EvalCtl, TraceCtl, Next;
    var size, r := Size(TraceCtl(p.listNative, ctl, id)), EvalCtl(p, ctl, LocalsOf(st), f);
    var m := Setting(env, start + base + size, Depth(env, f), true);
    var c := Ctx(p, m, start, marks, f);
    CallsOk(c);
    path := SimCtl(c, ctl, id, base, st);
    BackOfSteps(m, Stack(st), st, path);
    forall g | g >= m.d + |path|
      ensures r.Done? ==> Run(env, st, g) == Run(env, Back(path), g - (|path| - 1))
    {
      RunAlong(m, Stack(st), st, path, g);
    }
    if r.Crash? {
      forall g | g >= m.d + size ensures Run(env, st, g) == Crash {
        RunReaches(m, Stack(st), st, path, After(st, start + base + size, One(r)), 0, g);
      }
    }
  }

  // Call-free code.

  predicate CallFree(v: Val)
    decreases v, 1
  {
    match v
    case Bin(_, l, r) => CallFree(l) && CallFree(r)
    case Un(_, operand) => CallFree(operand)
    case List(children, _) => forall i :: 0 <= i < |children| ==> CallFree(children[i])
    case Call(_, _) => false
    case _ => true
  }

  predicate CallFreeCtl(c: Ctl) {
    match c
    case Just(v) => CallFree(v)
    case Cond(test, conseq, alt) => CallFreeCtl(test) && CallFreeCtl(conseq) && CallFreeCtl(alt)
  }

  predicate CallFreeBody(body: seq<Stmt>) {
    forall i :: 0 <= i < |body| ==> match body[i] case Do(c) => CallFreeCtl(c) case Set(_, v) => CallFree(v)
  }

  lemma {:induction false} CallFreeVal(p: Program, v: Val, L: Locals)
    requires CallFree(v)
    ensures !EvalVal(p, v, L, 0).Timeout?
    decreases v, 1, 0
  {
    match v
    case Bin(_, l, r) =>
      CallFreeVal(p, l, L);
      CallFreeVal(p, r, L);
    case Un(_, operand) => CallFreeVal(p, operand, L);
    case List(children, _) => CallFreeChildren(p, v, |children|, L);
    case _ =>
  }

  lemma {:induction false} CallFreeChildren(p: Program, v: Val, n: nat, L: Locals)
    requires v.List? && n <= |v.children| && CallFree(v)
    ensures !EvalChildren(p, v, n, L, 0).Timeout?
    decreases v, 0, n
  {
    if n > 0 {
      CallFreeChildren(p, v, n - 1, L);
      CallFreeVal(p, v.children[n - 1], L);
    }
  }

  lemma {:induction false} CallFreeEvalCtl(p: Program, c: Ctl, L: Locals)
    requires CallFreeCtl(c)
    ensures !EvalCtl(p, c, L, 0).Timeout?
    decreases c
  {
    match c
    case Just(v) => CallFreeVal(p, v, L);
    case Cond(test, conseq, alt) =>
      CallFreeEvalCtl(p, test, L);
      CallFreeEvalCtl(p, conseq, L);
      CallFreeEvalCtl(p, alt, L);
  }

  /** Code without calls always comes to an end. */
  lemma {:induction false} CallFreeEnds(p: Program, body: seq<Stmt>, n: nat, L: Locals)
    requires CallFreeBody(body) && n <= |body|
    ensures !EvalStmts(p, body, n, L, 0).Timeout?
  {
    if n > 0 {
      CallFreeEnds(p, body, n - 1, L);
      var r := EvalStmts(p, body, n - 1, L, 0);
      if r.Done? {
        match body[n - 1]
        case Do(c) => CallFreeEvalCtl(p, c, r.value.locals);
        case Set(_, v) => CallFreeVal(p, v, r.value.locals);
      }
    }
  }

  /** The state in which a body returns that starts in `st`. */
  function Returned(p: Program, body: seq<Stmt>, st: State, fuel: nat): Outcome<State>
    requires body != [] && st.frames != [] && st.scopes != []
  {
    Advanced(st, st.current + Size(TraceBody(p.listNative, body)), BodyLeaves(p, body, LocalsOf(st), fuel),
             EvalStmts(p, body, |body|, LocalsOf(st), fuel))
  }

  /**
    Call-free code stops at its `ret`, or crashes as the source does, within as
    many steps as it has bytes: on the way the position strictly grows, nothing
    below the entry height of the operand stack is popped or changed, not by the
    instruction that crashes either, and every value that a statement has left is
    still there at the end.
   */
  lemma CallFreeStops(p: Program, env: Env, body: seq<Stmt>, st: State) returns (path: Path)
    requires Linked(p, env) && body != [] && CallFreeBody(body) && OkBody(p, env.objects, body)
    requires CodeAt(env.mem, st.current, CodeOf(p.listNative, body)) && st.frames != [] && st.scopes != []
    ensures |CodeOf(p.listNative, body)| == Size(TraceBody(p.listNative, body))
    ensures Run(env, st, Size(TraceBody(p.listNative, body))) == Returned(p, body, st, 0)
    ensures !Returned(p, body, st, 0).Timeout?
    ensures Steps(Setting(env, st.current + Size(TraceBody(p.listNative, body)), 0, true), Stack(st), st, path)
    ensures path[0] == st && |path| <= Size(TraceBody(p.listNative, body))
    ensures
      if Returned(p, body, st, 0).Done? then AtRet(env, Back(path))
      else CrashesAbove(env, Back(path), |Stack(st)|, 0)
  {
    hide Linked, OkBody, CallFreeBody, Steps, EvalStmts, TraceBody, BodyLeaves, Size, Next, Fetch, CodeOf;
    var n, L := Size(TraceBody(p.listNative, body)), LocalsOf(st);
    var m := Setting(env, st.current + n, 0, true);
    path := CallFreePath(p, env, body, st);
    CallFreeEnds(p, body, |body|, L);
    BackOfSteps(m, Stack(st), st, path);
    RunReaches(m, Stack(st), st, path,
        Advanced(st, st.current + n - 1, BodyLeaves(p, body, L, 0), EvalStmts(p, body, |body|, L, 0)),
               st.current + n, n);
  }

  /** The path of a call-free body from its first byte to its `ret`. */
  lemma CallFreePath(p: Program, env: Env, body: seq<Stmt>, st: State) returns (path: Path)
    requires Linked(p, env) && body != [] && OkBody(p, env.objects, body)
    requires CodeAt(env.mem, st.current, CodeOf(p.listNative, body)) && st.frames != [] && st.scopes != []
    ensures
      var n, L := Size(TraceBody(p.listNative, body)), LocalsOf(st);
      && n > 0 && |CodeOf(p.listNative, body)| == n
           && Fetch(env.mem, st.current + n - 1) == Some(Fetched(Ret, st.current + n))
      && Reaches(Setting(env, st.current + n, 0, true), Stack(st), st, path,
                 Advanced(st, st.current + n - 1, BodyLeaves(p, body, L, 0), EvalStmts(p, body, |body|, L, 0)))
  {
    hide Reaches, Linked, CallsAgree, Placed, Size, EvalStmts, TraceBody, BodyLeaves, Fetch, OkBody, CodeAt, CodeOf;
    hide Advanced, Marks, Runs, TraceStmts, WithLocals, At;
    var items := TraceBody(p.listNative, body);
    CodeSize(p.listNative, body);
    var c := Ctx(p, Setting(env, st.current + Size(items), 0, true), st.current, Marks(items), 0);
    RunsWhole(c, body, st);
    var n := Size(items);
    assert n > 0 && Fetch(env.mem, st.current + n - 1) == Some(Fetched(Ret, st.current + n)) by {
      EndOfBody(c, p.listNative, body, st);
    }
    path := SimBody(c, body, st);
  }

  lemma RunsWhole(c: Ctx, body: seq<Stmt>, st: State)
    requires Linked(c.p, c.m.env) && c.m.d == 0 && c.fuel == 0 && c.m.exact && st.frames != [] && st.scopes != []
    requires body != [] && CodeAt(c.m.env.mem, st.current, CodeOf(c.p.listNative, body))
    requires c.start == st.current && c.m.limit == st.current + Size(TraceBody(c.p.listNative, body))
    requires c.marks == Marks(TraceBody(c.p.listNative, body))
    ensures Runs(c, TraceBody(c.p.listNative, body), 0, st)
  {
    hide Linked, CallsAgree, Placed, Size, TraceBody, OkBody, CodeAt, CodeOf;
    PlacedCode(c.p.listNative, c.m.env.mem, st.current, body);
    CallsOk(c);
    SoundAtZero(c);
  }

  lemma CodeSize(native: uword, body: seq<Stmt>)
    requires body != []
    ensures |CodeOf(native, body)| == Size(TraceBody(native, body))
  {
    hide TraceBody;
  }

  lemma SoundAtZero(c: Ctx)
    requires Linked(c.p, c.m.env) && CallsAgree(c)
    ensures Sound(c)
  {
  }

  // Programs.

  /** A call from outside leaves its value as the result. */
  ghost predicate ResultMatches(out: Outcome<State>, r: Outcome<Value>, s: State, exact: bool) {
    (!exact && out.Timeout?) ||
    match r
    case Done(v) => out.Done? && out.value.result == Some(v) && out.value.frames == s.frames
        && out.value.scopes == s.scopes
    case Crash => out.Crash?
    case Timeout => exact
  }

  /**
    A program run from outside, with no frame on the stack: with fuel for the
    source's calls the result is the value of the body; and with no more fuel than
    the source, the machine gives no other result.
   */
  lemma ProgramCorrect(p: Program, env: Env, func: uword, vs: seq<Value>, s: State, f: nat, g: nat, exact: bool)
    requires Linked(p, env) && func in p.lambdas && Accepts(p.lambdas[func].params, |vs|) && s.frames == []
    requires if exact then g >= Depth(env, f) else g <= f
    ensures ResultMatches(CallProcedure(env, s, func, Padded(p.lambdas[func].params, vs), g),
        CallOutcome(p, func, vs, f), s, exact)
  {
    hide Linked, CallsAgree, Run, EvalBody, EvalStmts, BodyLeaves, TraceBody, Size;
    var params, body := p.lambdas[func].params, p.lambdas[func].body;
    BodyPlaced(p, env, func);
    if g == 0 && !exact {
      NoFuel(env, s, func, Padded(params, vs));
    } else if f > 0 {
      var d := if exact then Depth(env, f - 1) else g - 1;
      BodyFits(p, env, func);
      CallsOk(BodyCtx(p, env, func, f - 1, d, exact));
      RunOfBody(p, env, func, vs, s, f - 1, d, exact, g);
      BodyValue(p, body, Entered(func, params, vs), f - 1);
    }
  }

  /**
    A call with more arguments than parameters, none of which collects them,
    calls the lambda with the last ones and leaves the others on the caller's
    stack below the result.
   */
  lemma ExcessArgsStay(c: Ctx, st: State, func: uword, base: seq<Value>, vs: seq<Value>)
    requires Sound(c) && st.frames != [] && st.current != 0 && Stack(st) == base + vs
    requires func in c.p.lambdas && |vs| > |c.p.lambdas[func].params| && NoVararg(c.p.lambdas[func].params, 0)
    ensures
      var extra := |vs| - |c.p.lambdas[func].params|;
      CallMatches(InvokeProc(c.m.env, st, Static(func), |vs|, c.m.d), CallOutcome(c.p, func, vs[extra..], c.fuel),
                  WithStack(st, base + vs[..extra]), c.m.exact)
  {
    hide CollectArgs, CallProcedure, CallOutcome, InvokeProc, CallMatches, CallsAgree, Linked, NoVararg;
    var params := c.p.lambdas[func].params;
    var extra := |vs| - |params|;
    LinkedLambda(c.p, c.m.env, func);
    EnoughArgs(params);
    Convention(params, base, vs);
    InvokeIsCall(c.m.env, st, Static(func), func, |vs|, c.m.d);
    assert Padded(params, vs[extra..]) == vs[extra..];
    assert |vs[extra..]| == |params|;
    CallAgreesAt(c, func, vs[extra..], WithStack(st, base + vs[..extra]));
  }

  lemma EnoughArgs(params: seq<Param>)
    ensures Accepts(params, |params|)
  {
  }
}
