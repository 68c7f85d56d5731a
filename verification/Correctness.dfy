/**
  The main results: compiled lambdas compute what the source says, for calls
  nested to any depth, and call-free code stops within its own length.
 */
module Correctness {
  import opened Sequences
  import opened Words
  import opened Values
  import opened Bytecode
  import opened Layout
  import opened Source
  import opened Emission
  import opened Blocks
  import opened Machine
  import opened Calls
  import opened Paths
  import opened Placement
  import opened Simulation
  import opened Expressions
  import opened Statements

  /** Machine fuel for calls nested `fuel` deep. */
  function Depth(env: Env, fuel: nat): nat {
    if fuel == 0 then 0 else Depth(env, fuel - 1) + |env.mem| + 1
  }

  /** The fuel of a run of `size` bytes of code along a path. */
  predicate Suffices(m: Setting, size: nat, g: nat) {
    if m.exact then g >= m.d + size else g == m.d + 1
  }

  /** What a run gives when its path ends in the state of `r` at a `ret`. */
  ghost predicate RunMatches(out: Outcome<State>, r: Outcome<State>, next: nat, exact: bool) {
    (!exact && out.Timeout?) ||
    match r
    case Done(s) => out == Done(s.(current := next))
    case Crash => out.Crash?
    case Timeout => exact
  }

  lemma RunReaches(m: Setting, floor: seq<Value>, st: State, path: Path, r: Outcome<State>, next: nat, g: nat)
    requires Reaches(m, floor, st, path, r) && st.frames != []
    requires st.current <= m.limit && Suffices(m, m.limit - st.current, g)
    requires r.Done? ==> r.value.current < m.limit && Fetch(m.env.mem, r.value.current) == Some(Fetched(Ret, next))
    ensures RunMatches(Run(m.env, st, g), r, next, m.exact)
  {
    hide Next, Steps, Fetch;
    BackOfSteps(m, floor, st, path);
    if m.exact {
      RunAlong(m, floor, st, path, g);
    } else {
      RunAlongOrOut(m, floor, st, path, g);
    }
    if !Run(m.env, st, g).Timeout? || m.exact {
      EndOfRun(m, |floor|, Back(path), r, next, g - (|path| - 1));
    }
  }

  lemma EndOfRun(m: Setting, floor: nat, s: State, r: Outcome<State>, next: nat, g: nat)
    requires s.frames != [] && if m.exact then m.d < g else 0 < g <= m.d + 1
    requires r.Done? ==> Fetch(m.env.mem, r.value.current) == Some(Fetched(Ret, next))
    requires (r.Done? && s == r.value) || Fails(m, floor, s, r)
    ensures RunMatches(Run(m.env, s, g), r, next, m.exact)
  {
    hide Next, Fetch;
    if !(r.Done? && s == r.value) {
      if m.exact && r.Crash? {
        NextMore(m.env, s, m.d, g - 1);
      } else if !m.exact && !Next(m.env, s, g - 1).Timeout? {
        NextMore(m.env, s, g - 1, m.d);
      }
      if Fetch(m.env.mem, s.current).None? { NothingFetched(m.env, s, m.d); }
    }
  }

  lemma NothingFetched(env: Env, s: State, d: nat)
    requires s.frames != [] && Fetch(env.mem, s.current).None?
    ensures Next(env, s, d) == Crash
  {
  }

  // One call.

  ghost predicate Callable(p: Program, env: Env, func: uword) {
    func in p.lambdas && func in env.procs && env.procs[func].LambdaProc? && HasCode(p, env, func)
  }

  /** The context in which the body of a lambda runs. */
  function BodyCtx(p: Program, env: Env, func: uword, fuel: nat, d: nat, exact: bool): Ctx
    requires func in p.lambdas && p.lambdas[func].body != [] && func in env.procs && env.procs[func].LambdaProc?
  {
    var items, entry := TraceBody(p.listNative, p.lambdas[func].body), env.procs[func].entry;
    Ctx(p, Setting(env, entry + Size(items), d, exact), entry, Marks(items), fuel)
  }

  lemma BodyPlaced(p: Program, env: Env, func: uword)
    requires Linked(p, env) && func in p.lambdas
    ensures Callable(p, env, func)
    ensures
      var items := TraceBody(p.listNative, p.lambdas[func].body);
      Placed(env.mem, env.procs[func].entry, items, 0, Marks(items))
  {
    hide OkBody, CodeOf;
    assert HasCode(p, env, func);
    PlacedCode(p.listNative, env.mem, env.procs[func].entry, p.lambdas[func].body);
  }

  /** The code of a body is placed wherever its bytes lie. */
  lemma PlacedCode(native: uword, mem: seq<byte>, start: nat, body: seq<Stmt>)
    requires body != [] && CodeAt(mem, start, CodeOf(native, body))
    ensures Placed(mem, start, TraceBody(native, body), 0, Marks(TraceBody(native, body)))
  {
    hide TraceBody, TwoPass, Marks, MarkedOnce, CodeAt;
    CodeIsTwoPass(native, body);
    UsesBody(native, body);
    AnchoredInMarks(TraceBody(native, body));
  }

  /** The state in which the body of a called lambda starts. */
  function Entry(env: Env, s: State, func: uword, args: seq<Value>): State
    requires func in env.procs && env.procs[func].LambdaProc?
  {
    Enter(s, func, [Proc(func)] + args).(current := env.procs[func].entry)
  }

  /** The state in which the body returns. */
  function Exit(p: Program, env: Env, s: State, func: uword, vs: seq<Value>, fuel: nat): Outcome<State>
    requires func in p.lambdas && p.lambdas[func].body != [] && func in env.procs && env.procs[func].LambdaProc?
    requires |vs| <= |p.lambdas[func].params|
  {
    var body, L := p.lambdas[func].body, Entered(func, p.lambdas[func].params, vs);
    var s0 := Entry(env, s, func, Padded(p.lambdas[func].params, vs));
    var r :- EvalStmts(p, body, |body|, L, fuel);
    Done(WithLocals(At(s0, s0.current + Size(TraceBody(p.listNative, body)), BodyLeaves(p, body, L, fuel)), r.locals))
  }

  /**
    Running a called lambda from its entry, given what its own calls do: it
    returns with every value its statements left on its stack and with the
    assigned locals, or fails as the evaluation of its body fails.
   */
  lemma RunOfBody(p: Program, env: Env, func: uword, vs: seq<Value>, s: State, fuel: nat, d: nat, exact: bool, g: nat)
    requires Linked(p, env) && Callable(p, env, func)
    requires |vs| <= |p.lambdas[func].params|
    requires CallsAgree(BodyCtx(p, env, func, fuel, d, exact))
    requires Suffices(BodyCtx(p, env, func, fuel, d, exact).m, Size(TraceBody(p.listNative, p.lambdas[func].body)), g)
    ensures
      var r, m := Exit(p, env, s, func, vs, fuel), Run(env, Entry(env, s, func, Padded(p.lambdas[func].params, vs)), g);
      (!exact && m.Timeout?) || (if r.Timeout? then exact else m == r)
  {
    hide Reaches, Linked, CallsAgree, Placed, EvalStmts, BodyLeaves, TraceBody, Size, Fetch, Run, OkBody, CodeOf, Marks;
    var body, params := p.lambdas[func].body, p.lambdas[func].params;
    var c := BodyCtx(p, env, func, fuel, d, exact);
    var s0 := Entry(env, s, func, Padded(params, vs));
    BodyPlaced(p, env, func);
    assert LocalsOf(s0) == Entered(func, params, vs);
    assert Stack(s0) == [];
    var path := SimBody(c, body, s0);
    EndOfBody(c, p.listNative, body, s0);
    var n, left, r := Size(TraceBody(p.listNative, body)), BodyLeaves(p, body, LocalsOf(s0), fuel),
        EvalStmts(p, body, |body|, LocalsOf(s0), fuel);
    var last := Advanced(s0, c.start + n - 1, left, r);
    RunReaches(c.m, [], s0, path, last, c.start + n, g);
    assert [] + left == left;
  }

  /** A call does what `CallOutcome` says, given what the calls of the body do. */
  lemma CallOfLambda(p: Program, env: Env, func: uword, vs: seq<Value>, s: State, fuel: nat, d: nat, exact: bool,
      g: nat)
    requires Linked(p, env) && Callable(p, env, func)
    requires Accepts(p.lambdas[func].params, |vs|) && s.frames != [] && s.current != 0
    requires CallsAgree(BodyCtx(p, env, func, fuel, d, exact))
    requires Suffices(BodyCtx(p, env, func, fuel, d, exact).m, Size(TraceBody(p.listNative, p.lambdas[func].body)), g)
    ensures CallMatches(CallProcedure(env, s, func, Padded(p.lambdas[func].params, vs), g),
                        EvalBody(p, p.lambdas[func].body, Entered(func, p.lambdas[func].params, vs), fuel), s, exact)
  {
    hide Linked, CallsAgree, EvalStmts, EvalBody, BodyLeaves, TraceBody, Size, Run;
    var body, params := p.lambdas[func].body, p.lambdas[func].params;
    RunOfBody(p, env, func, vs, s, fuel, d, exact, g);
    BodyValue(p, body, Entered(func, params, vs), fuel);
    var s0, r := Entry(env, s, func, Padded(params, vs)), Exit(p, env, s, func, vs, fuel);
    if r.Done? && Run(env, s0, g).Done? {
      LeaveEntered(s, s0, r.value);
    }
  }

  // All calls.

  /**
    Every call does what the source says. With fuel for the depth of the source's
    calls the outcomes agree; with no more fuel than the source has, the machine
    also runs out whenever the source does.
   */
  lemma {:induction false} CallsOk(c: Ctx)
    requires Linked(c.p, c.m.env) && if c.m.exact then c.m.d >= Depth(c.m.env, c.fuel) else c.m.d <= c.fuel
    ensures CallsAgree(c)
    decreases c.fuel
  {
    hide Linked, CallsAgree, CallAgrees;
    forall func: uword, vs: seq<Value>, s: State |
      func in c.p.lambdas && Accepts(c.p.lambdas[func].params, |vs|) && s.frames != [] && s.current != 0
      ensures CallAgrees(c, func, vs, s)
    {
      CallOk(c, func, vs, s);
    }
    CollectAgrees(c);
  }

  lemma CollectAgrees(c: Ctx)
    requires forall func: uword, vs: seq<Value>, s: State ::
               func in c.p.lambdas && Accepts(c.p.lambdas[func].params, |vs|) && s.frames != [] && s.current != 0 ==>
                 CallAgrees(c, func, vs, s)
    ensures CallsAgree(c)
  {
  }

  lemma {:induction false} CallOk(c: Ctx, func: uword, vs: seq<Value>, s: State)
    requires Linked(c.p, c.m.env) && if c.m.exact then c.m.d >= Depth(c.m.env, c.fuel) else c.m.d <= c.fuel
    requires func in c.p.lambdas && Accepts(c.p.lambdas[func].params, |vs|) && s.frames != [] && s.current != 0
    ensures CallAgrees(c, func, vs, s)
    decreases c.fuel, 0
  {
    hide Linked, CallsAgree, Run, EvalBody, CallProcedure, TraceBody, CodeOf, Size, OkBody;
    BodyPlaced(c.p, c.m.env, func);
    if c.m.d == 0 && !c.m.exact {
      NoFuel(c.m.env, s, func, Padded(c.p.lambdas[func].params, vs));
    } else if c.fuel > 0 {
      var d := if c.m.exact then Depth(c.m.env, c.fuel - 1) else c.m.d - 1;
      BodyFits(c.p, c.m.env, func);
      CallsOk(BodyCtx(c.p, c.m.env, func, c.fuel - 1, d, c.m.exact));
      CallOfLambda(c.p, c.m.env, func, vs, s, c.fuel - 1, d, c.m.exact, c.m.d);
    }
  }

  lemma BodyFits(p: Program, env: Env, func: uword)
    requires Callable(p, env, func)
    ensures Size(TraceBody(p.listNative, p.lambdas[func].body)) <= |env.mem|
  {
  }

  lemma NoFuel(env: Env, s: State, func: uword, args: seq<Value>)
    requires func in env.procs && env.procs[func].LambdaProc? && |args| == |env.procs[func].params|
    ensures CallProcedure(env, s, func, args, 0) == Timeout
  {
  }

  /**
    Compiler correctness for calls. An accepted call of a compiled lambda from
    any state returns exactly when the evaluation of its body does, and crashes
    exactly when the evaluation crashes; when it returns, the caller's stack has
    the value on top and nothing else of the caller has changed.
   */
  lemma CallCorrect(p: Program, env: Env, func: uword, vs: seq<Value>, s: State, v: Value)
    requires Linked(p, env) && func in p.lambdas && Accepts(p.lambdas[func].params, |vs|)
    requires s.frames != [] && s.current != 0
    ensures
      var args := Padded(p.lambdas[func].params, vs);
      && ((exists g :: CallProcedure(env, s, func, args, g) == Done(Pushed(s, v))) <==>
          (exists f :: CallOutcome(p, func, vs, f) == Done(v)))
      && ((exists g :: CallProcedure(env, s, func, args, g) == Crash) <==>
          (exists f :: CallOutcome(p, func, vs, f) == Crash))
      && (forall g :: CallProcedure(env, s, func, args, g).Done? ==>
            exists w :: CallProcedure(env, s, func, args, g) == Done(Pushed(s, w)))
  {
    hide Linked, CallProcedure, CallOutcome;
    var args := Padded(p.lambdas[func].params, vs);
    PushedInjective(s);
    if f: nat :| CallOutcome(p, func, vs, f) == Done(v) {
      SourceToMachine(p, env, func, vs, s, f);
      assert CallProcedure(env, s, func, args, Depth(env, f)) == Done(Pushed(s, v));
    }
    if f: nat :| CallOutcome(p, func, vs, f) == Crash {
      SourceToMachine(p, env, func, vs, s, f);
      assert CallProcedure(env, s, func, args, Depth(env, f)) == Crash;
    }
    forall g
      ensures
        var m := CallProcedure(env, s, func, args, g);
        && (m == Done(Pushed(s, v)) ==> CallOutcome(p, func, vs, g) == Done(v))
        && (m.Crash? ==> CallOutcome(p, func, vs, g).Crash?)
        && (m.Done? ==> exists w :: m == Done(Pushed(s, w)))
    {
      MachineToSource(p, env, func, vs, s, g);
    }
  }

  lemma SourceToMachine(p: Program, env: Env, func: uword, vs: seq<Value>, s: State, f: nat)
    requires Linked(p, env) && func in p.lambdas && Accepts(p.lambdas[func].params, |vs|)
    requires s.frames != [] && s.current != 0
    ensures CallMatches(CallProcedure(env, s, func, Padded(p.lambdas[func].params, vs), Depth(env, f)),
        CallOutcome(p, func, vs, f), s, true)
  {
    hide Linked, CallProcedure, CallOutcome;
    CallOk(Ctx(p, Setting(env, 0, Depth(env, f), true), 0, map[], f), func, vs, s);
  }

  lemma MachineToSource(p: Program, env: Env, func: uword, vs: seq<Value>, s: State, g: nat)
    requires Linked(p, env) && func in p.lambdas && Accepts(p.lambdas[func].params, |vs|)
    requires s.frames != [] && s.current != 0
    ensures CallMatches(CallProcedure(env, s, func, Padded(p.lambdas[func].params, vs), g),
        CallOutcome(p, func, vs, g), s, false)
  {
    hide Linked, CallProcedure, CallOutcome;
    CallOk(Ctx(p, Setting(env, 0, g, false), 0, map[], g), func, vs, s);
  }

  lemma PushedInjective(s: State)
    requires s.frames != []
    ensures forall v, w :: Pushed(s, v) == Pushed(s, w) ==> v == w
  {
    forall v, w | Pushed(s, v) == Pushed(s, w) ensures v == w {
      assert Back(Stack(Pushed(s, v))) == v && Back(Stack(Pushed(s, w))) == w;
    }
  }
}
