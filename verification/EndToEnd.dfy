/**
  The whole way: compiling the lambdas of a program into memory, and calling one
  of them from outside.
 */
module EndToEnd {
  import opened Words
  import opened Values
  import opened Layout
  import opened Source
  import opened Emission
  import opened FlowGraphCompiler
  import opened Machine
  import opened Simulation
  import opened Correctness
  import opened Theorems
  import opened Quoting
  import opened Interpreter

  /**
    Programs the compiler accepts: no empty bodies, constants in place, folded lists
    among them, code that fits the assembler's buffer.
   */
  ghost predicate Compilable(p: Program, objects: map<uword, Value>) {
    && p.listNative !in p.lambdas
    && |p.lambdas.Keys| * BUFFER_SIZE < TWO_TO_63
    && forall func :: func in p.lambdas ==>
         && p.lambdas[func].body != []
         && OkBody(QuotedProgram(p), objects, QuotedBody(p.lambdas[func].body))
         && Size(TraceBody(p.listNative, p.lambdas[func].body)) <= BUFFER_SIZE
  }

  /** Compiles every lambda of the program and puts the code regions into memory one after the other. */
  method CompileProgram(p: Program, objects: map<uword, Value>) returns (env: Env)
    requires Compilable(p, objects)
    ensures InMemory(p, env) && Linked(QuotedProgram(p), env) && env.objects == objects
    ensures OkProgram(p, objects) ==> Linked(p, env)
  {
    hide Compilable, AllCompiled, Linked, InMemory, OkBody;
    FitsInMemory(p, objects);
    var mem, procs := CompileAll(p, objects);
    env := Env(mem, objects, procs);
    AllInMemory(p, env);
    InMemoryIsLinked(p, env);
  }

  method CompileAll(p: Program, objects: map<uword, Value>) returns (mem: seq<byte>, procs: map<uword, Procedure>)
    requires Compilable(p, objects) && p.listNative !in p.lambdas
    ensures procs.Keys == p.lambdas.Keys + {p.listNative} && procs[p.listNative].ListProc? && p.listNative !in p.lambdas
    ensures |mem| <= |p.lambdas.Keys| * BUFFER_SIZE && AllCompiled(p, mem, objects, procs, p.lambdas.Keys)
  {
    hide Compilable, Compiled, AllCompiled;
    NoneCompiled(p, objects, map[p.listNative := ListProc]);
    mem, procs := [], map[p.listNative := ListProc];
    var todo := p.lambdas.Keys;
    ghost var done: set<uword> := {};
    while todo != {}
      invariant p.lambdas.Keys == done + todo && done !! todo
      invariant forall f :: f in procs <==> f in done || f == p.listNative
      invariant procs[p.listNative].ListProc? && |mem| <= |done| * BUFFER_SIZE
      invariant AllCompiled(p, mem, objects, procs, done)
      decreases todo
    {
      var func :| func in todo;
      MoveOne(p.lambdas.Keys, done, todo, func);
      var entry;
      mem, entry := CompileLambda(p, func, mem, objects, procs, done);
      procs := procs[func := entry];
      todo, done := todo - {func}, done + {func};
    }
    assert done == p.lambdas.Keys;
  }

  lemma MoveOne(keys: set<uword>, done: set<uword>, todo: set<uword>, func: uword)
    requires keys == done + todo && done !! todo && func in todo
    ensures keys == (done + {func}) + (todo - {func})
    ensures (done + {func}) !! (todo - {func}) && |done + {func}| == |done| + 1
  {
  }

  lemma NoneCompiled(p: Program, objects: map<uword, Value>, procs: map<uword, Procedure>)
    ensures AllCompiled(p, [], objects, procs, {})
  {
  }

  /** Compiles one lambda and appends its code; the ones compiled before stay where they are. */
  method CompileLambda(p: Program, func: uword, mem: seq<byte>, objects: map<uword, Value>,
      procs: map<uword, Procedure>, ghost done: set<uword>)
    returns (longer: seq<byte>, entry: Procedure)
    requires Compilable(p, objects) && func in p.lambdas && func !in done && AllCompiled(p, mem, objects, procs, done)
    ensures |longer| <= |mem| + BUFFER_SIZE && entry.LambdaProc?
    ensures AllCompiled(p, longer, objects, procs[func := entry], done + {func})
  {
    hide Compilable, OkBody, QuotedBody, TraceBody, Size, Compiled;
    CompilableBody(p, objects, func);
    QuotedBodyCompiles(QuotedProgram(p), objects, p.lambdas[func].body);
    var code := CompileTarget(p.listNative, p.lambdas[func].body);
    longer := mem + code.value;
    entry := LambdaProc(p.lambdas[func].params, |mem|);
    ghost var procs' := procs[func := entry];
    NowCompiled(p, mem, code.value, objects, procs', func);
    forall f | f in done ensures Compiled(p, longer, objects, procs', f) {
      StillCompiled(p, mem, code.value, objects, procs, func, entry, f);
    }
  }

  ghost predicate AllCompiled(p: Program, mem: seq<byte>, objects: map<uword, Value>, procs: map<uword, Procedure>,
      done: set<uword>)
  {
    forall func :: func in done ==> Compiled(p, mem, objects, procs, func)
  }

  lemma FitsInMemory(p: Program, objects: map<uword, Value>)
    requires Compilable(p, objects)
    ensures |p.lambdas.Keys| * BUFFER_SIZE < TWO_TO_63 && p.listNative !in p.lambdas
  {
  }

  lemma NowCompiled(p: Program, mem: seq<byte>, code: seq<byte>, objects: map<uword, Value>,
      procs: map<uword, Procedure>, func: uword)
    requires func in p.lambdas && p.lambdas[func].body != []
    requires OkBody(QuotedProgram(p), objects, QuotedBody(p.lambdas[func].body))
    requires code == CodeOf(p.listNative, p.lambdas[func].body)
    requires func in procs && procs[func] == LambdaProc(p.lambdas[func].params, |mem|)
    ensures Compiled(p, mem + code, objects, procs, func)
  {
    hide OkBody, QuotedBody, CodeOf;
    assert (mem + code)[|mem|..|mem| + |code|] == code;
  }

  ghost predicate Compiled(p: Program, mem: seq<byte>, objects: map<uword, Value>, procs: map<uword, Procedure>,
      func: uword)
  {
    && func in p.lambdas && func in procs && procs[func].LambdaProc?
    && CodeInMemory(p, Env(mem, objects, procs), func)
  }

  lemma CompilableBody(p: Program, objects: map<uword, Value>, func: uword)
    requires Compilable(p, objects) && func in p.lambdas
    ensures var body := p.lambdas[func].body;
            body != [] && OkBody(QuotedProgram(p), objects, QuotedBody(body))
                && |CodeOf(p.listNative, body)| == Size(TraceBody(p.listNative, body)) <= BUFFER_SIZE
  {
  }

  lemma StillCompiled(p: Program, mem: seq<byte>, more: seq<byte>, objects: map<uword, Value>,
                      procs: map<uword, Procedure>, other: uword, entry: Procedure, func: uword)
    requires Compiled(p, mem, objects, procs, func) && func != other
    ensures Compiled(p, mem + more, objects, procs[other := entry], func)
  {
    hide OkBody, QuotedBody, TraceBody;
    var code, at := CodeOf(p.listNative, p.lambdas[func].body), procs[func].entry;
    assert (mem + more)[at..at + |code|] == mem[at..at + |code|];
  }

  lemma AllInMemory(p: Program, env: Env)
    requires |env.mem| < TWO_TO_63 && env.procs.Keys == p.lambdas.Keys + {p.listNative}
    requires p.listNative in env.procs && env.procs[p.listNative].ListProc? && p.listNative !in p.lambdas
    requires AllCompiled(p, env.mem, env.objects, env.procs, p.lambdas.Keys)
    ensures InMemory(p, env)
  {
    hide CodeInMemory;
  }

  /**
    Calls a lambda of a linked program on a new run-time system and takes the
    result. What is returned is what the source evaluates to, and enough fuel for
    the calls of the source is enough here.
   */
  method CallPop(ghost p: Program, env: Env, func: uword, vs: seq<Value>, params: seq<Param>, fuel: nat)
      returns (r: Outcome<Value>)
    requires Linked(p, env) && func in p.lambdas && p.lambdas[func].params == params && Accepts(params, |vs|)
    ensures !r.Timeout? ==> r == CallOutcome(p, func, vs, fuel)
    ensures forall f :: fuel >= Depth(env, f) && !CallOutcome(p, func, vs, f).Timeout? ==>
        r == CallOutcome(p, func, vs, f)
  {
    hide Linked, CallProcedure, CallOutcome;
    var runtime := new Runtime(env);
    var status := runtime.Call(func, Padded(params, vs), fuel);
    ghost var s, out := State(0, [], [], None),
        CallProcedure(env, State(0, [], [], None), func, Padded(params, vs), fuel);
    ProgramCorrect(p, env, func, vs, s, fuel, fuel, false);
    forall f | fuel >= Depth(env, f) ensures ResultMatches(out, CallOutcome(p, func, vs, f), s, true) {
      ProgramCorrect(p, env, func, vs, s, f, fuel, true);
    }
    match status
    case Finished => r := if runtime.result.Some? then Done(runtime.result.value) else Done(Null);
    case Crashed => r := Crash;
    case OutOfFuel => r := Timeout;
  }
}
