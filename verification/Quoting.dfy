/**
  Lists that mention variables. The compiler takes a list of literals for a
  constant, symbols included, so code means a program in which every such list
  has been replaced by its folded value. For the programs whose constant lists
  mention no symbol that stands for something else, that is the program itself.
 */
module Quoting {
  import opened Words
  import opened Values
  import opened Bytecode
  import opened Layout
  import opened Source
  import opened Folding
  import opened Emission
  import opened Machine
  import opened Simulation
  import opened Correctness

  /** The expression with every constant list replaced by the literal it folds to. */
  function QuotedVal(v: Val): Val
    decreases v, 1
  {
    match v
    case Bin(op, l, r) => Bin(op, QuotedVal(l), QuotedVal(r))
    case Un(op, operand) => Un(op, QuotedVal(operand))
    case List(children, address) =>
      if !IsConstant(v) then
        List(seq(|children|, i requires 0 <= i < |children| => QuotedVal(children[i])), address)
      else if Fold(v).Done? then Lit(Fold(v).value, address)
      else v
    case Call(func, args) => Call(func, seq(|args|, i requires 0 <= i < |args| => QuotedCtl(args[i])))
    case _ => v
  }

  function QuotedCtl(c: Ctl): Ctl
    decreases c, 1
  {
    match c
    case Just(v) => Just(QuotedVal(v))
    case Cond(test, conseq, alt) => Cond(QuotedCtl(test), QuotedCtl(conseq), QuotedCtl(alt))
  }

  function QuotedStmt(s: Stmt): Stmt {
    match s
    case Do(c) => Do(QuotedCtl(c))
    case Set(i, v) => Set(i, QuotedVal(v))
  }

  function QuotedBody(body: seq<Stmt>): (q: seq<Stmt>)
    ensures |q| == |body|
  {
    seq(|body|, i requires 0 <= i < |body| => QuotedStmt(body[i]))
  }

  function QuotedProgram(p: Program): Program {
    Program(map func | func in p.lambdas :: Lambda(p.lambdas[func].params, QuotedBody(p.lambdas[func].body)),
      p.listNative)
  }

  // The code is the same.

  lemma {:induction false} QuotedConstant(v: Val)
    ensures IsConstant(QuotedVal(v)) <==> IsConstant(v)
  {
    match v
    case Bin(_, l, r) =>
      QuotedConstant(l);
      QuotedConstant(r);
    case List(children, _) =>
      if !IsConstant(v) {
        var i :| 0 <= i < |children| && !IsConstant(children[i]);
        QuotedConstant(children[i]);
        assert QuotedVal(v).children[i] == QuotedVal(children[i]);
      }
    case _ =>
  }

  lemma {:induction false} SameVal(native: uword, v: Val, id: nat)
    ensures BlocksVal(QuotedVal(v)) == BlocksVal(v) && TraceVal(native, QuotedVal(v), id) == TraceVal(native, v, id)
    decreases v, 1, 0
  {
    hide IsConstant, Fold, TraceChildren, TraceArgs, BlocksChildren, BlocksArgs, PushOf, Count;
    match v
    case Bin(_, l, r) =>
      SameVal(native, l, id);
      SameVal(native, r, id + BlocksVal(l));
    case Un(_, operand) => SameVal(native, operand, id);
    case List(children, _) =>
      if !IsConstant(v) {
        QuotedConstant(v);
        SameChildren(native, v, |children|, id);
      }
    case Call(_, args) => SameArgs(native, v, |args|, id);
    case _ =>
  }

  lemma {:induction false} SameChildren(native: uword, v: Val, n: nat, id: nat)
    requires v.List? && !IsConstant(v) && n <= |v.children|
    ensures
      var q := QuotedVal(v);
      BlocksChildren(q, n) == BlocksChildren(v, n) && TraceChildren(native, q, n, id) == TraceChildren(native, v, n, id)
    decreases v, 0, n
  {
    if n > 0 {
      SameChildren(native, v, n - 1, id);
      SameVal(native, v.children[n - 1], id + BlocksChildren(v, n - 1));
    }
  }

  lemma {:induction false} SameArgs(native: uword, v: Val, n: nat, id: nat)
    requires v.Call? && n <= |v.args|
    ensures
      var q := QuotedVal(v);
      BlocksArgs(q, n) == BlocksArgs(v, n) && TraceArgs(native, q, n, id) == TraceArgs(native, v, n, id)
    decreases v, 0, n
  {
    if n > 0 {
      SameArgs(native, v, n - 1, id);
      SameCtl(native, v.args[n - 1], id + BlocksArgs(v, n - 1));
    }
  }

  lemma {:induction false} SameTest(native: uword, c: Ctl, id: nat)
    ensures IsFused(QuotedCtl(c)) <==> IsFused(c)
    ensures BlocksCtl(QuotedCtl(c)) == BlocksCtl(c) && TraceTest(native, QuotedCtl(c), id) == TraceTest(native, c, id)
    decreases c, 2, 0
  {
    SameCtl(native, c, id);
    if IsFused(c) {
      SameVal(native, c.v.left, id);
      SameVal(native, c.v.right, id + BlocksVal(c.v.left));
    }
  }

  lemma {:induction false} SameCtl(native: uword, c: Ctl, id: nat)
    ensures BlocksCtl(QuotedCtl(c)) == BlocksCtl(c) && TraceCtl(native, QuotedCtl(c), id) == TraceCtl(native, c, id)
    decreases c, 1, 0
  {
    hide CondTrace, TraceTest;
    match c
    case Just(v) => SameVal(native, v, id);
    case Cond(test, conseq, alt) =>
      var idTest := id + 3 + BlocksCtl(conseq);
      SameCtl(native, conseq, id + 3);
      SameTest(native, test, idTest);
      SameCtl(native, alt, idTest + BlocksCtl(test));
  }

  lemma SameStmt(native: uword, s: Stmt, id: nat)
    ensures BlocksStmt(QuotedStmt(s)) == BlocksStmt(s)
    ensures TraceStmt(native, QuotedStmt(s), id) == TraceStmt(native, s, id)
  {
    match s
    case Do(c) => SameCtl(native, c, id);
    case Set(_, v) => SameVal(native, v, id);
  }

  lemma {:induction false} SameStmts(native: uword, body: seq<Stmt>, n: nat)
    requires n <= |body|
    ensures BlocksStmts(QuotedBody(body), n) == BlocksStmts(body, n)
    ensures TraceStmts(native, QuotedBody(body), n) == TraceStmts(native, body, n)
  {
    if n > 0 {
      SameStmts(native, body, n - 1);
      SameStmt(native, body[n - 1], FIRST_BLOCK + BlocksStmts(body, n - 1));
    }
  }

  /** Replacing constant lists by what they fold to changes no byte of the code. */
  lemma SameCode(native: uword, body: seq<Stmt>)
    requires body != []
    ensures TraceBody(native, QuotedBody(body)) == TraceBody(native, body)
    ensures CodeOf(native, QuotedBody(body)) == CodeOf(native, body)
  {
    hide TraceStmts, Assembled;
    SameStmts(native, body, |body|);
    assert QuotedBody(body)[|body| - 1] == QuotedStmt(body[|body| - 1]);
  }

  // What is accepted.

  lemma {:induction false} QuotedOkVal(p: Program, objects: map<uword, Value>, v: Val)
    requires OkVal(p, objects, v)
    ensures OkVal(QuotedProgram(p), objects, QuotedVal(v))
    decreases v, 1
  {
    match v
    case Bin(_, l, r) =>
      QuotedOkVal(p, objects, l);
      QuotedOkVal(p, objects, r);
    case Un(_, operand) => QuotedOkVal(p, objects, operand);
    case List(children, _) =>
      if !IsConstant(v) {
        QuotedConstant(v);
        forall i | 0 <= i < |children| ensures OkVal(QuotedProgram(p), objects, QuotedVal(v).children[i]) {
          QuotedOkVal(p, objects, children[i]);
        }
      }
    case Call(func, args) =>
      forall i | 0 <= i < |args| ensures OkCtl(QuotedProgram(p), objects, QuotedVal(v).args[i]) {
        QuotedOkCtl(p, objects, args[i]);
      }
    case _ =>
  }

  lemma {:induction false} QuotedOkCtl(p: Program, objects: map<uword, Value>, c: Ctl)
    requires OkCtl(p, objects, c)
    ensures OkCtl(QuotedProgram(p), objects, QuotedCtl(c))
    decreases c, 1
  {
    match c
    case Just(v) => QuotedOkVal(p, objects, v);
    case Cond(test, conseq, alt) =>
      QuotedOkCtl(p, objects, test);
      QuotedOkCtl(p, objects, conseq);
      QuotedOkCtl(p, objects, alt);
  }

  lemma QuotedOkBody(p: Program, objects: map<uword, Value>, body: seq<Stmt>)
    requires OkBody(p, objects, body)
    ensures OkBody(QuotedProgram(p), objects, QuotedBody(body))
  {
    forall i | 0 <= i < |body| ensures OkStmt(QuotedProgram(p), objects, QuotedBody(body)[i]) {
      match body[i]
      case Do(c) => QuotedOkCtl(p, objects, c);
      case Set(_, v) => QuotedOkVal(p, objects, v);
    }
  }

  lemma {:induction false} QuotedCompiles(q: Program, objects: map<uword, Value>, v: Val)
    requires OkVal(q, objects, QuotedVal(v))
    ensures Compiles(v)
    decreases v, 1
  {
    match v
    case Bin(_, l, r) =>
      QuotedCompiles(q, objects, l);
      QuotedCompiles(q, objects, r);
    case Un(_, operand) => QuotedCompiles(q, objects, operand);
    case List(children, _) =>
      if !IsConstant(v) {
        forall i | 0 <= i < |children| ensures Compiles(children[i]) {
          assert OkVal(q, objects, QuotedVal(v).children[i]);
          QuotedCompiles(q, objects, children[i]);
        }
      }
    case Call(_, args) =>
      forall i | 0 <= i < |args| ensures CompilesCtl(args[i]) {
        assert OkCtl(q, objects, QuotedVal(v).args[i]);
        QuotedCompilesCtl(q, objects, args[i]);
      }
    case _ =>
  }

  lemma {:induction false} QuotedCompilesCtl(q: Program, objects: map<uword, Value>, c: Ctl)
    requires OkCtl(q, objects, QuotedCtl(c))
    ensures CompilesCtl(c)
    decreases c, 1
  {
    match c
    case Just(v) => QuotedCompiles(q, objects, v);
    case Cond(test, conseq, alt) =>
      QuotedCompilesCtl(q, objects, test);
      QuotedCompilesCtl(q, objects, conseq);
      QuotedCompilesCtl(q, objects, alt);
  }

  /** What the correctness results speak about once lists are folded, the compiler gets through. */
  lemma QuotedBodyCompiles(q: Program, objects: map<uword, Value>, body: seq<Stmt>)
    requires OkBody(q, objects, QuotedBody(body))
    ensures forall i :: 0 <= i < |body| ==> CompilesStmt(body[i])
  {
    forall i | 0 <= i < |body| ensures CompilesStmt(body[i]) {
      assert OkStmt(q, objects, QuotedBody(body)[i]);
      match body[i]
      case Do(c) => QuotedCompilesCtl(q, objects, c);
      case Set(_, v) => QuotedCompiles(q, objects, v);
    }
  }

  // What the code means.

  /** The compiled lambdas of the program are in memory, with the constants that its folded lists need. */
  ghost predicate InMemory(p: Program, env: Env) {
    && |env.mem| < TWO_TO_63
    && (forall func :: func in env.procs && env.procs[func].LambdaProc? <==> func in p.lambdas)
    && (forall func :: func in p.lambdas ==> CodeInMemory(p, env, func))
    && p.listNative in env.procs && env.procs[p.listNative].ListProc?
  }

  ghost predicate CodeInMemory(p: Program, env: Env, func: uword)
    requires func in p.lambdas && func in env.procs && env.procs[func].LambdaProc?
  {
    var body := p.lambdas[func].body;
    && env.procs[func].params == p.lambdas[func].params
    && body != [] && OkBody(QuotedProgram(p), env.objects, QuotedBody(body))
    && CodeAt(env.mem, env.procs[func].entry, CodeOf(p.listNative, body))
  }

  lemma CodeIsQuoted(p: Program, env: Env, func: uword)
    requires func in p.lambdas && func in env.procs && env.procs[func].LambdaProc?
    ensures CodeInMemory(p, env, func) <==> HasCode(QuotedProgram(p), env, func)
    ensures CodeInMemory(p, env, func) && OkBody(p, env.objects, p.lambdas[func].body) ==> HasCode(p, env, func)
  {
    hide OkBody, CodeOf, QuotedBody, CodeAt;
    var body := p.lambdas[func].body;
    QuotedNothing(body);
    if body != [] { SameCode(p.listNative, body); }
  }

  lemma QuotedNothing(body: seq<Stmt>)
    ensures QuotedBody(body) == [] <==> body == []
  {
  }

  lemma InMemoryIsLinked(p: Program, env: Env)
    ensures InMemory(p, env) <==> Linked(QuotedProgram(p), env)
    ensures InMemory(p, env) && (forall func :: func in p.lambdas ==> OkBody(p, env.objects, p.lambdas[func].body)) ==>
              Linked(p, env)
  {
    hide OkBody, HasCode, CodeInMemory, QuotedBody;
    forall func | func in p.lambdas && func in env.procs && env.procs[func].LambdaProc?
      ensures CodeInMemory(p, env, func) <==> HasCode(QuotedProgram(p), env, func)
      ensures CodeInMemory(p, env, func) && OkBody(p, env.objects, p.lambdas[func].body) ==> HasCode(p, env, func)
    {
      CodeIsQuoted(p, env, func);
    }
  }

  /**
    Compiler correctness for any lists: a call of a compiled lambda returns exactly
    when the evaluation of its body does in which constant lists are what they fold
    to, with that value, and crashes exactly when that evaluation crashes.
   */
  lemma QuotedCallCorrect(p: Program, env: Env, func: uword, vs: seq<Value>, s: State, v: Value)
    requires InMemory(p, env) && func in p.lambdas && Accepts(p.lambdas[func].params, |vs|)
    requires s.frames != [] && s.current != 0
    ensures
      var args, q := Padded(p.lambdas[func].params, vs), QuotedProgram(p);
      && ((exists g :: CallProcedure(env, s, func, args, g) == Done(Pushed(s, v))) <==>
          (exists f :: CallOutcome(q, func, vs, f) == Done(v)))
      && ((exists g :: CallProcedure(env, s, func, args, g) == Crash) <==>
          (exists f :: CallOutcome(q, func, vs, f) == Crash))
      && (forall g :: CallProcedure(env, s, func, args, g).Done? ==>
            exists w :: CallProcedure(env, s, func, args, g) == Done(Pushed(s, w)))
  {
    hide InMemory, Linked, CallProcedure, CallOutcome;
    InMemoryIsLinked(p, env);
    CallCorrect(QuotedProgram(p), env, func, vs, s, v);
  }

  // Where quoting changes nothing.

  ghost predicate OkProgram(p: Program, objects: map<uword, Value>) {
    forall func :: func in p.lambdas ==> OkBody(p, objects, p.lambdas[func].body)
  }

  lemma {:induction false} SameMeaning(p: Program, objects: map<uword, Value>, v: Val, L: Locals, fuel: nat)
    requires OkProgram(p, objects) && OkVal(p, objects, v)
    ensures EvalVal(QuotedProgram(p), QuotedVal(v), L, fuel) == EvalVal(p, v, L, fuel)
    decreases fuel, v, 1, 0
  {
    match v
    case Bin(_, l, r) =>
      SameMeaning(p, objects, l, L, fuel);
      SameMeaning(p, objects, r, L, fuel);
    case Un(_, operand) => SameMeaning(p, objects, operand, L, fuel);
    case List(children, _) =>
      if IsConstant(v) {
        FoldingPreservesMeaning(p, v, L, fuel);
      } else {
        SameMeanings(p, objects, v, |children|, L, fuel);
      }
    case Call(func, args) =>
      SameArguments(p, objects, v, |args|, L, fuel);
      var vs := EvalArgs(p, v, |args|, L, fuel);
      if vs.Done? && func in p.lambdas && Accepts(p.lambdas[func].params, |vs.value|) && fuel > 0 {
        var L' := Entered(func, p.lambdas[func].params, vs.value);
        SameBody(p, objects, p.lambdas[func].body, L', fuel - 1);
      }
    case _ =>
  }

  lemma {:induction false} SameMeanings(p: Program, objects: map<uword, Value>, v: Val, n: nat, L: Locals, fuel: nat)
    requires OkProgram(p, objects) && OkVal(p, objects, v) && v.List? && !IsConstant(v) && n <= |v.children|
    ensures EvalChildren(QuotedProgram(p), QuotedVal(v), n, L, fuel) == EvalChildren(p, v, n, L, fuel)
    decreases fuel, v, 0, n
  {
    if n > 0 {
      SameMeanings(p, objects, v, n - 1, L, fuel);
      SameMeaning(p, objects, v.children[n - 1], L, fuel);
    }
  }

  lemma {:induction false} SameArguments(p: Program, objects: map<uword, Value>, v: Val, n: nat, L: Locals, fuel: nat)
    requires OkProgram(p, objects) && OkVal(p, objects, v) && v.Call? && n <= |v.args|
    ensures EvalArgs(QuotedProgram(p), QuotedVal(v), n, L, fuel) == EvalArgs(p, v, n, L, fuel)
    decreases fuel, v, 0, n
  {
    if n > 0 {
      SameArguments(p, objects, v, n - 1, L, fuel);
      SameCtlMeaning(p, objects, v.args[n - 1], L, fuel);
    }
  }

  lemma {:induction false} SameCtlMeaning(p: Program, objects: map<uword, Value>, c: Ctl, L: Locals, fuel: nat)
    requires OkProgram(p, objects) && OkCtl(p, objects, c)
    ensures EvalCtl(QuotedProgram(p), QuotedCtl(c), L, fuel) == EvalCtl(p, c, L, fuel)
    decreases fuel, c, 1, 0
  {
    match c
    case Just(v) => SameMeaning(p, objects, v, L, fuel);
    case Cond(test, conseq, alt) =>
      SameCtlMeaning(p, objects, test, L, fuel);
      SameCtlMeaning(p, objects, conseq, L, fuel);
      SameCtlMeaning(p, objects, alt, L, fuel);
  }

  lemma {:induction false} SameStmtMeaning(p: Program, objects: map<uword, Value>, s: Stmt, L: Locals, fuel: nat)
    requires OkProgram(p, objects) && OkStmt(p, objects, s)
    ensures EvalStmt(QuotedProgram(p), QuotedStmt(s), L, fuel) == EvalStmt(p, s, L, fuel)
    decreases fuel, s, 1, 0
  {
    match s
    case Do(c) => SameCtlMeaning(p, objects, c, L, fuel);
    case Set(_, v) => SameMeaning(p, objects, v, L, fuel);
  }

  lemma {:induction false} SameStmtsMeaning(p: Program, objects: map<uword, Value>, body: seq<Stmt>, n: nat, L: Locals,
      fuel: nat)
    requires OkProgram(p, objects) && OkBody(p, objects, body) && n <= |body|
    ensures EvalStmts(QuotedProgram(p), QuotedBody(body), n, L, fuel) == EvalStmts(p, body, n, L, fuel)
    decreases fuel, body, 0, n
  {
    if n > 0 {
      SameStmtsMeaning(p, objects, body, n - 1, L, fuel);
      var before := EvalStmts(p, body, n - 1, L, fuel);
      if before.Done? { SameStmtMeaning(p, objects, body[n - 1], before.value.locals, fuel); }
    }
  }

  /** Where constant lists mention only symbols that stand for themselves, folding them changes no meaning. */
  lemma {:induction false} SameBody(p: Program, objects: map<uword, Value>, body: seq<Stmt>, L: Locals, fuel: nat)
    requires OkProgram(p, objects) && OkBody(p, objects, body)
    ensures EvalBody(QuotedProgram(p), QuotedBody(body), L, fuel) == EvalBody(p, body, L, fuel)
    decreases fuel, body, 1, 0
  {
    SameStmtsMeaning(p, objects, body, |body|, L, fuel);
    QuotedNothing(body);
  }

  // Where it does.

  /**
    A lambda with one parameter whose body is the list of 1 and the parameter: a
    call returns the list of 1 and the parameter's name, whatever the argument,
    although the body evaluates to the list of 1 and the argument.
   */
  lemma VariableListReturnsName(p: Program, env: Env, func: uword, x: Value, name: string, address: uword, s: State)
    requires InMemory(p, env) && func in p.lambdas && s.frames != [] && s.current != 0
    requires p.lambdas[func].params == [Param(false, false)]
    requires p.lambdas[func].body == [Do(Just(List([Lit(Long(1), 0), Local(1, name)], address)))]
    ensures exists g :: CallProcedure(env, s, func, [x], g) == Done(Pushed(s, Pair(Long(1), Pair(Symbol(name), Null))))
    ensures CallOutcome(p, func, [x], 1) == Done(Pair(Long(1), Pair(x, Null)))
  {
    hide InMemory, CallProcedure, FoldAll, EvalChildren;
    var v := List([Lit(Long(1), 0), Local(1, name)], address);
    var folded := Pair(Long(1), Pair(Symbol(name), Null));
    var L, body := Entered(func, p.lambdas[func].params, [x]), p.lambdas[func].body;
    assert L == [Proc(func), x];
    VariableFoldsToItsName(p, 0, name, address, 0, L, 0);
    OneStatement(p, v, L);
    OneStatement(QuotedProgram(p), QuotedVal(v), L);
    assert QuotedBody(body) == [Do(Just(QuotedVal(v)))];
    assert CallOutcome(QuotedProgram(p), func, [x], 1) == Done(folded);
    assert Padded(p.lambdas[func].params, [x]) == [x];
    QuotedCallCorrect(p, env, func, [x], s, folded);
  }

  lemma OneStatement(p: Program, v: Val, L: Locals)
    ensures EvalBody(p, [Do(Just(v))], L, 0) == EvalVal(p, v, L, 0)
  {
    var body := [Do(Just(v))];
    assert EvalStmts(p, body, 0, L, 0) == Done(Progress(L, Null));
    assert EvalStmts(p, body, 1, L, 0) == EvalStmt(p, body[0], L, 0);
    assert EvalCtl(p, Just(v), L, 0) == EvalVal(p, v, L, 0);
  }
}
