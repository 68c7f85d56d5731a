/**
  The run-time system as functions on states: the interpreter loop, the calling
  convention, and calls with their frames and scopes.

  `fuel` bounds a run: each instruction of a frame, and each nesting of calls,
  uses one unit; a run that needs more is a `Timeout`. Memory is a sequence of
  bytes, its indices are the addresses; 0 is the unallocated address.
 */
module Machine {
  import opened Sequences
  import opened Words
  import opened Values
  import opened Bytecode
  import opened Source

  datatype Procedure =
    | LambdaProc(params: seq<Param>, entry: nat)
    | ListProc

  datatype Env = Env(mem: seq<byte>, objects: map<uword, Value>, procs: map<uword, Procedure>)

  /** The top of the operation stack is its last element. */
  datatype Frame = Frame(id: nat, target: uword, returnAddress: nat, stack: seq<Value>)

  /** The innermost frame and the innermost scope come last. */
  datatype State = State(current: nat, frames: seq<Frame>, scopes: seq<seq<Value>>, result: Option<Value>)

  function Stack(st: State): seq<Value>
    requires st.frames != []
  {
    Back(st.frames).stack
  }

  function WithStack(st: State, stack: seq<Value>): (st': State)
    requires st.frames != []
    ensures |st'.frames| == |st.frames| && Stack(st') == stack
  {
    st.(frames := Front(st.frames) + [Back(st.frames).(stack := stack)])
  }

  function Pushed(st: State, v: Value): State
    requires st.frames != []
  {
    WithStack(st, Stack(st) + [v])
  }

  // Instructions other than calls.

  /** `at` is the position of the opcode, to which jumps are relative. */
  function Exec(env: Env, st: State, i: Instr, at: nat): (r: Outcome<State>)
    requires st.frames != []
    ensures !r.Timeout?
    ensures r.Done? ==> |r.value.frames| == |st.frames| && |r.value.scopes| == |st.scopes|
  {
    var s := Stack(st);
    match i
    case Nop => Done(st)
    case Pop => if s == [] then Crash else Done(WithStack(st, Front(s)))
    case PushN => Done(Pushed(st, Null))
    case PushT => Done(Pushed(st, Bool(true)))
    case PushF => Done(Pushed(st, Bool(false)))
    case PushI(n) => Done(Pushed(st, Long(n)))
    case PushQ(a) => if a in env.objects then Done(Pushed(st, env.objects[a])) else Crash
    case LoadLocal(idx) =>
      if st.scopes == [] || idx >= |Back(st.scopes)| then Crash else Done(Pushed(st, Back(st.scopes)[idx]))
    case StoreLocal(idx) =>
      if st.scopes == [] || idx >= |Back(st.scopes)| || s == [] then Crash
      else Done(WithStack(st, Front(s)).(scopes := Front(st.scopes) + [Back(st.scopes)[idx := Back(s)]]))
    case Unary(op) =>
      if s == [] then Crash
      else
        var v :- ExecUnary(op, Back(s));
        Done(WithStack(st, Front(s) + [v]))
    case Binary(op) =>
      if |s| < 2 then Crash
      else
        var v :- ExecBinary(op, s[|s| - 2], s[|s| - 1]);
        Done(WithStack(st, s[..|s| - 2] + [v]))
    case Jump(kind, offset) => ExecJump(st, kind, at + offset)
    case _ => Crash
  }

  /** `jnz` jumps when the value is not true, `jne` when the two are not equal; `jz` and `jeq` are not implemented. */
  function ExecJump(st: State, kind: JumpKind, target: int): (r: Outcome<State>)
    requires st.frames != []
    ensures !r.Timeout?
    ensures r.Done? ==> |r.value.frames| == |st.frames| && r.value.scopes == st.scopes
  {
    var s := Stack(st);
    match kind
    case Always => JumpIf(st, true, target)
    case Jnz => if s == [] then Crash else JumpIf(WithStack(st, Front(s)), !Truth(Back(s)), target)
    case Jne =>
      if |s| < 2 then Crash
      else
        var same :- EqualTo(s[|s| - 2], Some(s[|s| - 1]));
        JumpIf(WithStack(st, s[..|s| - 2]), !same, target)
    case _ => Crash
  }

  function JumpIf(st: State, b: bool, target: int): Outcome<State> {
    if !b then Done(st) else if target < 0 then Crash else Done(st.(current := target))
  }

  // The calling convention.

  /**
    `CallWithNArgs` in progress: what has been popped so far, and the arguments still to
    come, negative when some are missing.
   */
  datatype Binding = Binding(args: seq<Value>, stack: seq<Value>, remaining: int)

  function PopArg(b: Binding): (r: Outcome<Binding>)
    ensures !r.Timeout?
  {
    if b.stack == [] then Crash else Done(Binding(b.args + [Back(b.stack)], Front(b.stack), b.remaining - 1))
  }

  function PopAll(b: Binding): (r: Outcome<Binding>)
    ensures !r.Timeout?
    decreases b.stack
  {
    if b.remaining <= 0 then Done(b)
    else
      var b' :- PopArg(b);
      PopAll(b')
  }

  /** The loop over the parameters from number `i` on. */
  function BindParams(params: seq<Param>, i: nat, b: Binding): (r: Outcome<Binding>)
    requires i <= |params|
    ensures !r.Timeout?
    decreases |params| - i
  {
    if i == |params| then Done(b)
    else if params[i].vararg then PopAll(b)
    else if b.remaining > 0 then
      var b' :- PopArg(b);
      BindParams(params, i + 1, b')
    else if params[i].optional then BindParams(params, i + 1, b.(remaining := b.remaining - 1))
    else Crash
  }

  function Reverse<T>(s: seq<T>): (r: seq<T>)
    ensures |r| == |s|
    ensures forall i :: 0 <= i < |s| ==> r[i] == s[|s| - 1 - i]
  {
    if s == [] then [] else Reverse(s[1..]) + [s[0]]
  }

  /** The arguments in order, padded with Null, and the rest of the operation stack. */
  function CollectArgs(params: seq<Param>, stack: seq<Value>, numArgs: nat): (r: Outcome<Binding>)
    ensures !r.Timeout?
  {
    var b :- BindParams(params, 0, Binding([], stack, numArgs));
    Done(b.(args := Reverse(b.args) + Nulls(if b.remaining < 0 then -b.remaining else 0)))
  }

  // Calls.

  function Enter(st: State, target: uword, locals: seq<Value>): State {
    var id := if st.frames == [] then 1 else Back(st.frames).id + 1;
    st.(frames := st.frames + [Frame(id, target, st.current, [])], scopes := st.scopes + [locals])
  }

  /** Pops the frame and the scope; the top of the frame's stack, or Null, goes to the caller. */
  function Leave(st: State): State
    requires st.frames != [] && st.scopes != []
  {
    var frame := Back(st.frames);
    var value := if frame.stack == [] then Null else Back(frame.stack);
    var popped := st.(frames := Front(st.frames), scopes := Front(st.scopes),
                      current := if frame.returnAddress != 0 then frame.returnAddress else st.current);
    if popped.frames == [] then popped.(result := Some(value)) else Pushed(popped, value)
  }

  function CallProcedure(env: Env, st: State, func: uword, args: seq<Value>, fuel: nat): (r: Outcome<State>)
    ensures r.Done? ==> |r.value.frames| == |st.frames| && |r.value.scopes| == |st.scopes|
    decreases fuel, 1
  {
    if func !in env.procs then Crash
    else
      match env.procs[func]
      case ListProc => Done(Leave(Pushed(Enter(st, func, args), ListOf(args))))
      case LambdaProc(params, entry) =>
        if |args| != |params| then Crash
        else
          var done :- Run(env, Enter(st, func, [Proc(func)] + args).(current := entry), fuel);
          Done(Leave(done))
  }

  function CallWithNArgs(env: Env, st: State, func: uword, numArgs: nat, fuel: nat): (r: Outcome<State>)
    requires st.frames != [] && func in env.procs
    ensures r.Done? ==> |r.value.frames| == |st.frames| && |r.value.scopes| == |st.scopes|
    decreases fuel, 2
  {
    var b :- CollectArgs(ParamsOf(env.procs[func]), Stack(st), numArgs);
    CallProcedure(env, WithStack(st, b.stack), func, b.args, fuel)
  }

  /** The `list` native takes all its arguments as one vararg. */
  function ParamsOf(p: Procedure): seq<Param> {
    match p
    case LambdaProc(params, _) => params
    case ListProc => [Param(false, true)]
  }

  datatype Callee = Static(func: uword) | Native(func: uword) | Dynamic

  /**
    The procedure called: from the operand, or popped. A static call needs a lambda, a
    native one a native procedure.
   */
  function InvokeProc(env: Env, st: State, callee: Callee, numArgs: nat, fuel: nat): (r: Outcome<State>)
    requires st.frames != []
    ensures r.Done? ==> |r.value.frames| == |st.frames| && |r.value.scopes| == |st.scopes|
    decreases fuel, 3
  {
    match callee
    case Static(func) =>
      if func in env.procs && env.procs[func].LambdaProc? then CallWithNArgs(env, st, func, numArgs, fuel) else Crash
    case Native(func) =>
      if func in env.procs && env.procs[func].ListProc? then CallWithNArgs(env, st, func, numArgs, fuel) else Crash
    case Dynamic =>
      var s := Stack(st);
      if s == [] || !Back(s).Proc? || Back(s).address !in env.procs then Crash
      else CallWithNArgs(env, WithStack(st, Front(s)), Back(s).address, numArgs, fuel)
  }

  /** One instruction other than `ret`. */
  function Next(env: Env, st: State, fuel: nat): (r: Outcome<State>)
    requires st.frames != []
    ensures r.Done? ==> |r.value.frames| == |st.frames| && |r.value.scopes| == |st.scopes|
    decreases fuel, 4
  {
    match Fetch(env.mem, st.current)
    case None => Crash
    case Some(f) =>
      var s := st.(current := f.next);
      match f.instr
      case Invoke(func, n) => InvokeProc(env, s, Static(func), n, fuel)
      case InvokeNative(func, n) => InvokeProc(env, s, Native(func), n, fuel)
      case InvokeDynamic(n) => InvokeProc(env, s, Dynamic, n, fuel)
      case _ => Exec(env, s, f.instr, st.current)
  }

  /** Runs from the current address to the next `ret` of this frame. */
  function Run(env: Env, st: State, fuel: nat): (r: Outcome<State>)
    requires st.frames != []
    ensures r.Done? ==> |r.value.frames| == |st.frames| && |r.value.scopes| == |st.scopes|
    decreases fuel, 0
  {
    if fuel == 0 then Timeout
    else
      match Fetch(env.mem, st.current)
      case None => Crash
      case Some(f) =>
        if f.instr.Ret? then Done(st.(current := f.next))
        else
          var s :- Next(env, st, fuel - 1);
          Run(env, s, fuel - 1)
  }
}
