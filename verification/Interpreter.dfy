/**
  The interpreter and the run-time system in their own form: one object whose
  methods move the position through memory, push and pop the operand stack of
  the innermost frame, and push and pop frames and scopes. Every method is
  proved to do what `Machine` says.
 */
module Interpreter {
  import opened Sequences
  import opened Words
  import opened Values
  import opened Bytecode
  import opened Source
  import opened Machine

  datatype Status = Finished | Crashed | OutOfFuel

  /** The method's status and new state are those of the outcome. */
  predicate Matches(status: Status, now: State, r: Outcome<State>) {
    match r
    case Done(s) => status.Finished? && now == s
    case Crash => status.Crashed?
    case Timeout => status.OutOfFuel?
  }

  /** The `list` native: conses its arguments from the last to the first. */
  method ApplyList(args: seq<Value>) returns (list: Value)
    ensures list == ListOf(args)
  {
    list := Null;
    var idx := |args|;
    while idx > 0
      invariant 0 <= idx <= |args| && list == ListOf(args[idx..])
    {
      idx := idx - 1;
      list := Pair(args[idx], list);
      assert args[idx..] == [args[idx]] + args[idx + 1..];
    }
    assert args[0..] == args;
  }

  lemma TwoPops(s: seq<Value>)
    ensures |s| >= 2 ==> Front(Front(s)) == s[..|s| - 2] && Back(Front(s)) == s[|s| - 2]
  {
  }

  /** What the interpreter reads at `pos`, by the number of operands of the opcode. */
  lemma FetchAt(mem: seq<byte>, pos: nat)
    requires pos < |mem|
    ensures
      var op, n, f := mem[pos], InterpreterOperands(mem[pos]), Fetch(mem, pos);
      && (n.None? ==> f.None?)
      && (n == Some(0) ==> f == Some(Fetched(Build(op, []), pos + 1)))
      && (n == Some(1) ==>
            f == if pos + 1 + WORD_SIZE <= |mem| then
                   Some(Fetched(BuildOne(op, DecodeUWord(mem[pos + 1..pos + 1 + WORD_SIZE])), pos + 1 + WORD_SIZE))
                 else None)
      && (n == Some(2) ==>
            f == if pos + 1 + 2 * WORD_SIZE <= |mem| then
                   Some(Fetched(Build(op, [DecodeUWord(mem[pos + 1..pos + 1 + WORD_SIZE]),
                                           DecodeUWord(mem[pos + 1 + WORD_SIZE..pos + 1 + 2 * WORD_SIZE])]),
                                pos + 1 + 2 * WORD_SIZE))
                 else None)
  {
    hide Build, BuildOne, InterpreterOperands, DecodeUWord;
    var n := InterpreterOperands(mem[pos]);
    if n.Some? && pos + 1 + WORD_SIZE * n.value <= |mem| {
      if n.value > 0 {
        assert WordsAt(mem, pos + 1, n.value) ==
            [DecodeUWord(mem[pos + 1..pos + 1 + WORD_SIZE])] + WordsAt(mem, pos + 1 + WORD_SIZE, n.value - 1);
        if n.value == 1 {
          BuildsOne(mem[pos], WordsAt(mem, pos + 1, 1));
        } else {
          var second := pos + 1 + WORD_SIZE;
          assert WordsAt(mem, second + WORD_SIZE, 0) == [];
          assert second + WORD_SIZE == pos + 1 + 2 * WORD_SIZE;
          assert WordsAt(mem, pos + 1, 2) == [DecodeUWord(mem[pos + 1..second])] + WordsAt(mem, second, 1);
          assert WordsAt(mem, second, 1) == [DecodeUWord(mem[second..second + WORD_SIZE])];
          assert WordsAt(mem, pos + 1, 2) ==
              [DecodeUWord(mem[pos + 1..second]), DecodeUWord(mem[second..pos + 1 + 2 * WORD_SIZE])];
        }
      }
    }
  }

  lemma BuildsOne(op: byte, ws: seq<uword>)
    requires |ws| == 1 && InterpreterOperands(op) == Some(1)
    ensures Build(op, ws) == BuildOne(op, ws[0])
  {
  }

  class Runtime {
    const env: Env
    var current: nat
    var frames: seq<Frame>
    var scopes: seq<seq<Value>>
    var result: Option<Value>

    constructor (env: Env)
      ensures this.env == env && Now() == State(0, [], [], None)
    {
      this.env := env;
      current, frames, scopes, result := 0, [], [], None;
    }

    function Now(): State
      reads this
    {
      State(current, frames, scopes, result)
    }

    // Reading the code.

    method NextBytecode() returns (ok: bool, op: byte)
      modifies this`current
      ensures ok <==> old(current) < |env.mem|
      ensures ok ==> op == env.mem[old(current)] && current == old(current) + 1
    {
      ok, op := current < |env.mem|, 0;
      if ok {
        op := env.mem[current];
        current := current + 1;
      }
    }

    method NextUWord() returns (ok: bool, w: uword)
      modifies this`current
      ensures ok <==> old(current) + WORD_SIZE <= |env.mem|
      ensures
        ok ==>
          w == DecodeUWord(env.mem[old(current)..old(current) + WORD_SIZE]) && current == old(current) + WORD_SIZE
    {
      ok, w := current + WORD_SIZE <= |env.mem|, 0;
      if ok {
        w := DecodeUWord(env.mem[current..current + WORD_SIZE]);
        current := current + WORD_SIZE;
      }
    }

    method NextWord() returns (ok: bool, w: word)
      modifies this`current
      ensures ok <==> old(current) + WORD_SIZE <= |env.mem|
      ensures
        ok ==>
          w == DecodeWord(env.mem[old(current)..old(current) + WORD_SIZE]) && current == old(current) + WORD_SIZE
    {
      ok, w := current + WORD_SIZE <= |env.mem|, 0;
      if ok {
        w := DecodeWord(env.mem[current..current + WORD_SIZE]);
        current := current + WORD_SIZE;
      }
    }

    // The operand stack of the innermost frame.

    method PushValue(v: Value)
      requires frames != []
      modifies this`frames
      ensures Now() == Pushed(old(Now()), v)
    {
      var frame := frames[|frames| - 1];
      frames := frames[|frames| - 1 := frame.(stack := frame.stack + [v])];
    }

    method PopValue() returns (v: Option<Value>)
      requires frames != []
      modifies this`frames
      ensures v.None? <==> Stack(old(Now())) == []
      ensures v.None? ==> Now() == old(Now())
      ensures v.Some? ==> v.value == Back(Stack(old(Now()))) && Now() == WithStack(old(Now()), Front(Stack(old(Now()))))
    {
      var frame := frames[|frames| - 1];
      if frame.stack == [] { return None; }
      v := Some(frame.stack[|frame.stack| - 1]);
      frames := frames[|frames| - 1 := frame.(stack := frame.stack[..|frame.stack| - 1])];
    }

    // Instructions.

    method LoadLocal(idx: uword) returns (status: Status)
      requires frames != []
      modifies this`frames
      ensures Matches(status, Now(), Exec(env, old(Now()), Instr.LoadLocal(idx), 0))
    {
      if scopes == [] || idx >= |scopes[|scopes| - 1]| { return Crashed; }
      PushValue(scopes[|scopes| - 1][idx]);
      status := Finished;
    }

    method StoreLocal(idx: uword) returns (status: Status)
      requires frames != []
      modifies this`frames, this`scopes
      ensures Matches(status, Now(), Exec(env, old(Now()), Instr.StoreLocal(idx), 0))
    {
      if scopes == [] || idx >= |scopes[|scopes| - 1]| { return Crashed; }
      var value := PopValue();
      if value.None? { return Crashed; }
      scopes := scopes[|scopes| - 1 := scopes[|scopes| - 1][idx := value.value]];
      status := Finished;
    }

    method ExecBinaryOp(op: BinaryOp) returns (status: Status)
      requires frames != []
      modifies this`frames
      ensures Matches(status, Now(), Exec(env, old(Now()), Binary(op), 0))
    {
      hide ExecBinary;
      TwoPops(Stack(Now()));
      var rhs := PopValue();
      if rhs.None? { return Crashed; }
      var lhs := PopValue();
      if lhs.None? { return Crashed; }
      var value := ExecBinary(op, lhs.value, rhs.value);
      if !value.Done? { return Crashed; }
      PushValue(value.value);
      status := Finished;
    }

    method ExecUnaryOp(op: UnaryOp) returns (status: Status)
      requires frames != []
      modifies this`frames
      ensures Matches(status, Now(), Exec(env, old(Now()), Unary(op), 0))
    {
      var operand := PopValue();
      if operand.None? { return Crashed; }
      var value := ExecUnary(op, operand.value);
      if !value.Done? { return Crashed; }
      PushValue(value.value);
      status := Finished;
    }

    method Jump(kind: JumpKind, target: int) returns (status: Status)
      requires frames != []
      modifies this`frames, this`current
      ensures Matches(status, Now(), ExecJump(old(Now()), kind, target))
    {
      var taken := true;
      match kind {
        case Jnz =>
          var value := PopValue();
          if value.None? { return Crashed; }
          taken := !Truth(value.value);
        case Jne =>
          TwoPops(Stack(Now()));
          var rhs := PopValue();
          if rhs.None? { return Crashed; }
          var lhs := PopValue();
          if lhs.None? { return Crashed; }
          var same := EqualTo(lhs.value, Some(rhs.value));
          if !same.Done? { return Crashed; }
          taken := !same.value;
        case Always =>
        case _ =>
          return Crashed;
      }
      if taken {
        if target < 0 { return Crashed; }
        current := target;
      }
      status := Finished;
    }

    // Calls.

    method PushStackFrame(target: uword)
      modifies this`frames
      ensures frames == old(frames)
          + [Frame(if old(frames) == [] then 1 else Back(old(frames)).id + 1, target, current, [])]
    {
      var id := if frames == [] then 1 else frames[|frames| - 1].id + 1;
      frames := frames + [Frame(id, target, current, [])];
    }

    /** Pops frame and scope of a finished call and hands its value to the caller. */
    method Return()
      requires frames != [] && scopes != []
      modifies this
      ensures Now() == Leave(old(Now()))
    {
      var frame := frames[|frames| - 1];
      frames := frames[..|frames| - 1];
      var value := if frame.stack == [] then Null else frame.stack[|frame.stack| - 1];
      if frames != [] {
        PushValue(value);
      } else {
        result := Some(value);
      }
      if frame.returnAddress != 0 {
        current := frame.returnAddress;
      }
      scopes := scopes[..|scopes| - 1];
    }

    /** The scope of a called lambda: the lambda itself, then one local for each argument. */
    method LocalsOf(func: uword, args: seq<Value>) returns (locals: seq<Value>)
      ensures locals == [Proc(func)] + args
    {
      locals := [Proc(func)];
      for idx := 0 to |args|
        invariant locals == [Proc(func)] + args[..idx]
      {
        locals := locals + [args[idx]];
      }
      assert args[..|args|] == args;
    }

    method Call(func: uword, args: seq<Value>, fuel: nat) returns (status: Status)
      modifies this
      ensures Matches(status, Now(), CallProcedure(env, old(Now()), func, args, fuel))
      decreases fuel, 1
    {
      hide Machine.Run;
      if func !in env.procs { return Crashed; }
      match env.procs[func]
      case ListProc =>
        scopes := scopes + [args];
        PushStackFrame(func);
        var list := ApplyList(args);
        PushValue(list);
        Return();
        status := Finished;
      case LambdaProc(params, entry) =>
        if |args| != |params| { return Crashed; }
        var locals := LocalsOf(func, args);
        scopes := scopes + [locals];
        PushStackFrame(func);
        status := Run(entry, fuel);
        if status.Finished? {
          Return();
        }
    }

    method CallWithNArgs(func: uword, numArgs: nat, fuel: nat) returns (status: Status)
      requires frames != [] && func in env.procs
      modifies this
      ensures Matches(status, Now(), Machine.CallWithNArgs(env, old(Now()), func, numArgs, fuel))
      decreases fuel, 2
    {
      var params := ParamsOf(env.procs[func]);
      var ok, args := PopArgs(params, numArgs);
      if !ok { return Crashed; }
      status := Call(func, args, fuel);
    }

    /** Pops the arguments, puts them back in order and fills in the missing ones. */
    method PopArgs(params: seq<Param>, numArgs: nat) returns (ok: bool, args: seq<Value>)
      requires frames != []
      modifies this`frames
      ensures
        var r := CollectArgs(params, Stack(old(Now())), numArgs);
        && ok == r.Done?
        && (ok ==> args == r.value.args && Now() == WithStack(old(Now()), r.value.stack))
    {
      var remaining: int := numArgs;
      var i := 0;
      args := [];
      ghost var all := BindParams(params, 0, Binding([], Stack(Now()), numArgs));
      while i < |params|
        invariant 0 <= i <= |params| && frames != [] && Now() == WithStack(old(Now()), Stack(Now()))
        invariant BindParams(params, i, Binding(args, Stack(Now()), remaining)) == all
      {
        if params[i].vararg {
          while remaining > 0
            invariant frames != [] && Now() == WithStack(old(Now()), Stack(Now()))
            invariant PopAll(Binding(args, Stack(Now()), remaining)) == all
          {
            var value := PopValue();
            if value.None? { return false, []; }
            args := args + [value.value];
            remaining := remaining - 1;
          }
          i := |params|;
        } else if remaining > 0 {
          var value := PopValue();
          if value.None? { return false, []; }
          args := args + [value.value];
          remaining := remaining - 1;
          i := i + 1;
        } else if params[i].optional {
          remaining := remaining - 1;
          i := i + 1;
        } else {
          return false, [];
        }
      }
      args := Reverse(args);
      ghost var given := args;
      while remaining < 0
        invariant all.Done? && all.value.stack == Stack(Now())
        invariant remaining <= 0 || remaining == all.value.remaining
        invariant |args| - |given| + (if remaining < 0 then -remaining else 0) ==
            if all.value.remaining < 0 then -all.value.remaining else 0
        invariant |given| <= |args| && args == given + Nulls(|args| - |given|)
      {
        args := args + [Null];
        remaining := remaining + 1;
      }
      ok := true;
    }

    method Invoke(callee: Callee, numArgs: nat, fuel: nat) returns (status: Status)
      requires frames != []
      modifies this
      ensures Matches(status, Now(), InvokeProc(env, old(Now()), callee, numArgs, fuel))
      decreases fuel, 3
    {
      match callee
      case Static(func) =>
        if !(func in env.procs && env.procs[func].LambdaProc?) { return Crashed; }
        status := CallWithNArgs(func, numArgs, fuel);
      case Native(func) =>
        if !(func in env.procs && env.procs[func].ListProc?) { return Crashed; }
        status := CallWithNArgs(func, numArgs, fuel);
      case Dynamic =>
        var func := PopValue();
        if func.None? || !func.value.Proc? || func.value.address !in env.procs { return Crashed; }
        status := CallWithNArgs(func.value.address, numArgs, fuel);
    }

    /** The pushes, each with its own operand. */
    method Push(op: byte, ghost start: nat, ghost fuel: nat) returns (status: Status)
      requires frames != [] && OP_PUSHQ <= op <= OP_PUSHF
      requires start < |env.mem| && env.mem[start] == op && current == start + 1
      modifies this`frames, this`current
      ensures Matches(status, Now(), Next(env, old(Now()).(current := start), fuel))
    {
      FetchAt(env.mem, start);
      if op == OP_PUSHQ {
        var ok, address := NextUWord();
        if !ok || address !in env.objects { return Crashed; }
        PushValue(env.objects[address]);
      } else if op == OP_PUSHI {
        var ok, n := NextUWord();
        if !ok { return Crashed; }
        PushValue(Long(n));
      } else if op == OP_PUSHN {
        PushValue(Null);
      } else {
        PushValue(Bool(op == OP_PUSHT));
      }
      status := Finished;
    }

    /** The instructions on locals, with their short and long forms. */
    method AccessLocal(op: byte, ghost start: nat, ghost fuel: nat) returns (status: Status)
      requires frames != [] && OP_STORE_LOCAL <= op <= OP_LOAD_LOCAL3
      requires start < |env.mem| && env.mem[start] == op && current == start + 1
      modifies this`frames, this`scopes, this`current
      ensures Matches(status, Now(), Next(env, old(Now()).(current := start), fuel))
    {
      FetchAt(env.mem, start);
      if op == OP_LOAD_LOCAL || op == OP_STORE_LOCAL {
        var ok, idx := NextUWord();
        if !ok { return Crashed; }
        if op == OP_LOAD_LOCAL {
          status := LoadLocal(idx);
        } else {
          status := StoreLocal(idx);
        }
      } else if op >= OP_LOAD_LOCAL0 {
        status := LoadLocal(op - OP_LOAD_LOCAL0);
      } else {
        status := StoreLocal(op - OP_STORE_LOCAL0);
      }
    }

    method JumpOrSkip(op: byte, start: nat, ghost fuel: nat) returns (status: Status)
      requires frames != [] && OP_JUMP <= op <= OP_JNE
      requires start < |env.mem| && env.mem[start] == op && current == start + 1
      modifies this`frames, this`current
      ensures Matches(status, Now(), Next(env, old(Now()).(current := start), fuel))
    {
      FetchAt(env.mem, start);
      var ok, offset := NextWord();
      if !ok { return Crashed; }
      status := Jump(JumpOf(op), start + offset);
    }

    /** Reads the callee and the number of arguments; the callee of a dynamic call comes from the stack. */
    method InvokeOp(op: byte, ghost start: nat, fuel: nat) returns (status: Status)
      requires frames != [] && OP_INVOKE <= op <= OP_INVOKE_NATIVE
      requires start < |env.mem| && env.mem[start] == op && current == start + 1
      modifies this
      ensures Matches(status, Now(), Next(env, old(Now()).(current := start), fuel))
      decreases fuel, 4
    {
      FetchAt(env.mem, start);
      var callee := Dynamic;
      if op != OP_INVOKE_DYNAMIC {
        var ok, func := NextUWord();
        if !ok { return Crashed; }
        callee := if op == OP_INVOKE then Static(func) else Native(func);
      }
      var ok, numArgs := NextUWord();
      if !ok { return Crashed; }
      status := Invoke(callee, numArgs, fuel);
    }

    /** One pass of the loop: an instruction other than `ret`, whose opcode has just been read. */
    method Execute(op: byte, start: nat, fuel: nat) returns (status: Status)
      requires frames != [] && op != OP_RET
      requires start < |env.mem| && env.mem[start] == op && current == start + 1
      modifies this
      ensures Matches(status, Now(), Next(env, old(Now()).(current := start), fuel))
      decreases fuel, 5
    {
      FetchAt(env.mem, start);
      if OP_PUSHQ <= op <= OP_PUSHF {
        status := Push(op, start, fuel);
      } else if OP_STORE_LOCAL <= op <= OP_LOAD_LOCAL3 {
        status := AccessLocal(op, start, fuel);
      } else if OP_INVOKE <= op <= OP_INVOKE_NATIVE {
        status := InvokeOp(op, start, fuel);
      } else if OP_JUMP <= op <= OP_JNE {
        status := JumpOrSkip(op, start, fuel);
      } else if OP_BINARY <= op < TOTAL_NUMBER_OF_OPS {
        status := ExecBinaryOp(BinaryOf(op));
      } else if OP_UNARY <= op < OP_BINARY {
        status := ExecUnaryOp(UnaryOf(op));
      } else if op == OP_POP {
        var value := PopValue();
        status := if value.Some? then Finished else Crashed;
      } else if op == OP_NOP {
        status := Finished;
      } else {
        status := Crashed;
      }
    }

    /** The interpreter loop: reads opcodes and executes them up to the `ret` of this frame. */
    method Run(address: nat, fuel: nat) returns (status: Status)
      requires frames != []
      modifies this
      ensures Matches(status, Now(), Machine.Run(env, old(Now()).(current := address), fuel))
      decreases fuel, 0
    {
      hide Next, Fetch;
      current := address;
      ghost var r := Machine.Run(env, Now(), fuel);
      var left: nat := fuel;
      while left > 0
        invariant left <= fuel && frames != [] && Machine.Run(env, Now(), left) == r
        decreases left
      {
        var start := current;
        var ok, op := NextBytecode();
        if !ok { return Crashed; }
        RetOnlyAtRet(env.mem, start);
        if op != OP_RET { RunUnfolds(env, State(start, frames, scopes, result), left); }
        left := left - 1;
        if op == OP_RET { return Finished; }
        status := Execute(op, start, left);
        if !status.Finished? { return; }
      }
      status := OutOfFuel;
    }
  }

  lemma RunUnfolds(env: Env, st: State, fuel: nat)
    requires st.frames != [] && fuel > 0
    requires Fetch(env.mem, st.current).None? || !Fetch(env.mem, st.current).value.instr.Ret?
    ensures
      var n := Next(env, st, fuel - 1);
      Machine.Run(env, st, fuel) == if n.Done? then Machine.Run(env, n.value, fuel - 1) else n
  {
  }

  lemma RetOnlyAtRet(mem: seq<byte>, pos: nat)
    requires pos < |mem|
    ensures mem[pos] == OP_RET ==> Fetch(mem, pos) == Some(Fetched(Ret, pos + 1))
    ensures mem[pos] != OP_RET ==> Fetch(mem, pos).None? || !Fetch(mem, pos).value.instr.Ret?
  {
    FetchAt(mem, pos);
  }
}
