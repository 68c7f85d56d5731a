/**
  Paths: the states an innermost frame goes through, one per instruction, where
  a call is one instruction. A path is safe when no instruction pops below a
  given part of the operand stack and the position only grows.
 */
module Paths {
  import opened Sequences
  import opened Values
  import opened Bytecode
  import opened Machine
  import opened Calls

  type Path = seq<State>

  /** How many values an instruction takes from the operand stack. */
  function Pops(i: Instr): nat {
    match i
    case Pop | StoreLocal(_) | Unary(_) => 1
    case Binary(_) => 2
    case Jump(kind, _) => if kind.Always? then 0 else if kind.Jz? || kind.Jnz? then 1 else 2
    case Invoke(_, n) => n
    case InvokeNative(_, n) => n
    case InvokeDynamic(n) => n + 1
    case _ => 0
  }

  /** The state with another position and operand stack. */
  function At(st: State, pos: nat, stack: seq<Value>): (s: State)
    requires st.frames != []
    ensures s.frames != [] && s.current == pos && Stack(s) == stack && s.scopes == st.scopes
  {
    WithStack(st, stack).(current := pos)
  }

  lemma AtTwice(st: State, pos: nat, stack: seq<Value>, pos': nat, stack': seq<Value>)
    requires st.frames != []
    ensures At(At(st, pos, stack), pos', stack') == At(st, pos', stack')
    ensures At(st, st.current, Stack(st)) == st
  {
  }

  /** The state belongs to the same frame as `st`, and `floor` is still at the bottom of its stack. */
  ghost predicate Above(floor: seq<Value>, st: State, s: State) {
    && st.frames != [] && s.frames != [] && s.frames == WithStack(st, Stack(s)).frames && s.result == st.result
    && |s.scopes| == |st.scopes| && (st.scopes != [] ==> Front(s.scopes) == Front(st.scopes))
    && floor <= Stack(s)
  }

  /** There is a next instruction in `s`, and it leaves the lowest `floor` values of the stack alone. */
  ghost predicate NoUnderflow(env: Env, s: State, floor: nat)
    requires s.frames != []
  {
    var f := Fetch(env.mem, s.current);
    f.Some? && floor + Pops(f.value.instr) <= |Stack(s)|
  }

  /**
    What a path is measured against: memory and procedures, the end of the code,
    the fuel `d` of calls, and whether that is enough (`exact`).
   */
  datatype Setting = Setting(env: Env, limit: nat, d: nat, exact: bool)

  /** One instruction leads from `s` to `s'`, further on in the code. */
  ghost predicate Step(m: Setting, floor: nat, s: State, s': State)
    requires s.frames != []
  {
    Next(m.env, s, m.d) == Done(s') && s.current < s'.current && NoUnderflow(m.env, s, floor)
  }

  /** Each state of the path follows from the one before; calls have `d` units of fuel. */
  ghost predicate Steps(m: Setting, floor: seq<Value>, st: State, path: Path): (b: bool)
    ensures b ==> path != []
  {
    && path != [] && Above(floor, st, path[0]) && path[0].current <= m.limit
    && (|path| > 1 ==> Step(m, |floor|, path[0], path[1]) && Steps(m, floor, st, path[1..]))
  }

  lemma {:induction false} BackOfSteps(m: Setting, floor: seq<Value>, st: State, path: Path)
    requires Steps(m, floor, st, path)
    ensures Above(floor, st, Back(path)) && Back(path).current <= m.limit
    ensures |path| - 1 <= Back(path).current - path[0].current
  {
    hide Next, Above, NoUnderflow;
    if |path| > 1 {
      BackOfSteps(m, floor, st, path[1..]);
    }
  }

  predicate AtRet(env: Env, s: State) {
    var f := Fetch(env.mem, s.current);
    f.Some? && f.value.instr.Ret?
  }

  /** The next instruction of `s` fails the way the source does. */
  ghost predicate Fails<T>(m: Setting, floor: nat, s: State, r: Outcome<T>)
    requires s.frames != []
  {
    && s.current < m.limit && NoUnderflow(m.env, s, floor) && !AtRet(m.env, s)
    && (|| (r.Crash? && Next(m.env, s, m.d).Crash?)
        || (r.Timeout? && m.exact)
        || (!m.exact && Next(m.env, s, m.d).Timeout?))
  }

  /**
    A path from `st` that leads to the state of `r`, or to an instruction that
    crashes if the source does.

    `exact` says that `d` is enough fuel for all the calls the source makes; then
    nothing is said when the source itself needs deeper calls. Otherwise the path
    may instead end at a call that runs out of fuel, and it has to when the
    source does.
   */
  ghost predicate Reaches(m: Setting, floor: seq<Value>, st: State, path: Path, r: Outcome<State>) {
    && Steps(m, floor, st, path) && path[0] == st && Back(path).frames != []
    && ((r.Done? && Back(path) == r.value) || Fails(m, |floor|, Back(path), r))
  }

  lemma AboveTrans(floor: seq<Value>, floor2: seq<Value>, st: State, s1: State, s2: State)
    requires Above(floor, st, s1) && Above(floor2, s1, s2) && floor <= floor2
    ensures Above(floor, st, s2)
  {
  }

  /** Continues a path, unless it has failed. */
  function Continued(first: Path, r: Outcome<State>, second: Path): Path
    requires first != []
  {
    if r.Done? && Back(first) == r.value && second != [] then first + second[1..] else first
  }

  lemma ReachesThen(m: Setting, floor: seq<Value>, st: State, first: Path, r1: Outcome<State>,
                    floor2: seq<Value>, second: Path, r2: Outcome<State>)
    requires Reaches(m, floor, st, first, r1)
    requires r1.Done? ==> floor <= floor2 && Reaches(m, floor2, r1.value, second, r2)
    requires r1.Crash? ==> r2.Crash?
    requires r1.Timeout? ==> r2.Timeout?
    ensures Reaches(m, floor, st, Continued(first, r1, second), r2)
  {
    hide Next, Above, NoUnderflow, Steps;
    if r1.Done? && Back(first) == r1.value {
      BackOfSteps(m, floor, st, first);
      StepsThen(m, floor, st, first, floor2, second);
      NoUnderflowWeakens(m.env, Back(second), floor, floor2);
    }
  }

  lemma NoUnderflowWeakens(env: Env, s: State, floor: seq<Value>, floor2: seq<Value>)
    requires s.frames != [] && floor <= floor2
    ensures NoUnderflow(env, s, |floor2|) ==> NoUnderflow(env, s, |floor|)
  {
  }

  lemma {:induction false} StepsWeaken(m: Setting, floor: seq<Value>, st: State, s1: State, floor2: seq<Value>,
      path: Path)
    requires Steps(m, floor2, s1, path) && Above(floor, st, s1) && floor <= floor2
    ensures Steps(m, floor, st, path)
  {
    hide Next, Above, NoUnderflow;
    AboveTrans(floor, floor2, st, s1, path[0]);
    NoUnderflowWeakens(m.env, path[0], floor, floor2);
    if |path| > 1 {
      StepsWeaken(m, floor, st, s1, floor2, path[1..]);
    }
  }

  lemma {:induction false} StepsThen(m: Setting, floor: seq<Value>, st: State, first: Path, floor2: seq<Value>,
      second: Path)
    requires Steps(m, floor, st, first) && Steps(m, floor2, Back(first), second) && second[0] == Back(first)
    requires floor <= floor2
    ensures Steps(m, floor, st, first + second[1..])
    ensures Back(first + second[1..]) == Back(second)
  {
    hide Next, Above, NoUnderflow;
    if |first| == 1 {
      assert first + second[1..] == second;
      StepsWeaken(m, floor, st, first[0], floor2, second);
    } else {
      StepsThen(m, floor, st, first[1..], floor2, second);
      assert (first + second[1..])[1..] == first[1..] + second[1..];
    }
  }

  /** One instruction, which leads to the state of `r` or fails as `r` does. */
  lemma ReachesByOne(m: Setting, floor: seq<Value>, st: State, r: Outcome<State>) returns (path: Path)
    requires st.frames != [] && floor <= Stack(st) && st.current <= m.limit
    requires NoUnderflow(m.env, st, |floor|)
    requires r.Done? ==> Above(floor, st, r.value) && st.current < r.value.current <= m.limit
    requires (r.Done? && Next(m.env, st, m.d) == r) || Fails(m, |floor|, st, r)
    ensures Reaches(m, floor, st, path, r)
  {
    hide Next;
    AtTwice(st, 0, [], 0, []);
    if r.Done? && Next(m.env, st, m.d) == r {
      path := [st, r.value];
      assert path[1..] == [r.value];
      assert Steps(m, floor, st, path[1..]);
    } else {
      path := [st];
    }
  }

  /** A run follows the path, given enough fuel for its calls. */
  lemma {:induction false} RunAlong(m: Setting, floor: seq<Value>, st: State, path: Path, g: nat)
    requires Steps(m, floor, st, path) && m.d + |path| <= g
    ensures path[0].frames != [] && Back(path).frames != []
    ensures Run(m.env, path[0], g) == Run(m.env, Back(path), g - (|path| - 1))
    decreases |path|
  {
    hide Next, Fetch, NoUnderflow;
    if |path| > 1 {
      NextMore(m.env, path[0], m.d, g - 1);
      NotRet(m.env, path[0], m.d);
      RunAlong(m, floor, st, path[1..], g - 1);
    }
  }

  lemma NotRet(env: Env, st: State, d: nat)
    requires st.frames != [] && !Next(env, st, d).Crash?
    ensures Fetch(env.mem, st.current).Some? && !Fetch(env.mem, st.current).value.instr.Ret?
  {
  }

  /** With less fuel a run follows the path or runs out. */
  lemma {:induction false} RunAlongOrOut(m: Setting, floor: seq<Value>, st: State, path: Path, g: nat)
    requires Steps(m, floor, st, path) && g <= m.d + 1
    ensures path[0].frames != [] && Back(path).frames != []
    ensures Run(m.env, path[0], g).Timeout? ||
            (|path| <= g && Run(m.env, path[0], g) == Run(m.env, Back(path), g - (|path| - 1)))
    decreases |path|
  {
    hide Next, Fetch, NoUnderflow;
    BackOfSteps(m, floor, st, path);
    if |path| > 1 && g > 0 {
      NotRet(m.env, path[0], m.d);
      if !Next(m.env, path[0], g - 1).Timeout? {
        NextMore(m.env, path[0], g - 1, m.d);
        RunAlongOrOut(m, floor, st, path[1..], g - 1);
      }
    }
  }
}
