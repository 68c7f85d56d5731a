/**
  Compiler correctness for statements and lambda bodies. A statement leaves its
  value on the operand stack, where later statements never touch it; `set!`
  leaves none and changes the local.
 */
module Statements {
  import opened Sequences
  import opened Words
  import opened Values
  import opened Bytecode
  import opened Layout
  import opened Source
  import opened Emission
  import opened Machine
  import opened Paths
  import opened Placement
  import opened Simulation
  import opened Expressions

  function WithLocals(st: State, L: Locals): State
    requires st.scopes != []
  {
    st.(scopes := Front(st.scopes) + [L])
  }

  /** The values a statement leaves on the stack. */
  function LeftByOne(s: Stmt, r: Progress): seq<Value> {
    if s.Do? then [r.last] else []
  }

  /** The values the first `n` statements leave on the stack. */
  function LeftBy(p: Program, body: seq<Stmt>, n: nat, L: Locals, fuel: nat): seq<Value>
    requires n <= |body|
  {
    if n == 0 then []
    else
      var r := EvalStmts(p, body, n, L, fuel);
      LeftBy(p, body, n - 1, L, fuel) + if r.Done? then LeftByOne(body[n - 1], r.value) else []
  }

  /** The state at `end` after statements with result `r` that left `left` on the stack. */
  function Advanced(st: State, end: nat, left: seq<Value>, r: Outcome<Progress>): Outcome<State>
    requires st.frames != [] && st.scopes != []
  {
    var done :- r;
    Done(WithLocals(At(st, end, Stack(st) + left), done.locals))
  }

  lemma AdvancedLeaves(st: State, end: nat, r: Outcome<Value>)
    requires st.frames != [] && st.scopes != []
    ensures
      Advanced(st, end, if r.Done? then [r.value] else [],
          if r.Done? then Done(Progress(LocalsOf(st), r.value)) else if r.Crash? then Crash else Timeout)
      == After(st, end, One(r))
  {
    assert Front(st.scopes) + [Back(st.scopes)] == st.scopes;
  }

  lemma {:induction false} SimStmt(c: Ctx, s: Stmt, id: nat, base: nat, st: State) returns (path: Path)
    requires Runs(c, TraceStmt(c.p.listNative, s, id), base, st) && OkStmt(c.p, c.m.env.objects, s)
    ensures
      var r := EvalStmt(c.p, s, LocalsOf(st), c.fuel);
      Reaches(c.m, Stack(st), st, path,
              Advanced(st, c.start + base + Size(TraceStmt(c.p.listNative, s, id)),
                  if r.Done? then LeftByOne(s, r.value) else [], r))
  {
    hide Reaches, Sound, Placed, Size, EvalCtl, EvalVal;
    match s
    case Do(ctl) =>
      path := SimCtl(c, ctl, id, base, st);
      AdvancedLeaves(st, c.start + base + Size(TraceStmt(c.p.listNative, s, id)),
          EvalCtl(c.p, ctl, LocalsOf(st), c.fuel));
    case Set(_, _) =>
      path := SimSet(c, s, id, base, st);
  }

  lemma {:induction false} SimSet(c: Ctx, s: Stmt, id: nat, base: nat, st: State) returns (path: Path)
    requires s.Set? && Runs(c, TraceStmt(c.p.listNative, s, id), base, st) && OkStmt(c.p, c.m.env.objects, s)
    ensures
      var r := EvalStmt(c.p, s, LocalsOf(st), c.fuel);
      Reaches(c.m, Stack(st), st, path,
              Advanced(st, c.start + base + Size(TraceStmt(c.p.listNative, s, id)), [], r))
  {
    hide Steps, Sound, Placed, Size, EvalVal;
    var items := TraceVal(c.p.listNative, s.v, id);
    var op := [Op(StoreLocal(s.index))];
    RunsSplit(c, items, op, base, st);
    var first := SimVal(c, s.v, id, base, st);
    var x := EvalVal(c.p, s.v, LocalsOf(st), c.fuel);
    var mid := c.start + base + Size(items);
    var r1 := After(st, mid, One(x));
    var r := Advanced(st, mid + Size(op), [], EvalStmt(c.p, s, LocalsOf(st), c.fuel));
    var second := first;
    if x.Done? {
      second := StoreStep(c, st, base + Size(items), x.value, s.index);
    }
    path := Continued(first, r1, second);
    ReachesThen(c.m, Stack(st), st, first, r1, Stack(st), second, r);
  }

  lemma StoreStep(c: Ctx, st: State, base: nat, x: Value, index: uword) returns (path: Path)
    requires st.frames != [] && st.scopes != [] && Placed(c.m.env.mem, c.start, [Op(StoreLocal(index))], base, c.marks)
    requires c.start + base + Size([Op(StoreLocal(index))]) <= c.m.limit
    ensures
      var L, end := LocalsOf(st), c.start + base + Size([Op(StoreLocal(index))]);
      Reaches(c.m, Stack(st), At(st, c.start + base, Stack(st) + [x]), path,
              if index < |L| then Done(WithLocals(At(st, end, Stack(st) + []), L[index := x])) else Crash)
  {
    hide Steps, Placed, Size, Fetch;
    var i := StoreLocal(index);
    PlacedOp(c.m.env.mem, c.start, i, base, c.marks);
    var s := At(st, c.start + base, Stack(st) + [x]);
    var end := c.start + base + Size([Op(i)]);
    FetchInside(c.m.env.mem, c.start + base);
    NextIsExec(c.m.env, s, c.m.d, i, end);
    assert s.(current := end) == At(st, end, Stack(st) + [x]);
    assert Front(Stack(st) + [x]) == Stack(st) && Stack(st) + [] == Stack(st);
    path := ReachesByOne(c.m, Stack(st), s,
        if index < |LocalsOf(st)| then Done(WithLocals(At(st, end, Stack(st) + []), LocalsOf(st)[index := x]))
        else Crash);
  }

  lemma {:induction false} SimStmts(c: Ctx, body: seq<Stmt>, n: nat, st: State) returns (path: Path)
    requires n <= |body| && Runs(c, TraceStmts(c.p.listNative, body, n), 0, st) && OkBody(c.p, c.m.env.objects, body)
    ensures
      Reaches(c.m, Stack(st), st, path,
              Advanced(st, c.start + Size(TraceStmts(c.p.listNative, body, n)),
                  LeftBy(c.p, body, n, LocalsOf(st), c.fuel),
                       EvalStmts(c.p, body, n, LocalsOf(st), c.fuel)))
    decreases n
  {
    hide Reaches, Sound, Placed, TraceStmt, EvalStmt;
    var L := LocalsOf(st);
    if n == 0 {
      path := NoStmts(c, st);
    } else {
      var s, id := body[n - 1], FIRST_BLOCK + BlocksStmts(body, n - 1);
      var before, items := TraceStmts(c.p.listNative, body, n - 1), TraceStmt(c.p.listNative, s, id);
      var left := LeftBy(c.p, body, n - 1, L, c.fuel);
      RunsSplit(c, before, items, 0, st);
      path := SimStmts(c, body, n - 1, st);
      var r1 := EvalStmts(c.p, body, n - 1, L, c.fuel);
      var mid := c.start + Size(before);
      var r2: Outcome<Progress> := if r1.Crash? then Crash else Timeout;
      var second := path;
      if r1.Done? {
        var s1 := Advanced(st, mid, left, r1).value;
        AdvancedTwice(st, mid, left, r1.value.locals, mid, [], r1);
        second := SimStmt(c, s, id, Size(before), s1);
        r2 := EvalStmt(c.p, s, r1.value.locals, c.fuel);
      }
      path := AdvancedThen(c, st, path, mid, left, r1, second, mid + Size(items),
          if r2.Done? then LeftByOne(s, r2.value) else [], r2);
    }
  }

  lemma AdvancedThen(c: Ctx, st: State, first: Path, mid: nat, left: seq<Value>, r1: Outcome<Progress>,
                     second: Path, end: nat, more: seq<Value>, r2: Outcome<Progress>)
    returns (path: Path)
    requires st.frames != [] && st.scopes != []
    requires Reaches(c.m, Stack(st), st, first, Advanced(st, mid, left, r1))
    requires r1.Done? ==>
               var s1 := Advanced(st, mid, left, r1).value;
               && s1.frames != [] && s1.scopes != []
               && Reaches(c.m, Stack(s1), s1, second, Advanced(s1, end, more, r2))
    requires r1.Crash? ==> r2.Crash?
    requires r1.Timeout? ==> r2.Timeout?
    ensures Reaches(c.m, Stack(st), st, path, Advanced(st, end, left + more, r2))
  {
    hide Steps;
    var s1 := Advanced(st, mid, left, r1);
    if r1.Done? {
      AdvancedTwice(st, mid, left, r1.value.locals, end, more, r2);
    }
    path := Continued(first, s1, second);
    ReachesThen(c.m, Stack(st), st, first, s1, if r1.Done? then Stack(s1.value) else [], second,
                Advanced(st, end, left + more, r2));
  }

  lemma NoStmts(c: Ctx, st: State) returns (path: Path)
    requires Runs(c, [], 0, st)
    ensures Reaches(c.m, Stack(st), st, path, Advanced(st, st.current, [], Done(Progress(LocalsOf(st), Null))))
  {
    path := LeavesNothing(c, st);
    assert Front(st.scopes) + [Back(st.scopes)] == st.scopes;
  }

  lemma AdvancedTwice(st: State, mid: nat, left: seq<Value>, L: Locals, end: nat, more: seq<Value>,
      r: Outcome<Progress>)
    requires st.frames != [] && st.scopes != []
    ensures
      var s1 := WithLocals(At(st, mid, Stack(st) + left), L);
      && s1.frames != [] && s1.scopes != [] && Stack(s1) == Stack(st) + left && LocalsOf(s1) == L && s1.current == mid
      && Advanced(s1, end, more, r) == Advanced(st, end, left + more, r)
  {
    if r.Done? {
      AtTwice(st, mid, Stack(st) + left, end, Stack(st) + left + more);
      assert Stack(st) + left + more == Stack(st) + (left + more);
    }
  }

  /** What the whole body leaves on the stack; the last value is the result. */
  function BodyLeaves(p: Program, body: seq<Stmt>, L: Locals, fuel: nat): seq<Value>
    requires body != []
  {
    LeftBy(p, body, |body|, L, fuel) + if body[|body| - 1].Set? then [Null] else []
  }

  lemma BodyValue(p: Program, body: seq<Stmt>, L: Locals, fuel: nat)
    requires body != []
    ensures
      var r, v, left := EvalStmts(p, body, |body|, L, fuel), EvalBody(p, body, L, fuel), BodyLeaves(p, body, L, fuel);
      && (r.Done? ==> v == Done(r.value.last) && left != [] && Back(left) == r.value.last)
      && (r.Crash? <==> v.Crash?) && (r.Timeout? <==> v.Timeout?)
  {
  }

  lemma EndOfBody(c: Ctx, native: uword, body: seq<Stmt>, st: State)
    requires body != [] && Runs(c, TraceBody(native, body), 0, st)
    ensures
      var n := Size(TraceBody(native, body));
      && n > 0 && Fetch(c.m.env.mem, c.start + n - 1) == Some(Fetched(Ret, c.start + n))
      && Runs(c, TraceStmts(native, body, |body|), 0, st)
      && (if body[|body| - 1].Set? then
            && Size(TraceStmts(native, body, |body|)) + Size([Op(PushN)]) == n - 1
            && Placed(c.m.env.mem, c.start, [Op(PushN)], Size(TraceStmts(native, body, |body|)), c.marks)
          else Size(TraceStmts(native, body, |body|)) == n - 1)
  {
    hide Placed, Sound, Size;
    var stmts := TraceStmts(native, body, |body|);
    RunsSplit(c, stmts, TraceReturn(body[|body| - 1]), 0, st);
    if body[|body| - 1].Set? {
      assert [Op(PushN)] + [Op(Ret)] == [Op(PushN), Op(Ret)];
      PlacedSplit(c.m.env.mem, c.start, [Op(PushN)], [Op(Ret)], Size(stmts), c.marks);
      PlacedOp(c.m.env.mem, c.start, Ret, Size(stmts) + Size([Op(PushN)]), c.marks);
    } else {
      PlacedOp(c.m.env.mem, c.start, Ret, Size(stmts), c.marks);
    }
  }

  lemma PushNullStep(c: Ctx, st: State, base: nat) returns (path: Path)
    requires st.frames != [] && st.scopes != [] && Placed(c.m.env.mem, c.start, [Op(PushN)], base, c.marks)
    requires c.start + base + Size([Op(PushN)]) <= c.m.limit
    requires st.current == c.start + base
    ensures Reaches(c.m, Stack(st), st, path,
                    Advanced(st, c.start + base + Size([Op(PushN)]), [Null], Done(Progress(LocalsOf(st), Null))))
  {
    hide Steps, Placed, Size, Fetch, Next;
    path := StayAt(c, st, base);
    ReplacesByPush(c, st, base, Null, 0);
    path := LeavesReplaced(c, st, path, c.start + base, Done([]), c.start + base + Size([Op(PushN)]), Done(Null));
    AdvancedLeaves(st, c.start + base + Size([Op(PushN)]), Done(Null));
  }

  lemma StayAt(c: Ctx, st: State, base: nat) returns (path: Path)
    requires st.frames != [] && st.current == c.start + base <= c.m.limit
    ensures Leaves(c, st, path, c.start + base, Done([]))
  {
    path := LeavesNothing(c, st);
  }

  lemma ThenNull(c: Ctx, st: State, first: Path, base: nat, left: seq<Value>, r: Outcome<Progress>) returns (path: Path)
    requires st.frames != [] && st.scopes != [] && Placed(c.m.env.mem, c.start, [Op(PushN)], base, c.marks)
    requires c.start + base + Size([Op(PushN)]) <= c.m.limit
    requires Reaches(c.m, Stack(st), st, first, Advanced(st, c.start + base, left, r))
    ensures Reaches(c.m, Stack(st), st, path, Advanced(st, c.start + base + Size([Op(PushN)]), left + [Null], r))
  {
    hide Reaches, Placed, Size;
    var second := first;
    var end := c.start + base + Size([Op(PushN)]);
    if r.Done? {
      AdvancedTwice(st, c.start + base, left, r.value.locals, c.start + base, [], r);
      var s1 := Advanced(st, c.start + base, left, r).value;
      second := PushNullStep(c, s1, base);
      assert Advanced(s1, end, [Null], r) == Advanced(s1, end, [Null], Done(Progress(LocalsOf(s1), Null)));
    }
    path := AdvancedThen(c, st, first, c.start + base, left, r, second, end, [Null], r);
  }

  /**
    The compiled body of a lambda, up to its `ret`: the values its expressions
    leave are still on the stack, the last of them is the value of the body, and
    the locals are those that the assignments have made.
   */
  lemma {:induction false} SimBody(c: Ctx, body: seq<Stmt>, st: State) returns (path: Path)
    requires body != [] && Runs(c, TraceBody(c.p.listNative, body), 0, st) && OkBody(c.p, c.m.env.objects, body)
    ensures
      Reaches(c.m, Stack(st), st, path,
              Advanced(st, c.start + Size(TraceBody(c.p.listNative, body)) - 1,
                  BodyLeaves(c.p, body, LocalsOf(st), c.fuel),
                       EvalStmts(c.p, body, |body|, LocalsOf(st), c.fuel)))
  {
    hide Reaches, Sound, Placed, Size, Fetch, EvalStmts, LeftBy;
    EndOfBody(c, c.p.listNative, body, st);
    path := SimStmts(c, body, |body|, st);
    var left := LeftBy(c.p, body, |body|, LocalsOf(st), c.fuel);
    if body[|body| - 1].Set? {
      path := ThenNull(c, st, path, Size(TraceStmts(c.p.listNative, body, |body|)), left,
          EvalStmts(c.p, body, |body|, LocalsOf(st), c.fuel));
    } else {
      assert left + [] == left;
    }
  }
}
