/**
  How a compiled trace uses block ids: every block of the graph is bound exactly
  once, every block that is jumped to is bound later on, and no jump leaves the
  code.
 */
module Blocks {
  import opened Words
  import opened Bytecode
  import opened Layout
  import opened Source
  import opened Emission

  /** The trace binds exactly `marks`, each once, refers only to `links`, and never to a label bound earlier in it. */
  ghost predicate Uses(items: Trace, marks: set<nat>, links: set<nat>) {
    MarkSet(items) == marks && LinkSet(items) <= links && MarkedOnce(items) && ForwardOnly(items)
  }

  ghost function Ids(lo: nat, hi: nat): (ids: set<nat>)
    ensures forall i :: i in ids <==> lo <= i < hi
  {
    if lo < hi then Ids(lo, hi - 1) + {hi - 1} else {}
  }

  lemma ConcatSets(a: Trace, b: Trace)
    ensures MarkSet(a + b) == MarkSet(a) + MarkSet(b)
    ensures LinkSet(a + b) == LinkSet(a) + LinkSet(b)
  {
    var s := a + b;
    assert forall i :: 0 <= i < |a| ==> s[i] == a[i];
    assert forall i :: 0 <= i < |b| ==> s[i + |a|] == b[i];
    forall x | x in MarkSet(b) ensures x in MarkSet(s) {
      var i :| 0 <= i < |b| && b[i].Mark? && b[i].id == x;
      assert s[i + |a|].Mark? && s[i + |a|].id == x;
    }
    forall x | x in LinkSet(b) ensures x in LinkSet(s) {
      var i :| 0 <= i < |b| && b[i].Link? && b[i].id == x;
      assert s[i + |a|].Link? && s[i + |a|].id == x;
    }
    forall x | x in MarkSet(s) ensures x in MarkSet(a) + MarkSet(b) {
      var i :| 0 <= i < |s| && s[i].Mark? && s[i].id == x;
      assert i >= |a| ==> b[i - |a|] == s[i];
    }
    forall x | x in LinkSet(s) ensures x in LinkSet(a) + LinkSet(b) {
      var i :| 0 <= i < |s| && s[i].Link? && s[i].id == x;
      assert i >= |a| ==> b[i - |a|] == s[i];
    }
  }

  /** Two traces in sequence, the second of which neither binds nor refers to what the first one binds. */
  lemma UsesConcat(a: Trace, marksA: set<nat>, linksA: set<nat>, b: Trace, marksB: set<nat>, linksB: set<nat>)
    requires Uses(a, marksA, linksA) && Uses(b, marksB, linksB)
    requires marksA !! marksB && marksA !! linksB
    ensures Uses(a + b, marksA + marksB, linksA + linksB)
  {
    ConcatSets(a, b);
    var s := a + b;
    forall i, j | 0 <= i < j < |s| && s[i].Mark? && (s[j].Mark? || s[j].Link?)
      ensures s[i].id != s[j].id
    {
      if j < |a| {
        assert s[i] == a[i] && s[j] == a[j];
      } else if i >= |a| {
        assert s[i] == b[i - |a|] && s[j] == b[j - |a|];
      } else {
        assert s[i] == a[i] && s[j] == b[j - |a|];
        assert s[i].id in MarkSet(a);
        assert s[j].Mark? ==> s[j].id in MarkSet(b);
        assert s[j].Link? ==> s[j].id in LinkSet(b);
      }
    }
  }

  lemma UsesNothing(items: Trace)
    requires forall x :: x in items ==> !x.Mark? && !x.Link?
    ensures Uses(items, {}, {})
  {
    assert forall i :: 0 <= i < |items| ==> items[i] in items;
  }

  lemma UsesMark(id: nat)
    ensures Uses([Mark(id)], {id}, {})
  {
    var s := [Mark(id)];
    assert s[0].Mark?;
    assert MarkSet(s) == {id};
  }

  lemma UsesJump(kind: JumpKind, id: nat)
    ensures Uses(JumpTo(kind, id), {}, {id})
  {
  }

  lemma UsesArm(block: nat, code: Trace, ids: set<nat>, join: nat)
    requires Uses(code, ids, ids) && block !in ids && join !in ids && block != join
    ensures Uses(Arm(block, code, join), {block} + ids, {join} + ids)
  {
    UsesJump(Always, join);
    UsesConcat(code, ids, ids, JumpTo(Always, join), {}, {join});
    UsesMark(block);
    UsesConcat([Mark(block)], {block}, {}, code + JumpTo(Always, join), ids, {join} + ids);
    assert ids + {} == ids && ids + {join} == {join} + ids && {} + ({join} + ids) == {join} + ids;
  }

  lemma UsesCond(kind: JumpKind, alt: nat, join: nat, target: nat,
                 conseqCode: Trace, conseq: set<nat>, altCode: Trace, altIds: set<nat>)
    requires Uses(conseqCode, conseq, conseq) && Uses(altCode, altIds, altIds)
    requires conseq !! altIds !! {alt, join, target} && alt != join && join != target && alt != target
    ensures var ids := conseq + altIds + {alt, join, target};
            Uses(CondTrace(kind, alt, join, target, conseqCode, altCode), ids, ids)
  {
    var arm, altArm := Arm(target, conseqCode, join), Arm(alt, altCode, join);
    UsesArm(target, conseqCode, conseq, join);
    UsesArm(alt, altCode, altIds, join);
    UsesMark(join);
    UsesConcat(altArm, {alt} + altIds, {join} + altIds, [Mark(join)], {join}, {});
    UsesConcat(arm, {target} + conseq, {join} + conseq,
               altArm + [Mark(join)], {alt} + altIds + {join}, {join} + altIds + {});
    UsesJump(kind, alt);
    UsesConcat(JumpTo(kind, alt), {}, {alt}, arm + (altArm + [Mark(join)]),
               {target} + conseq + ({alt} + altIds + {join}), {join} + conseq + ({join} + altIds + {}));
    assert {} + ({target} + conseq + ({alt} + altIds + {join})) == conseq + altIds + {alt, join, target};
  }

  lemma {:induction false} UsesVal(native: uword, v: Val, id: nat)
    ensures Uses(TraceVal(native, v, id), Ids(id, id + BlocksVal(v)), Ids(id, id + BlocksVal(v)))
    decreases v, 1, 0
  {
    hide Uses, Ids;
    match v
    case Lit(value, address) => UsesOp(PushOf(value, address), id);
    case Local(i, _) => UsesOp(LoadLocal(i), id);
    case Named(_, value, address) => UsesOp(PushOf(value, address), id);
    case Bin(op, l, r) =>
      UsesVal(native, l, id);
      UsesVal(native, r, id + BlocksVal(l));
      UsesSequence(TraceVal(native, l, id), id, id + BlocksVal(l), TraceVal(native, r, id + BlocksVal(l)),
          id + BlocksVal(v));
      UsesThen(TraceVal(native, l, id) + TraceVal(native, r, id + BlocksVal(l)), id, id + BlocksVal(v), Binary(op));
    case Un(op, operand) =>
      UsesVal(native, operand, id);
      UsesThen(TraceVal(native, operand, id), id, id + BlocksVal(v), Unary(op));
    case List(children, address) =>
      if IsConstant(v) {
        UsesOp(PushOf(Folded(v), address), id);
      } else {
        UsesChildren(native, v, |children|, id);
        UsesThen(TraceChildren(native, v, |children|, id), id, id + BlocksVal(v),
            InvokeNative(native, Count(|children|)));
      }
    case Call(func, args) =>
      UsesArgs(native, v, |args|, id);
      UsesThen(TraceArgs(native, v, |args|, id), id, id + BlocksVal(v), Invoke(func, Count(|args|)));
  }

  lemma UsesOp(i: Instr, id: nat)
    ensures Uses([Op(i)], Ids(id, id), Ids(id, id))
  {
    UsesNothing([Op(i)]);
    assert Ids(id, id) == {};
  }

  lemma UsesNone(id: nat)
    ensures Uses([], Ids(id, id), Ids(id, id))
  {
    UsesNothing([]);
    assert Ids(id, id) == {};
  }

  lemma UsesSequence(a: Trace, lo: nat, mid: nat, b: Trace, hi: nat)
    requires lo <= mid <= hi && Uses(a, Ids(lo, mid), Ids(lo, mid)) && Uses(b, Ids(mid, hi), Ids(mid, hi))
    ensures Uses(a + b, Ids(lo, hi), Ids(lo, hi))
  {
    UsesConcat(a, Ids(lo, mid), Ids(lo, mid), b, Ids(mid, hi), Ids(mid, hi));
    assert Ids(lo, mid) + Ids(mid, hi) == Ids(lo, hi);
  }

  lemma UsesThen(a: Trace, lo: nat, hi: nat, i: Instr)
    requires lo <= hi && Uses(a, Ids(lo, hi), Ids(lo, hi))
    ensures Uses(a + [Op(i)], Ids(lo, hi), Ids(lo, hi))
  {
    UsesOp(i, hi);
    UsesSequence(a, lo, hi, [Op(i)], hi);
  }

  lemma {:induction false} UsesChildren(native: uword, v: Val, n: nat, id: nat)
    requires v.List? && n <= |v.children|
    ensures Uses(TraceChildren(native, v, n, id), Ids(id, id + BlocksChildren(v, n)),
        Ids(id, id + BlocksChildren(v, n)))
    decreases v, 0, n
  {
    hide Uses, Ids;
    if n == 0 {
      UsesNone(id);
    } else {
      var mid := id + BlocksChildren(v, n - 1);
      UsesChildren(native, v, n - 1, id);
      UsesVal(native, v.children[n - 1], mid);
      UsesSequence(TraceChildren(native, v, n - 1, id), id, mid, TraceVal(native, v.children[n - 1], mid),
          id + BlocksChildren(v, n));
    }
  }

  lemma {:induction false} UsesArgs(native: uword, v: Val, n: nat, id: nat)
    requires v.Call? && n <= |v.args|
    ensures Uses(TraceArgs(native, v, n, id), Ids(id, id + BlocksArgs(v, n)), Ids(id, id + BlocksArgs(v, n)))
    decreases v, 0, n
  {
    hide Uses, Ids;
    if n == 0 {
      UsesNone(id);
    } else {
      var mid := id + BlocksArgs(v, n - 1);
      UsesArgs(native, v, n - 1, id);
      UsesCtl(native, v.args[n - 1], mid);
      UsesSequence(TraceArgs(native, v, n - 1, id), id, mid, TraceCtl(native, v.args[n - 1], mid),
          id + BlocksArgs(v, n));
    }
  }

  lemma {:induction false} UsesTest(native: uword, c: Ctl, id: nat)
    ensures Uses(TraceTest(native, c, id), Ids(id, id + BlocksCtl(c)), Ids(id, id + BlocksCtl(c)))
    decreases c, 2, 0
  {
    hide Uses, Ids;
    if IsFused(c) {
      var mid := id + BlocksVal(c.v.left);
      assert BlocksCtl(c) == BlocksVal(c.v) == BlocksVal(c.v.left) + BlocksVal(c.v.right);
      UsesVal(native, c.v.left, id);
      UsesVal(native, c.v.right, mid);
      UsesSequence(TraceVal(native, c.v.left, id), id, mid, TraceVal(native, c.v.right, mid), id + BlocksCtl(c));
    } else {
      UsesCtl(native, c, id);
    }
  }

  lemma {:induction false} UsesCtl(native: uword, c: Ctl, id: nat)
    ensures Uses(TraceCtl(native, c, id), Ids(id, id + BlocksCtl(c)), Ids(id, id + BlocksCtl(c)))
    decreases c, 1, 0
  {
    hide Uses, Ids, CondTrace;
    match c
    case Just(v) => UsesVal(native, v, id);
    case Cond(test, conseq, alt) =>
      var idTest := id + 3 + BlocksCtl(conseq);
      var idAlt := idTest + BlocksCtl(test);
      var a, b := TraceCtl(native, conseq, id + 3), TraceCtl(native, alt, idAlt);
      UsesTest(native, test, idTest);
      UsesCtl(native, conseq, id + 3);
      UsesCtl(native, alt, idAlt);
      UsesWhole(TraceTest(native, test, idTest), BranchKind(test), id, idTest, idAlt, id + BlocksCtl(c), a, b);
  }

  /** The parts of a `cond` put together, the ids of its own blocks coming before those of its parts. */
  lemma UsesWhole(test: Trace, kind: JumpKind, id: nat, idTest: nat, idAlt: nat, end: nat, conseqCode: Trace,
      altCode: Trace)
    requires id + 3 <= idTest <= idAlt <= end
    requires Uses(conseqCode, Ids(id + 3, idTest), Ids(id + 3, idTest))
    requires Uses(test, Ids(idTest, idAlt), Ids(idTest, idAlt))
    requires Uses(altCode, Ids(idAlt, end), Ids(idAlt, end))
    ensures Uses(test + CondTrace(kind, id, id + 1, id + 2, conseqCode, altCode), Ids(id, end), Ids(id, end))
  {
    hide Uses, Ids, CondTrace;
    var conseqIds, testIds, altIds := Ids(id + 3, idTest), Ids(idTest, idAlt), Ids(idAlt, end);
    UsesCond(kind, id, id + 1, id + 2, conseqCode, conseqIds, altCode, altIds);
    var condIds := conseqIds + altIds + {id, id + 1, id + 2};
    UsesConcat(test, testIds, testIds, CondTrace(kind, id, id + 1, id + 2, conseqCode, altCode), condIds, condIds);
    CondIds(id, idTest, idAlt, end);
  }

  lemma CondIds(id: nat, idTest: nat, idAlt: nat, end: nat)
    requires id + 3 <= idTest <= idAlt <= end
    ensures Ids(idTest, idAlt) + (Ids(id + 3, idTest) + Ids(idAlt, end) + {id, id + 1, id + 2}) == Ids(id, end)
  {
  }

  lemma {:induction false} UsesStmts(native: uword, body: seq<Stmt>, n: nat)
    requires n <= |body|
    ensures var ids := Ids(FIRST_BLOCK, FIRST_BLOCK + BlocksStmts(body, n)); Uses(TraceStmts(native, body, n), ids, ids)
  {
    hide Uses, Ids;
    if n == 0 {
      UsesNone(FIRST_BLOCK);
    } else {
      var mid := FIRST_BLOCK + BlocksStmts(body, n - 1);
      var s := body[n - 1];
      UsesStmts(native, body, n - 1);
      match s {
        case Do(c) => UsesCtl(native, c, mid);
        case Set(i, v) =>
          UsesVal(native, v, mid);
          UsesThen(TraceVal(native, v, mid), mid, mid + BlocksStmt(s), StoreLocal(i));
      }
      UsesSequence(TraceStmts(native, body, n - 1), FIRST_BLOCK, mid, TraceStmt(native, s, mid), mid + BlocksStmt(s));
    }
  }

  lemma NoIds(id: nat)
    ensures Ids(id, id) == {}
  {
  }

  lemma UsesReturn(last: Stmt)
    ensures Uses(TraceReturn(last), {}, {})
  {
    UsesNothing(TraceReturn(last));
  }

  /**
    In the code of a lambda every block of every `cond` is bound exactly once,
    only such blocks are jumped to, and each jump comes before the block it goes
    to.
   */
  lemma UsesBody(native: uword, body: seq<Stmt>)
    requires body != []
    ensures
      var ids := Ids(FIRST_BLOCK, FIRST_BLOCK + BlocksStmts(body, |body|));
      Uses(TraceBody(native, body), ids, ids)
  {
    hide Uses, Ids, TraceStmts, TraceReturn, BlocksStmts;
    var hi := FIRST_BLOCK + BlocksStmts(body, |body|);
    UsesStmts(native, body, |body|);
    UsesReturn(body[|body| - 1]);
    NoIds(hi);
    UsesSequence(TraceStmts(native, body, |body|), FIRST_BLOCK, hi, TraceReturn(body[|body| - 1]), hi);
  }

  /** The one-pass bytes of a lambda are those computed from the final table of its blocks. */
  lemma CodeIsTwoPass(native: uword, body: seq<Stmt>)
    requires body != []
    ensures CodeOf(native, body) == TwoPass(TraceBody(native, body), 0, Marks(TraceBody(native, body)))
  {
    UsesBody(native, body);
    BackPatchingIsTwoPass(TraceBody(native, body));
  }
}
