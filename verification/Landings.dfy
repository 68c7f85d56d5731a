/**
  Every jump in the code of a lambda lands on the start of an instruction of that
  code, further on than the jump itself.
 */
module Landings {
  import opened Sequences
  import opened Words
  import opened Bytecode
  import opened Layout
  import opened Source
  import opened Emission
  import opened Blocks
  import opened Placement
  import opened Labels

  /** Decoding from `from` arrives at `to`. */
  ghost predicate Decodes(code: seq<byte>, from: nat, to: nat)
    decreases |code| - from
  {
    from == to || (Fetch(code, from).Some? && Decodes(code, Fetch(code, from).value.next, to))
  }

  lemma {:induction false} DecodesThen(code: seq<byte>, a: nat, b: nat, c: nat)
    requires Decodes(code, a, b) && Decodes(code, b, c)
    ensures Decodes(code, a, c)
    decreases |code| - a
  {
    hide Fetch;
    if a != b {
      DecodesThen(code, Fetch(code, a).value.next, b, c);
    }
  }

  predicate IsJumpCode(item: Item) {
    item.Code? && exists k :: item == Code([JumpCode(k)])
  }

  /** The trace is a sequence of whole instructions: a jump word follows its opcode and nothing else comes in bytes. */
  ghost predicate Whole(items: Trace) {
    items == [] ||
    (match Back(items)
     case Op(i) => !i.Jump? && Whole(Front(items))
     case Mark(_) => Whole(Front(items))
     case Code(_) => false
     case Link(_) => |items| >= 2 && IsJumpCode(Back(Front(items))) && Whole(Front(Front(items))))
  }

  lemma {:induction false} WholeConcat(a: Trace, b: Trace)
    requires Whole(a) && Whole(b)
    ensures Whole(a + b)
    decreases |b|
  {
    hide IsJumpCode;
    if b == [] {
      assert a + b == a;
    } else {
      InitConcat(a, b);
      if Back(b).Link? {
        InitConcat(a, Front(b));
        WholeConcat(a, Front(Front(b)));
      } else {
        WholeConcat(a, Front(b));
      }
    }
  }

  lemma InitConcat(a: Trace, b: Trace)
    requires b != []
    ensures a + b != [] && Front(a + b) == a + Front(b) && Back(a + b) == Back(b)
  {
  }

  /** A whole trace cut before anything but a jump word is whole. */
  lemma {:induction false} WholePrefix(items: Trace, n: nat)
    requires Whole(items) && n <= |items| && (n < |items| ==> !items[n].Link?)
    ensures Whole(items[..n])
    decreases |items|
  {
    if n == |items| {
      assert items[..n] == items;
    } else {
      var init := Front(items);
      if Back(items).Link? {
        assert init[..|init| - 1] == Front(init);
        assert items[..n] == Front(init)[..n];
        WholePrefix(Front(init), n);
      } else {
        assert items[..n] == init[..n];
        WholePrefix(init, n);
      }
    }
  }

  lemma WholeOps(items: Trace)
    requires forall i :: 0 <= i < |items| ==> items[i].Op? && !items[i].instr.Jump?
    ensures Whole(items)
  {
    if items != [] {
      WholeOps(Front(items));
    }
  }

  lemma WholeJump(kind: JumpKind, id: nat)
    ensures Whole(JumpTo(kind, id))
  {
    assert Front(Front(JumpTo(kind, id))) == [];
    assert IsJumpCode(Code([JumpCode(kind)]));
  }

  lemma WholeMark(id: nat)
    ensures Whole([Mark(id)])
  {
    assert Front([Mark(id)]) == [];
  }

  /** Placed whole traces decode from their first byte to their last. */
  lemma {:induction false} WholeDecodes(code: seq<byte>, items: Trace, marks: map<nat, nat>)
    requires Whole(items) && Placed(code, 0, items, 0, marks) && LinkSet(items) <= marks.Keys
    requires forall id :: id in marks ==> marks[id] < TWO_TO_63
    requires Size(items) < TWO_TO_63
    ensures Decodes(code, 0, Size(items))
    decreases |items|
  {
    hide Fetch, Placed, Size;
    if items == [] {
      assert Size(items) == 0 by { SizeOfNone(); }
    } else {
      match Back(items)
      case Link(id) =>
        var before, kind := Front(Front(items)), KindOf(Back(Front(items)));
        assert items == before + JumpTo(kind, id);
        PlacedSplit(code, 0, before, JumpTo(kind, id), 0, marks);
        ConcatSets(before, JumpTo(kind, id));
        assert JumpTo(kind, id)[1] == Link(id);
        assert id in LinkSet(JumpTo(kind, id));
        PlacedJump(code, 0, kind, id, Size(before), marks);
        WholeDecodes(code, before, marks);
        DecodesThen(code, 0, Size(before), Size(items));
      case Op(i) =>
        var before := Front(items);
        assert items == before + [Op(i)];
        PlacedSplit(code, 0, before, [Op(i)], 0, marks);
        ConcatSets(before, [Op(i)]);
        PlacedOp(code, 0, i, Size(before), marks);
        WholeDecodes(code, before, marks);
        DecodesThen(code, 0, Size(before), Size(items));
      case Mark(id) =>
        var before := Front(items);
        assert items == before + [Mark(id)];
        PlacedSplit(code, 0, before, [Mark(id)], 0, marks);
        ConcatSets(before, [Mark(id)]);
        PlacedMark(code, 0, id, Size(before), marks);
        WholeDecodes(code, before, marks);
    }
  }

  lemma SizeOfNone()
    ensures Size([]) == 0
  {
  }

  function KindOf(item: Item): (k: JumpKind)
    requires IsJumpCode(item)
    ensures item == Code([JumpCode(k)])
  {
    JumpOf(item.bytes[0])
  }

  // Compiled code is whole.

  lemma {:induction false} WholeVal(native: uword, v: Val, id: nat)
    ensures Whole(TraceVal(native, v, id))
    decreases v, 1, 0
  {
    hide Whole;
    match v
    case Lit(value, address) => WholeOps([Op(PushOf(value, address))]);
    case Local(i, _) => WholeOps([Op(LoadLocal(i))]);
    case Named(_, value, address) => WholeOps([Op(PushOf(value, address))]);
    case Bin(op, l, r) =>
      WholeVal(native, l, id);
      WholeVal(native, r, id + BlocksVal(l));
      WholeConcat(TraceVal(native, l, id), TraceVal(native, r, id + BlocksVal(l)));
      WholeThen(TraceVal(native, l, id) + TraceVal(native, r, id + BlocksVal(l)), Binary(op));
    case Un(op, operand) =>
      WholeVal(native, operand, id);
      WholeThen(TraceVal(native, operand, id), Unary(op));
    case List(children, address) =>
      if IsConstant(v) {
        WholeOps([Op(PushOf(Folded(v), address))]);
      } else {
        WholeChildren(native, v, |children|, id);
        WholeThen(TraceChildren(native, v, |children|, id), InvokeNative(native, Count(|children|)));
      }
    case Call(func, args) =>
      WholeArgs(native, v, |args|, id);
      WholeThen(TraceArgs(native, v, |args|, id), Invoke(func, Count(|args|)));
  }

  lemma WholeThen(items: Trace, i: Instr)
    requires Whole(items) && !i.Jump?
    ensures Whole(items + [Op(i)])
  {
    WholeOps([Op(i)]);
    WholeConcat(items, [Op(i)]);
  }

  lemma {:induction false} WholeChildren(native: uword, v: Val, n: nat, id: nat)
    requires v.List? && n <= |v.children|
    ensures Whole(TraceChildren(native, v, n, id))
    decreases v, 0, n
  {
    if n == 0 {
      WholeOps([]);
    } else {
      hide Whole;
      WholeChildren(native, v, n - 1, id);
      WholeVal(native, v.children[n - 1], id + BlocksChildren(v, n - 1));
      WholeConcat(TraceChildren(native, v, n - 1, id),
          TraceVal(native, v.children[n - 1], id + BlocksChildren(v, n - 1)));
    }
  }

  lemma {:induction false} WholeArgs(native: uword, v: Val, n: nat, id: nat)
    requires v.Call? && n <= |v.args|
    ensures Whole(TraceArgs(native, v, n, id))
    decreases v, 0, n
  {
    if n == 0 {
      WholeOps([]);
    } else {
      hide Whole;
      WholeArgs(native, v, n - 1, id);
      WholeCtl(native, v.args[n - 1], id + BlocksArgs(v, n - 1));
      WholeConcat(TraceArgs(native, v, n - 1, id), TraceCtl(native, v.args[n - 1], id + BlocksArgs(v, n - 1)));
    }
  }

  lemma {:induction false} WholeTest(native: uword, c: Ctl, id: nat)
    ensures Whole(TraceTest(native, c, id))
    decreases c, 2, 0
  {
    hide Whole;
    if IsFused(c) {
      WholeVal(native, c.v.left, id);
      WholeVal(native, c.v.right, id + BlocksVal(c.v.left));
      WholeConcat(TraceVal(native, c.v.left, id), TraceVal(native, c.v.right, id + BlocksVal(c.v.left)));
    } else {
      WholeCtl(native, c, id);
    }
  }

  lemma WholeArm(block: nat, code: Trace, join: nat)
    requires Whole(code)
    ensures Whole(Arm(block, code, join))
  {
    hide Whole;
    WholeMark(block);
    WholeJump(Always, join);
    WholeConcat(code, JumpTo(Always, join));
    WholeConcat([Mark(block)], code + JumpTo(Always, join));
  }

  lemma {:induction false} WholeCtl(native: uword, c: Ctl, id: nat)
    ensures Whole(TraceCtl(native, c, id))
    decreases c, 1, 0
  {
    hide Whole, Arm, JumpTo;
    match c
    case Just(v) => WholeVal(native, v, id);
    case Cond(test, conseq, alt) =>
      var idTest := id + 3 + BlocksCtl(conseq);
      var a, b := TraceCtl(native, conseq, id + 3), TraceCtl(native, alt, idTest + BlocksCtl(test));
      WholeTest(native, test, idTest);
      WholeCtl(native, conseq, id + 3);
      WholeCtl(native, alt, idTest + BlocksCtl(test));
      WholeArm(id + 2, a, id + 1);
      WholeArm(id, b, id + 1);
      WholeMark(id + 1);
      WholeJump(BranchKind(test), id);
      WholeConcat(Arm(id, b, id + 1), [Mark(id + 1)]);
      WholeConcat(Arm(id + 2, a, id + 1), Arm(id, b, id + 1) + [Mark(id + 1)]);
      WholeConcat(JumpTo(BranchKind(test), id), Arm(id + 2, a, id + 1) + (Arm(id, b, id + 1) + [Mark(id + 1)]));
      WholeConcat(TraceTest(native, test, idTest), CondTrace(BranchKind(test), id, id + 1, id + 2, a, b));
  }

  lemma WholeStmt(native: uword, s: Stmt, id: nat)
    ensures Whole(TraceStmt(native, s, id))
  {
    hide Whole;
    match s
    case Do(c) => WholeCtl(native, c, id);
    case Set(i, v) =>
      WholeVal(native, v, id);
      WholeThen(TraceVal(native, v, id), StoreLocal(i));
  }

  lemma {:induction false} WholeStmts(native: uword, body: seq<Stmt>, n: nat)
    requires n <= |body|
    ensures Whole(TraceStmts(native, body, n))
  {
    hide Whole, TraceStmt, BlocksStmts;
    if n == 0 {
      WholeOps(TraceStmts(native, body, 0));
    } else {
      var s, id := body[n - 1], FIRST_BLOCK + BlocksStmts(body, n - 1);
      WholeStmts(native, body, n - 1);
      WholeStmt(native, s, id);
      WholeConcat(TraceStmts(native, body, n - 1), TraceStmt(native, s, id));
    }
  }

  lemma WholeBody(native: uword, body: seq<Stmt>)
    requires body != []
    ensures Whole(TraceBody(native, body))
  {
    hide Whole;
    WholeStmts(native, body, |body|);
    WholeOps(TraceReturn(body[|body| - 1]));
    WholeConcat(TraceStmts(native, body, |body|), TraceReturn(body[|body| - 1]));
  }

  /** An instruction starts at `at`: decoding the code from its first byte arrives there, before the end. */
  ghost predicate IsStart(code: seq<byte>, at: nat) {
    at < |code| && Decodes(code, 0, at) && Fetch(code, at).Some?
  }

  /** The jump at `at`, taken, arrives at the start of an instruction further on. */
  ghost predicate LandsAhead(code: seq<byte>, at: nat, kind: JumpKind) {
    var target := Landing(code, at, kind);
    target.Some? && at + JUMP_SIZE <= target.value && IsStart(code, target.value)
  }

  /**
    Label resolution in the code of a lambda. The code decodes from its first
    byte to its last, and every jump met on the way lands, further on, on the
    start of an instruction of the code.
   */
  lemma JumpsLand(native: uword, body: seq<Stmt>, at: nat)
    requires body != [] && |CodeOf(native, body)| < TWO_TO_63
    ensures Decodes(CodeOf(native, body), 0, |CodeOf(native, body)|)
    ensures
      var code := CodeOf(native, body);
      IsStart(code, at) && Fetch(code, at).value.instr.Jump? ==> LandsAhead(code, at, Fetch(code, at).value.instr.kind)
  {
    hide Whole, MarkedOnce, ForwardOnly, LinkSet, MarkSet, Marks, Landing, Decodes, TraceBody, Size, Assembled, Fetch;
    var items, code := TraceBody(native, body), CodeOf(native, body);
    BodyFacts(native, body);
    WholePlaced(items);
    CutDecodes(code, items, |items|);
    assert items[..|items|] == items;
    if IsStart(code, at) && Fetch(code, at).value.instr.Jump? {
      assert items[..0] == [];
      SizeOfNone();
      FirstItem(items);
      var n := ItemAt(code, items, 0, at);
      Pieces(items, n);
      JumpLandsIn(code, items, n + 1);
      JumpFetched(code, at, KindOf(items[n]));
    }
  }

  /** The jump whose word is item `i` of the trace is decoded at its own position and lands ahead. */
  lemma JumpLandsIn(code: seq<byte>, items: Trace, i: nat)
    requires Whole(items) && MarkedOnce(items) && ForwardOnly(items) && LinkSet(items) <= MarkSet(items)
    requires code == Assembled(items) && |code| < TWO_TO_63 && i < |items| && items[i].Link? && Back(items).Op?
    ensures 0 < i && IsJumpCode(items[i - 1])
    ensures IsStart(code, Size(items[..i - 1])) && LandsAhead(code, Size(items[..i - 1]), KindOf(items[i - 1]))
  {
    hide Whole, MarkedOnce, ForwardOnly, LinkSet, MarkSet, Marks, Landing, Decodes, Size, Assembled, JumpTo, Fetch;
    WholePlaced(items);
    Pieces(items, i);
    var before, kind, id := items[..i - 1], KindOf(items[i - 1]), items[i].id;
    CutDecodes(code, items, i - 1);
    AroundJump(items, i, kind);
    EmitLabelLands(before, kind, id, items[i + 1..]);
    var j := MarkAfter(items, i);
    CutDecodes(code, items, j);
    JumpBefore(items, i, kind, j);
    CutDecodes(code, items, |items|);
    assert items[..|items|] == items;
    LastOp(items, j);
    DecodesOn(code, 0, Size(items[..j]), |code|);
    DecodesOn(code, 0, Size(before), |code|);
  }

  /** The last instruction comes after any binding. */
  lemma LastOp(items: Trace, j: nat)
    requires j < |items| && items[j].Mark? && Back(items).Op?
    ensures Size(items[..j]) < Size(items)
  {
    assert items == items[..j] + items[j..];
    SizeConcat(items[..j], items[j..]);
  }

  /** Where decoding goes on to a later position an instruction starts. */
  lemma {:induction false} DecodesOn(code: seq<byte>, a: nat, b: nat, c: nat)
    requires Decodes(code, a, b) && Decodes(code, a, c)
    ensures a <= b && a <= c
    ensures b < c ==> Fetch(code, b).Some?
    decreases |code| - a
  {
    hide Fetch;
    if a != b && a != c {
      DecodesOn(code, Fetch(code, a).value.next, b, c);
    } else if a != b {
      DecodesOn(code, Fetch(code, a).value.next, b, b);
    } else if a != c {
      DecodesOn(code, Fetch(code, a).value.next, c, c);
    }
  }

  lemma JumpFetched(code: seq<byte>, at: nat, kind: JumpKind)
    requires Landing(code, at, kind).Some?
    ensures Fetch(code, at).Some? && Fetch(code, at).value.instr.Jump? && Fetch(code, at).value.instr.kind == kind
  {
  }

  lemma FirstItem(items: Trace)
    requires Whole(items) && items != []
    ensures !items[0].Link?
  {
    if items[0].Link? { Pieces(items, 0); }
  }

  /** The pieces of a whole trace: an opcode in bytes and its jump word come together, and no other item is a jump. */
  lemma {:induction false} Pieces(items: Trace, n: nat)
    requires Whole(items) && n < |items|
    ensures items[n].Code? ==> IsJumpCode(items[n]) && n + 1 < |items| && items[n + 1].Link?
    ensures items[n].Link? ==> 0 < n && IsJumpCode(items[n - 1])
    ensures items[n].Op? ==> !items[n].instr.Jump?
    decreases |items|
  {
    var init := Front(items);
    if Back(items).Link? {
      assert Back(init) == items[|items| - 2];
      if n < |items| - 2 {
        assert forall i :: 0 <= i < |items| - 2 ==> Front(init)[i] == items[i];
        Pieces(Front(init), n);
      }
    } else if n < |items| - 1 {
      Pieces(init, n);
    }
  }

  /** A whole trace never has two jump words in a row, nor one after anything but its opcode. */
  lemma NextItem(items: Trace, n: nat)
    requires Whole(items) && n < |items| && (n + 1 < |items| && items[n + 1].Link? ==> !items[n].Code?)
    ensures n + 1 < |items| ==> !items[n + 1].Link?
  {
    if n + 1 < |items| && items[n + 1].Link? { Pieces(items, n + 1); }
  }

  /** What the bytes at a cut before an opcode in bytes are decoded to. */
  lemma JumpStep(code: seq<byte>, items: Trace, n: nat)
    requires Whole(items) && MarkedOnce(items) && LinkSet(items) <= MarkSet(items) && code == Assembled(items)
    requires n < |items| && items[n].Code? && |code| < TWO_TO_63
    ensures IsJumpCode(items[n]) && n + 1 < |items| && items[n + 1].Link?
    ensures
      var f := Fetch(code, Size(items[..n]));
      && f.Some? && f.value.instr.Jump? && f.value.instr.kind == KindOf(items[n])
      && f.value.next == Size(items[..n + 2])
  {
    hide Whole, Placed, MarkedOnce, LinkSet, MarkSet, Marks, Assembled, Size, Fetch, IsJumpCode;
    var marks := Marks(items);
    WholePlaced(items);
    Pieces(items, n);
    var kind, id := KindOf(items[n]), items[n + 1].id;
    var jump, rest := JumpTo(kind, id), items[n + 2..];
    assert items == items[..n] + (jump + rest) && items[..n + 2] == items[..n] + jump;
    PlacedSplit(code, 0, items[..n], jump + rest, 0, marks);
    PlacedSplit(code, 0, jump, rest, Size(items[..n]), marks);
    MarkKnown(items, n + 1);
    PlacedJump(code, 0, kind, id, Size(items[..n]), marks);
    SizeConcat(items[..n], jump);
  }

  /** The same before a binding, which takes no bytes, and before an instruction. */
  lemma Step(code: seq<byte>, items: Trace, n: nat)
    requires Whole(items) && MarkedOnce(items) && LinkSet(items) <= MarkSet(items) && code == Assembled(items)
    requires n < |items| && (items[n].Mark? || items[n].Op?) && |code| < TWO_TO_63
    ensures items[n].Mark? ==> Size(items[..n + 1]) == Size(items[..n])
    ensures
      items[n].Op? ==> Fetch(code, Size(items[..n])) == Some(Fetched(items[n].instr, Size(items[..n + 1])))
  {
    hide Whole, Placed, MarkedOnce, LinkSet, MarkSet, Marks, Assembled, Size, Fetch;
    var marks := Marks(items);
    WholePlaced(items);
    var item, rest := [items[n]], items[n + 1..];
    assert items == items[..n] + (item + rest) && items[..n + 1] == items[..n] + item;
    PlacedSplit(code, 0, items[..n], item + rest, 0, marks);
    PlacedSplit(code, 0, item, rest, Size(items[..n]), marks);
    SizeConcat(items[..n], item);
    if items[n].Op? {
      PlacedOp(code, 0, items[n].instr, Size(items[..n]), marks);
    } else {
      PlacedMark(code, 0, items[n].id, Size(items[..n]), marks);
    }
  }

  lemma MarkKnown(items: Trace, i: nat)
    requires LinkSet(items) <= MarkSet(items) && i < |items| && items[i].Link? && |Assembled(items)| < TWO_TO_63
    ensures items[i].id in Marks(items) && Marks(items)[items[i].id] < TWO_TO_63
  {
    MarksAreMarkSet(items);
    MarksInside(items);
    assert items[i].id in LinkSet(items);
  }

  /** Every start of an instruction that decoding meets is the place of an item. */
  lemma {:induction false} ItemAt(code: seq<byte>, items: Trace, n: nat, at: nat) returns (i: nat)
    requires Whole(items) && MarkedOnce(items) && LinkSet(items) <= MarkSet(items) && code == Assembled(items)
    requires n <= |items| && (n < |items| ==> !items[n].Link?) && |code| < TWO_TO_63
    requires Decodes(code, Size(items[..n]), at) && Fetch(code, at).Some?
    ensures i < |items| && Size(items[..i]) == at
    ensures items[i].Code? || (items[i].Op? && Fetch(code, at).value.instr == items[i].instr)
    decreases |items| - n
  {
    hide Whole, MarkedOnce, LinkSet, MarkSet, Assembled, Size, Fetch, IsJumpCode;
    if n == |items| {
      assert items[..n] == items;
      NothingAtEnd(code);
      WholePlaced(items);
      assert false;
    }
    if items[n].Code? { JumpStep(code, items, n); } else { Step(code, items, n); }
    if items[n].Mark? {
      NextItem(items, n);
      i := ItemAt(code, items, n + 1, at);
    } else if at == Size(items[..n]) {
      i := n;
    } else if items[n].Op? {
      NextItem(items, n);
      i := ItemAt(code, items, n + 1, at);
    } else {
      NextItem(items, n + 1);
      i := ItemAt(code, items, n + 2, at);
    }
  }

  lemma NothingAtEnd(code: seq<byte>)
    ensures Fetch(code, |code|).None?
  {
  }

  lemma AroundJump(items: Trace, i: nat, kind: JumpKind)
    requires 0 < i < |items| && items[i].Link? && items[i - 1] == Code([JumpCode(kind)])
    ensures items == items[..i - 1] + JumpTo(kind, items[i].id) + items[i + 1..]
  {
  }

  /** What comes after a jump lies at least the jump's length further on. */
  lemma JumpBefore(items: Trace, i: nat, kind: JumpKind, j: nat)
    requires 0 < i < j <= |items| && items[i].Link? && items[i - 1] == Code([JumpCode(kind)])
    ensures Size(items[..i - 1]) + JUMP_SIZE <= Size(items[..j])
  {
    hide Size;
    var before, jump := items[..i - 1], JumpTo(kind, items[i].id);
    assert items[..j] == before + jump + items[i + 1..j];
    SizeConcat(before + jump, items[i + 1..j]);
    SizeConcat(before, jump);
    JumpSize(kind, items[i].id);
  }

  lemma JumpSize(kind: JumpKind, id: nat)
    ensures Size(JumpTo(kind, id)) == JUMP_SIZE
  {
    var jump := JumpTo(kind, id);
    assert Front(jump) == [Code([JumpCode(kind)])] && Front(Front(jump)) == [];
    assert Size(Front(jump)) == 1;
  }

  /** What is known of the trace of a body. */
  lemma BodyFacts(native: uword, body: seq<Stmt>)
    requires body != []
    ensures
      var items := TraceBody(native, body);
      && Whole(items) && MarkedOnce(items) && ForwardOnly(items)
           && LinkSet(items) <= MarkSet(items) == Marks(items).Keys
      && items != [] && Back(items).Op? && CodeOf(native, body) == Assembled(items)
  {
    hide Whole;
    UsesBody(native, body);
    WholeBody(native, body);
    MarksAreMarkSet(TraceBody(native, body));
  }

  /** Decoding arrives at every item that is not a jump word. */
  lemma CutDecodes(code: seq<byte>, items: Trace, n: nat)
    requires Whole(items) && MarkedOnce(items) && LinkSet(items) <= MarkSet(items) && code == Assembled(items)
    requires n <= |items| && (n < |items| ==> !items[n].Link?) && |code| < TWO_TO_63
    ensures Decodes(code, 0, Size(items[..n])) && Size(items[..n]) <= |code|
  {
    hide Whole, Decodes, Placed, MarkedOnce, LinkSet, MarkSet, Marks, Assembled, Size;
    WholePrefix(items, n);
    WholePlaced(items);
    assert items == items[..n] + items[n..];
    PlacedSplit(code, 0, items[..n], items[n..], 0, Marks(items));
    ConcatSets(items[..n], items[n..]);
    MarksAreMarkSet(items);
    MarksInside(items);
    WholeDecodes(code, items[..n], Marks(items));
  }

  /** The binding of the label that a jump word refers to. */
  lemma MarkAfter(items: Trace, i: nat) returns (j: nat)
    requires MarkedOnce(items) && ForwardOnly(items) && LinkSet(items) <= MarkSet(items)
    requires i < |items| && items[i].Link?
    ensures i < j < |items| && items[j] == Mark(items[i].id)
    ensures items[i].id in Marks(items) && Marks(items)[items[i].id] == Size(items[..j])
  {
    assert items[i].id in LinkSet(items);
    var k :| 0 <= k < |items| && items[k].Mark? && items[k].id == items[i].id;
    j := k;
    MarkStays(items, j + 1);
  }
}
