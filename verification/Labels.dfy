/**
  What binding a label and jumping to it do to the bytes of the code.
 */
module Labels {
  import opened Sequences
  import opened Words
  import opened Values
  import opened Bytecode
  import opened Layout
  import opened Emission
  import opened Assembler
  import opened Placement

  /** The list threaded through the code holds every jump to an unbound label, and nothing else. */
  lemma {:induction false} PendingIsAllLinks(items: Trace, id: nat)
    requires id !in Marks(items)
    ensures forall p :: p in Pending(items, id) <==> p in Links(items) && Links(items)[p] == id
  {
    if items != [] {
      PendingIsAllLinks(Front(items), id);
      LinksInside(Front(items));
    }
  }

  /** Bytes outside the jump words do not depend on them. */
  lemma {:induction false} FlattenOutside(items: Trace, w: map<nat, int>, w': map<nat, int>, k: nat)
    requires k < Size(items)
    requires forall p :: p in Links(items) && p <= k < p + WORD_SIZE ==> p in w && p in w' && w[p] == w'[p]
    ensures Flatten(items, w)[k] == Flatten(items, w')[k]
  {
    var init := Front(items);
    if k < Size(init) {
      LinksInside(init);
      FlattenOutside(init, w, w', k);
    }
  }

  lemma AssembledIs(items: Trace)
    ensures Assembled(items) == Flatten(items, Stored(items))
  {
  }

  /** No jump word of the label covers the byte at `k`. */
  ghost predicate OutsideLinks(items: Trace, id: nat, k: nat) {
    forall p :: p in Links(items) && Links(items)[p] == id ==> !(p <= k < p + WORD_SIZE)
  }

  /**
    Binding a label changes exactly the words of the jumps that wait for it: each
    then holds the distance from its opcode to the place of binding, and every
    other byte stays as it was.
   */
  lemma BindEffect(items: Trace, id: nat)
    requires id !in Marks(items)
    ensures
      var before, after := Assembled(items), Assembled(items + [Mark(id)]);
      && |after| == |before| == Size(items)
      && (forall p :: p in Links(items) && Links(items)[p] == id ==>
            && 0 < p + WORD_SIZE <= |after|
            && after[p..p + WORD_SIZE] == EncodeWord(Size(items) - (p - 1)))
      && forall k :: 0 <= k < |after| && OutsideLinks(items, id, k) ==> after[k] == before[k]
  {
    hide Flatten, Pending, Links, Assembled, EncodeWord;
    var w, pend := Stored(items), Pending(items, id);
    var w' := Patch(w, pend, Size(items));
    AssembledIs(items);
    AssembledMark(items, id);
    PendingIsAllLinks(items, id);
    forall p | p in Links(items) && Links(items)[p] == id
      ensures 0 < p + WORD_SIZE <= Size(items)
      ensures Flatten(items, w')[p..p + WORD_SIZE] == EncodeWord(Size(items) - (p - 1))
    {
      FlattenWordAt(items, w', p);
      assert Offset(Size(items), p) == Size(items) - (p - 1);
    }
    forall k | 0 <= k < Size(items) && OutsideLinks(items, id, k)
      ensures Flatten(items, w')[k] == Flatten(items, w)[k]
    {
      FlattenOutside(items, w', w, k);
    }
  }

  /** A label that is bound once has the same position in any longer trace. */
  lemma {:induction false} MarkKept(items: Trace, rest: Trace, id: nat)
    requires MarkedOnce(items + rest) && id in Marks(items)
    ensures id in Marks(items + rest) && Marks(items + rest)[id] == Marks(items)[id]
  {
    if rest == [] {
      assert items + rest == items;
    } else {
      var whole := items + rest;
      assert Front(whole) == items + Front(rest);
      assert forall i :: 0 <= i < |whole| - 1 ==> Front(whole)[i] == whole[i];
      MarkKept(items, Front(rest), id);
      MarksAreMarkSet(Front(whole));
      if Back(whole).Mark? {
        assert id in MarkSet(Front(whole));
        var i :| 0 <= i < |Front(whole)| && Front(whole)[i].Mark? && Front(whole)[i].id == id;
        assert whole[i].id != whole[|whole| - 1].id;
      }
    }
  }

  /** Where the jump at the end of `items` lands in the finished code. */
  function Landing(code: seq<byte>, at: nat, kind: JumpKind): Option<int> {
    var f := Fetch(code, at);
    if f.Some? && f.value.instr.Jump? && f.value.instr.kind == kind then Some(at + f.value.instr.offset) else None
  }

  lemma WholePlaced(items: Trace)
    requires MarkedOnce(items) && LinkSet(items) <= MarkSet(items)
    ensures Placed(Assembled(items), 0, items, 0, Marks(items)) && |Assembled(items)| == Size(items)
  {
    BackPatchingIsTwoPass(items);
    AnchoredInMarks(items);
  }

  /** The opcode followed by a reference to a label lands on the label, whether it is bound before or after. */
  lemma EmitLabelLands(items: Trace, kind: JumpKind, id: nat, rest: Trace)
    requires var t := items + JumpTo(kind, id) + rest;
             MarkedOnce(t) && LinkSet(t) <= MarkSet(t) && Size(t) < TWO_TO_63
    ensures var t := items + JumpTo(kind, id) + rest;
            id in Marks(t) && Landing(Assembled(t), Size(items), kind) == Some(Marks(t)[id])
  {
    hide TwoPass, Fetch, Anchored;
    var t := items + JumpTo(kind, id) + rest;
    var code, marks := Assembled(t), Marks(t);
    WholePlaced(t);
    MarksAreMarkSet(t);
    assert t[|items| + 1] == Link(id);
    assert id in LinkSet(t);
    MarksInside(t);
    SizeConcat(items, JumpTo(kind, id));
    SizeConcat(items + JumpTo(kind, id), rest);
    PlacedSplit(code, 0, items + JumpTo(kind, id), rest, 0, marks);
    PlacedSplit(code, 0, items, JumpTo(kind, id), 0, marks);
    PlacedJump(code, 0, kind, id, Size(items), marks);
  }

  lemma {:induction false} MarksInside(items: Trace)
    ensures forall id :: id in Marks(items) ==> Marks(items)[id] <= Size(items)
  {
    if items != [] { MarksInside(Front(items)); }
  }

  /** The rest of the code binds what it jumps to, no label twice. */
  ghost predicate Completes(items: Trace, rest: Trace) {
    MarkedOnce(items + rest) && LinkSet(items + rest) <= MarkSet(items + rest) && Size(items + rest) < TWO_TO_63
  }

  /**
    A jump to a label that is already bound lands one byte after the label: the
    distance is taken before the opcode is written.
   */
  lemma BoundJumpLands(items: Trace, kind: JumpKind, id: nat, jumped: Trace, rest: Trace)
    requires id in Marks(items) && AfterJump(items, JumpCode(kind), id) == Done(jumped) && Completes(jumped, rest)
    ensures
      var t := jumped + rest;
      id in Marks(t) && Landing(Assembled(t), Size(items), kind) == Some(Marks(t)[id] + 1)
  {
    hide TwoPass, Fetch, Anchored, Placed, Landing, Assembled, Marks, Size, MarkedOnce;
    var w := Offset(Marks(items)[id], Size(items));
    var jump := [Code([JumpCode(kind)]), Code(EncodeWord(w))];
    var t := jumped + rest;
    var code, marks := Assembled(t), Marks(t);
    WholePlaced(t);
    assert items + [Code([JumpCode(kind)])] + [Code(EncodeWord(w))] == items + jump;
    assert t == items + jump + rest == items + (jump + rest);
    MarkKept(items, jump + rest, id);
    MarksInside(items);
    SizeConcat(items, jump);
    SizeConcat(items + jump, rest);
    PlacedSplit(code, 0, items + jump, rest, 0, marks);
    PlacedSplit(code, 0, items, jump, 0, marks);
    PlacedBytes(code, kind, w, Size(items), marks);
  }

  lemma PlacedBytes(code: seq<byte>, kind: JumpKind, w: int, base: nat, marks: map<nat, nat>)
    requires -TWO_TO_63 <= w < TWO_TO_63
    requires Placed(code, 0, [Code([JumpCode(kind)]), Code(EncodeWord(w))], base, marks)
    ensures Landing(code, base, kind) == Some(base + w)
  {
    hide Fetch, EncodeWord, Encode, TwoPass, Anchored;
    var items := [Code([JumpCode(kind)]), Code(EncodeWord(w))];
    TwoItems(Code([JumpCode(kind)]), Code(EncodeWord(w)), base, marks);
    EncodedJump(kind, w);
    FetchEncoded(code, base, Jump(kind, w));
  }

  /**
    `Jump` fails its assertion exactly when the label is bound at the very place
    of the jump. Otherwise, whatever is emitted before and after it, the jump
    lands on its label if and only if the label is not bound yet when the jump is
    emitted, and one byte after the label if it is.
   */
  lemma JumpLandsIff(items: Trace, kind: JumpKind, id: nat, rest: Trace)
    ensures AfterJump(items, JumpCode(kind), id) == Crash <==> id in Marks(items) && Marks(items)[id] == Size(items)
    ensures
      var r := AfterJump(items, JumpCode(kind), id);
      r.Done? && Completes(r.value, rest) ==>
        var t := r.value + rest;
        && id in Marks(t)
        && Landing(Assembled(t), Size(items), kind) ==
             Some(if id in Marks(items) then Marks(t)[id] + 1 else Marks(t)[id])
  {
    MarksInside(items);
    var r := AfterJump(items, JumpCode(kind), id);
    if r.Done? && Completes(r.value, rest) {
      if id in Marks(items) {
        BoundJumpLands(items, kind, id, r.value, rest);
      } else {
        assert items + [Code([JumpCode(kind)])] + [Link(id)] == items + JumpTo(kind, id);
        EmitLabelLands(items, kind, id, rest);
      }
    }
  }

  /** A jump back to the start of the code: it is taken to byte 1. */
  lemma BackwardJumpMisses()
    ensures
      var r := AfterJump([Mark(0), Op(Nop)], OP_JUMP, 0);
      r.Done? && Marks(r.value) == map[0 := 0] && Landing(Assembled(r.value), 1, Always) == Some(1)
  {
    hide Landing, Assembled;
    var items := [Mark(0), Op(Nop)];
    assert Front(items) == [Mark(0)] && Front([Mark(0)]) == [];
    assert Marks(items) == map[0 := 0] && Size(items) == 1;
    var t := AfterJump(items, OP_JUMP, 0).value;
    var jump := [Code([OP_JUMP]), Code(EncodeWord(0))];
    assert t == items + jump;
    SizeConcat(items, jump);
    assert Front(jump) == [Code([OP_JUMP])] && Front(Front(jump)) == [];
    assert LinkSet(t) == {};
    assert t + [] == t;
    BoundJumpLands(items, Always, 0, t, []);
    assert Front(t) == items + [Code([OP_JUMP])] && Front(Front(t)) == items;
  }
}
