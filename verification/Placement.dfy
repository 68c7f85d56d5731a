/**
  Code in memory. A piece of a trace is placed when its bytes, with every jump
  resolved against the label table of the whole code, lie at its offset from the
  start of the code and its labels have the positions the table says.
 */
module Placement {
  import opened Sequences
  import opened Words
  import opened Bytecode
  import opened Layout
  import opened Emission

  /** The labels bound in the trace have the positions of the table, the trace lying at `base`. */
  ghost predicate Anchored(items: Trace, base: nat, marks: map<nat, nat>) {
    items == [] ||
    (Anchored(Front(items), base, marks) &&
     (Back(items).Mark? ==> Back(items).id in marks && marks[Back(items).id] == base + Size(Front(items))))
  }

  lemma {:induction false} TwoPassConcat(a: Trace, b: Trace, base: nat, marks: map<nat, nat>)
    ensures Size(a + b) == Size(a) + Size(b)
    ensures TwoPass(a + b, base, marks) == TwoPass(a, base, marks) + TwoPass(b, base + Size(a), marks)
  {
    hide Resolved, Size, TwoPass;
    SizeConcat(a, b);
    if b == [] {
      assert a + b == a;
      TwoPassOfNone(base + Size(a), marks);
    } else {
      var init, last := Front(b), Back(b);
      assert Front(a + b) == a + init && Back(a + b) == last;
      SizeConcat(a, init);
      TwoPassConcat(a, init, base, marks);
      TwoPassLast(a + b, base, marks);
      TwoPassLast(b, base + Size(a), marks);
    }
  }

  lemma TwoPassOfNone(base: nat, marks: map<nat, nat>)
    ensures TwoPass([], base, marks) == []
  {
  }

  lemma TwoPassLast(items: Trace, base: nat, marks: map<nat, nat>)
    requires items != []
    ensures TwoPass(items, base, marks) ==
        TwoPass(Front(items), base, marks) + Resolved(Back(items), base + Size(Front(items)), marks)
  {
  }

  lemma {:induction false} AnchoredConcat(a: Trace, b: Trace, base: nat, marks: map<nat, nat>)
    ensures Anchored(a + b, base, marks) <==> Anchored(a, base, marks) && Anchored(b, base + Size(a), marks)
  {
    if b == [] {
      assert a + b == a;
    } else {
      SizeConcat(a, Front(b));
      AnchoredConcat(a, Front(b), base, marks);
      assert Front(a + b) == a + Front(b) && Back(a + b) == Back(b);
    }
  }

  /** A trace that binds no label twice is anchored in its own label table. */
  lemma {:induction false} AnchoredInMarks(items: Trace)
    requires MarkedOnce(items)
    ensures Anchored(items, 0, Marks(items))
  {
    AnchoredPrefix(items, |items|);
    assert items[..|items|] == items;
  }

  lemma {:induction false} AnchoredPrefix(items: Trace, n: nat)
    requires MarkedOnce(items) && n <= |items|
    ensures Anchored(items[..n], 0, Marks(items))
  {
    if n > 0 {
      AnchoredPrefix(items, n - 1);
      assert Front(items[..n]) == items[..n - 1];
      MarkStays(items, n);
    }
  }

  /** A label keeps the position of its only binding. */
  lemma {:induction false} MarkStays(items: Trace, n: nat)
    requires MarkedOnce(items) && 0 < n <= |items|
    ensures items[n - 1].Mark? ==>
              items[n - 1].id in Marks(items) && Marks(items)[items[n - 1].id] == Size(items[..n - 1])
    decreases |items|
  {
    var init := Front(items);
    if n == |items| {
      assert init == items[..n - 1];
    } else {
      assert forall i :: 0 <= i < |init| ==> init[i] == items[i];
      assert init[..n - 1] == items[..n - 1];
      MarkStays(init, n);
    }
  }

  ghost predicate Placed(mem: seq<byte>, start: nat, items: Trace, base: nat, marks: map<nat, nat>) {
    CodeAt(mem, start + base, TwoPass(items, base, marks)) && Anchored(items, base, marks)
  }

  lemma PlacedSplit(mem: seq<byte>, start: nat, a: Trace, b: Trace, base: nat, marks: map<nat, nat>)
    requires Placed(mem, start, a + b, base, marks)
    ensures Placed(mem, start, a, base, marks) && Placed(mem, start, b, base + Size(a), marks)
    ensures Size(a + b) == Size(a) + Size(b)
  {
    hide TwoPass, Anchored, Size, CodeAt;
    TwoPassConcat(a, b, base, marks);
    AnchoredConcat(a, b, base, marks);
    CodeAtSplit(mem, start + base, TwoPass(a, base, marks), TwoPass(b, base + Size(a), marks));
  }

  lemma PlacedOp(mem: seq<byte>, start: nat, i: Instr, base: nat, marks: map<nat, nat>)
    requires Placed(mem, start, [Op(i)], base, marks)
    ensures Size([Op(i)]) == |Encode(i)|
    ensures Fetch(mem, start + base) == Some(Fetched(i, start + base + Size([Op(i)])))
  {
    hide Encode, Fetch, TwoPass, Anchored;
    OneItem(Op(i), base, marks);
    FetchEncoded(mem, start + base, i);
  }

  /** A placed jump is fetched with the distance from its opcode to its label. */
  lemma PlacedJump(mem: seq<byte>, start: nat, kind: JumpKind, id: nat, base: nat, marks: map<nat, nat>)
    requires Placed(mem, start, JumpTo(kind, id), base, marks)
    requires id in marks && marks[id] < TWO_TO_63 && base < TWO_TO_63
    ensures Size(JumpTo(kind, id)) == JUMP_SIZE
    ensures Fetch(mem, start + base) == Some(Fetched(Jump(kind, marks[id] - base), start + base + JUMP_SIZE))
  {
    hide Encode, EncodeWord, Fetch, TwoPass, Anchored;
    TwoItems(Code([JumpCode(kind)]), Link(id), base, marks);
    EncodedJump(kind, marks[id] - base);
    FetchEncoded(mem, start + base, Jump(kind, marks[id] - base));
  }

  lemma PlacedMark(mem: seq<byte>, start: nat, id: nat, base: nat, marks: map<nat, nat>)
    requires Placed(mem, start, [Mark(id)], base, marks)
    ensures Size([Mark(id)]) == 0 && id in marks && marks[id] == base && start + base <= |mem|
  {
    assert Front([Mark(id)]) == [];
  }
}
