/**
  The assembler: a fixed buffer of bytes, labels that encode their state in the
  sign of one word, and unresolved jumps threaded as a list through the buffer.

  Every method is proved against `Layout`: after the call the buffer holds
  `Assembled(trace)`, where `trace` records the calls made so far.
 */
module Assembler {
  import opened Sequences
  import opened Words
  import opened Values
  import opened Bytecode
  import opened Layout

  class Label {
    var pos: int
    const id: nat

    constructor (id: nat)
      ensures this.id == id && pos == 0
    {
      this.id := id;
      pos := 0;
    }

    predicate IsBound()
      reads this
    {
      pos < 0
    }

    predicate IsLinked()
      reads this
    {
      pos > 0
    }

    function GetPos(): int
      reads this
    {
      if IsBound() then -pos - WORD_SIZE else pos - WORD_SIZE
    }

    function GetLinkPos(): int
      reads this
    {
      pos - WORD_SIZE
    }

    method BindTo(p: int)
      modifies this
      ensures pos == -p - WORD_SIZE
    {
      pos := -p - WORD_SIZE;
    }

    method LinkTo(p: int)
      modifies this
      ensures pos == p + WORD_SIZE
    {
      pos := p + WORD_SIZE;
    }
  }

  class AssemblerBuffer {
    const bytes: array<byte>
    var current: nat

    ghost predicate Valid()
      reads this
    {
      current <= bytes.Length
    }

    ghost function Contents(): seq<byte>
      requires Valid()
      reads this, bytes
    {
      bytes[..current]
    }

    constructor (size: nat)
      ensures Valid() && fresh(bytes) && bytes.Length == size && current == 0
    {
      bytes := new byte[size](_ => 0);
      current := 0;
    }

    method EmitByte(b: byte)
      requires Valid() && current + 1 <= bytes.Length
      modifies this, bytes
      ensures Valid() && Contents() == old(Contents()) + [b]
    {
      bytes[current] := b;
      current := current + 1;
    }

    method EmitWord(w: int)
      requires Valid() && current + WORD_SIZE <= bytes.Length
      modifies this, bytes
      ensures Valid() && Contents() == old(Contents()) + EncodeWord(w)
    {
      StoreAt(current, w);
      current := current + WORD_SIZE;
    }

    /** Reads the word at `p`; the value as a signed word. */
    method LoadAt(p: nat) returns (w: word)
      requires p + WORD_SIZE <= bytes.Length
      ensures w == DecodeWord(bytes[p..p + WORD_SIZE])
    {
      w := DecodeWord(bytes[p..p + WORD_SIZE]);
    }

    method StoreAt(p: nat, w: int)
      requires p + WORD_SIZE <= bytes.Length
      modifies bytes
      ensures bytes[..] == WithWord(old(bytes[..]), p, w)
    {
      hide EncodeWord;
      var s := EncodeWord(w);
      for i := 0 to WORD_SIZE
        invariant forall k :: 0 <= k < bytes.Length ==> bytes[k] == if p <= k < p + i then s[k - p] else old(bytes[k])
      {
        bytes[p + i] := s[i];
      }
    }
  }

  /** The bytes of `s` with the word at `p` replaced. */
  function WithWord(s: seq<byte>, p: nat, w: int): seq<byte>
    requires p + WORD_SIZE <= |s|
  {
    s[..p] + EncodeWord(w) + s[p + WORD_SIZE..]
  }

  // The bytes of a trace around one jump word.

  lemma {:induction false} FlattenWordAt(items: Trace, w: map<nat, int>, p: nat)
    requires p in Links(items) && p in w
    ensures p + WORD_SIZE <= Size(items)
    ensures Flatten(items, w)[p..p + WORD_SIZE] == EncodeWord(w[p])
  {
    LinksInside(items);
    var init := Front(items);
    LinksInside(init);
    if p in Links(init) {
      FlattenWordAt(init, w, p);
      assert Flatten(items, w)[p..p + WORD_SIZE] == Flatten(init, w)[p..p + WORD_SIZE];
    }
  }

  lemma WithWordPrefix(a: seq<byte>, t: seq<byte>, p: nat, v: int)
    requires p + WORD_SIZE <= |a|
    ensures WithWord(a + t, p, v) == WithWord(a, p, v) + t
  {
    assert (a + t)[..p] == a[..p];
    assert (a + t)[p + WORD_SIZE..] == a[p + WORD_SIZE..] + t;
  }

  lemma WithWordTake(s: seq<byte>, n: nat, p: nat, v: int)
    requires p + WORD_SIZE <= n <= |s|
    ensures WithWord(s, p, v)[..n] == WithWord(s[..n], p, v)
  {
  }

  lemma {:induction false} FlattenUpdate(items: Trace, w: map<nat, int>, p: nat, v: int)
    requires p in Links(items) && p in w
    ensures p + WORD_SIZE <= Size(items)
    ensures Flatten(items, w[p := v]) == WithWord(Flatten(items, w), p, v)
  {
    var init := Front(items);
    var before := Flatten(init, w);
    LinksInside(init);
    var tail := Flatten(items, w)[|before|..];
    assert Flatten(items, w) == before + tail;
    if p in Links(init) {
      FlattenUpdate(init, w, p, v);
      WithWordPrefix(before, tail, p, v);
      assert Flatten(items, w[p := v]) == Flatten(init, w[p := v]) + tail;
    } else {
      assert p == Size(init);
      FlattenAgreeOutside(init, w, p, v);
      assert Flatten(items, w[p := v]) == before + EncodeWord(v);
      assert WithWord(before + tail, p, v) == before + EncodeWord(v);
    }
  }

  lemma {:induction false} FlattenAgreeOutside(items: Trace, w: map<nat, int>, p: nat, v: int)
    requires p !in Links(items)
    ensures Flatten(items, w[p := v]) == Flatten(items, w)
  {
    if items != [] {
      FlattenAgreeOutside(Front(items), w, p, v);
    }
  }

  lemma AssembledSnoc(items: Trace, item: Item)
    requires !item.Mark?
    ensures Assembled(items + [item]) ==
            Assembled(items) + match item
                               case Code(bytes) => bytes
                               case Op(i) => Encode(i)
                               case Link(_) => EncodeWord(Stored(items + [item])[Size(items)])
                               case Mark(_) => []
  {
    var whole := items + [item];
    assert Front(whole) == items;
    LinksInside(items);
    FlattenAgree(items, Stored(whole), Stored(items));
  }

  lemma AssembledMark(items: Trace, id: nat)
    ensures Assembled(items + [Mark(id)]) == Flatten(items, Patch(Stored(items), Pending(items, id), Size(items)))
  {
    assert Front(items + [Mark(id)]) == items;
  }

  lemma SnocFacts(items: Trace, item: Item)
    ensures Size(items + [item]) == Size(items) + ItemSize(item)
    ensures forall id :: (item.Link? || item.Mark? ==> item.id != id) ==>
        LabelWord(items + [item], id) == LabelWord(items, id)
    ensures item.Link? ==> LabelWord(items + [item], item.id) ==
                           if item.id in Marks(items) then LabelWord(items, item.id) else Size(items) + WORD_SIZE
    ensures item.Mark? ==> LabelWord(items + [item], item.id) == -(Size(items) + 1) - WORD_SIZE
  {
    assert Front(items + [item]) == items;
  }

  /** The code bytes when the first `k` pending jumps of the label have been resolved to the code size. */
  function PatchedBytes(items: Trace, id: nat, k: nat): seq<byte>
    requires k <= |Pending(items, id)|
  {
    Flatten(items, PatchedWords(items, id, k))
  }

  function PatchedWords(items: Trace, id: nat, k: nat): map<nat, int>
    requires k <= |Pending(items, id)|
  {
    Patch(Stored(items), Pending(items, id)[..k], Size(items))
  }

  lemma PatchStep(stored: map<nat, int>, pend: seq<nat>, k: nat, target: nat)
    requires k < |pend| && pend[k] in stored && pend[k] !in pend[..k]
    ensures Patch(stored, pend[..k], target)[pend[k]] == stored[pend[k]]
    ensures Patch(stored, pend[..k + 1], target) == Patch(stored, pend[..k], target)[pend[k] := Offset(target, pend[k])]
  {
    assert pend[..k + 1] == pend[..k] + [pend[k]];
  }

  /** The `k`-th pending jump when the binding loop reaches it: its word holds the link to the next one. */
  lemma PendingAt(items: Trace, id: nat, k: nat)
    requires id !in Marks(items) && k < |Pending(items, id)|
    ensures
      var pend := Pending(items, id);
      var p := pend[k];
      && p in Links(items) && p + WORD_SIZE <= Size(items)
      && p in Stored(items) && Stored(items)[p] == LinkedWord(pend[k + 1..])
      && p !in pend[..k]
      && 0 <= LinkedWord(pend[k + 1..]) <= p
  {
    PendingDecreases(items, id);
    LinksInside(items);
    PendingIsThreaded(items, id);
    var pend := Pending(items, id);
    assert k + 1 < |pend| ==> pend[k + 1..][0] == pend[k + 1];
  }

  lemma BindEnds(items: Trace, id: nat)
    ensures PatchedBytes(items, id, 0) == Assembled(items)
    ensures PatchedBytes(items, id, |Pending(items, id)|) == Assembled(items + [Mark(id)])
    ensures id in Marks(items) ==> Pending(items, id) == []
  {
    var pend := Pending(items, id);
    assert pend[..0] == [] && pend[..|pend|] == pend;
    assert Patch(Stored(items), [], Size(items)) == Stored(items);
    AssembledMark(items, id);
    if id in Marks(items) { NoPendingWhenBound(items, id); }
  }

  /** The opcode and operands of an instruction, written one by one, make up its encoding. */
  lemma AsInstruction(items: Trace, i: Instr)
    ensures
      var op := items + [Code([Opcode(i)])];
      var ws := Operands(i);
      var pieces := if |ws| == 0 then op
                    else if |ws| == 1 then op + [Code(EncodeWord(ws[0]))]
                    else op + [Code(EncodeWord(ws[0]))] + [Code(EncodeWord(ws[1]))];
      Assembled(pieces) == Assembled(items + [Op(i)]) && Size(pieces) == Size(items + [Op(i)])
  {
    hide Assembled, Size, LabelWord, Stored, EncodeWord, Opcode;
    var op := items + [Code([Opcode(i)])];
    var ws := Operands(i);
    AssembledSnoc(items, Op(i));
    SnocFacts(items, Op(i));
    AssembledSnoc(items, Code([Opcode(i)]));
    SnocFacts(items, Code([Opcode(i)]));
    assert Encode(i) == [Opcode(i)] + EncodeWords(ws);
    if |ws| > 0 {
      AssembledSnoc(op, Code(EncodeWord(ws[0])));
      SnocFacts(op, Code(EncodeWord(ws[0])));
      assert EncodeWords(ws) == EncodeWord(ws[0]) + EncodeWords(ws[1..]);
      if |ws| > 1 {
        AssembledSnoc(op + [Code(EncodeWord(ws[0]))], Code(EncodeWord(ws[1])));
        SnocFacts(op + [Code(EncodeWord(ws[0]))], Code(EncodeWord(ws[1])));
        assert EncodeWords(ws[1..]) == EncodeWord(ws[1]);
      }
    }
  }

  class Assembler {
    const buffer: AssemblerBuffer
    ghost var trace: Trace

    ghost predicate Valid()
      reads this, buffer, buffer.bytes
    {
      && buffer.Valid()
      && buffer.current == Size(trace)
      && buffer.Contents() == Assembled(trace)
    }

    /** The label's word says how this assembler's code has used the label so far. */
    ghost predicate Tracks(l: Label)
      reads this, l
    {
      l.pos == LabelWord(trace, l.id)
    }

    ghost predicate HasRoom(n: nat)
      reads this, buffer
    {
      Size(trace) + n <= buffer.bytes.Length
    }

    constructor (size: nat)
      ensures Valid() && trace == [] && buffer.bytes.Length == size
      ensures fresh(buffer) && fresh(buffer.bytes)
    {
      buffer := new AssemblerBuffer(size);
      trace := [];
    }

    method EmitOp(op: byte)
      requires Valid() && HasRoom(1)
      modifies this, buffer, buffer.bytes
      ensures Valid() && trace == old(trace) + [Code([op])]
    {
      AssembledSnoc(trace, Code([op]));
      SnocFacts(trace, Code([op]));
      buffer.EmitByte(op);
      trace := trace + [Code([op])];
    }

    method Emit(value: uword)
      requires Valid() && HasRoom(WORD_SIZE)
      modifies this, buffer, buffer.bytes
      ensures Valid() && trace == old(trace) + [Code(EncodeWord(value))]
    {
      AssembledSnoc(trace, Code(EncodeWord(value)));
      SnocFacts(trace, Code(EncodeWord(value)));
      buffer.EmitWord(value);
      trace := trace + [Code(EncodeWord(value))];
    }

    method EmitLabel(l: Label)
      requires Valid() && HasRoom(WORD_SIZE) && Tracks(l)
      modifies this, buffer, buffer.bytes, l
      ensures Valid() && Tracks(l) && trace == old(trace) + [Link(l.id)]
    {
      if l.IsBound() {
        AssembledSnoc(trace, Link(l.id));
        SnocFacts(trace, Link(l.id));
        assert Front(trace + [Link(l.id)]) == trace;
        var offset := l.GetPos() - buffer.current;
        buffer.EmitWord(offset);
        trace := trace + [Link(l.id)];
      } else {
        EmitLabelLink(l);
      }
    }

    method EmitLabelLink(l: Label)
      requires Valid() && HasRoom(WORD_SIZE) && Tracks(l) && !l.IsBound()
      modifies this, buffer, buffer.bytes, l
      ensures Valid() && Tracks(l) && trace == old(trace) + [Link(l.id)]
    {
      AssembledSnoc(trace, Link(l.id));
      SnocFacts(trace, Link(l.id));
      assert Front(trace + [Link(l.id)]) == trace;
      var pos := buffer.current;
      buffer.EmitWord(l.pos);
      l.LinkTo(pos);
      trace := trace + [Link(l.id)];
    }

    /** Reads the jump word at `pos`, the `k`-th pending one, and overwrites it by `dest`. */
    method ReplaceLink(pos: nat, dest: int, ghost id: nat, ghost k: nat) returns (next: word)
      requires buffer.Valid() && buffer.current == Size(trace) && buffer.bytes.Length < TWO_TO_63 - WORD_SIZE
      requires id !in Marks(trace) && k < |Pending(trace, id)| && pos == Pending(trace, id)[k]
      requires buffer.Contents() == PatchedBytes(trace, id, k) && dest == Offset(Size(trace), pos)
      modifies buffer.bytes
      ensures buffer.Contents() == PatchedBytes(trace, id, k + 1)
      ensures next == LinkedWord(Pending(trace, id)[k + 1..]) && next <= pos
    {
      ghost var w := PatchedWords(trace, id, k);
      PendingAt(trace, id, k);
      PatchStep(Stored(trace), Pending(trace, id), k, Size(trace));
      FlattenWordAt(trace, w, pos);
      FlattenUpdate(trace, w, pos, dest);
      WordRoundTrip(w[pos]);
      ghost var all := buffer.bytes[..];
      WithWordTake(all, buffer.current, pos, dest);
      assert buffer.Contents() == all[..buffer.current];
      assert buffer.bytes[pos..pos + WORD_SIZE] == all[..buffer.current][pos..pos + WORD_SIZE];
      next := buffer.LoadAt(pos);
      buffer.StoreAt(pos, dest);
      assert buffer.Contents() == buffer.bytes[..][..buffer.current];
    }

    /**
      Binds a label to the current end of the code. The loop follows the list of
      pending jumps through the buffer itself and overwrites each link by the
      distance to the bound position; the link positions strictly decrease.
     */
    method Bind(l: Label)
      requires Valid() && Tracks(l) && buffer.bytes.Length < TWO_TO_63 - WORD_SIZE
      modifies this, buffer.bytes, l
      ensures Valid() && Tracks(l) && trace == old(trace) + [Mark(l.id)]
    {
      var bound := buffer.current + 1;
      ghost var t, id, k := trace, l.id, 0;
      ghost var pend := Pending(t, id);
      BindEnds(t, id);
      while l.IsLinked()
        invariant 0 <= k <= |pend| && trace == t
        invariant id !in Marks(t) ==> l.pos == LinkedWord(pend[k..])
        invariant id in Marks(t) ==> l.pos < 0
        invariant buffer.Contents() == PatchedBytes(t, id, k)
        decreases l.pos
      {
        var pos := l.GetLinkPos();
        var dest := bound - pos;
        var next := ReplaceLink(pos, dest, id, k);
        k := k + 1;
        l.pos := next;
      }
      l.BindTo(bound);
      SnocFacts(t, Mark(id));
      trace := t + [Mark(id)];
    }

    /** Fails, with nothing written, when the assertion on the offset does. */
    method Jump(op: byte, l: Label) returns (ok: bool)
      requires Valid() && HasRoom(1 + WORD_SIZE) && Tracks(l)
      modifies this, buffer, buffer.bytes, l
      ensures Valid() && Tracks(l)
      ensures AfterJump(old(trace), op, l.id) == if ok then Done(trace) else Crash
      ensures !ok ==> trace == old(trace)
    {
      SnocFacts(trace, Code([op]));
      ok := true;
      if l.IsBound() {
        var offset := l.GetPos() - buffer.current;
        if offset > 0 { return false; }
        EmitOp(op);
        EmitSigned(offset);
        assert Front(trace) == old(trace) + [Code([op])];
        assert Front(Front(trace)) == old(trace);
      } else {
        EmitOp(op);
        EmitLabelLink(l);
      }
    }

    method EmitSigned(w: int)
      requires Valid() && HasRoom(WORD_SIZE)
      modifies this, buffer, buffer.bytes
      ensures Valid() && trace == old(trace) + [Code(EncodeWord(w))]
    {
      AssembledSnoc(trace, Code(EncodeWord(w)));
      SnocFacts(trace, Code(EncodeWord(w)));
      buffer.EmitWord(w);
      trace := trace + [Code(EncodeWord(w))];
    }

    // Instruction emitters.

    /** An instruction without operands. */
    method EmitSimple(i: Instr)
      requires Valid() && HasRoom(|Encode(i)|) && Operands(i) == []
      modifies this, buffer, buffer.bytes
      ensures Valid() && trace == old(trace) + [Op(i)]
    {
      ghost var t := trace;
      AsInstruction(t, i);
      EmitOp(Opcode(i));
      trace := t + [Op(i)];
    }

    method EmitWithOperand(i: Instr, w: uword)
      requires Valid() && HasRoom(|Encode(i)|) && Operands(i) == [w]
      modifies this, buffer, buffer.bytes
      ensures Valid() && trace == old(trace) + [Op(i)]
    {
      ghost var t := trace;
      AsInstruction(t, i);
      SnocFacts(t, Code([Opcode(i)]));
      EmitOp(Opcode(i));
      Emit(w);
      trace := t + [Op(i)];
    }

    method EmitWithOperands(i: Instr, w0: uword, w1: uword)
      requires Valid() && HasRoom(|Encode(i)|) && Operands(i) == [w0, w1]
      modifies this, buffer, buffer.bytes
      ensures Valid() && trace == old(trace) + [Op(i)]
    {
      ghost var t := trace;
      AsInstruction(t, i);
      SnocFacts(t, Code([Opcode(i)]));
      SnocFacts(t + [Code([Opcode(i)])], Code(EncodeWord(w0)));
      EmitOp(Opcode(i));
      Emit(w0);
      Emit(w1);
      trace := t + [Op(i)];
    }

    method LoadLocal(idx: uword)
      requires Valid() && HasRoom(|Encode(Instr.LoadLocal(idx))|)
      modifies this, buffer, buffer.bytes
      ensures Valid() && trace == old(trace) + [Op(Instr.LoadLocal(idx))]
    {
      if idx <= OP_LOAD_LOCAL3 - OP_LOAD_LOCAL0 {
        EmitSimple(Instr.LoadLocal(idx));
      } else {
        EmitWithOperand(Instr.LoadLocal(idx), idx);
      }
    }

    method StoreLocal(idx: uword)
      requires Valid() && HasRoom(|Encode(Instr.StoreLocal(idx))|)
      modifies this, buffer, buffer.bytes
      ensures Valid() && trace == old(trace) + [Op(Instr.StoreLocal(idx))]
    {
      if idx <= OP_STORE_LOCAL3 - OP_STORE_LOCAL0 {
        EmitSimple(Instr.StoreLocal(idx));
      } else {
        EmitWithOperand(Instr.StoreLocal(idx), idx);
      }
    }

    /** Pushes a constant: Null, a Long and the two Bools have opcodes of their own, anything else goes by address. */
    method Push(value: Value, address: uword)
      requires Valid() && HasRoom(|Encode(PushOf(value, address))|)
      modifies this, buffer, buffer.bytes
      ensures Valid() && trace == old(trace) + [Op(PushOf(value, address))]
    {
      if value.Null? {
        EmitSimple(PushN);
      } else if value.Long? {
        EmitWithOperand(PushI(value.n), value.n);
      } else if value.Bool? {
        EmitSimple(if value.b then PushT else PushF);
      } else {
        EmitWithOperand(PushQ(address), address);
      }
    }

    method Assemble() returns (code: seq<byte>)
      requires Valid()
      ensures code == Assembled(trace)
    {
      code := buffer.bytes[..buffer.current];
    }
  }

  /**
    The trace after `Jump`: a bound label's offset is taken before the opcode is
    emitted, and asserted not to be positive.
   */
  function AfterJump(items: Trace, op: byte, id: nat): Outcome<Trace> {
    if id !in Marks(items) then Done(items + [Code([op])] + [Link(id)])
    else if Offset(Marks(items)[id], Size(items)) > 0 then Crash
    else Done(items + [Code([op])] + [Code(EncodeWord(Offset(Marks(items)[id], Size(items))))])
  }

  lemma {:induction false} NoPendingWhenBound(items: Trace, id: nat)
    requires id in Marks(items)
    ensures Pending(items, id) == []
  {
    if items != [] && !(Back(items).Mark? && Back(items).id == id) {
      NoPendingWhenBound(Front(items), id);
    }
  }
}
