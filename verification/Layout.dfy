/**
  What a run of the assembler writes, as a function of the trace of calls made
  on it. A trace is a list of items: raw bytes, an eight-byte jump word that
  refers to a label, or the binding of a label.

  Two readings of a trace are defined and proved equal. `Assembled` is the
  one-pass reading with back-patching: a jump to a label that is not bound yet
  holds the position of the previous such jump, and binding the label rewrites
  the whole list. `TwoPass` looks every label up in the table of its final
  positions.
 */
module Layout {
  import opened Sequences
  import opened Words
  import opened Bytecode

  datatype Item =
    | Code(bytes: seq<byte>)
    | Op(instr: Instr)
    | Link(id: nat)
    | Mark(id: nat)

  type Trace = seq<Item>

  function ItemSize(item: Item): nat {
    match item
    case Code(bytes) => |bytes|
    case Op(i) => |Encode(i)|
    case Link(_) => WORD_SIZE
    case Mark(_) => 0
  }

  function Size(items: Trace): nat {
    if items == [] then 0 else Size(Front(items)) + ItemSize(Back(items))
  }

  lemma {:induction false} SizeConcat(a: Trace, b: Trace)
    ensures Size(a + b) == Size(a) + Size(b)
  {
    if b == [] {
      assert a + b == a;
    } else {
      SizeConcat(a, Front(b));
      assert Front(a + b) == a + Front(b);
    }
  }

  /** Label positions: the code size at the moment the label was last bound. */
  function Marks(items: Trace): map<nat, nat> {
    if items == [] then map[]
    else if Back(items).Mark? then Marks(Front(items))[Back(items).id := Size(Front(items))]
    else Marks(Front(items))
  }

  /** The label each jump word refers to, by the position of the word. */
  function Links(items: Trace): map<nat, nat> {
    if items == [] then map[]
    else if Back(items).Link? then Links(Front(items))[Size(Front(items)) := Back(items).id]
    else Links(Front(items))
  }

  /** Jump words that wait for label `id`, the latest first. */
  function Pending(items: Trace, id: nat): seq<nat> {
    if items == [] then []
    else
      var init := Front(items);
      match Back(items)
      case Code(_) => Pending(init, id)
      case Op(_) => Pending(init, id)
      case Mark(l) => if l == id then [] else Pending(init, id)
      case Link(l) =>
        if l == id && l !in Marks(init) then [Size(init)] + Pending(init, id) else Pending(init, id)
  }

  /** The word kept in a label: zero when unused, positive when linked, negative when bound. */
  function LabelWord(items: Trace, id: nat): int {
    if id in Marks(items) then -(Marks(items)[id] + 1) - WORD_SIZE
    else LinkedWord(Pending(items, id))
  }

  function LinkedWord(pending: seq<nat>): nat {
    if pending == [] then 0 else pending[0] + WORD_SIZE
  }

  /** The offset that makes a jump whose word lies at `pos` land on `target`. */
  function Offset(target: nat, pos: nat): int {
    target + 1 - pos
  }

  /** The words at the jump positions, as they stand after the trace. */
  function Stored(items: Trace): (w: map<nat, int>)
    ensures w.Keys == Links(items).Keys
  {
    if items == [] then map[]
    else
      var init := Front(items);
      match Back(items)
      case Code(_) => Stored(init)
      case Op(_) => Stored(init)
      case Mark(l) => Patch(Stored(init), Pending(init, l), Size(init))
      case Link(l) =>
        Stored(init)[Size(init) :=
          if l in Marks(init) then Offset(Marks(init)[l], Size(init)) else LinkedWord(Pending(init, l))]
  }

  function Patch(w: map<nat, int>, at: seq<nat>, target: nat): (w': map<nat, int>)
    ensures w'.Keys == w.Keys
  {
    map p | p in w :: if p in at then Offset(target, p) else w[p]
  }

  /** The bytes of a trace, jump words taken from `w`. */
  function Flatten(items: Trace, w: map<nat, int>): (s: seq<byte>)
    ensures |s| == Size(items)
  {
    if items == [] then []
    else
      var init := Front(items);
      Flatten(init, w) +
      match Back(items)
      case Code(bytes) => bytes
      case Op(i) => Encode(i)
      case Link(_) => EncodeWord(if Size(init) in w then w[Size(init)] else 0)
      case Mark(_) => []
  }

  function Assembled(items: Trace): seq<byte> {
    Flatten(items, Stored(items))
  }

  /** The bytes of an item at `at`, a jump word computed from the label table `marks`. */
  function Resolved(item: Item, at: nat, marks: map<nat, nat>): (s: seq<byte>)
    ensures |s| == ItemSize(item)
  {
    match item
    case Code(bytes) => bytes
    case Op(i) => Encode(i)
    case Link(l) => EncodeWord(if l in marks then Offset(marks[l], at) else 0)
    case Mark(_) => []
  }

  /** The bytes of a trace at `base`, every label looked up in `marks`. */
  function TwoPass(items: Trace, base: nat, marks: map<nat, nat>): (s: seq<byte>)
    ensures |s| == Size(items)
  {
    if items == [] then []
    else TwoPass(Front(items), base, marks) + Resolved(Back(items), base + Size(Front(items)), marks)
  }

  lemma OneItem(x: Item, base: nat, marks: map<nat, nat>)
    ensures Size([x]) == ItemSize(x) && TwoPass([x], base, marks) == Resolved(x, base, marks)
  {
    hide Resolved;
    assert Front([x]) == [];
  }

  lemma TwoItems(x: Item, y: Item, base: nat, marks: map<nat, nat>)
    ensures Size([x, y]) == ItemSize(x) + ItemSize(y)
    ensures TwoPass([x, y], base, marks) == Resolved(x, base, marks) + Resolved(y, base + ItemSize(x), marks)
  {
    hide Resolved, ItemSize;
    assert Front([x, y]) == [x];
    OneItem(x, base, marks);
  }

  function MarkSet(items: Trace): set<nat> {
    set i | 0 <= i < |items| && items[i].Mark? :: items[i].id
  }

  function LinkSet(items: Trace): set<nat> {
    set i | 0 <= i < |items| && items[i].Link? :: items[i].id
  }

  /** No label is bound twice. */
  ghost predicate MarkedOnce(items: Trace) {
    forall i, j :: 0 <= i < j < |items| && items[i].Mark? && items[j].Mark? ==> items[i].id != items[j].id
  }

  /** Every jump word comes before the binding of its label. */
  ghost predicate ForwardOnly(items: Trace) {
    forall i, j :: 0 <= i < j < |items| && items[i].Mark? && items[j].Link? ==> items[i].id != items[j].id
  }

  // Positions of jump words.

  lemma LinksInside(items: Trace)
    ensures forall p :: p in Links(items) ==> p + WORD_SIZE <= Size(items)
  {
    if items != [] { LinksInside(Front(items)); }
  }

  lemma MarksAreMarkSet(items: Trace)
    ensures Marks(items).Keys == MarkSet(items)
  {
    if items != [] {
      MarksAreMarkSet(Front(items));
      assert items == Front(items) + [Back(items)];
      assert forall i :: 0 <= i < |Front(items)| ==> Front(items)[i] == items[i];
      assert forall x :: x in MarkSet(items) <==>
          x in MarkSet(Front(items)) || (Back(items).Mark? && x == Back(items).id);
    }
  }

  /** The pending jumps of a label are jumps to that label, at strictly decreasing positions. */
  lemma {:induction false} PendingDecreases(items: Trace, id: nat)
    ensures forall p :: p in Pending(items, id) ==> p in Links(items) && Links(items)[p] == id
    ensures forall i, j :: 0 <= i < j < |Pending(items, id)| ==>
              Pending(items, id)[i] >= Pending(items, id)[j] + WORD_SIZE
  {
    if items != [] {
      var init := Front(items);
      PendingDecreases(init, id);
      LinksInside(init);
      var pend := Pending(items, id);
      if Back(items).Link? && Back(items).id == id && id !in Marks(init) {
        assert forall j :: 1 <= j < |pend| ==> pend[j] == Pending(init, id)[j - 1] && pend[j] in Links(init);
      }
    }
  }

  /** The pending jump words of a label form a list: each holds the encoding of the next one, zero ending it. */
  ghost predicate Threaded(items: Trace, id: nat) {
    forall i :: 0 <= i < |Pending(items, id)| ==>
      var p := Pending(items, id)[i];
      p in Stored(items) && Stored(items)[p] == LinkedWord(Pending(items, id)[i + 1..])
  }

  lemma {:induction false} PendingIsThreaded(items: Trace, id: nat)
    requires id !in Marks(items)
    ensures Threaded(items, id)
  {
    if items != [] {
      var init := Front(items);
      PendingIsThreaded(init, id);
      PendingDecreases(init, id);
      LinksInside(init);
      match Back(items)
      case Code(_) =>
      case Op(_) =>
      case Mark(l) => PendingDecreases(init, l);
      case Link(l) => LinkIsThreaded(items, id);
    }
  }

  lemma LinkIsThreaded(items: Trace, id: nat)
    requires items != [] && Back(items).Link? && id !in Marks(items) && Threaded(Front(items), id)
    requires forall p :: p in Pending(Front(items), id) ==>
        p in Links(Front(items)) && p + WORD_SIZE <= Size(Front(items))
    ensures Threaded(items, id)
  {
    var init, pend := Front(items), Pending(items, id);
    if Back(items).id == id {
      forall i | 0 <= i < |pend|
        ensures pend[i] in Stored(items) && Stored(items)[pend[i]] == LinkedWord(pend[i + 1..])
      {
        if i > 0 {
          assert pend[i] == Pending(init, id)[i - 1] && pend[i + 1..] == Pending(init, id)[i..];
        } else {
          assert pend[1..] == Pending(init, id);
        }
      }
    }
  }

  /** A jump word either holds the offset to its bound label or is still on the label's list. */
  lemma {:induction false} LinkStates(items: Trace, p: nat)
    requires MarkedOnce(items) && p in Links(items)
    ensures Links(items)[p] in Marks(items) ==> Stored(items)[p] == Offset(Marks(items)[Links(items)[p]], p)
    ensures Links(items)[p] !in Marks(items) ==> p in Pending(items, Links(items)[p])
  {
    var init := Front(items);
    assert forall i :: 0 <= i < |init| ==> init[i] == items[i];
    assert MarkedOnce(init);
    MarksAreMarkSet(init);
    LinksInside(init);
    if p in Links(init) {
      LinkStates(init, p);
    }
    match Back(items)
    case Code(_) =>
    case Op(_) =>
    case Link(_) =>
    case Mark(l) =>
      PendingDecreases(init, l);
      assert l !in MarkSet(init) by {
        assert forall i :: 0 <= i < |init| && init[i].Mark? ==> items[i].id != items[|items| - 1].id;
      }
  }

  // Flattening.

  lemma {:induction false} FlattenIsTwoPass(items: Trace, w: map<nat, int>, marks: map<nat, nat>)
    requires forall p :: p in Links(items) ==>
        p in w && Links(items)[p] in marks && w[p] == Offset(marks[Links(items)[p]], p)
    ensures Flatten(items, w) == TwoPass(items, 0, marks)
  {
    if items != [] {
      LinksInside(Front(items));
      FlattenIsTwoPass(Front(items), w, marks);
    }
  }

  lemma {:induction false} FlattenAgree(items: Trace, w: map<nat, int>, w': map<nat, int>)
    requires forall p :: p in Links(items) ==> p in w && p in w' && w[p] == w'[p]
    ensures Flatten(items, w) == Flatten(items, w')
  {
    if items != [] {
      LinksInside(Front(items));
      FlattenAgree(Front(items), w, w');
    }
  }

  /**
    Back-patching refines the two-pass assembler: when no label is bound twice
    and every label that is jumped to has been bound, the one-pass bytes are the
    bytes computed from the final label table.
   */
  lemma BackPatchingIsTwoPass(items: Trace)
    requires MarkedOnce(items)
    requires LinkSet(items) <= MarkSet(items)
    ensures Assembled(items) == TwoPass(items, 0, Marks(items))
  {
    MarksAreMarkSet(items);
    forall p | p in Links(items)
      ensures p in Stored(items) && Links(items)[p] in Marks(items)
      ensures Stored(items)[p] == Offset(Marks(items)[Links(items)[p]], p)
    {
      LinksAreLinkSet(items, p);
      LinkStates(items, p);
    }
    FlattenIsTwoPass(items, Stored(items), Marks(items));
  }

  lemma LinksAreLinkSet(items: Trace, p: nat)
    requires p in Links(items)
    ensures Links(items)[p] in LinkSet(items)
  {
    var init := Front(items);
    assert forall i :: 0 <= i < |init| ==> init[i] == items[i];
    if p in Links(init) && !(Back(items).Link? && p == Size(init)) {
      LinksAreLinkSet(init, p);
      var i :| 0 <= i < |init| && init[i].Link? && init[i].id == Links(init)[p];
      assert items[i].Link? && items[i].id == Links(items)[p];
    } else {
      assert items[|items| - 1].Link?;
    }
  }

  // Traces of instructions only.

  function Ops(instrs: seq<Instr>): (items: Trace)
    ensures |items| == |instrs| && forall i :: 0 <= i < |instrs| ==> items[i] == Op(instrs[i])
  {
    seq(|instrs|, i requires 0 <= i < |instrs| => Op(instrs[i]))
  }

  lemma {:induction false} EncodeAllConcat(a: seq<Instr>, b: seq<Instr>)
    ensures EncodeAll(a + b) == EncodeAll(a) + EncodeAll(b)
  {
    hide Encode;
    if a == [] {
      assert a + b == b;
    } else {
      assert (a + b)[0] == a[0] && (a + b)[1..] == a[1..] + b;
      EncodeAllConcat(a[1..], b);
    }
  }

  lemma {:induction false} OpsAreEncoded(instrs: seq<Instr>, w: map<nat, int>)
    ensures Flatten(Ops(instrs), w) == EncodeAll(instrs)
  {
    hide Encode;
    if instrs != [] {
      var init, last := Front(instrs), Back(instrs);
      assert Front(Ops(instrs)) == Ops(init) && instrs == init + [last];
      assert [last][1..] == [];
      OpsAreEncoded(init, w);
      EncodeAllConcat(init, [last]);
    }
  }

  /**
    The code that any sequence of emitter calls assembles decodes to exactly the
    instructions emitted.
   */
  lemma EmittedDecodes(instrs: seq<Instr>)
    ensures Assembled(Ops(instrs)) == EncodeAll(instrs)
    ensures DecodeAll(Assembled(Ops(instrs)), 0) == Some(instrs)
  {
    hide Encode, DecodeAll;
    OpsAreEncoded(instrs, Stored(Ops(instrs)));
    DecodeEncode(instrs);
  }
}
