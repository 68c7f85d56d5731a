/**
  Byte codes: their numbering, their operands, and the two decoders that read
  them back, the interpreter's and the disassembler's.
 */
module Bytecode {
  import opened Words
  import opened Values

  const OP_NOP: byte := 1
  const OP_POP: byte := 2
  const OP_DUP: byte := 3
  const OP_LOOKUP: byte := 4
  const OP_STORE_LOCAL: byte := 5
  const OP_STORE_LOCAL0: byte := 6
  const OP_STORE_LOCAL3: byte := 9
  const OP_LOAD_LOCAL: byte := 10
  const OP_LOAD_LOCAL0: byte := 11
  const OP_LOAD_LOCAL3: byte := 14
  const OP_INVOKE: byte := 15
  const OP_INVOKE_DYNAMIC: byte := 16
  const OP_INVOKE_NATIVE: byte := 17
  const OP_CHECK_INSTANCE: byte := 18
  const OP_RET: byte := 19
  const OP_PUSHQ: byte := 20
  const OP_PUSHI: byte := 21
  const OP_PUSHN: byte := 22
  const OP_PUSHT: byte := 23
  const OP_PUSHF: byte := 24
  const OP_JUMP: byte := 25
  const OP_JZ: byte := 26
  const OP_JNZ: byte := 27
  const OP_JEQ: byte := 28
  const OP_JNE: byte := 29
  const OP_CAST: byte := 30
  const OP_NEW: byte := 31
  const OP_THROW: byte := 32
  const OP_LOAD_FIELD: byte := 33
  const OP_STORE_FIELD: byte := 34
  const OP_UNARY: byte := 35
  const OP_BINARY: byte := 40
  const TOTAL_NUMBER_OF_OPS: byte := 54

  const JUMP_SIZE: nat := 1 + WORD_SIZE

  datatype JumpKind = Always | Jz | Jnz | Jeq | Jne

  datatype Instr =
    | Nop | Pop | Dup | Lookup | Ret | Throw | PushN | PushT | PushF
    | StoreLocal(index: uword)
    | LoadLocal(index: uword)
    | Invoke(func: uword, numArgs: uword)
    | InvokeDynamic(numArgs: uword)
    | InvokeNative(func: uword, numArgs: uword)
    | CheckInstance(cls: uword)
    | PushQ(address: uword)
    | PushI(n: uword)
    | Jump(kind: JumpKind, offset: word)
    | Cast(cls: uword)
    | New(cls: uword, numArgs: uword)
    | LoadField(field: uword)
    | StoreField(field: uword)
    | Unary(unary: UnaryOp)
    | Binary(binary: BinaryOp)

  function UnaryCode(op: UnaryOp): byte {
    OP_UNARY + match op case Not => 0 case Car => 1 case Cdr => 2 case Nonnull => 3 case IsNull => 4
  }

  function UnaryOf(b: byte): UnaryOp
    requires OP_UNARY <= b < OP_BINARY
  {
    match b - OP_UNARY case 0 => Not case 1 => Car case 2 => Cdr case 3 => Nonnull case _ => IsNull
  }

  function BinaryCode(op: BinaryOp): byte {
    OP_BINARY +
    match op
    case Add => 0 case Subtract => 1 case Multiply => 2 case Divide => 3 case Modulus => 4
    case Equals => 5 case BinaryAnd => 6 case BinaryOr => 7
    case GreaterThan => 8 case GreaterThanEqual => 9 case LessThan => 10 case LessThanEqual => 11
    case Cons => 12 case InstanceOf => 13
  }

  function BinaryOf(b: byte): BinaryOp
    requires OP_BINARY <= b < TOTAL_NUMBER_OF_OPS
  {
    match b - OP_BINARY
    case 0 => Add case 1 => Subtract case 2 => Multiply case 3 => Divide case 4 => Modulus
    case 5 => Equals case 6 => BinaryAnd case 7 => BinaryOr
    case 8 => GreaterThan case 9 => GreaterThanEqual case 10 => LessThan case 11 => LessThanEqual
    case 12 => Cons case _ => InstanceOf
  }

  function JumpCode(kind: JumpKind): byte {
    match kind case Always => OP_JUMP case Jz => OP_JZ case Jnz => OP_JNZ case Jeq => OP_JEQ case Jne => OP_JNE
  }

  function JumpOf(b: byte): JumpKind {
    if b == OP_JUMP then Always else if b == OP_JZ then Jz else if b == OP_JNZ then Jnz
    else if b == OP_JEQ then Jeq else Jne
  }

  /** The instruction that pushes a constant which lives at `address`. */
  function PushOf(value: Value, address: uword): Instr {
    match value
    case Null => PushN
    case Bool(b) => if b then PushT else PushF
    case Long(n) => PushI(n)
    case _ => PushQ(address)
  }

  // Emitters: the bytes written for each instruction.

  /** The opcode; local indices up to 3 have one-byte forms. */
  function Opcode(i: Instr): byte {
    match i
    case Nop => OP_NOP
    case Pop => OP_POP
    case Dup => OP_DUP
    case Lookup => OP_LOOKUP
    case Ret => OP_RET
    case Throw => OP_THROW
    case PushN => OP_PUSHN
    case PushT => OP_PUSHT
    case PushF => OP_PUSHF
    case StoreLocal(index) => if index <= 3 then OP_STORE_LOCAL0 + index else OP_STORE_LOCAL
    case LoadLocal(index) => if index <= 3 then OP_LOAD_LOCAL0 + index else OP_LOAD_LOCAL
    case Invoke(_, _) => OP_INVOKE
    case InvokeDynamic(_) => OP_INVOKE_DYNAMIC
    case InvokeNative(_, _) => OP_INVOKE_NATIVE
    case CheckInstance(_) => OP_CHECK_INSTANCE
    case PushQ(_) => OP_PUSHQ
    case PushI(_) => OP_PUSHI
    case Jump(kind, _) => JumpCode(kind)
    case Cast(_) => OP_CAST
    case New(_, _) => OP_NEW
    case LoadField(_) => OP_LOAD_FIELD
    case StoreField(_) => OP_STORE_FIELD
    case Unary(op) => UnaryCode(op)
    case Binary(op) => BinaryCode(op)
  }

  /** The numbers of the opcodes. */
  lemma OpcodeNumbers()
    ensures Opcode(Nop) == 1 && Opcode(Pop) == 2 && Opcode(Dup) == 3 && Opcode(Lookup) == 4
    ensures Opcode(Invoke(0, 0)) == 15 && Opcode(InvokeDynamic(0)) == 16 && Opcode(InvokeNative(0, 0)) == 17
    ensures Opcode(CheckInstance(0)) == 18 && Opcode(Ret) == 19
  {
  }

  lemma PushNumbers()
    ensures Opcode(PushQ(0)) == 20 && Opcode(PushI(0)) == 21
    ensures Opcode(PushN) == 22 && Opcode(PushT) == 23 && Opcode(PushF) == 24
  {
  }

  lemma ObjectNumbers()
    ensures Opcode(Cast(0)) == 30 && Opcode(New(0, 0)) == 31 && Opcode(Throw) == 32
    ensures Opcode(LoadField(0)) == 33 && Opcode(StoreField(0)) == 34 && TOTAL_NUMBER_OF_OPS == 54
  {
  }

  /** Local indices up to 3 have opcodes of their own. */
  lemma LocalNumbers(n: uword)
    ensures Opcode(StoreLocal(n)) == if n <= 3 then 6 + n else 5
    ensures Opcode(LoadLocal(n)) == if n <= 3 then 11 + n else 10
  {
  }

  /** The numbers of jumps, unary and binary operators. */
  lemma OperatorNumbers()
    ensures JumpCode(Always) == 25 && JumpCode(Jz) == 26 && JumpCode(Jnz) == 27 && JumpCode(Jeq) == 28
    ensures JumpCode(Jne) == 29 && UnaryCode(Not) == 35 && UnaryCode(Car) == 36 && UnaryCode(Cdr) == 37
    ensures UnaryCode(Nonnull) == 38 && UnaryCode(IsNull) == 39
    ensures BinaryCode(Add) == 40 && BinaryCode(Subtract) == 41 && BinaryCode(Multiply) == 42
    ensures BinaryCode(Divide) == 43 && BinaryCode(Modulus) == 44 && BinaryCode(Equals) == 45
    ensures BinaryCode(BinaryAnd) == 46 && BinaryCode(BinaryOr) == 47 && BinaryCode(GreaterThan) == 48
    ensures BinaryCode(GreaterThanEqual) == 49 && BinaryCode(LessThan) == 50 && BinaryCode(LessThanEqual) == 51
    ensures BinaryCode(Cons) == 52 && BinaryCode(InstanceOf) == 53
  {
  }

  function Operands(i: Instr): (ws: seq<uword>)
    ensures |ws| <= 2
  {
    match i
    case StoreLocal(index) => if index <= 3 then [] else [index]
    case LoadLocal(index) => if index <= 3 then [] else [index]
    case Invoke(f, n) => [f, n]
    case InvokeDynamic(n) => [n]
    case InvokeNative(f, n) => [f, n]
    case CheckInstance(c) => [c]
    case PushQ(a) => [a]
    case PushI(n) => [n]
    case Jump(_, offset) => [offset % TWO_TO_64]
    case Cast(c) => [c]
    case New(c, n) => [c, n]
    case LoadField(f) => [f]
    case StoreField(f) => [f]
    case _ => []
  }

  function EncodeWords(ws: seq<uword>): (s: seq<byte>)
    ensures |s| == WORD_SIZE * |ws|
  {
    if ws == [] then [] else EncodeWord(ws[0]) + EncodeWords(ws[1..])
  }

  function Encode(i: Instr): (s: seq<byte>)
    ensures |s| == 1 + WORD_SIZE * |Operands(i)|
  {
    [Opcode(i)] + EncodeWords(Operands(i))
  }

  lemma EncodedJump(kind: JumpKind, w: int)
    requires -TWO_TO_63 <= w < TWO_TO_63
    ensures Encode(Jump(kind, w)) == [JumpCode(kind)] + EncodeWord(w)
  {
    hide LittleEndian;
    var ws: seq<uword> := [w % TWO_TO_64];
    assert EncodeWords(ws[1..]) == [];
    assert EncodeWords(ws) == EncodeWord(w % TWO_TO_64) + [];
  }

  // Decoding.

  /** How many operand words the interpreter reads after an opcode; `None` for a byte it rejects. */
  function InterpreterOperands(op: byte): (r: Option<nat>)
    ensures r.Some? ==> r.value <= 2
  {
    if op == 0 || op >= TOTAL_NUMBER_OF_OPS then None
    else if op == OP_PUSHQ || op == OP_PUSHI then Some(1)
    else if op == OP_LOAD_LOCAL || op == OP_STORE_LOCAL then Some(1)
    else if op == OP_INVOKE || op == OP_INVOKE_NATIVE then Some(2)
    else if op == OP_INVOKE_DYNAMIC then Some(1)
    else if op == OP_CHECK_INSTANCE || op == OP_CAST then Some(1)
    else if OP_JUMP <= op <= OP_JNE then Some(1)
    else if op == OP_LOAD_FIELD || op == OP_STORE_FIELD then Some(1)
    else if op == OP_NEW then Some(2)
    else Some(0)
  }

  /** How many operand words the disassembler skips; a byte it does not know has none. */
  function DisassemblerOperands(op: byte): nat {
    if op in {OP_PUSHQ, OP_PUSHI, OP_STORE_FIELD, OP_LOAD_FIELD, OP_LOAD_LOCAL, OP_STORE_LOCAL} then 1
    else if op in {OP_JUMP, OP_JZ, OP_JNZ, OP_JEQ, OP_JNE} then 1
    else if op in {OP_CHECK_INSTANCE, OP_CAST} then 1
    else if op in {OP_NEW, OP_INVOKE, OP_INVOKE_NATIVE} then 2
    else if op == OP_INVOKE_DYNAMIC then 1
    else 0
  }

  function SignedOf(u: uword): word {
    if u < TWO_TO_63 then u else u - TWO_TO_64
  }

  /** The instruction an opcode and its operand words denote. */
  function Build(op: byte, ws: seq<uword>): Instr
    requires InterpreterOperands(op) == Some(|ws|)
  {
    if |ws| == 2 then
      if op == OP_INVOKE then Invoke(ws[0], ws[1])
      else if op == OP_INVOKE_NATIVE then InvokeNative(ws[0], ws[1])
      else New(ws[0], ws[1])
    else if |ws| == 1 then BuildOne(op, ws[0])
    else if OP_STORE_LOCAL0 <= op <= OP_STORE_LOCAL3 then StoreLocal(op - OP_STORE_LOCAL0)
    else if OP_LOAD_LOCAL0 <= op <= OP_LOAD_LOCAL3 then LoadLocal(op - OP_LOAD_LOCAL0)
    else if OP_BINARY <= op then Binary(BinaryOf(op))
    else if OP_UNARY <= op then Unary(UnaryOf(op))
    else if op == OP_POP then Pop
    else if op == OP_DUP then Dup
    else if op == OP_LOOKUP then Lookup
    else if op == OP_RET then Ret
    else if op == OP_THROW then Throw
    else if op == OP_PUSHN then PushN
    else if op == OP_PUSHT then PushT
    else if op == OP_PUSHF then PushF
    else Nop
  }

  function BuildOne(op: byte, w: uword): Instr
  {
    if op == OP_PUSHQ then PushQ(w)
    else if op == OP_PUSHI then PushI(w)
    else if op == OP_LOAD_LOCAL then LoadLocal(w)
    else if op == OP_STORE_LOCAL then StoreLocal(w)
    else if op == OP_INVOKE_DYNAMIC then InvokeDynamic(w)
    else if op == OP_CHECK_INSTANCE then CheckInstance(w)
    else if op == OP_CAST then Cast(w)
    else if op == OP_LOAD_FIELD then LoadField(w)
    else if op == OP_STORE_FIELD then StoreField(w)
    else Jump(JumpOf(op), SignedOf(w))
  }

  function WordsAt(mem: seq<byte>, pos: nat, n: nat): (ws: seq<uword>)
    requires pos + WORD_SIZE * n <= |mem|
    ensures |ws| == n
    decreases n
  {
    if n == 0 then [] else [DecodeUWord(mem[pos..pos + WORD_SIZE])] + WordsAt(mem, pos + WORD_SIZE, n - 1)
  }

  datatype Fetched = Fetched(instr: Instr, next: nat)

  /**
    The instruction at `pos` and the position after its operands; `None` for an invalid
    byte or a read outside memory.
   */
  function Fetch(mem: seq<byte>, pos: nat): (r: Option<Fetched>)
    ensures r.Some? ==> pos < r.value.next <= |mem|
  {
    if pos >= |mem| || InterpreterOperands(mem[pos]).None? then None
    else
      var n := InterpreterOperands(mem[pos]).value;
      var next := pos + 1 + WORD_SIZE * n;
      if next <= |mem| then Some(Fetched(Build(mem[pos], WordsAt(mem, pos + 1, n)), next)) else None
  }

  /** `code` lies in `mem` at `pos`. */
  ghost predicate CodeAt(mem: seq<byte>, pos: nat, code: seq<byte>) {
    pos + |code| <= |mem| && mem[pos..pos + |code|] == code
  }

  lemma CodeAtSplit(mem: seq<byte>, pos: nat, a: seq<byte>, b: seq<byte>)
    ensures CodeAt(mem, pos, a + b) <==> CodeAt(mem, pos, a) && CodeAt(mem, pos + |a|, b)
  {
    if CodeAt(mem, pos, a + b) {
      assert (a + b)[..|a|] == a && (a + b)[|a|..] == b;
      assert mem[pos..pos + |a|] == mem[pos..pos + |a + b|][..|a|];
      assert mem[pos + |a|..pos + |a + b|] == mem[pos..pos + |a + b|][|a|..];
    }
    if CodeAt(mem, pos, a) && CodeAt(mem, pos + |a|, b) {
      assert mem[pos..pos + |a + b|] == mem[pos..pos + |a|] + mem[pos + |a|..pos + |a| + |b|];
    }
  }

  lemma {:induction false} WordsAtEncoded(mem: seq<byte>, pos: nat, ws: seq<uword>)
    requires CodeAt(mem, pos, EncodeWords(ws))
    ensures WordsAt(mem, pos, |ws|) == ws
    decreases |ws|
  {
    if ws != [] {
      CodeAtSplit(mem, pos, EncodeWord(ws[0]), EncodeWords(ws[1..]));
      WordRoundTrip(ws[0]);
      WordsAtEncoded(mem, pos + WORD_SIZE, ws[1..]);
    }
  }

  lemma BuildInverts(i: Instr)
    ensures InterpreterOperands(Opcode(i)) == Some(|Operands(i)|)
    ensures Build(Opcode(i), Operands(i)) == i
  {
  }

  /** Wherever an emitted instruction lies in memory, the interpreter reads back that instruction and its length. */
  lemma FetchEncoded(mem: seq<byte>, pos: nat, i: Instr)
    requires CodeAt(mem, pos, Encode(i))
    ensures Fetch(mem, pos) == Some(Fetched(i, pos + |Encode(i)|))
  {
    CodeAtSplit(mem, pos, [Opcode(i)], EncodeWords(Operands(i)));
    assert mem[pos] == mem[pos..pos + 1][0];
    WordsAtEncoded(mem, pos + 1, Operands(i));
    BuildInverts(i);
  }

  function EncodeAll(instrs: seq<Instr>): seq<byte> {
    if instrs == [] then [] else Encode(instrs[0]) + EncodeAll(instrs[1..])
  }

  /** Decodes from `pos` to the end of the code; `None` when some byte is rejected. */
  function DecodeAll(code: seq<byte>, pos: nat): Option<seq<Instr>>
    requires pos <= |code|
    decreases |code| - pos
  {
    if pos == |code| then Some([])
    else
      match Fetch(code, pos)
      case None => None
      case Some(f) =>
        match DecodeAll(code, f.next)
        case None => None
        case Some(rest) => Some([f.instr] + rest)
  }

  lemma {:induction false} DecodeAt(code: seq<byte>, pos: nat, instrs: seq<Instr>)
    requires CodeAt(code, pos, EncodeAll(instrs)) && pos + |EncodeAll(instrs)| == |code|
    ensures DecodeAll(code, pos) == Some(instrs)
    decreases |instrs|
  {
    hide Fetch, Encode, CodeAt;
    if instrs != [] {
      var first, rest := Encode(instrs[0]), EncodeAll(instrs[1..]);
      CodeAtSplit(code, pos, first, rest);
      FetchEncoded(code, pos, instrs[0]);
      DecodeAt(code, pos + |first|, instrs[1..]);
      assert [instrs[0]] + instrs[1..] == instrs;
    }
  }

  /** Decoding what a sequence of emitter calls wrote gives back exactly those instructions. */
  lemma DecodeEncode(instrs: seq<Instr>)
    ensures DecodeAll(EncodeAll(instrs), 0) == Some(instrs)
  {
    DecodeAt(EncodeAll(instrs), 0, instrs);
  }

  /** The two decoders advance by the same number of bytes on every opcode the interpreter accepts. */
  lemma DecodersAgree(op: byte)
    ensures InterpreterOperands(op).Some? <==> 1 <= op < TOTAL_NUMBER_OF_OPS
    ensures InterpreterOperands(op).Some? ==> DisassemblerOperands(op) == InterpreterOperands(op).value
  {
  }

  lemma NothingLeft(code: seq<byte>)
    ensures DecodeAll(code, |code|) == Some([]) && Listed([]) == []
  {
  }

  lemma ListedStep(code: seq<byte>, pos: nat)
    requires pos < |code|
    ensures DecodeAll(code, pos).Some? ==>
              && Fetch(code, pos).Some? && DecodeAll(code, Fetch(code, pos).value.next).Some?
              && Listed(DecodeAll(code, pos).value) ==
                 [Some(Fetch(code, pos).value.instr)] + Listed(DecodeAll(code, Fetch(code, pos).value.next).value)
  {
    hide Fetch;
  }

  /**
    The disassembler's loop. Each line of its listing is an instruction; a byte
    the interpreter rejects is listed as `None`, and `ok` is false when an
    operand would be read past the end.
   */
  method Disassemble(code: seq<byte>) returns (listing: seq<Option<Instr>>, ok: bool)
    ensures DecodeAll(code, 0).Some? ==> ok && listing == Listed(DecodeAll(code, 0).value)
  {
    hide Build, BuildOne, WordsAt, InterpreterOperands, DisassemblerOperands, Listed, DecodeAll;
    NothingLeft(code);
    var current := 0;
    listing, ok := [], true;
    assert DecodeAll(code, 0).Some? ==> [] + Listed(DecodeAll(code, 0).value) == Listed(DecodeAll(code, 0).value);
    while current + 1 <= |code|
      invariant current <= |code|
      invariant DecodeAll(code, 0).Some? ==>
                  && DecodeAll(code, current).Some?
                  && listing + Listed(DecodeAll(code, current).value) == Listed(DecodeAll(code, 0).value)
      decreases |code| - current
    {
      var op := code[current];
      var n := DisassemblerOperands(op);
      DecodersAgree(op);
      ListedStep(code, current);
      var next := current + 1 + WORD_SIZE * n;
      if next > |code| {
        ok := false;
        return;
      }
      var line := if InterpreterOperands(op).Some? then Some(Build(op, WordsAt(code, current + 1, n))) else None;
      listing := listing + [line];
      current := next;
    }
  }

  function Listed(instrs: seq<Instr>): seq<Option<Instr>> {
    if instrs == [] then [] else [Some(instrs[0])] + Listed(instrs[1..])
  }
}
