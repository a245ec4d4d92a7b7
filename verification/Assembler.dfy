/** The two-pass assembler: symbols, provisional code, and its correction in place. */
module Assembler {
  import opened Entries
  import opened Instructions

  const SYMBOLS := 32       // symbols the table holds
  const REFERENCES := 32    // references to symbols the table holds
  const SYMBOL_MAX := 7     // longest symbol kept whole
  const ORIGIN := 0x20000   // address of the first byte, unless the program says otherwise

  // ----- programs -----

  /** A token that stands for an operand. A symbol carries the number its letters happen to parse to. */
  datatype Operand =
    | Named(register: Word, pointer: bool)
    | Number(value: Word, pointer: bool)
    | Symbol(name: string, pointer: bool, guess: Word)

  datatype Width = Doubles | Words | Bytes

  /** A line of the program. */
  datatype Item =
    | Org(origin: Word)
    | Label(name: string)
    | Data(name: string, width: Width, values: seq<Word>)
    | Code(mnemonic: string, operands: seq<Operand>)

  function KindOf(op: Operand): OperandKind {
    match op
    case Named(_, pointer) => if pointer then Pointer else Register
    case Number(_, pointer) => if pointer then Memory else Immediate
    case Symbol(_, pointer, _) => if pointer then Memory else Immediate
  }

  function KindsOf(operands: seq<Operand>): (kinds: seq<OperandKind>)
    ensures |kinds| == |operands|
  {
    seq(|operands|, i requires 0 <= i < |operands| => KindOf(operands[i]))
  }

  /** First row of the table, from row `i` on, with this mnemonic and these operands. */
  function FindFrom(mnemonic: string, kinds: seq<OperandKind>, i: nat): Option<Id>
    decreases |TABLE| - i
  {
    if i >= |TABLE| then None
    else if Mnemonic(TABLE[i]) == mnemonic && Kinds(TABLE[i]) == kinds then Some(TABLE[i])
    else FindFrom(mnemonic, kinds, i + 1)
  }

  lemma {:induction false} FoundFits(mnemonic: string, kinds: seq<OperandKind>, i: nat)
    ensures FindFrom(mnemonic, kinds, i).Some? ==> Kinds(FindFrom(mnemonic, kinds, i).value) == kinds
    decreases |TABLE| - i
  {
    if i < |TABLE| { FoundFits(mnemonic, kinds, i + 1); }
  }

  method FindInstruction(mnemonic: string, kinds: seq<OperandKind>) returns (r: Option<Id>)
    ensures r == FindFrom(mnemonic, kinds, 0)
  {
    hide Mnemonic, Kinds;
    var i := 0;
    while i < |TABLE|
      invariant 0 <= i <= |TABLE| && FindFrom(mnemonic, kinds, i) == FindFrom(mnemonic, kinds, 0)
    {
      // The mnemonic and the number of operands must agree
      if Mnemonic(TABLE[i]) == mnemonic && |Kinds(TABLE[i])| == |kinds| {
        // Then so must the kind of each operand
        var fits := true;
        var op := 0;
        while op < |kinds|
          invariant 0 <= op <= |kinds|
          invariant fits ==> forall j :: 0 <= j < op ==> kinds[j] == Kinds(TABLE[i])[j]
          invariant !fits ==> kinds != Kinds(TABLE[i])
        {
          if kinds[op] != Kinds(TABLE[i])[op] {
            fits := false;
            break;
          }
          op := op + 1;
        }
        if fits { return Some(TABLE[i]); }
      }
      i := i + 1;
    }
    return None;
  }

  // ----- writing code -----

  /** `after` is `before` with `bytes` at `offset`. */
  ghost predicate Put(before: seq<Byte>, after: seq<Byte>, offset: nat, bytes: seq<Byte>) {
    && offset + |bytes| <= |before| == |after|
    && after[offset..offset + |bytes|] == bytes
    && forall i :: 0 <= i < |before| && !(offset <= i < offset + |bytes|) ==> after[i] == before[i]
  }

  lemma PutMore(s0: seq<Byte>, s1: seq<Byte>, s2: seq<Byte>, offset: nat, bytes: seq<Byte>, more: seq<Byte>)
    requires Put(s0, s1, offset, bytes) && Put(s1, s2, offset + |bytes|, more)
    ensures Put(s0, s2, offset, bytes + more)
  {
    assert s2[offset..offset + |bytes|] == s1[offset..offset + |bytes|];
    var mid, end := offset + |bytes|, offset + |bytes| + |more|;
    assert s2[offset..end] == s2[offset..mid] + s2[mid..end];
  }

  method PutByte(buffer: array<Byte>, offset: nat, v: Byte) returns (next: nat)
    requires offset < buffer.Length
    modifies buffer
    ensures next == offset + 1 && Put(old(buffer[..]), buffer[..], offset, [v])
  {
    buffer[offset] := v;
    next := offset + 1;
  }

  method PutWord(buffer: array<Byte>, offset: nat, v: Word) returns (next: nat)
    requires offset + 4 <= buffer.Length
    modifies buffer
    ensures next == offset + 4 && Put(old(buffer[..]), buffer[..], offset, Little(v))
  {
    ghost var s0 := buffer[..];
    next := PutByte(buffer, offset, v % 0x100);
    ghost var s1 := buffer[..];
    next := PutByte(buffer, next, v / 0x100 % 0x100);
    PutMore(s0, s1, buffer[..], offset, [v % 0x100], [v / 0x100 % 0x100]);
    ghost var s2 := buffer[..];
    next := PutByte(buffer, next, v / 0x1_0000 % 0x100);
    PutMore(s0, s2, buffer[..], offset, [v % 0x100] + [v / 0x100 % 0x100], [v / 0x1_0000 % 0x100]);
    ghost var s3 := buffer[..];
    next := PutByte(buffer, next, v / 0x100_0000);
    PutMore(s0, s3, buffer[..], offset, [v % 0x100] + [v / 0x100 % 0x100] + [v / 0x1_0000 % 0x100], [v / 0x100_0000]);
    assert [v % 0x100] + [v / 0x100 % 0x100] + [v / 0x1_0000 % 0x100] + [v / 0x100_0000] == Little(v);
  }

  method PutTwo(buffer: array<Byte>, offset: nat, u: Byte, v: Byte) returns (next: nat)
    requires offset + 2 <= buffer.Length
    modifies buffer
    ensures next == offset + 2 && Put(old(buffer[..]), buffer[..], offset, [u, v])
  {
    ghost var s0 := buffer[..];
    next := PutByte(buffer, offset, u);
    ghost var s1 := buffer[..];
    next := PutByte(buffer, next, v);
    PutMore(s0, s1, buffer[..], offset, [u], [v]);
    assert [u] + [v] == [u, v];
  }

  method PutTwoWord(buffer: array<Byte>, offset: nat, u: Byte, v: Byte, w: Word) returns (next: nat)
    requires offset + 6 <= buffer.Length
    modifies buffer
    ensures next == offset + 6 && Put(old(buffer[..]), buffer[..], offset, [u, v] + Little(w))
  {
    hide Little;
    ghost var s0 := buffer[..];
    next := PutTwo(buffer, offset, u, v);
    ghost var s1 := buffer[..];
    next := PutWord(buffer, next, w);
    PutMore(s0, s1, buffer[..], offset, [u, v], Little(w));
  }

  method PutByteWord(buffer: array<Byte>, offset: nat, u: Byte, w: Word) returns (next: nat)
    requires offset + 5 <= buffer.Length
    modifies buffer
    ensures next == offset + 5 && Put(old(buffer[..]), buffer[..], offset, [u] + Little(w))
  {
    hide Little;
    ghost var s0 := buffer[..];
    next := PutByte(buffer, offset, u);
    ghost var s1 := buffer[..];
    next := PutWord(buffer, next, w);
    PutMore(s0, s1, buffer[..], offset, [u], Little(w));
  }

  /** Writes an instruction to the buffer. */
  method EncodeInstruction(buffer: array<Byte>, offset: nat, id: Id, a: Word, b: Word, origin: Word) returns (next: nat)
    requires OperandsFit(id, a, b) && offset + Length(id) <= buffer.Length
    modifies buffer
    ensures next == offset + Length(id)
    ensures Put(old(buffer[..]), buffer[..], offset, Emit(id, a, b, offset, origin))
  {
    hide Put, Little, Distance;
    match id
    case Ret => next := PutByte(buffer, offset, Opcode(id));
    case Push | Pop => next := PutByte(buffer, offset, Opcode(id) + Reg(a));
    case Int => next := PutTwo(buffer, offset, Opcode(id), a % 0x100);
    case Jump(_) => next := PutTwo(buffer, offset, Opcode(id), Distance(a, origin, offset + 2) % 0x100);
    case Call | Jmp => next := PutByteWord(buffer, offset, Opcode(id), Distance(a, origin, offset + 5));
    case Unary(op) => next := PutTwo(buffer, offset, Opcode(id), 0xC0 + 8 * UnaryDigit(op) + Reg(a));
    case Binary(alu, form) =>
      match form
      case RI =>
        if alu.Mov? {
          next := PutByteWord(buffer, offset, Opcode(id) + Reg(a), b);
        } else {
          next := PutTwoWord(buffer, offset, Opcode(id), 0xC0 + 8 * AluDigit(alu) + Reg(a), b);
        }
      case RR => next := PutTwo(buffer, offset, Opcode(id), 0xC0 + 8 * Reg(b) + Reg(a));
      case RM => next := PutTwoWord(buffer, offset, Opcode(id), 5 + 8 * Reg(a), b);
      case MR => next := PutTwoWord(buffer, offset, Opcode(id), 5 + 8 * Reg(b), b);
      case RP => next := PutTwo(buffer, offset, Opcode(id), 8 * Reg(a) + Reg(b));
      case PR => next := PutTwo(buffer, offset, Opcode(id), 8 * Reg(b) + Reg(a));
  }

  function DataBytes(width: Width, v: Word): (s: seq<Byte>)
    ensures |s| == match width case Doubles => 4 case Words => 2 case Bytes => 1
  {
    match width
    case Doubles => Little(v)
    case Words => [v % 0x100, v / 0x100 % 0x100]
    case Bytes => [v % 0x100]
  }

  /** Writes one value to the buffer. */
  method EncodeData(buffer: array<Byte>, offset: nat, width: Width, v: Word) returns (next: nat)
    requires offset + |DataBytes(width, v)| <= buffer.Length
    modifies buffer
    ensures next == offset + |DataBytes(width, v)| && Put(old(buffer[..]), buffer[..], offset, DataBytes(width, v))
  {
    hide Put, Little;
    match width
    case Doubles => next := PutWord(buffer, offset, v);
    case Words => next := PutTwo(buffer, offset, v % 0x100, v / 0x100 % 0x100);
    case Bytes => next := PutByte(buffer, offset, v % 0x100);
  }

  // ----- symbols -----

  datatype Ref = Ref(offset: nat, symbol: nat, operand: nat, id: Id, a: Word, b: Word)

  /** The tables of the assembler. An empty name ends the symbols, an offset of zero the references. */
  class Globals {
    const names: array<string>
    const values: array<Word>
    const refs: array<Ref>
    var origin: Word

    constructor ()
      ensures fresh(names) && fresh(values) && fresh(refs)
      ensures names.Length == SYMBOLS && values.Length == SYMBOLS && refs.Length == REFERENCES && origin == ORIGIN
      ensures forall i :: 0 <= i < SYMBOLS ==> names[i] == "" && values[i] == 0
      ensures forall i :: 0 <= i < REFERENCES ==> refs[i].offset == 0
    {
      names := new string[SYMBOLS](_ => "");
      values := new Word[SYMBOLS](_ => 0);
      refs := new Ref[REFERENCES](_ => Ref(0, 0, 0, Push, 0, 0));
      origin := ORIGIN;
    }
  }

  /** The symbols of the table are those of `list`. */
  ghost predicate Filled(names: seq<string>, list: seq<string>) {
    && |list| <= |names| && names[..|list|] == list
    && (forall i :: 0 <= i < |list| ==> list[i] != "")
    && (forall i :: |list| <= i < |names| ==> names[i] == "")
    && NoDup(list)
  }

  function WithName(list: seq<string>, name: string): seq<string> {
    if name in list then list else list + [name]
  }

  /** A symbol is found again, or takes the first empty place. Names are kept up to 7 symbols. */
  method FindOrAddSymbol(t: Globals, name: string, ghost list: seq<string>) returns (s: nat)
    requires Filled(t.names[..], list) && name != "" && |name| <= SYMBOL_MAX
    requires |WithName(list, name)| <= t.names.Length
    modifies t.names
    ensures Filled(t.names[..], WithName(list, name))
    ensures s < |WithName(list, name)| && WithName(list, name)[s] == name
  {
    ghost var all := t.names[..];
    s := 0;
    while s < t.names.Length
      invariant 0 <= s <= |list| && t.names[..] == all
      invariant forall i :: 0 <= i < s ==> list[i] != name
    {
      if t.names[s] == "" {
        assert all[s] == "" && s == |list|;
        assert name[..|name|] == name;
        t.names[s] := name[..Min(|name|, SYMBOL_MAX)];
        assert t.names[..] == all[s := name];
        return s;
      } else if t.names[s] == name {
        assert list[s] == all[s];
        return s;
      }
      assert list[s] == all[s];
      s := s + 1;
    }
    assert false;
  }

  /** A reference takes the first place that looks empty; when there is none it is dropped. */
  method AppendSymbolRef(t: Globals, ref: Ref, ghost used: nat)
    requires used <= t.refs.Length && t.refs.Length == REFERENCES
    requires forall i :: 0 <= i < used ==> t.refs[i].offset != 0
    requires forall i :: used <= i < t.refs.Length ==> t.refs[i].offset == 0
    modifies t.refs
    ensures forall i :: 0 <= i < t.refs.Length && i != used ==> t.refs[i] == old(t.refs[i])
    ensures used < t.refs.Length ==> t.refs[used] == ref
  {
    var r := 0;
    while r < t.refs.Length
      invariant 0 <= r <= used
      invariant forall i :: 0 <= i < t.refs.Length ==> t.refs[i] == old(t.refs[i])
    {
      if t.refs[r].offset == 0 {
        t.refs[r] := ref;
        break;
      }
      r := r + 1;
    }
  }

  // ----- what a program means -----

  /** The value an operand has before symbols are known. */
  function Guess(op: Operand): Word {
    match op case Named(r, _) => r case Number(v, _) => v case Symbol(_, _, g) => g
  }

  function GuessAt(operands: seq<Operand>, i: nat): Word {
    if i < |operands| then Guess(operands[i]) else 0
  }

  /** The last operand that is a symbol. */
  function SymbolIn(operands: seq<Operand>): (r: Option<nat>)
    ensures r.Some? ==> r.value < |operands| && operands[r.value].Symbol?
    ensures r.None? ==> forall i :: 0 <= i < |operands| ==> !operands[i].Symbol?
  {
    if operands == [] then None
    else if operands[|operands|-1].Symbol? then Some(|operands|-1) else SymbolIn(operands[..|operands|-1])
  }

  predicate OperandOk(op: Operand) {
    match op
    case Named(r, _) => IsRegister(r)
    case Number(_, _) => true
    case Symbol(name, _, _) => name != "" && |name| <= SYMBOL_MAX
  }

  /** Names are kept whole, and there are at most two operands. */
  predicate ItemOk(item: Item) {
    match item
    case Org(_) => true
    case Label(name) => name != "" && |name| <= SYMBOL_MAX
    case Data(name, _, _) => name != "" && |name| <= SYMBOL_MAX
    case Code(_, operands) => |operands| <= 2 && forall i :: 0 <= i < |operands| ==> OperandOk(operands[i])
  }

  function IdOf(item: Item): Option<Id>
    requires item.Code?
  {
    FindFrom(item.mnemonic, KindsOf(item.operands), 0)
  }

  predicate Known(item: Item) { item.Code? ==> IdOf(item).Some? }

  function DataOf(width: Width, values: seq<Word>): seq<Byte> {
    if values == [] then [] else DataOf(width, values[..|values|-1]) + DataBytes(width, values[|values|-1])
  }

  /** Operands of a known instruction fit its row, whatever its symbol stands for. */
  lemma KnownFits(item: Item, v: Word)
    requires ItemOk(item) && item.Code? && IdOf(item).Some?
    ensures OperandsFit(IdOf(item).value, GuessAt(item.operands, 0), GuessAt(item.operands, 1))
    ensures SymbolIn(item.operands) == Some(0) ==> OperandsFit(IdOf(item).value, v, GuessAt(item.operands, 1))
    ensures SymbolIn(item.operands) == Some(1) ==> OperandsFit(IdOf(item).value, GuessAt(item.operands, 0), v)
    ensures SymbolIn(item.operands).Some? ==> SymbolIn(item.operands).value < 2
  {
    var ops := item.operands;
    FoundFits(item.mnemonic, KindsOf(ops), 0);
    assert |ops| > 0 ==> KindsOf(ops)[0] == KindOf(ops[0]) && OperandOk(ops[0]);
    assert |ops| > 1 ==> KindsOf(ops)[1] == KindOf(ops[1]) && OperandOk(ops[1]);
    hide FindFrom, Mnemonic;
  }

  /** A known instruction has at most one operand that can be a symbol. */
  lemma OneSymbol(item: Item)
    requires item.Code? && IdOf(item).Some? && |item.operands| == 2
    ensures !(item.operands[0].Symbol? && item.operands[1].Symbol?)
  {
    var ops := item.operands;
    FoundFits(item.mnemonic, KindsOf(ops), 0);
    assert KindsOf(ops)[0] == KindOf(ops[0]) && KindsOf(ops)[1] == KindOf(ops[1]);
    hide FindFrom, Mnemonic;
  }

  /** No row with an unknown operand is ever chosen: `mul`, `div` and `not` cannot be assembled. */
  lemma NeverUnary(item: Item)
    requires item.Code? && IdOf(item).Some?
    ensures !IdOf(item).value.Unary?
  {
    var ops := item.operands;
    FoundFits(item.mnemonic, KindsOf(ops), 0);
    assert |ops| > 1 ==> KindsOf(ops)[1] == KindOf(ops[1]);
    hide FindFrom, Mnemonic;
  }

  // ----- the program, line by line -----

  function SizeOf(item: Item): nat {
    match item
    case Data(_, width, values) => |DataOf(width, values)|
    case Code(_, _) => if IdOf(item).Some? then Length(IdOf(item).value) else 0
    case _ => 0
  }

  /** Where line `k` starts in the output. */
  function OffsetAt(items: seq<Item>, k: nat): nat
    requires k <= |items|
  {
    if k == 0 then 0 else OffsetAt(items, k - 1) + SizeOf(items[k-1])
  }

  /** The origin in force before line `k`. */
  function OriginAt(items: seq<Item>, k: nat): Word
    requires k <= |items|
  {
    if k == 0 then ORIGIN else if items[k-1].Org? then items[k-1].origin else OriginAt(items, k - 1)
  }

  predicate Defines(item: Item, name: string) {
    (item.Label? || item.Data?) && item.name == name
  }

  /** Where a symbol was last defined in the first `k` lines, or zero. */
  function ValueAt(items: seq<Item>, k: nat, name: string): nat
    requires k <= |items|
  {
    if k == 0 then 0 else if Defines(items[k-1], name) then OffsetAt(items, k - 1) else ValueAt(items, k - 1, name)
  }

  /** Symbols of the first lines, in the order in which they turn up. */
  function NamesAt(items: seq<Item>, k: nat): seq<string>
    requires k <= |items|
  {
    if k == 0 then [] else NamesWith(NamesAt(items, k - 1), items[k-1])
  }

  function NamesWith(list: seq<string>, item: Item): seq<string> {
    match item
    case Org(_) => list
    case Label(name) => WithName(list, name)
    case Data(name, _, _) => WithName(list, name)
    case Code(_, operands) => NamesOf(list, operands)
  }

  function NamesOf(list: seq<string>, operands: seq<Operand>): seq<string> {
    if operands == [] then list
    else
      var rest := NamesOf(list, operands[..|operands|-1]);
      if operands[|operands|-1].Symbol? then WithName(rest, operands[|operands|-1].name) else rest
  }

  /** Line `i` refers to a symbol. */
  predicate Refers(items: seq<Item>, i: nat)
    requires i < |items|
  {
    items[i].Code? && SymbolIn(items[i].operands).Some?
  }

  /** Lines whose references are kept: the first 32 that do not start at offset zero. */
  function KeptAt(items: seq<Item>, k: nat): (kept: seq<nat>)
    requires k <= |items|
    ensures |kept| <= REFERENCES
    ensures forall r :: 0 <= r < |kept| ==> kept[r] < k && Refers(items, kept[r])
  {
    if k == 0 then []
    else
      var before := KeptAt(items, k - 1);
      if Refers(items, k - 1) && OffsetAt(items, k - 1) > 0 && |before| < REFERENCES then before + [k - 1] else before
  }

  /** The operands of line `i` with its symbol standing for `v`. */
  function Resolved(item: Item, v: Word): (Word, Word)
    requires item.Code?
  {
    var a, b := GuessAt(item.operands, 0), GuessAt(item.operands, 1);
    match SymbolIn(item.operands)
    case Some(0) => (v, b)
    case Some(1) => (a, v)
    case _ => (a, b)
  }

  predicate ProgramOk(items: seq<Item>) {
    forall i :: 0 <= i < |items| ==> ItemOk(items[i]) && Known(items[i])
  }

  lemma OkAt(items: seq<Item>, i: nat)
    requires ProgramOk(items) && i < |items|
    ensures ItemOk(items[i]) && Known(items[i])
  {}

  lemma {:induction false} OffsetMonotone(items: seq<Item>, i: nat, j: nat)
    requires i <= j <= |items|
    ensures OffsetAt(items, i) <= OffsetAt(items, j)
  {
    hide SizeOf;
    if i < j { OffsetMonotone(items, i, j - 1); }
  }

  /** What the first pass writes for line `i`. */
  function FirstBytes(items: seq<Item>, i: nat): seq<Byte>
    requires ProgramOk(items) && i < |items|
  {
    match items[i]
    case Data(_, width, values) => DataOf(width, values)
    case Code(_, operands) =>
      OkAt(items, i);
      KnownFits(items[i], 0);
      Emit(IdOf(items[i]).value, GuessAt(operands, 0), GuessAt(operands, 1), OffsetAt(items, i), OriginAt(items, i))
    case _ => []
  }

  /** The address a symbol stands for once the program is read. */
  function AddressOf(items: seq<Item>, name: string): Word {
    (ValueAt(items, |items|, name) + OriginAt(items, |items|)) % WORD
  }

  /** What line `i` should be, all symbols known and the origin being the final one. */
  function FinalBytes(items: seq<Item>, i: nat): seq<Byte>
    requires ProgramOk(items) && i < |items|
  {
    match items[i]
    case Data(_, width, values) => DataOf(width, values)
    case Code(_, operands) =>
      OkAt(items, i);
      KnownFits(items[i], 0);
      var v := match SymbolIn(operands) case Some(s) => AddressOf(items, operands[s].name) case None => 0;
      KnownFits(items[i], v);
      Emit(IdOf(items[i]).value, Resolved(items[i], v).0, Resolved(items[i], v).1, OffsetAt(items, i),
        OriginAt(items, |items|))
    case _ => []
  }

  lemma BytesLength(items: seq<Item>, i: nat)
    requires ProgramOk(items) && i < |items|
    ensures |FirstBytes(items, i)| == SizeOf(items[i]) && |FinalBytes(items, i)| == SizeOf(items[i])
  {
    OkAt(items, i);
    hide ProgramOk, Emit, Length, OffsetAt, OriginAt, IdOf, DataOf;
    if items[i].Code? {
      var id, ops := IdOf(items[i]).value, items[i].operands;
      KnownFits(items[i], 0);
      EmitLength(id, GuessAt(ops, 0), GuessAt(ops, 1), OffsetAt(items, i), OriginAt(items, i));
      var v := match SymbolIn(ops) case Some(s) => AddressOf(items, ops[s].name) case None => 0;
      KnownFits(items[i], v);
      EmitLength(id, Resolved(items[i], v).0, Resolved(items[i], v).1, OffsetAt(items, i), OriginAt(items, |items|));
    }
  }

  // ----- the first pass -----

  /** Lines of the output up to line `k`: the final bytes for those in `done`, the first ones for the rest. */
  ghost predicate Lines(out: seq<Byte>, items: seq<Item>, k: nat, done: seq<nat>)
    requires ProgramOk(items) && k <= |items|
  {
    && OffsetAt(items, k) <= |out|
    && forall i :: 0 <= i < k ==> LineAt(out, items, i, i in done)
  }

  ghost predicate LineAt(out: seq<Byte>, items: seq<Item>, i: nat, done: bool)
    requires ProgramOk(items) && i < |items|
  {
    && OffsetAt(items, i) <= OffsetAt(items, i + 1) <= |out|
    && out[OffsetAt(items, i)..OffsetAt(items, i + 1)] == if done then FinalBytes(items, i) else FirstBytes(items, i)
  }

  /** Writing one line leaves the others alone. */
  lemma LineKept(out: seq<Byte>, out': seq<Byte>, items: seq<Item>, i: nat, done: bool, j: nat, bytes: seq<Byte>)
    requires ProgramOk(items) && i < |items| && j < |items| && i != j
    requires LineAt(out, items, i, done) && |bytes| == SizeOf(items[j]) && Put(out, out', OffsetAt(items, j), bytes)
    ensures LineAt(out', items, i, done)
  {
    hide FirstBytes, FinalBytes, SizeOf;
    var lo, hi := OffsetAt(items, i), OffsetAt(items, i + 1);
    assert OffsetAt(items, j + 1) == OffsetAt(items, j) + SizeOf(items[j]);
    if i < j { OffsetMonotone(items, i + 1, j); } else { OffsetMonotone(items, j + 1, i); }
    assert out'[lo..hi] == out[lo..hi];
  }

  lemma LinePut(out: seq<Byte>, out': seq<Byte>, items: seq<Item>, k: nat, j: nat, done: seq<nat>)
    requires ProgramOk(items) && j < k <= |items| && Lines(out, items, k, done)
    requires Put(out, out', OffsetAt(items, j), FinalBytes(items, j))
    ensures Lines(out', items, k, done + [j])
  {
    BytesLength(items, j);
    hide FirstBytes, FinalBytes, SizeOf, LineAt;
    forall i | 0 <= i < k ensures LineAt(out', items, i, i in done + [j]) {
      if i != j {
        LineKept(out, out', items, i, i in done, j, FinalBytes(items, j));
      } else {
        LineNew(out, out', items, j, true, FinalBytes(items, j));
      }
    }
  }

  lemma LineNew(out: seq<Byte>, out': seq<Byte>, items: seq<Item>, j: nat, done: bool, bytes: seq<Byte>)
    requires ProgramOk(items) && j < |items| && Put(out, out', OffsetAt(items, j), bytes) && |bytes| == SizeOf(items[j])
    requires bytes == if done then FinalBytes(items, j) else FirstBytes(items, j)
    ensures LineAt(out', items, j, done)
  {}

  lemma OffsetNext(items: seq<Item>, k: nat)
    requires k < |items|
    ensures OffsetAt(items, k + 1) == OffsetAt(items, k) + SizeOf(items[k])
  {}

  lemma LineAdded(out: seq<Byte>, out': seq<Byte>, items: seq<Item>, k: nat)
    requires ProgramOk(items) && k < |items| && Lines(out, items, k, [])
    requires Put(out, out', OffsetAt(items, k), FirstBytes(items, k))
    ensures Lines(out', items, k + 1, [])
  {
    hide FirstBytes, FinalBytes, SizeOf, LineAt, OffsetAt, ProgramOk;
    BytesLength(items, k);
    OffsetNext(items, k);
    forall i | 0 <= i < k + 1 ensures LineAt(out', items, i, i in []) {
      var none: seq<nat> := [];
      assert (i in none) == false;
      if i < k {
        assert LineAt(out, items, i, i in none);
        LineKept(out, out', items, i, false, k, FirstBytes(items, k));
      } else {
        LineNew(out, out', items, k, false, FirstBytes(items, k));
      }
    }
  }

  lemma {:induction false} Unnamed(items: seq<Item>, k: nat, name: string)
    requires k <= |items| && name !in NamesAt(items, k)
    ensures ValueAt(items, k, name) == 0
  {
    if k > 0 {
      NamesKept(NamesAt(items, k - 1), items[k-1]);
      Unnamed(items, k - 1, name);
    }
  }

  lemma {:induction false} OperandNamesKept(list: seq<string>, operands: seq<Operand>)
    ensures list <= NamesOf(list, operands)
  {
    if operands != [] { OperandNamesKept(list, operands[..|operands|-1]); }
  }

  lemma NamesKept(list: seq<string>, item: Item)
    ensures list <= NamesWith(list, item)
    ensures forall name :: Defines(item, name) ==> name in NamesWith(list, item)
  {
    if item.Code? { OperandNamesKept(list, item.operands); }
  }

  lemma {:induction false} NamesGrow(items: seq<Item>, i: nat, j: nat)
    requires i <= j <= |items|
    ensures NamesAt(items, i) <= NamesAt(items, j)
  {
    if i < j {
      NamesGrow(items, i, j - 1);
      NamesKept(NamesAt(items, j - 1), items[j-1]);
    }
  }

  /** The symbol table after `k` lines. */
  ghost predicate SymbolsDone(names: seq<string>, values: seq<Word>, items: seq<Item>, k: nat)
    requires k <= |items|
  {
    SymbolsValued(names, values, items, k, NamesAt(items, k))
  }

  /** The symbols of `list`, with the values they have before line `k`. */
  ghost predicate SymbolsValued(names: seq<string>, values: seq<Word>, items: seq<Item>, k: nat, list: seq<string>)
    requires k <= |items|
  {
    && |names| == |values| == SYMBOLS && Filled(names, list)
    && (forall i :: 0 <= i < |list| ==> values[i] == ValueAt(items, k, list[i]))
    && (forall i :: |list| <= i < SYMBOLS ==> values[i] == 0)
  }

  lemma NotEarlier(s: seq<string>, t: seq<string>, i: nat)
    requires s <= t && NoDup(t) && |s| <= i < |t|
    ensures t[i] !in s
  {
    forall j | 0 <= j < |s| ensures s[j] != t[i] { assert s[j] == t[j]; }
  }

  lemma MoreSymbols(names: seq<string>, names': seq<string>, values: seq<Word>, items: seq<Item>, k: nat,
                    list: seq<string>, list': seq<string>)
    requires k <= |items| && SymbolsValued(names, values, items, k, list) && |names'| == |names|
    requires NamesAt(items, k) <= list <= list' && Filled(names', list')
    ensures SymbolsValued(names', values, items, k, list')
  {
    forall i | |list| <= i < |list'| ensures values[i] == ValueAt(items, k, list'[i]) {
      assert NamesAt(items, k) <= list';
      NotEarlier(NamesAt(items, k), list', i);
      Unnamed(items, k, list'[i]);
    }
  }

  /** The reference made by line `i`. */
  ghost predicate RefIs(ref: Ref, items: seq<Item>, i: nat, list: seq<string>)
    requires i < |items| && Refers(items, i)
  {
    var item := items[i];
    var s := SymbolIn(item.operands).value;
    && IdOf(item).Some?
    && ref == Ref(OffsetAt(items, i), ref.symbol, s, IdOf(item).value, GuessAt(item.operands, 0),
      GuessAt(item.operands, 1))
    && ref.symbol < |list| && list[ref.symbol] == item.operands[s].name
  }

  /** The references kept after `k` lines. */
  ghost predicate RefsDone(refs: seq<Ref>, items: seq<Item>, k: nat, list: seq<string>)
    requires k <= |items|
  {
    && |refs| == REFERENCES
    && (forall r :: 0 <= r < |KeptAt(items, k)| ==>
         RefIs(refs[r], items, KeptAt(items, k)[r], list) && refs[r].offset != 0)
    && (forall r :: |KeptAt(items, k)| <= r < REFERENCES ==> refs[r].offset == 0)
  }

  lemma SymbolSet(names: seq<string>, values: seq<Word>, items: seq<Item>, k: nat, s: nat, name: string, v: Word)
    requires k < |items| && Defines(items[k], name) && v == OffsetAt(items, k)
    requires SymbolsValued(names, values, items, k, NamesAt(items, k + 1)) && s < SYMBOLS
    requires s < |NamesAt(items, k + 1)| && NamesAt(items, k + 1)[s] == name
    ensures SymbolsDone(names, values[s := v], items, k + 1)
  {
    hide NamesAt, OffsetAt;
    var list := NamesAt(items, k + 1);
    forall i | 0 <= i < |list| ensures values[s := v][i] == ValueAt(items, k + 1, list[i]) {}
  }

  /** A label or data line gives its symbol the current offset. */
  method DefineSymbol(t: Globals, name: string, offset: Word, ghost items: seq<Item>, ghost k: nat)
    requires k < |items| && ItemOk(items[k]) && Defines(items[k], name) && offset == OffsetAt(items, k)
    requires SymbolsDone(t.names[..], t.values[..], items, k) && |NamesAt(items, k + 1)| <= SYMBOLS
    modifies t.names, t.values
    ensures SymbolsDone(t.names[..], t.values[..], items, k + 1)
  {
    hide Filled, OffsetAt;
    ghost var list, names := NamesAt(items, k), t.names[..];
    var s := FindOrAddSymbol(t, name, list);
    NamesKept(list, items[k]);
    MoreSymbols(names, t.names[..], t.values[..], items, k, list, NamesAt(items, k + 1));
    ghost var values := t.values[..];
    t.values[s] := offset;
    assert t.values[..] == values[s := offset];
    SymbolSet(t.names[..], values, items, k, s, name, offset);
  }

  lemma SymbolsSame(names: seq<string>, values: seq<Word>, items: seq<Item>, k: nat)
    requires k < |items| && !items[k].Label? && !items[k].Data?
    requires SymbolsValued(names, values, items, k, NamesAt(items, k + 1))
    ensures SymbolsDone(names, values, items, k + 1)
  {
    hide Filled, OffsetAt, NamesAt;
  }

  lemma OperandNames(list: seq<string>, operands: seq<Operand>, op: nat)
    requires op < |operands|
    ensures NamesOf(list, operands[..op+1]) ==
      if operands[op].Symbol? then WithName(NamesOf(list, operands[..op]), operands[op].name)
      else NamesOf(list, operands[..op])
    ensures NamesOf(list, operands[..op+1]) <= NamesOf(list, operands)
    ensures SymbolIn(operands[..op+1]) == if operands[op].Symbol? then Some(op) else SymbolIn(operands[..op])
  {
    assert operands[..op+1][..op] == operands[..op];
    PrefixNames(list, operands, op + 1);
  }

  lemma {:induction false} PrefixNames(list: seq<string>, operands: seq<Operand>, op: nat)
    requires op <= |operands|
    ensures NamesOf(list, operands[..op]) <= NamesOf(list, operands)
    decreases |operands|
  {
    if op < |operands| {
      var less := operands[..|operands|-1];
      assert less[..op] == operands[..op];
      PrefixNames(list, less, op);
    } else {
      assert operands[..op] == operands;
    }
  }

  /** Looks up the symbols among the operands. The last one is the one to remember. */
  method FindSymbols(t: Globals, operands: seq<Operand>, ghost list: seq<string>)
    returns (symbol: nat, nas: Option<nat>)
    requires Filled(t.names[..], list) && |NamesOf(list, operands)| <= t.names.Length
    requires forall i :: 0 <= i < |operands| ==> OperandOk(operands[i])
    modifies t.names
    ensures Filled(t.names[..], NamesOf(list, operands)) && nas == SymbolIn(operands)
    ensures nas.Some? ==>
      symbol < |NamesOf(list, operands)| && NamesOf(list, operands)[symbol] == operands[nas.value].name
  {
    hide Filled;
    symbol, nas := 0, None;
    var op := 0;
    assert operands[..0] == [];
    while op < |operands|
      invariant 0 <= op <= |operands|
      invariant Filled(t.names[..], NamesOf(list, operands[..op])) && nas == SymbolIn(operands[..op])
      invariant nas.Some? ==> nas.value < op && symbol < |NamesOf(list, operands[..op])|
      invariant nas.Some? ==> NamesOf(list, operands[..op])[symbol] == operands[nas.value].name
    {
      OperandNames(list, operands, op);
      if operands[op].Symbol? {
        assert OperandOk(operands[op]);
        symbol := FindOrAddSymbol(t, operands[op].name, NamesOf(list, operands[..op]));
        nas := Some(op);
      }
      op := op + 1;
    }
    assert operands[..op] == operands;
  }

  lemma RefsSame(refs: seq<Ref>, items: seq<Item>, k: nat, list: seq<string>, list': seq<string>)
    requires k <= |items| && RefsDone(refs, items, k, list) && list <= list'
    ensures RefsDone(refs, items, k, list')
  {
    hide KeptAt, IdOf, OffsetAt;
  }

  lemma RefsNext(refs: seq<Ref>, refs': seq<Ref>, items: seq<Item>, k: nat, list: seq<string>, ref: Ref)
    requires k < |items| && RefsDone(refs, items, k, list) && Refers(items, k) && RefIs(ref, items, k, list)
    requires |refs'| == |refs|
    requires var used := |KeptAt(items, k)|;
      && (forall i :: 0 <= i < |refs| && i != used ==> refs'[i] == refs[i])
      && (used < |refs| ==> refs'[used] == ref)
    ensures RefsDone(refs', items, k + 1, list)
  {
    hide IdOf, OffsetAt;
    var kept, kept' := KeptAt(items, k), KeptAt(items, k + 1);
    forall r | 0 <= r < |kept'| ensures RefIs(refs'[r], items, kept'[r], list) && refs'[r].offset != 0 {
      if r < |kept| { assert kept'[r] == kept[r]; }
    }
  }

  lemma RefsQuiet(refs: seq<Ref>, items: seq<Item>, k: nat, list: seq<string>)
    requires k < |items| && RefsDone(refs, items, k, list) && !Refers(items, k)
    ensures RefsDone(refs, items, k + 1, list)
  {
    assert KeptAt(items, k + 1) == KeptAt(items, k);
    hide IdOf, OffsetAt, KeptAt;
  }

  // ----- one line -----

  /** The output after `k` lines, of a program in which every instruction is known. */
  ghost predicate FirstDone(out: seq<Byte>, items: seq<Item>, k: nat)
    requires k <= |items|
  {
    ProgramOk(items) ==> Lines(out, items, k, [])
  }

  lemma FirstNext(out: seq<Byte>, out': seq<Byte>, items: seq<Item>, k: nat, bytes: seq<Byte>)
    requires k < |items| && FirstDone(out, items, k)
    requires ProgramOk(items) ==> bytes == FirstBytes(items, k)
    requires Put(out, out', OffsetAt(items, k), bytes)
    ensures FirstDone(out', items, k + 1)
  {
    hide ProgramOk, Lines, FirstBytes, Put, OffsetAt;
    if ProgramOk(items) { LineAdded(out, out', items, k); }
  }

  lemma PutNothing(s: seq<Byte>, offset: nat)
    requires offset <= |s|
    ensures Put(s, s, offset, [])
  {}

  lemma {:induction false} DataPrefix(width: Width, values: seq<Word>, i: nat)
    requires i < |values|
    ensures DataOf(width, values[..i+1]) == DataOf(width, values[..i]) + DataBytes(width, values[i])
    ensures |DataOf(width, values[..i])| + |DataBytes(width, values[i])| <= |DataOf(width, values)|
    decreases |values|
  {
    hide DataBytes;
    assert values[..i+1][..i] == values[..i];
    if i + 1 < |values| {
      var less := values[..|values|-1];
      assert less[..i] == values[..i] && less[i] == values[i];
      DataPrefix(width, less, i);
    } else {
      assert values[..i+1] == values;
    }
  }

  /** Writes the values of a data line. */
  method EncodeValues(buffer: array<Byte>, offset: nat, width: Width, values: seq<Word>) returns (next: nat)
    requires offset + |DataOf(width, values)| <= buffer.Length
    modifies buffer
    ensures next == offset + |DataOf(width, values)| && Put(old(buffer[..]), buffer[..], offset, DataOf(width, values))
  {
    hide Put, DataBytes;
    ghost var s0 := buffer[..];
    next := offset;
    PutNothing(s0, offset);
    assert values[..0] == [];
    var n := 0;
    while n < |values|
      invariant 0 <= n <= |values| && next == offset + |DataOf(width, values[..n])|
      invariant Put(s0, buffer[..], offset, DataOf(width, values[..n]))
    {
      DataPrefix(width, values, n);
      ghost var s1 := buffer[..];
      next := EncodeData(buffer, next, width, values[n]);
      PutMore(s0, s1, buffer[..], offset, DataOf(width, values[..n]), DataBytes(width, values[n]));
      n := n + 1;
    }
    assert values[..n] == values;
  }

  /** Everything the first pass has built when line `k` comes up. */
  ghost predicate Reached(t: Globals, buffer: array<Byte>, items: seq<Item>, k: nat, offset: nat)
    reads t, t.names, t.values, t.refs, buffer
  {
    && k <= |items| && offset == OffsetAt(items, k) <= buffer.Length && t.origin == OriginAt(items, k)
    && SymbolsDone(t.names[..], t.values[..], items, k)
    && RefsDone(t.refs[..], items, k, NamesAt(items, k))
    && FirstDone(buffer[..], items, k)
  }

  /** An instruction line. It fails when the table has no such instruction. */
  method AssembleCode(t: Globals, buffer: array<Byte>, offset: nat, mnemonic: string, operands: seq<Operand>,
                      ghost items: seq<Item>, ghost k: nat)
    returns (ok: bool, next: nat)
    requires k < |items| && items[k] == Code(mnemonic, operands) && ItemOk(items[k])
    requires |NamesAt(items, k + 1)| <= SYMBOLS && OffsetAt(items, k + 1) <= buffer.Length
    requires Reached(t, buffer, items, k, offset)
    modifies t.names, t.refs, buffer
    ensures ok <==> Known(items[k])
    ensures ok ==> Reached(t, buffer, items, k + 1, next)
  {
    hide SymbolsDone, RefsDone, FirstDone, Filled, FindFrom, Put, Emit, Length, RefIs, KeptAt, SymbolsValued;
    ghost var list, list' := NamesAt(items, k), NamesAt(items, k + 1);
    OffsetNext(items, k);
    TableFilled(t.names[..], t.values[..], items, k);
    ghost var names, refs, out := t.names[..], t.refs[..], buffer[..];
    var symbol, nas := FindSymbols(t, operands, list);
    var found := FindInstruction(mnemonic, KindsOf(operands));
    if found.None? { return false, offset; }
    var id := found.value;
    NamesKept(list, items[k]);
    MoreSymbolsDone(names, t.names[..], t.values[..], items, k);
    RefsSame(refs, items, k, list, list');
    KnownFits(items[k], 0);
    var a, b := GuessAt(operands, 0), GuessAt(operands, 1);
    if nas.Some? {
      var ref := Ref(offset, symbol, nas.value, id, a, b);
      RefsShape(refs, items, k, list');
      AppendSymbolRef(t, ref, |KeptAt(items, k)|);
      RefMade(ref, items, k, list');
      RefsNext(refs, t.refs[..], items, k, list', ref);
    } else {
      RefsQuiet(refs, items, k, list');
    }
    next := EncodeInstruction(buffer, offset, id, a, b, t.origin);
    FirstNext(out, buffer[..], items, k, Emit(id, a, b, offset, t.origin));
    return true, next;
  }

  lemma TableFilled(names: seq<string>, values: seq<Word>, items: seq<Item>, k: nat)
    requires k <= |items| && SymbolsDone(names, values, items, k)
    ensures Filled(names, NamesAt(items, k)) && |names| == |values| == SYMBOLS
  {}

  lemma MoreSymbolsDone(names: seq<string>, names': seq<string>, values: seq<Word>, items: seq<Item>, k: nat)
    requires k < |items| && items[k].Code? && SymbolsDone(names, values, items, k) && |names'| == |names|
    requires Filled(names', NamesAt(items, k + 1))
    ensures SymbolsDone(names', values, items, k + 1)
  {
    hide Filled, SymbolsValued;
    NamesKept(NamesAt(items, k), items[k]);
    MoreSymbols(names, names', values, items, k, NamesAt(items, k), NamesAt(items, k + 1));
    SymbolsSame(names', values, items, k);
  }

  lemma RefsShape(refs: seq<Ref>, items: seq<Item>, k: nat, list: seq<string>)
    requires k <= |items| && RefsDone(refs, items, k, list)
    ensures |refs| == REFERENCES && |KeptAt(items, k)| <= REFERENCES
    ensures forall i :: 0 <= i < |KeptAt(items, k)| ==> refs[i].offset != 0
    ensures forall i :: |KeptAt(items, k)| <= i < REFERENCES ==> refs[i].offset == 0
  {
    hide RefIs;
  }

  lemma RefMade(ref: Ref, items: seq<Item>, k: nat, list: seq<string>)
    requires k < |items| && items[k].Code? && IdOf(items[k]).Some?
    requires SymbolIn(items[k].operands).Some?
    requires ref == Ref(OffsetAt(items, k), ref.symbol, SymbolIn(items[k].operands).value, IdOf(items[k]).value,
      GuessAt(items[k].operands, 0), GuessAt(items[k].operands, 1))
    requires ref.symbol < |list| && list[ref.symbol] == items[k].operands[ref.operand].name
    ensures Refers(items, k) && RefIs(ref, items, k, list)
  {}

  /** A label, data or origin line. */
  method AssembleOther(t: Globals, buffer: array<Byte>, offset: nat, item: Item, ghost items: seq<Item>, ghost k: nat)
    returns (next: nat)
    requires k < |items| && items[k] == item && !item.Code? && ItemOk(item)
    requires |NamesAt(items, k + 1)| <= SYMBOLS && OffsetAt(items, k + 1) <= buffer.Length < WORD
    requires Reached(t, buffer, items, k, offset)
    modifies t, t.names, t.values, buffer
    ensures Reached(t, buffer, items, k + 1, next)
  {
    hide SymbolsDone, RefsDone, FirstDone, Filled, Put, KeptAt, SymbolsValued, DataOf;
    ghost var list := NamesAt(items, k);
    OffsetNext(items, k);
    TableFilled(t.names[..], t.values[..], items, k);
    ghost var refs, out := t.refs[..], buffer[..];
    NamesKept(list, items[k]);
    RefsQuiet(refs, items, k, list);
    RefsSame(refs, items, k + 1, list, NamesAt(items, k + 1));
    next := offset;
    match item
    case Org(origin) =>
      t.origin := origin;
      SameTable(t.names[..], t.values[..], items, k);
      SymbolsSame(t.names[..], t.values[..], items, k);
      PutNothing(out, offset);
      FirstNext(out, out, items, k, []);
    case Label(name) =>
      DefineSymbol(t, name, offset, items, k);
      PutNothing(out, offset);
      FirstNext(out, out, items, k, []);
    case Data(name, width, values) =>
      DefineSymbol(t, name, offset, items, k);
      next := EncodeValues(buffer, offset, width, values);
      FirstNext(out, buffer[..], items, k, DataOf(width, values));
  }

  lemma SameTable(names: seq<string>, values: seq<Word>, items: seq<Item>, k: nat)
    requires k < |items| && items[k].Org? && SymbolsDone(names, values, items, k)
    ensures SymbolsValued(names, values, items, k, NamesAt(items, k + 1))
  {}

  lemma NothingReached(t: Globals, buffer: array<Byte>, items: seq<Item>)
    requires t.names.Length == SYMBOLS && t.values.Length == SYMBOLS && t.refs.Length == REFERENCES
    requires t.origin == ORIGIN
    requires forall i :: 0 <= i < SYMBOLS ==> t.names[i] == "" && t.values[i] == 0
    requires forall i :: 0 <= i < REFERENCES ==> t.refs[i].offset == 0
    ensures Reached(t, buffer, items, 0, 0)
  {
    hide FirstBytes;
  }

  /** Every line up to the first unknown instruction. */
  method FirstPass(t: Globals, buffer: array<Byte>, items: seq<Item>) returns (ok: bool, size: nat)
    requires Reached(t, buffer, items, 0, 0) && buffer.Length < WORD
    requires forall i :: 0 <= i < |items| ==> ItemOk(items[i])
    requires |NamesAt(items, |items|)| <= SYMBOLS && OffsetAt(items, |items|) <= buffer.Length
    modifies t, t.names, t.values, t.refs, buffer
    ensures ok <==> ProgramOk(items)
    ensures ok ==> Reached(t, buffer, items, |items|, size)
  {
    hide Reached, ItemOk, Known, OffsetAt, NamesAt;
    var k := 0;
    size := 0;
    while k < |items|
      invariant 0 <= k <= |items| && Reached(t, buffer, items, k, size)
      invariant forall i :: 0 <= i < k ==> Known(items[i])
    {
      NamesGrow(items, k + 1, |items|);
      OffsetMonotone(items, k + 1, |items|);
      match items[k] {
        case Code(mnemonic, operands) =>
          var more;
          more, size := AssembleCode(t, buffer, size, mnemonic, operands, items, k);
          if !more { return false, size; }
        case _ =>
          KnownOther(items[k]);
          size := AssembleOther(t, buffer, size, items[k], items, k);
      }
      k := k + 1;
    }
    return true, size;
  }

  lemma KnownOther(item: Item)
    requires !item.Code?
    ensures Known(item)
  {}

  // ----- the second pass -----

  lemma ReachedEnd(t: Globals, buffer: array<Byte>, items: seq<Item>, size: nat)
    requires ProgramOk(items) && Reached(t, buffer, items, |items|, size)
    ensures size == OffsetAt(items, |items|) <= buffer.Length && t.origin == OriginAt(items, |items|)
    ensures Lines(buffer[..], items, |items|, []) && RefsDone(t.refs[..], items, |items|, NamesAt(items, |items|))
    ensures SymbolsDone(t.names[..], t.values[..], items, |items|) && t.values.Length == SYMBOLS
    ensures t.refs.Length == REFERENCES
  {
    hide Lines, ProgramOk;
  }

  /** A kept reference leads to its line, and its symbol to the value of that symbol. */
  lemma KeptRef(refs: seq<Ref>, names: seq<string>, values: seq<Word>, items: seq<Item>, r: nat)
    requires RefsDone(refs, items, |items|, NamesAt(items, |items|)) && SymbolsDone(names, values, items, |items|)
    requires r < |KeptAt(items, |items|)|
    ensures r < |refs| && |values| == SYMBOLS && refs[r].offset != 0
    ensures var i := KeptAt(items, |items|)[r]; RefIs(refs[r], items, i, NamesAt(items, |items|))
    ensures var i := KeptAt(items, |items|)[r];
      && refs[r].symbol < SYMBOLS
      && values[refs[r].symbol] == ValueAt(items, |items|, items[i].operands[refs[r].operand].name)
  {
    hide NamesAt, ValueAt, KeptAt;
  }

  /** Encodes line `i` again with the address of its symbol, over what the first pass wrote there. */
  method ResolveOne(t: Globals, buffer: array<Byte>, ref: Ref, v: Word, ghost items: seq<Item>, ghost i: nat,
                    ghost done: seq<nat>)
    requires ProgramOk(items) && i < |items| && Refers(items, i) && RefIs(ref, items, i, NamesAt(items, |items|))
    requires v == AddressOf(items, items[i].operands[ref.operand].name) && t.origin == OriginAt(items, |items|)
    requires Lines(buffer[..], items, |items|, done)
    modifies buffer
    ensures Lines(buffer[..], items, |items|, done + [i])
  {
    hide Lines, ProgramOk, NamesAt, OffsetAt, ValueAt, OriginAt, Emit, Put, FindFrom, AddressOf;
    OkAt(items, i);
    KnownFits(items[i], v);
    RoomAt(buffer[..], items, i, done);
    ghost var out := buffer[..];
    // The symbol's operand gets its address
    var a, b := if ref.operand == 0 then v else ref.a, if ref.operand == 1 then v else ref.b;
    var next := EncodeInstruction(buffer, ref.offset, ref.id, a, b, t.origin);
    LinePut(out, buffer[..], items, |items|, i, done);
  }

  lemma RoomAt(out: seq<Byte>, items: seq<Item>, i: nat, done: seq<nat>)
    requires ProgramOk(items) && i < |items| && items[i].Code? && Lines(out, items, |items|, done)
    ensures IdOf(items[i]).Some? && OffsetAt(items, i) + Length(IdOf(items[i]).value) <= |out|
  {
    hide OffsetAt, Length, FindFrom, LineAt, ProgramOk;
    OkAt(items, i);
    OffsetNext(items, i);
    OffsetMonotone(items, i + 1, |items|);
  }

  /** Resolves the references in the table, up to the first empty one. */
  method SecondPass(t: Globals, buffer: array<Byte>, items: seq<Item>, size: nat)
    requires ProgramOk(items) && Reached(t, buffer, items, |items|, size)
    modifies buffer
    ensures Lines(buffer[..], items, |items|, KeptAt(items, |items|))
  {
    hide Lines, ProgramOk, RefsDone, SymbolsDone, NamesAt, OffsetAt, ValueAt, OriginAt, KeptAt, Reached, RefIs;
    ReachedEnd(t, buffer, items, size);
    ghost var kept := KeptAt(items, |items|);
    RefsShape(t.refs[..], items, |items|, NamesAt(items, |items|));
    var r := 0;
    assert kept[..0] == [];
    while r < t.refs.Length
      invariant 0 <= r <= |kept| && Lines(buffer[..], items, |items|, kept[..r])
    {
      if t.refs[r].offset == 0 { break; }
      KeptRef(t.refs[..], t.names[..], t.values[..], items, r);
      var ref := t.refs[r];
      AddressIs(t.values[ref.symbol], t.origin, items, kept[r], ref);
      ResolveOne(t, buffer, ref, (t.values[ref.symbol] + t.origin) % WORD, items, kept[r], kept[..r]);
      assert kept[..r] + [kept[r]] == kept[..r+1];
      r := r + 1;
    }
    assert kept[..r] == kept;
  }

  lemma AddressIs(value: Word, origin: Word, items: seq<Item>, i: nat, ref: Ref)
    requires i < |items| && Refers(items, i) && RefIs(ref, items, i, NamesAt(items, |items|))
    requires value == ValueAt(items, |items|, items[i].operands[ref.operand].name) && origin == OriginAt(items, |items|)
    ensures (value + origin) % WORD == AddressOf(items, items[i].operands[ref.operand].name)
  {}

  // ----- the whole assembler -----

  const OUTPUT_MAX := 1024   // bytes of the output buffer

  /** Assembles a program. There is output exactly when every instruction is known and some line
      writes a byte. */
  method Assemble(items: seq<Item>) returns (r: Option<seq<Byte>>)
    requires forall i :: 0 <= i < |items| ==> ItemOk(items[i])
    requires |NamesAt(items, |items|)| <= SYMBOLS && OffsetAt(items, |items|) <= OUTPUT_MAX
    ensures r.Some? <==> ProgramOk(items) && OffsetAt(items, |items|) > 0
    ensures r.Some? ==> |r.value| == OffsetAt(items, |items|) && Lines(r.value, items, |items|, KeptAt(items, |items|))
  {
    hide Reached, ItemOk, Lines, ProgramOk, KeptAt, NamesAt;
    var t := new Globals();
    var buffer := new Byte[OUTPUT_MAX](_ => 0);
    NothingReached(t, buffer, items);
    var ok, size := FirstPass(t, buffer, items);
    if !ok { return None; }
    ReachedEnd(t, buffer, items, size);
    if size == 0 { return None; }
    SecondPass(t, buffer, items, size);
    LinesCut(buffer[..], items, KeptAt(items, |items|));
    return Some(buffer[..size]);
  }

  lemma LinesCut(out: seq<Byte>, items: seq<Item>, done: seq<nat>)
    requires ProgramOk(items) && Lines(out, items, |items|, done)
    ensures Lines(out[..OffsetAt(items, |items|)], items, |items|, done)
  {
    hide ProgramOk, FirstBytes, FinalBytes, OffsetAt;
    var end := OffsetAt(items, |items|);
    forall i | 0 <= i < |items| ensures LineAt(out[..end], items, i, i in done) {
      OffsetMonotone(items, i + 1, |items|);
      assert LineAt(out, items, i, i in done);
      assert out[..end][OffsetAt(items, i)..OffsetAt(items, i + 1)] == out[OffsetAt(items, i)..OffsetAt(items, i + 1)];
    }
  }

  // ----- what the output should be -----

  /** One pass over the first `k` lines with all symbols known. */
  function Reference(items: seq<Item>, k: nat): seq<Byte>
    requires ProgramOk(items) && k <= |items|
  {
    if k == 0 then [] else Reference(items, k - 1) + FinalBytes(items, k - 1)
  }

  /** Lines that refer to a symbol. */
  function ReferringAt(items: seq<Item>, k: nat): nat
    requires k <= |items|
  {
    if k == 0 then 0 else ReferringAt(items, k - 1) + if Refers(items, k - 1) then 1 else 0
  }

  /** The origin is set before any instruction, no reference stands at the very start, and there are
      at most 32 of them. */
  predicate Clean(items: seq<Item>) {
    && (forall i :: 0 <= i < |items| && items[i].Code? ==> OriginAt(items, i) == OriginAt(items, |items|))
    && (forall i :: 0 <= i < |items| && Refers(items, i) ==> OffsetAt(items, i) > 0)
    && ReferringAt(items, |items|) <= REFERENCES
  }

  lemma OffsetStart(items: seq<Item>)
    ensures OffsetAt(items, 0) == 0
  {}

  lemma SliceStays(s: seq<Byte>, more: seq<Byte>, lo: nat, hi: nat)
    requires lo <= hi <= |s|
    ensures (s + more)[lo..hi] == s[lo..hi]
  {}

  lemma {:induction false} ReferenceLine(items: seq<Item>, k: nat, i: nat)
    requires ProgramOk(items) && i < k <= |items|
    ensures |Reference(items, k)| == OffsetAt(items, k)
    ensures OffsetAt(items, i) <= OffsetAt(items, i + 1) <= OffsetAt(items, k)
    ensures Reference(items, k)[OffsetAt(items, i)..OffsetAt(items, i + 1)] == FinalBytes(items, i)
  {
    hide ProgramOk, FinalBytes, OffsetAt;
    ReferenceLength(items, k - 1);
    BytesLength(items, k - 1);
    OffsetNext(items, k - 1);
    if i < k - 1 {
      ReferenceLine(items, k - 1, i);
      SliceStays(Reference(items, k - 1), FinalBytes(items, k - 1), OffsetAt(items, i), OffsetAt(items, i + 1));
    } else {
      ReferenceLength(items, k);
    }
  }

  lemma {:induction false} ReferenceLength(items: seq<Item>, k: nat)
    requires ProgramOk(items) && k <= |items|
    ensures |Reference(items, k)| == OffsetAt(items, k)
  {
    hide ProgramOk, FinalBytes;
    if k > 0 {
      ReferenceLength(items, k - 1);
      BytesLength(items, k - 1);
    }
  }

  // ----- lines that need no correction -----

  /** Lines before line `k` that refer to a symbol and do not start at offset zero. */
  function CountedAt(items: seq<Item>, k: nat): nat
    requires k <= |items|
  {
    if k == 0 then 0
    else CountedAt(items, k - 1) + if Refers(items, k - 1) && OffsetAt(items, k - 1) > 0 then 1 else 0
  }

  /** The reference of line `i` finds a place that will not look empty. */
  predicate Recorded(items: seq<Item>, i: nat)
    requires i < |items|
  {
    Refers(items, i) && OffsetAt(items, i) > 0 && CountedAt(items, i) < REFERENCES
  }

  /** The references kept are those that do not start at offset zero and have less than 32 such before them. */
  lemma {:induction false} KeptMeaning(items: seq<Item>, k: nat)
    requires k <= |items|
    ensures |KeptAt(items, k)| == Min(CountedAt(items, k), REFERENCES)
    ensures forall i: nat :: i < |items| ==> (i in KeptAt(items, k) <==> i < k && Recorded(items, i))
  {
    hide OffsetAt, Refers;
    if k > 0 { KeptMeaning(items, k - 1); }
  }

  /** The operands of line `i` when its symbol stands for its address. */
  function Meant(items: seq<Item>, i: nat): (Word, Word)
    requires i < |items| && items[i].Code?
  {
    var ops := items[i].operands;
    Resolved(items[i], match SymbolIn(ops) case Some(s) => AddressOf(items, ops[s].name) case None => 0)
  }

  /** The first pass writes the final bytes of line `i`. The letters of its symbol parse to the address:
      modulo 256 for an interrupt number, from the final origin on and modulo 256 or a word for a jump,
      and exactly for an immediate or the address of a load. A store does not show its address. */
  predicate SettledBy(items: seq<Item>, i: nat)
    requires i < |items|
  {
    items[i].Code? && IdOf(items[i]).Some? ==>
      var a, b := GuessAt(items[i].operands, 0), GuessAt(items[i].operands, 1);
      var a', b' := Meant(items, i).0, Meant(items, i).1;
      var origin, origin' := OriginAt(items, i), OriginAt(items, |items|);
      match IdOf(items[i]).value
      case Int => a % 0x100 == a' % 0x100
      case Jump(_) => (a - origin) % 0x100 == (a' - origin') % 0x100
      case Call | Jmp => (a - origin) % WORD == (a' - origin') % WORD
      case Binary(_, RI) | Binary(_, RM) => b == b'
      case _ => true
  }

  /** Operands that are registers do not depend on any symbol. */
  lemma RegistersMeant(items: seq<Item>, i: nat)
    requires i < |items| && items[i].Code? && IdOf(items[i]).Some?
    ensures var a, b := GuessAt(items[i].operands, 0), GuessAt(items[i].operands, 1);
      var a', b' := Meant(items, i).0, Meant(items, i).1;
      match IdOf(items[i]).value
      case Ret | Int | Call | Jmp | Jump(_) => true
      case Push | Pop | Unary(_) => a == a'
      case Binary(_, RI) | Binary(_, RM) => a == a'
      case Binary(_, MR) => b == b'
      case Binary(_, _) => a == a' && b == b'
  {
    var ops := items[i].operands;
    FoundFits(items[i].mnemonic, KindsOf(ops), 0);
    assert |ops| > 0 ==> KindsOf(ops)[0] == KindOf(ops[0]);
    assert |ops| > 1 ==> KindsOf(ops)[1] == KindOf(ops[1]);
    hide FindFrom, Mnemonic, AddressOf;
  }

  lemma SettledAlike(items: seq<Item>, i: nat)
    requires i < |items| && items[i].Code? && IdOf(items[i]).Some?
    ensures SettledBy(items, i)
      <==> Alike(IdOf(items[i]).value, GuessAt(items[i].operands, 0), GuessAt(items[i].operands, 1),
      OriginAt(items, i), Meant(items, i).0, Meant(items, i).1, OriginAt(items, |items|))
  {
    hide FindFrom, AddressOf, OriginAt, GuessAt, Meant, KindsOf;
    RegistersMeant(items, i);
  }

  lemma BytesAlike(items: seq<Item>, i: nat)
    requires ProgramOk(items) && i < |items| && items[i].Code? && IdOf(items[i]).Some?
    ensures FirstBytes(items, i) == FinalBytes(items, i) <==> Alike(IdOf(items[i]).value,
      GuessAt(items[i].operands, 0), GuessAt(items[i].operands, 1), OriginAt(items, i),
      Meant(items, i).0, Meant(items, i).1, OriginAt(items, |items|))
  {
    hide ProgramOk, FindFrom, AddressOf, OriginAt, OffsetAt, Emit, KindsOf, Alike, GuessAt;
    OkAt(items, i);
    KnownFits(items[i], 0);
    var id, ops, a', b' := IdOf(items[i]).value, items[i].operands, Meant(items, i).0, Meant(items, i).1;
    KnownFits(items[i], match SymbolIn(ops) case Some(s) => AddressOf(items, ops[s].name) case None => 0);
    EmitAlike(id, GuessAt(ops, 0), GuessAt(ops, 1), OriginAt(items, i), a', b', OriginAt(items, |items|),
      OffsetAt(items, i));
  }

  /** That condition on the operands is exact. */
  lemma SettledMeaning(items: seq<Item>, i: nat)
    requires ProgramOk(items) && i < |items|
    ensures FirstBytes(items, i) == FinalBytes(items, i) <==> SettledBy(items, i)
  {
    hide ProgramOk, FindFrom, AddressOf, OriginAt, OffsetAt, Emit, KindsOf, Alike, GuessAt, Meant, Resolved, SymbolIn;
    OkAt(items, i);
    if items[i].Code? {
      SettledAlike(items, i);
      BytesAlike(items, i);
    }
  }

  /** Every line without a recorded reference was right from the start. */
  predicate Settled(items: seq<Item>) {
    forall i :: 0 <= i < |items| ==> Recorded(items, i) || SettledBy(items, i)
  }

  /** For any program at all, a line of the output is right if and only if its reference is recorded or
      the first pass settled it. */
  lemma LineRight(out: seq<Byte>, items: seq<Item>, i: nat)
    requires ProgramOk(items) && i < |items| && Lines(out, items, |items|, KeptAt(items, |items|))
    ensures OffsetAt(items, i) <= OffsetAt(items, i + 1) <= |out|
    ensures out[OffsetAt(items, i)..OffsetAt(items, i + 1)] == FinalBytes(items, i)
      <==> Recorded(items, i) || SettledBy(items, i)
  {
    hide ProgramOk, FinalBytes, FirstBytes, OffsetAt, KeptAt, Recorded, SettledBy;
    KeptMeaning(items, |items|);
    SettledMeaning(items, i);
    assert LineAt(out, items, i, i in KeptAt(items, |items|));
  }

  /** For any program at all, the output is that of one pass if and only if every line was right from the
      start or has its reference recorded. */
  lemma ExactlyRight(out: seq<Byte>, items: seq<Item>)
    requires ProgramOk(items) && |out| == OffsetAt(items, |items|) && Lines(out, items, |items|, KeptAt(items, |items|))
    ensures out == Reference(items, |items|) <==> Settled(items)
  {
    hide ProgramOk, FinalBytes, FirstBytes, OffsetAt, KeptAt, Reference, Lines, Recorded, SettledBy;
    forall i | 0 <= i < |items|
      ensures LineAt(out, items, i, true) <==> Recorded(items, i) || SettledBy(items, i)
    {
      LineRight(out, items, i);
    }
    if out == Reference(items, |items|) {
      forall i | 0 <= i < |items| ensures LineAt(out, items, i, true) { ReferenceLine(items, |items|, i); }
    }
    if Settled(items) {
      AllFinal(out, items, |items|);
      assert out[..OffsetAt(items, |items|)] == out;
    }
  }

  lemma {:induction false} CountedLess(items: seq<Item>, i: nat, k: nat)
    requires i <= k <= |items|
    ensures CountedAt(items, i) <= ReferringAt(items, i) <= ReferringAt(items, k)
    decreases k
  {
    hide OffsetAt, Refers;
    if k > 0 { CountedLess(items, if i < k then i else i - 1, k - 1); }
  }

  /** In a clean program every line is right: its reference is recorded, or it has none and its origin is final. */
  lemma CleanSettled(items: seq<Item>)
    requires ProgramOk(items) && Clean(items)
    ensures Settled(items)
  {
    hide ProgramOk, ReferringAt, CountedAt, OffsetAt, OriginAt, FindFrom, AddressOf;
    forall i | 0 <= i < |items| ensures Recorded(items, i) || SettledBy(items, i) {
      if Refers(items, i) { RecordedClean(items, i); }
    }
  }

  lemma RecordedClean(items: seq<Item>, i: nat)
    requires Clean(items) && i < |items| && Refers(items, i)
    ensures Recorded(items, i)
  {
    hide OffsetAt, OriginAt;
    CountedLess(items, i, i);
    CountedLess(items, i + 1, |items|);
  }

  /** The two passes put out, byte for byte, what one pass with all symbols known would. */
  lemma TwoPassesAgree(out: seq<Byte>, items: seq<Item>)
    requires ProgramOk(items) && Clean(items) && |out| == OffsetAt(items, |items|)
    requires Lines(out, items, |items|, KeptAt(items, |items|))
    ensures out == Reference(items, |items|)
  {
    hide ProgramOk, Clean, Settled, Lines, OffsetAt, KeptAt, Reference;
    CleanSettled(items);
    ExactlyRight(out, items);
  }

  lemma {:induction false} AllFinal(out: seq<Byte>, items: seq<Item>, k: nat)
    requires ProgramOk(items) && k <= |items| && forall i :: 0 <= i < k ==> LineAt(out, items, i, true)
    ensures OffsetAt(items, k) <= |out| && out[..OffsetAt(items, k)] == Reference(items, k)
  {
    hide ProgramOk, FinalBytes, FirstBytes, OffsetAt;
    if k == 0 {
      OffsetStart(items);
    } else {
      AllFinal(out, items, k - 1);
      assert LineAt(out, items, k - 1, true);
      var lo, hi := OffsetAt(items, k - 1), OffsetAt(items, k);
      assert out[..hi] == out[..lo] + out[lo..hi];
    }
  }

  // ----- the reference that is lost -----

  /** A reference in the first instruction looks like an empty place: whatever that instruction is, it
      comes out right exactly when the letters of the symbol happen to stand for its address. */
  lemma FirstLineLost(out: seq<Byte>, items: seq<Item>, i: nat)
    requires ProgramOk(items) && Lines(out, items, |items|, KeptAt(items, |items|)) && i < |items|
    requires Refers(items, i) && OffsetAt(items, i) == 0
    ensures OffsetAt(items, i + 1) <= |out|
    ensures out[..OffsetAt(items, i + 1)] == FinalBytes(items, i) <==> SettledBy(items, i)
  {
    hide ProgramOk, Lines, KeptAt, SettledBy, FinalBytes;
    LineRight(out, items, i);
    assert out[OffsetAt(items, i)..OffsetAt(items, i + 1)] == out[..OffsetAt(items, i + 1)];
  }

  /** The letters of a jump's or call's symbol must then parse to the very address. */
  lemma FirstJumpLost(out: seq<Byte>, items: seq<Item>, i: nat)
    requires ProgramOk(items) && Lines(out, items, |items|, KeptAt(items, |items|)) && i < |items|
    requires Refers(items, i) && OffsetAt(items, i) == 0 && OriginAt(items, i) == OriginAt(items, |items|)
    requires IdOf(items[i]).Some? && (IdOf(items[i]).value.Call? || IdOf(items[i]).value.Jmp?)
    requires |items[i].operands| == 1
    ensures OffsetAt(items, i + 1) <= |out|
    ensures out[..OffsetAt(items, i + 1)] == FinalBytes(items, i) <==>
      items[i].operands[0].guess == AddressOf(items, items[i].operands[0].name)
  {
    hide ProgramOk, Lines, KeptAt, FinalBytes, FindFrom, AddressOf, OriginAt, OffsetAt;
    FirstLineLost(out, items, i);
    var ops, origin := items[i].operands, OriginAt(items, i);
    assert ops[..0] == [];
    WordsApart(ops[0].guess, AddressOf(items, ops[0].name), origin);
  }

  lemma WordsApart(a: Word, a': Word, origin: Word)
    ensures (a - origin) % WORD == (a' - origin) % WORD <==> a == a'
  {
    ModSame(a, a', origin, WORD);
  }
}
