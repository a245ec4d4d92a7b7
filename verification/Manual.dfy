/** Every line the assembler accepts, from its tokens to its bytes. */
module Manual {
  import opened Entries
  import opened Instructions
  import opened Assembler

  // ----- finding the row -----

  lemma {:induction false} FirstFit(mnemonic: string, kinds: seq<OperandKind>, i: nat, j: nat)
    requires i <= j < |TABLE| && Mnemonic(TABLE[j]) == mnemonic && Kinds(TABLE[j]) == kinds
    ensures FindFrom(mnemonic, kinds, i).Some?
    decreases j - i
  {
    hide Mnemonic, Kinds;
    if i < j { FirstFit(mnemonic, kinds, i + 1, j); }
  }

  lemma {:induction false} FoundSpelled(mnemonic: string, kinds: seq<OperandKind>, i: nat)
    ensures FindFrom(mnemonic, kinds, i).Some? ==> Mnemonic(FindFrom(mnemonic, kinds, i).value) == mnemonic
    decreases |TABLE| - i
  {
    hide Mnemonic, Kinds;
    if i < |TABLE| { FoundSpelled(mnemonic, kinds, i + 1); }
  }

  lemma Spelled(id: Id)
    ensures var m := Mnemonic(id);
      && (m == "push" <==> id == Push) && (m == "pop" <==> id == Pop) && (m == "ret" <==> id == Ret)
      && (m == "int" <==> id == Int) && (m == "call" <==> id == Call) && (m == "jmp" <==> id == Jmp)
      && (m == "mov" <==> id.Binary? && id.alu == Mov) && (m == "cmp" <==> id.Binary? && id.alu == Cmp)
      && (m == "add" <==> id.Binary? && id.alu == Add) && (m == "sub" <==> id.Binary? && id.alu == Sub)
      && (m == "and" <==> id.Binary? && id.alu == And) && (m == "or" <==> id.Binary? && id.alu == Or)
  {
    assert |Mnemonic(id)| > 1;
  }

  lemma JumpSpelled(id: Id)
    ensures var m := Mnemonic(id);
      && (m == "je" <==> id == Jump(Eq)) && (m == "jne" <==> id == Jump(Ne))
      && (m == "jg" <==> id == Jump(Gt)) && (m == "jge" <==> id == Jump(Ge))
      && (m == "jl" <==> id == Jump(Lt)) && (m == "jle" <==> id == Jump(Le))
      && (m == "jc" <==> id == Jump(Carry)) && (m == "jnc" <==> id == Jump(NoCarry))
  {
    assert |Mnemonic(id)| > 1;
  }

  /** A mnemonic and the kinds of the operands name one row. */
  lemma OneRow(x: Id, y: Id)
    requires Mnemonic(x) == Mnemonic(y) && Kinds(x) == Kinds(y) && !x.Unary? && !y.Unary?
    ensures x == y
  {
    Spelled(x);
    Spelled(y);
    JumpSpelled(x);
    JumpSpelled(y);
    hide Mnemonic;
    match x
    case Binary(alu, _) =>
      assert alu.Mov? || alu.Cmp? || alu.Add? || alu.Sub? || alu.And? || alu.Or?;
      FormOnce(x, y);
    case Jump(cond) => assert cond.Eq? || cond.Ne? || cond.Gt? || cond.Ge? || cond.Lt? || cond.Le? || cond.Carry?
      || cond.NoCarry?;
    case _ =>
  }

  lemma FormOnce(x: Id, y: Id)
    requires x.Binary? && y.Binary? && Kinds(x) == Kinds(y)
    ensures x.form == y.form
  {
    assert Kinds(x)[0] == Kinds(y)[0] && Kinds(x)[1] == Kinds(y)[1];
  }

  lemma Listed(id: Id) returns (j: nat)
    requires !id.Unary?
    ensures j < |TABLE| && TABLE[j] == id
  {
    match id
    case Push => j := 0;
    case Pop => j := 1;
    case Binary(alu, form) =>
      var row := match alu case Mov => 2 case Cmp => 8 case Add => 26 case Sub => 32 case And => 41 case Or => 47;
      j := row + match form case RI => 0 case RR => 1 case RM => 2 case MR => 3 case RP => 4 case PR => 5;
    case Ret => j := 14;
    case Int => j := 15;
    case Call => j := 16;
    case Jmp => j := 17;
    case Jump(cond) =>
      j := 18 + match cond
        case Eq => 0 case Ne => 1 case Gt => 2 case Ge => 3 case Lt => 4 case Le => 5 case Carry => 6 case NoCarry => 7;
  }

  lemma Chosen(item: Item, id: Id)
    requires item.Code? && !id.Unary? && Mnemonic(id) == item.mnemonic && Kinds(id) == KindsOf(item.operands)
    ensures IdOf(item) == Some(id)
  {
    hide Mnemonic, Kinds;
    var j := Listed(id);
    FirstFit(item.mnemonic, KindsOf(item.operands), 0, j);
    FoundSpelled(item.mnemonic, KindsOf(item.operands), 0);
    FoundFits(item.mnemonic, KindsOf(item.operands), 0);
    NotUnary(item);
    OneRow(IdOf(item).value, id);
  }

  lemma NotUnary(item: Item)
    requires item.Code? && IdOf(item).Some?
    ensures !IdOf(item).value.Unary?
  {
    NeverUnary(item);
  }

  // ----- operands -----

  predicate IsReg(op: Operand) { op.Named? && !op.pointer }
  predicate IsPointer(op: Operand) { op.Named? && op.pointer }
  predicate IsValue(op: Operand) { !op.Named? && !op.pointer }
  predicate IsPlace(op: Operand) { !op.Named? && op.pointer }

  /** What an operand stands for once the program is read. */
  function Stands(items: seq<Item>, op: Operand): Word {
    match op
    case Named(r, _) => r
    case Number(v, _) => v
    case Symbol(name, _, _) => AddressOf(items, name)
  }

  function StandsAt(items: seq<Item>, i: nat, k: nat): Word
    requires i < |items| && items[i].Code?
  {
    if k < |items[i].operands| then Stands(items, items[i].operands[k]) else 0
  }

  /** The final bytes of a line of code are those of its row, with what its operands stand for. */
  lemma LineIs(items: seq<Item>, i: nat, id: Id)
    requires ProgramOk(items) && i < |items| && items[i].Code? && !id.Unary?
    requires Mnemonic(id) == items[i].mnemonic && Kinds(id) == KindsOf(items[i].operands)
    ensures IdOf(items[i]) == Some(id) && OperandsFit(id, StandsAt(items, i, 0), StandsAt(items, i, 1))
    ensures FinalBytes(items, i) ==
      Emit(id, StandsAt(items, i, 0), StandsAt(items, i, 1), OffsetAt(items, i), OriginAt(items, |items|))
  {
    hide Emit, Mnemonic, Kinds, AddressOf, OriginAt, OffsetAt, FindFrom, ProgramOk, KindsOf, IdOf, OperandsFit;
    OkAt(items, i);
    Chosen(items[i], id);
    var ops := items[i].operands;
    KnownFits(items[i], match SymbolIn(ops) case Some(s) => AddressOf(items, ops[s].name) case None => 0);
    KnownFits(items[i], 0);
    if |ops| == 2 { OneSymbol(items[i]); }
  }

  lemma Row(items: seq<Item>, i: nat) returns (id: Id)
    requires ProgramOk(items) && i < |items| && items[i].Code?
    ensures Mnemonic(id) == items[i].mnemonic && Kinds(id) == KindsOf(items[i].operands) && !id.Unary?
    ensures OperandsFit(id, StandsAt(items, i, 0), StandsAt(items, i, 1))
    ensures FinalBytes(items, i) ==
      Emit(id, StandsAt(items, i, 0), StandsAt(items, i, 1), OffsetAt(items, i), OriginAt(items, |items|))
  {
    hide Emit, Mnemonic, Kinds, OriginAt, OffsetAt, ProgramOk, KindsOf, OperandsFit, StandsAt, FinalBytes;
    OkAt(items, i);
    id := IdOf(items[i]).value;
    FoundFits(items[i].mnemonic, KindsOf(items[i].operands), 0);
    FoundSpelled(items[i].mnemonic, KindsOf(items[i].operands), 0);
    NotUnary(items[i]);
    LineIs(items, i, id);
  }

  // ----- two operands -----

  /** Two registers. */
  lemma TwoRegisters(items: seq<Item>, i: nat)
    requires ProgramOk(items) && i < |items| && items[i].Code? && |items[i].operands| == 2
    requires IsReg(items[i].operands[0]) && IsReg(items[i].operands[1])
    ensures var mn, s := items[i].mnemonic, FinalBytes(items, i);
      var a, b := Stands(items, items[i].operands[0]), Stands(items, items[i].operands[1]);
      var x := 0xC0 + 8 * (b - 1) + (a - 1);
      && mn in {"mov", "cmp", "add", "sub", "and", "or"}
      && (mn == "mov" ==> s == [0x89, x])
      && (mn == "cmp" ==> s == [0x39, x])
      && (mn == "add" ==> s == [0x01, x])
      && (mn == "sub" ==> s == [0x29, x])
      && (mn == "and" ==> s == [0x21, x])
      && (mn == "or" ==> s == [0x09, x])
  {
    hide FinalBytes, ProgramOk, OffsetAt, OriginAt, AddressOf, Mnemonic;
    var id := Row(items, i);
    var ops := items[i].operands;
    assert KindsOf(ops) == [KindOf(ops[0]), KindOf(ops[1])];
    assert id.Binary? && id.form == RR by { assert Kinds(id)[0] == KindOf(ops[0]) && Kinds(id)[1] == KindOf(ops[1]); }
    Spelled(id);
  }

  /** A load through a pointer: the register is in the middle field. */
  lemma LoadThrough(items: seq<Item>, i: nat)
    requires ProgramOk(items) && i < |items| && items[i].Code? && |items[i].operands| == 2
    requires IsReg(items[i].operands[0]) && IsPointer(items[i].operands[1])
    ensures var mn, s := items[i].mnemonic, FinalBytes(items, i);
      var a, b := Stands(items, items[i].operands[0]), Stands(items, items[i].operands[1]);
      var x := 8 * (a - 1) + (b - 1);
      && mn in {"mov", "cmp", "add", "sub", "and", "or"}
      && (mn == "mov" ==> s == [0x8B, x])
      && (mn == "cmp" ==> s == [0x3B, x])
      && (mn == "add" ==> s == [0x03, x])
      && (mn == "sub" ==> s == [0x2B, x])
      && (mn == "and" ==> s == [0x23, x])
      && (mn == "or" ==> s == [0x0B, x])
  {
    hide FinalBytes, ProgramOk, OffsetAt, OriginAt, AddressOf, Mnemonic;
    var id := Row(items, i);
    var ops := items[i].operands;
    assert KindsOf(ops) == [KindOf(ops[0]), KindOf(ops[1])];
    assert id.Binary? && id.form == RP by { assert Kinds(id)[0] == KindOf(ops[0]) && Kinds(id)[1] == KindOf(ops[1]); }
    Spelled(id);
  }

  /** A store through a pointer. */
  lemma StoreThrough(items: seq<Item>, i: nat)
    requires ProgramOk(items) && i < |items| && items[i].Code? && |items[i].operands| == 2
    requires IsPointer(items[i].operands[0]) && IsReg(items[i].operands[1])
    ensures var mn, s := items[i].mnemonic, FinalBytes(items, i);
      var a, b := Stands(items, items[i].operands[0]), Stands(items, items[i].operands[1]);
      var x := 8 * (b - 1) + (a - 1);
      && mn in {"mov", "cmp", "add", "sub", "and", "or"}
      && (mn == "mov" ==> s == [0x89, x])
      && (mn == "cmp" ==> s == [0x39, x])
      && (mn == "add" ==> s == [0x01, x])
      && (mn == "sub" ==> s == [0x29, x])
      && (mn == "and" ==> s == [0x21, x])
      && (mn == "or" ==> s == [0x09, x])
  {
    hide FinalBytes, ProgramOk, OffsetAt, OriginAt, AddressOf, Mnemonic;
    var id := Row(items, i);
    var ops := items[i].operands;
    assert KindsOf(ops) == [KindOf(ops[0]), KindOf(ops[1])];
    assert id.Binary? && id.form == PR by { assert Kinds(id)[0] == KindOf(ops[0]) && Kinds(id)[1] == KindOf(ops[1]); }
    Spelled(id);
  }

  /** A load from an address. */
  lemma LoadFrom(items: seq<Item>, i: nat)
    requires ProgramOk(items) && i < |items| && items[i].Code? && |items[i].operands| == 2
    requires IsReg(items[i].operands[0]) && IsPlace(items[i].operands[1])
    ensures var mn, s := items[i].mnemonic, FinalBytes(items, i);
      var a, b := Stands(items, items[i].operands[0]), Stands(items, items[i].operands[1]);
      var x, w := 5 + 8 * (a - 1), [b % 0x100, b / 0x100 % 0x100, b / 0x1_0000 % 0x100, b / 0x100_0000];
      && mn in {"mov", "cmp", "add", "sub", "and", "or"}
      && (mn == "mov" ==> s == [0x8B, x] + w)
      && (mn == "cmp" ==> s == [0x3B, x] + w)
      && (mn == "add" ==> s == [0x03, x] + w)
      && (mn == "sub" ==> s == [0x2B, x] + w)
      && (mn == "and" ==> s == [0x23, x] + w)
      && (mn == "or" ==> s == [0x0B, x] + w)
  {
    hide FinalBytes, ProgramOk, OffsetAt, OriginAt, AddressOf, Mnemonic;
    var id := Row(items, i);
    var ops := items[i].operands;
    assert KindsOf(ops) == [KindOf(ops[0]), KindOf(ops[1])];
    assert id.Binary? && id.form == RM by { assert Kinds(id)[0] == KindOf(ops[0]) && Kinds(id)[1] == KindOf(ops[1]); }
    Spelled(id);
  }

  /** A store to an address: what is written in its place is the number of the register. */
  lemma StoreTo(items: seq<Item>, i: nat)
    requires ProgramOk(items) && i < |items| && items[i].Code? && |items[i].operands| == 2
    requires IsPlace(items[i].operands[0]) && IsReg(items[i].operands[1])
    ensures var mn, s := items[i].mnemonic, FinalBytes(items, i);
      var a, b := Stands(items, items[i].operands[0]), Stands(items, items[i].operands[1]);
      var x, w := 5 + 8 * (b - 1), [b, 0, 0, 0];
      && mn in {"mov", "cmp", "add", "sub", "and", "or"}
      && (mn == "mov" ==> s == [0x89, x] + w)
      && (mn == "cmp" ==> s == [0x39, x] + w)
      && (mn == "add" ==> s == [0x01, x] + w)
      && (mn == "sub" ==> s == [0x29, x] + w)
      && (mn == "and" ==> s == [0x21, x] + w)
      && (mn == "or" ==> s == [0x09, x] + w)
  {
    hide FinalBytes, ProgramOk, OffsetAt, OriginAt, AddressOf, Mnemonic;
    var id := Row(items, i);
    var ops := items[i].operands;
    assert KindsOf(ops) == [KindOf(ops[0]), KindOf(ops[1])];
    assert id.Binary? && id.form == MR by { assert Kinds(id)[0] == KindOf(ops[0]) && Kinds(id)[1] == KindOf(ops[1]); }
    Spelled(id);
  }

  /** An immediate operand. */
  lemma Immediates(items: seq<Item>, i: nat)
    requires ProgramOk(items) && i < |items| && items[i].Code? && |items[i].operands| == 2
    requires IsReg(items[i].operands[0]) && IsValue(items[i].operands[1])
    ensures var mn, s := items[i].mnemonic, FinalBytes(items, i);
      var a, b := Stands(items, items[i].operands[0]), Stands(items, items[i].operands[1]);
      var w := [b % 0x100, b / 0x100 % 0x100, b / 0x1_0000 % 0x100, b / 0x100_0000];
      && mn in {"mov", "cmp", "add", "sub", "and", "or"}
      && (mn == "mov" ==> s == [0xB8 + (a - 1)] + w)
      && (mn == "cmp" ==> s == [0x81, 0xC0 + 8 * 7 + (a - 1)] + w)
      && (mn == "add" ==> s == [0x81, 0xC0 + 8 * 0 + (a - 1)] + w)
      && (mn == "sub" ==> s == [0x81, 0xC0 + 8 * 5 + (a - 1)] + w)
      && (mn == "and" ==> s == [0x81, 0xC0 + 8 * 4 + (a - 1)] + w)
      && (mn == "or" ==> s == [0x81, 0xC0 + 8 * 1 + (a - 1)] + w)
  {
    hide FinalBytes, ProgramOk, OffsetAt, OriginAt, AddressOf, Mnemonic;
    var id := Row(items, i);
    var ops := items[i].operands;
    assert KindsOf(ops) == [KindOf(ops[0]), KindOf(ops[1])];
    assert id.Binary? && id.form == RI by { assert Kinds(id)[0] == KindOf(ops[0]) && Kinds(id)[1] == KindOf(ops[1]); }
    Spelled(id);
  }

  /** What is read back of a load or a store through a register that can be a base: the same, and not the other. */
  lemma MoveReadBack(items: seq<Item>, i: nat)
    requires ProgramOk(items) && i < |items| && items[i].Code? && |items[i].operands| == 2
    requires items[i].mnemonic == "mov"
    ensures var ops, s := items[i].operands, FinalBytes(items, i);
      var a, b := Stands(items, ops[0]), Stands(items, ops[1]);
      var d := Decode(s, OffsetAt(items, i), OriginAt(items, |items|));
      && (IsReg(ops[0]) && IsPointer(ops[1]) && b != 5 && b != 6 ==> d == Some(Decoded(Binary(Mov, RP), a, b)))
      && (IsPointer(ops[0]) && IsReg(ops[1]) && a != 5 && a != 6 ==> d == Some(Decoded(Binary(Mov, PR), a, b)))
  {
    hide FinalBytes, ProgramOk, OffsetAt, OriginAt, AddressOf, Mnemonic, Emit, Decode;
    var id := Row(items, i);
    var ops := items[i].operands;
    assert KindsOf(ops) == [KindOf(ops[0]), KindOf(ops[1])];
    assert Kinds(id)[0] == KindOf(ops[0]) && Kinds(id)[1] == KindOf(ops[1]);
    Spelled(id);
    var s := FinalBytes(items, i);
    assert s + [] == s;
    DecodeFirst(id, StandsAt(items, i, 0), StandsAt(items, i, 1), OffsetAt(items, i), OriginAt(items, |items|), []);
  }

  // ----- one operand, and none -----

  lemma OneRegister(items: seq<Item>, i: nat)
    requires ProgramOk(items) && i < |items| && items[i].Code? && |items[i].operands| == 1
    requires IsReg(items[i].operands[0])
    ensures var mn, s, a := items[i].mnemonic, FinalBytes(items, i), Stands(items, items[i].operands[0]);
      && mn in {"push", "pop"}
      && (mn == "push" ==> s == [0x50 + (a - 1)])
      && (mn == "pop" ==> s == [0x58 + (a - 1)])
  {
    hide FinalBytes, ProgramOk, OffsetAt, OriginAt, AddressOf, Mnemonic;
    var id := Row(items, i);
    assert KindsOf(items[i].operands) == [Register];
    assert id.Push? || id.Pop? by { assert Kinds(id)[0] == Register && |Kinds(id)| == 1; }
    Spelled(id);
  }

  lemma NoOperand(items: seq<Item>, i: nat)
    requires ProgramOk(items) && i < |items| && items[i].Code? && items[i].operands == []
    ensures items[i].mnemonic == "ret" && FinalBytes(items, i) == [0xC3]
  {
    hide FinalBytes, ProgramOk, OffsetAt, OriginAt, AddressOf, Mnemonic;
    var id := Row(items, i);
    assert id.Ret? by { assert |Kinds(id)| == 0; }
    Spelled(id);
  }

  /** A two-byte jump, and where it goes: to its target if that is in reach, and always by the low byte. */
  predicate JumpsShort(s: seq<Byte>, code: int, behind: int, target: int) {
    |s| == 2 && s[0] == code && (behind + s[1] - target) % 0x100 == 0
  }

  /** A jump or call of five bytes goes to its target. */
  predicate JumpsFar(s: seq<Byte>, code: int, behind: int, target: int) {
    && |s| == 5 && s[0] == code
    && (behind + Counted(s[1], s[2], s[3], s[4]) - target) % 0x1_0000_0000 == 0
  }

  /** Four bytes as a number, the lowest first. */
  function Counted(a: int, b: int, c: int, d: int): int { a + 0x100 * b + 0x1_0000 * c + 0x100_0000 * d }

  /** Interrupts, jumps and calls: the displacement leads from behind the line to the target, by the bytes of the
      lines before and the final origin. */
  lemma OneValue(items: seq<Item>, i: nat)
    requires ProgramOk(items) && i < |items| && items[i].Code? && |items[i].operands| == 1
    requires IsValue(items[i].operands[0])
    ensures var mn, s, a := items[i].mnemonic, FinalBytes(items, i), Stands(items, items[i].operands[0]);
      var behind := OriginAt(items, |items|) + |Reference(items, i + 1)|;
      && mn in {"int", "call", "jmp", "je", "jne", "jg", "jge", "jl", "jle", "jc", "jnc"}
      && (mn == "int" ==> s == [0xCD, a % 0x100])
      && (mn == "call" ==> JumpsFar(s, 0xE8, behind, a))
      && (mn == "jmp" ==> JumpsFar(s, 0xE9, behind, a))
      && (mn == "je" ==> JumpsShort(s, 0x74, behind, a))
      && (mn == "jne" ==> JumpsShort(s, 0x75, behind, a))
      && (mn == "jg" ==> JumpsShort(s, 0x7F, behind, a))
      && (mn == "jge" ==> JumpsShort(s, 0x7D, behind, a))
      && (mn == "jl" ==> JumpsShort(s, 0x7C, behind, a))
      && (mn == "jle" ==> JumpsShort(s, 0x7E, behind, a))
      && (mn == "jc" ==> JumpsShort(s, 0x72, behind, a))
      && (mn == "jnc" ==> JumpsShort(s, 0x73, behind, a))
  {
    hide FinalBytes, ProgramOk, OffsetAt, OriginAt, AddressOf, Mnemonic, JumpsShort, JumpsFar, Reference, Emit;
    var id := Row(items, i);
    var a := Stands(items, items[i].operands[0]);
    assert KindsOf(items[i].operands) == [Immediate];
    assert id.Int? || id.Call? || id.Jmp? || id.Jump? by { assert Kinds(id)[0] == Immediate && |Kinds(id)| == 1; }
    Spelled(id);
    JumpSpelled(id);
    ReferenceLength(items, i + 1);
    CodeNext(items, i, id);
    JumpLands(id, a, 0, OffsetAt(items, i), OriginAt(items, |items|));
  }

  lemma CodeNext(items: seq<Item>, i: nat, id: Id)
    requires ProgramOk(items) && i < |items| && items[i].Code? && !id.Unary?
    requires Mnemonic(id) == items[i].mnemonic && Kinds(id) == KindsOf(items[i].operands)
    ensures OffsetAt(items, i + 1) == OffsetAt(items, i) + Length(id)
  {
    hide Mnemonic, Kinds, FindFrom, Length, IdOf;
    Chosen(items[i], id);
  }

  lemma JumpLands(id: Id, a: Word, b: Word, offset: nat, origin: Word)
    requires id.Int? || id.Call? || id.Jmp? || id.Jump?
    ensures var s, behind := Emit(id, a, b, offset, origin), origin + offset + Length(id);
      match id
      case Int => s == [0xCD, a % 0x100]
      case Call => JumpsFar(s, 0xE8, behind, a)
      case Jmp => JumpsFar(s, 0xE9, behind, a)
      case Jump(cond) =>
        var code := match cond
          case Eq => 0x74 case Ne => 0x75 case Gt => 0x7F case Ge => 0x7D
          case Lt => 0x7C case Le => 0x7E case Carry => 0x72 case NoCarry => 0x73;
        JumpsShort(s, code, behind, a)
      case _ => true
  {
    if id.Call? || id.Jmp? {
      var d := Distance(a, origin, offset + 5);
      LittleBig(d);
      ModEqual(d, a - origin - offset - 5, WORD);
      var s := Emit(id, a, b, offset, origin);
      assert s[1..] == Little(d);
      hide Little;
      assert s[1] == Little(d)[0] && s[2] == Little(d)[1] && s[3] == Little(d)[2] && s[4] == Little(d)[3];
      FarSum(s, d, a, origin + offset + 5);
    } else if id.Jump? {
      var e := a - origin - offset - 2;
      LowByte(e);
      ModEqual(e % 0x100, e, 0x100);
      NegativeToo(e % 0x100 - e, 0x100);
    }
  }

  lemma FarSum(s: seq<Byte>, d: Word, a: Word, behind: int)
    requires |s| == 5 && (d - (a - behind)) % WORD == 0
    requires d == Counted(s[1], s[2], s[3], s[4])
    ensures (behind + Counted(s[1], s[2], s[3], s[4]) - a) % 0x1_0000_0000 == 0
  {
    assert behind + Counted(s[1], s[2], s[3], s[4]) - a == d - (a - behind);
  }

  lemma NegativeToo(x: int, m: int)
    requires m > 0 && x % m == 0
    ensures -x % m == 0
  {
    Multiple(-(x / m), m);
    assert -x == m * -(x / m);
  }

  // ----- labels and origins -----

  /** A label stands for the place of what follows it: the final origin and the bytes of the lines before. */
  lemma LabelStands(items: seq<Item>, k: nat, name: string, guess: Word)
    requires ProgramOk(items) && k < |items|
    requires items[k] == Label(name) || (items[k].Data? && items[k].name == name)
    requires forall j :: k < j < |items| ==> items[j] != Label(name) && !(items[j].Data? && items[j].name == name)
    ensures Stands(items, Symbol(name, false, guess)) ==
      (OriginAt(items, |items|) + |Reference(items, k)|) % 0x1_0000_0000
  {
    hide ProgramOk, OriginAt, OffsetAt, Reference;
    ReferenceLength(items, k);
    DefinedAt(items, k, |items|, name);
  }

  lemma {:induction false} DefinedAt(items: seq<Item>, k: nat, n: nat, name: string)
    requires k < n <= |items|
    requires items[k] == Label(name) || (items[k].Data? && items[k].name == name)
    requires forall j :: k < j < n ==> items[j] != Label(name) && !(items[j].Data? && items[j].name == name)
    ensures ValueAt(items, n, name) == OffsetAt(items, k)
    decreases n
  {
    hide OffsetAt;
    if n > k + 1 { DefinedAt(items, k, n - 1, name); }
  }

  /** The final origin is the one named last, or 0x20000. */
  lemma {:induction false} NoOrigin(items: seq<Item>, n: nat)
    requires n <= |items| && forall j :: 0 <= j < n ==> !items[j].Org?
    ensures OriginAt(items, n) == 0x20000
  {
    if n > 0 { NoOrigin(items, n - 1); }
  }

  lemma {:induction false} LastOrigin(items: seq<Item>, k: nat, n: nat)
    requires k < n <= |items| && items[k].Org? && forall j :: k < j < n ==> !items[j].Org?
    ensures OriginAt(items, n) == items[k].origin
    decreases n
  {
    if n > k + 1 { LastOrigin(items, k, n - 1); }
  }

  // ----- what is accepted -----

  predicate NoneTaken(mn: string, ops: seq<Operand>) { ops == [] && mn == "ret" }

  predicate OneTaken(mn: string, ops: seq<Operand>) {
    && |ops| == 1
    && if IsReg(ops[0]) then mn in {"push", "pop"}
       else IsValue(ops[0]) && mn in {"int", "call", "jmp", "je", "jne", "jg", "jge", "jl", "jle", "jc", "jnc"}
  }

  predicate TwoTaken(mn: string, ops: seq<Operand>) {
    && |ops| == 2 && mn in {"mov", "cmp", "add", "sub", "and", "or"}
    && (IsReg(ops[0]) || (IsReg(ops[1]) && (IsPointer(ops[0]) || IsPlace(ops[0]))))
  }

  predicate Taken(mn: string, ops: seq<Operand>) { NoneTaken(mn, ops) || OneTaken(mn, ops) || TwoTaken(mn, ops) }

  /** The lines that are known, by their tokens. */
  lemma Accepted(item: Item)
    requires item.Code?
    ensures Known(item) <==> Taken(item.mnemonic, item.operands)
  {
    hide IdOf, NoneTaken, OneTaken, TwoTaken;
    if IdOf(item).Some? { KnownTaken(item); }
    if NoneTaken(item.mnemonic, item.operands) { NoneKnown(item); }
    if OneTaken(item.mnemonic, item.operands) { OneKnown(item); }
    if TwoTaken(item.mnemonic, item.operands) { TwoKnown(item); }
  }

  lemma KnownTaken(item: Item)
    requires item.Code? && IdOf(item).Some?
    ensures Taken(item.mnemonic, item.operands)
  {
    hide Mnemonic, FindFrom;
    var id, ops := IdOf(item).value, item.operands;
    FoundFits(item.mnemonic, KindsOf(ops), 0);
    FoundSpelled(item.mnemonic, KindsOf(ops), 0);
    NotUnary(item);
    Spelled(id);
    JumpSpelled(id);
    assert |ops| > 0 ==> Kinds(id)[0] == KindOf(ops[0]);
    assert |ops| > 1 ==> Kinds(id)[1] == KindOf(ops[1]);
    match id
    case Binary(alu, _) => assert alu.Mov? || alu.Cmp? || alu.Add? || alu.Sub? || alu.And? || alu.Or?;
    case Jump(cond) => assert cond.Eq? || cond.Ne? || cond.Gt? || cond.Ge? || cond.Lt? || cond.Le? || cond.Carry?
      || cond.NoCarry?;
    case _ =>
  }

  lemma NoneKnown(item: Item)
    requires item.Code? && NoneTaken(item.mnemonic, item.operands)
    ensures IdOf(item).Some?
  {
    assert KindsOf(item.operands) == [];
    hide IdOf;
    Chosen(item, Ret);
  }

  lemma OneKnown(item: Item)
    requires item.Code? && OneTaken(item.mnemonic, item.operands)
    ensures IdOf(item).Some?
  {
    var mn := item.mnemonic;
    assert KindsOf(item.operands) == [KindOf(item.operands[0])];
    hide IdOf;
    Chosen(item, if mn == "push" then Push else if mn == "pop" then Pop else if mn == "int" then Int
      else if mn == "call" then Call else if mn == "jmp" then Jmp else if mn == "je" then Jump(Eq)
      else if mn == "jne" then Jump(Ne) else if mn == "jg" then Jump(Gt) else if mn == "jge" then Jump(Ge)
      else if mn == "jl" then Jump(Lt) else if mn == "jle" then Jump(Le) else if mn == "jc" then Jump(Carry)
      else Jump(NoCarry));
  }

  lemma TwoKnown(item: Item)
    requires item.Code? && TwoTaken(item.mnemonic, item.operands)
    ensures IdOf(item).Some?
  {
    var mn, op0, op1 := item.mnemonic, item.operands[0], item.operands[1];
    assert KindsOf(item.operands) == [KindOf(op0), KindOf(op1)];
    var alu := if mn == "mov" then Mov else if mn == "cmp" then Cmp else if mn == "add" then Add
      else if mn == "sub" then Sub else if mn == "and" then And else Or;
    var form := if IsPointer(op0) then PR else if IsPlace(op0) then MR else if IsReg(op1) then RR
      else if IsPointer(op1) then RP else if IsPlace(op1) then RM else RI;
    hide IdOf;
    Chosen(item, Binary(alu, form));
  }

  /** `mov eax,[ebx]` is a load. */
  lemma LoadNotStore()
    ensures var items := [Code("mov", [Named(1, false), Named(4, true)])];
      ProgramOk(items) && FinalBytes(items, 0) == [0x8B, 0x03]
  {
    hide IdOf, FinalBytes;
    var items := [Code("mov", [Named(1, false), Named(4, true)])];
    Accepted(items[0]);
    LoadThrough(items, 0);
  }

  // ----- data -----

  /** Every value of a data line, the lowest byte first. */
  lemma {:induction false} DataLaid(width: Width, values: seq<Word>)
    ensures var s := DataOf(width, values);
      match width
      case Doubles => |s| == 4 * |values| && forall k :: 0 <= k < |values| ==>
        Counted(s[4 * k], s[4 * k + 1], s[4 * k + 2], s[4 * k + 3]) == values[k]
      case Words => |s| == 2 * |values| && forall k :: 0 <= k < |values| ==>
        Counted(s[2 * k], s[2 * k + 1], 0, 0) == values[k] % 0x1_0000
      case Bytes => |s| == |values| && forall k :: 0 <= k < |values| ==> s[k] == values[k] % 0x100
  {
    if values != [] {
      DataLaid(width, values[..|values|-1]);
      ValueLaid(width, values[|values|-1]);
      hide DataBytes, Counted;
      assert DataOf(width, values) == DataOf(width, values[..|values|-1]) + DataBytes(width, values[|values|-1]);
    }
  }

  lemma ValueLaid(width: Width, v: Word)
    ensures var s := DataBytes(width, v);
      match width
      case Doubles => Counted(s[0], s[1], s[2], s[3]) == v
      case Words => Counted(s[0], s[1], 0, 0) == v % 0x1_0000
      case Bytes => s[0] == v % 0x100
  {
    match width
    case Doubles => FourLaid(v);
    case Words => LowHalf(v);
    case Bytes =>
  }

  lemma FourLaid(v: Word)
    ensures var s := DataBytes(Doubles, v); Counted(s[0], s[1], s[2], s[3]) == v
  {
    LittleBig(v);
    hide Little;
  }

  lemma LowHalf(v: Word)
    ensures (v % 0x100) + 0x100 * (v / 0x100 % 0x100) == v % 0x1_0000
  {
    var low, high := v % 0x100, v / 0x100;
    assert v == low + 0x100 * (high % 0x100) + 0x1_0000 * (high / 0x100);
    LowestPart(low + 0x100 * (high % 0x100), high / 0x100);
  }

  lemma LowestPart(r: nat, q: nat)
    requires r < 0x1_0000
    ensures (r + 0x1_0000 * q) % 0x1_0000 == r
  {}
}
