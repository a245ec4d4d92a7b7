/** The instructions of the assembler: how they are encoded, and what can be read back. */
module Instructions {
  import opened Entries

  const WORD := 0x1_0000_0000   // a 32-bit word wraps here

  type Word = x: int | 0 <= x < 0x1_0000_0000

  // ----- the instruction table -----

  datatype Alu = Mov | Cmp | Add | Sub | And | Or
  datatype Form = RI | RR | RM | MR | RP | PR   // register, immediate, memory, pointer in a register
  datatype Cond = Eq | Ne | Gt | Ge | Lt | Le | Carry | NoCarry
  datatype Single = Mul | Div | Not

  datatype Id =
    | Push | Pop
    | Binary(alu: Alu, form: Form)
    | Ret | Int | Call | Jmp
    | Jump(cond: Cond)
    | Unary(op: Single)

  datatype OperandKind = Any | Register | Pointer | Memory | Immediate

  /** The table in the order in which it is searched. */
  const TABLE: seq<Id> := [Push, Pop] + Rows(Mov) + Rows(Cmp) + [Ret, Int, Call, Jmp]
    + [Jump(Eq), Jump(Ne), Jump(Gt), Jump(Ge), Jump(Lt), Jump(Le), Jump(Carry), Jump(NoCarry)]
    + Rows(Add) + Rows(Sub) + [Unary(Mul), Unary(Div), Unary(Not)] + Rows(And) + Rows(Or)

  function Rows(alu: Alu): seq<Id> {
    [Binary(alu, RI), Binary(alu, RR), Binary(alu, RM), Binary(alu, MR), Binary(alu, RP), Binary(alu, PR)]
  }

  function Mnemonic(id: Id): string {
    match id
    case Push => "push"
    case Pop => "pop"
    case Binary(Mov, _) => "mov"
    case Binary(Cmp, _) => "cmp"
    case Binary(Add, _) => "add"
    case Binary(Sub, _) => "sub"
    case Binary(And, _) => "and"
    case Binary(Or, _) => "or"
    case Ret => "ret"
    case Int => "int"
    case Call => "call"
    case Jmp => "jmp"
    case Jump(Eq) => "je"
    case Jump(Ne) => "jne"
    case Jump(Gt) => "jg"
    case Jump(Ge) => "jge"
    case Jump(Lt) => "jl"
    case Jump(Le) => "jle"
    case Jump(Carry) => "jc"
    case Jump(NoCarry) => "jnc"
    case Unary(Mul) => "mul"
    case Unary(Div) => "div"
    case Unary(Not) => "not"
  }

  function Opcode(id: Id): Byte {
    match id
    case Push => 0x50
    case Pop => 0x58
    case Binary(Mov, RI) => 0xB8
    case Binary(_, RI) => 0x81
    case Binary(alu, form) => AluCode(alu) + if form.RM? || form.RP? then 2 else 0
    case Ret => 0xC3
    case Int => 0xCD
    case Call => 0xE8
    case Jmp => 0xE9
    case Jump(cond) => CondCode(cond)
    case Unary(_) => 0xF7
  }

  function AluCode(alu: Alu): (code: Byte)
    ensures code < 0x8A
  {
    match alu case Mov => 0x89 case Cmp => 0x39 case Add => 0x01 case Sub => 0x29 case And => 0x21 case Or => 0x09
  }

  function CondCode(cond: Cond): Byte {
    match cond
    case Eq => 0x74 case Ne => 0x75 case Gt => 0x7F case Ge => 0x7D
    case Lt => 0x7C case Le => 0x7E case Carry => 0x72 case NoCarry => 0x73
  }

  /** Kinds of operands, as many as the table counts. */
  function Kinds(id: Id): seq<OperandKind> {
    match id
    case Push | Pop => [Register]
    case Binary(_, RI) => [Register, Immediate]
    case Binary(_, RR) => [Register, Register]
    case Binary(_, RM) => [Register, Memory]
    case Binary(_, MR) => [Memory, Register]
    case Binary(_, RP) => [Register, Pointer]
    case Binary(_, PR) => [Pointer, Register]
    case Ret => []
    case Int | Call | Jmp | Jump(_) => [Immediate]
    case Unary(_) => [Register, Any]
  }

  // ----- encoding -----

  /** Registers are numbered from 1; 0 is no register. */
  predicate IsRegister(v: int) { 1 <= v <= 8 }

  function Reg(v: int): int
    requires IsRegister(v)
  {
    v - 1
  }

  function Little(v: Word): (s: seq<Byte>)
    ensures |s| == 4
  {
    [v % 0x100, v / 0x100 % 0x100, v / 0x1_0000 % 0x100, v / 0x100_0000]
  }

  function Big(s: seq<Byte>): Word
    requires |s| == 4
  {
    var a: int, b: int, c: int, d: int := s[0], s[1], s[2], s[3];
    a + 0x100 * b + 0x1_0000 * c + 0x100_0000 * d
  }

  lemma LittleBig(v: Word)
    ensures Big(Little(v)) == v
  {
    assert v / 0x1_0000 == v / 0x100 / 0x100 && v / 0x100_0000 == v / 0x1_0000 / 0x100;
  }

  /** The operands of an instruction are what its table row asks for. */
  predicate OperandsFit(id: Id, a: Word, b: Word) {
    match id
    case Push | Pop => IsRegister(a)
    case Binary(_, RI) | Binary(_, RM) => IsRegister(a)
    case Binary(_, MR) => IsRegister(b)
    case Binary(_, _) => IsRegister(a) && IsRegister(b)
    case Unary(_) => IsRegister(a)
    case _ => true
  }

  /** Digit of the instructions that take an immediate. */
  function AluDigit(alu: Alu): int {
    match alu case Mov => 0 case Add => 0 case Or => 1 case And => 4 case Sub => 5 case Cmp => 7
  }

  function UnaryDigit(op: Single): int {
    match op case Not => 2 case Mul => 4 case Div => 6
  }

  /** Distance from behind an instruction to an absolute address. */
  function Distance(target: Word, origin: Word, next: nat): Word { (target - origin - next) % WORD }

  /** The bytes of an instruction at `offset`. The displacement of a store to memory comes from the
      register operand, not from the address. */
  function Emit(id: Id, a: Word, b: Word, offset: nat, origin: Word): seq<Byte>
    requires OperandsFit(id, a, b)
  {
    match id
    case Ret => [Opcode(id)]
    case Push | Pop => [Opcode(id) + Reg(a)]
    case Int => [Opcode(id), a % 0x100]
    case Jump(_) => [Opcode(id), Distance(a, origin, offset + 2) % 0x100]
    case Call | Jmp => [Opcode(id)] + Little(Distance(a, origin, offset + 5))
    case Binary(Mov, RI) => [Opcode(id) + Reg(a)] + Little(b)
    case Binary(alu, RI) => [Opcode(id), 0xC0 + 8 * AluDigit(alu) + Reg(a)] + Little(b)
    case Binary(_, RR) => [Opcode(id), 0xC0 + 8 * Reg(b) + Reg(a)]
    case Binary(_, RM) => [Opcode(id), 5 + 8 * Reg(a)] + Little(b)
    case Binary(_, MR) => [Opcode(id), 5 + 8 * Reg(b)] + Little(b)
    case Binary(_, RP) => [Opcode(id), 8 * Reg(a) + Reg(b)]
    case Binary(_, PR) => [Opcode(id), 8 * Reg(b) + Reg(a)]
    case Unary(op) => [Opcode(id), 0xC0 + 8 * UnaryDigit(op) + Reg(a)]
  }

  /** Length of an instruction. */
  function Length(id: Id): nat {
    match id
    case Ret | Push | Pop => 1
    case Int | Jump(_) | Unary(_) => 2
    case Call | Jmp => 5
    case Binary(Mov, RI) => 5
    case Binary(_, RI) | Binary(_, RM) | Binary(_, MR) => 6
    case Binary(_, _) => 2
  }

  /** The length depends on the instruction alone, not on operands or place. */
  lemma EmitLength(id: Id, a: Word, b: Word, offset: nat, origin: Word)
    requires OperandsFit(id, a, b)
    ensures |Emit(id, a, b, offset, origin)| == Length(id)
  {}

  /** The operands of one instruction agree in everything that its bytes show. */
  predicate Alike(id: Id, a: Word, b: Word, origin: Word, a': Word, b': Word, origin': Word) {
    match id
    case Ret => true
    case Push | Pop | Unary(_) => a == a'
    case Int => a % 0x100 == a' % 0x100
    case Jump(_) => (a - origin) % 0x100 == (a' - origin') % 0x100
    case Call | Jmp => (a - origin) % WORD == (a' - origin') % WORD
    case Binary(_, MR) => b == b'
    case Binary(_, _) => a == a' && b == b'
  }

  lemma LittleSame(u: Word, v: Word)
    ensures Little(u) == Little(v) <==> u == v
  {
    LittleBig(u);
    LittleBig(v);
  }

  lemma {:induction false} ModSame(x: int, y: int, n: int, m: int)
    requires m > 0
    ensures (x - n) % m == (y - n) % m <==> x % m == y % m
  {
    ModEqual(x, y, m);
    ModEqual(x - n, y - n, m);
  }

  /** Two numbers leave the same remainder when a multiple lies between them. */
  lemma {:induction false} ModEqual(x: int, y: int, m: int)
    requires m > 0
    ensures x % m == y % m <==> (x - y) % m == 0
  {
    var q, q' := x / m, y / m;
    assert x - y == m * (q - q') + (x % m - y % m) by { assert m * (q - q') == m * q - m * q'; }
    var d := x % m - y % m;
    assert -m < d < m;
    if d == 0 {
      Multiple(q - q', m);
    } else if (x - y) % m == 0 {
      var k := (x - y) / m - (q - q');
      assert d == m * k by { assert m * k == m * ((x - y) / m) - m * (q - q'); }
      SmallMultiple(m, k);
    }
  }

  lemma Multiple(q: int, m: int)
    requires m > 0
    ensures m * q % m == 0
  {
    var r, k := m * q % m, m * q / m;
    assert r == m * (q - k) by { assert m * (q - k) == m * q - m * k; }
    SmallMultiple(m, q - k);
  }

  lemma SmallMultiple(m: int, k: int)
    requires m > 0 && -m < m * k < m
    ensures k == 0
  {}

  lemma LowByte(x: int)
    ensures x % WORD % 0x100 == x % 0x100
  {}

  lemma JumpAlike(a: Word, origin: Word, a': Word, origin': Word, next: nat)
    ensures Distance(a, origin, next) == Distance(a', origin', next) <==> (a - origin) % WORD == (a' - origin') % WORD
    ensures Distance(a, origin, next) % 0x100 == Distance(a', origin', next) % 0x100
      <==> (a - origin) % 0x100 == (a' - origin') % 0x100
  {
    ModSame(a - origin, a' - origin', next, WORD);
    ModSame(a - origin, a' - origin', next, 0x100);
    LowByte(a - origin - next);
    LowByte(a' - origin' - next);
  }

  lemma EmitAlikeJump(id: Id, a: Word, b: Word, origin: Word, a': Word, b': Word, origin': Word, offset: nat)
    requires id.Call? || id.Jmp? || id.Jump?
    ensures Emit(id, a, b, offset, origin) == Emit(id, a', b', offset, origin')
      <==> Alike(id, a, b, origin, a', b', origin')
  {
    var s, s' := Emit(id, a, b, offset, origin), Emit(id, a', b', offset, origin');
    hide Little, Distance, Opcode;
    JumpAlike(a, origin, a', origin', offset + Length(id));
    if id.Jump? {
      assert s[1] == Distance(a, origin, offset + 2) % 0x100 && s'[1] == Distance(a', origin', offset + 2) % 0x100;
    } else {
      LittleSame(Distance(a, origin, offset + 5), Distance(a', origin', offset + 5));
      assert s[1..] == Little(Distance(a, origin, offset + 5)) && s'[1..] == Little(Distance(a', origin', offset + 5));
    }
  }

  lemma EmitAlikeWord(id: Id, a: Word, b: Word, origin: Word, a': Word, b': Word, origin': Word, offset: nat)
    requires OperandsFit(id, a, b) && OperandsFit(id, a', b') && id.Binary?
    requires id.form.RI? || id.form.RM? || id.form.MR?
    ensures Emit(id, a, b, offset, origin) == Emit(id, a', b', offset, origin')
      <==> Alike(id, a, b, origin, a', b', origin')
  {
    var s, s' := Emit(id, a, b, offset, origin), Emit(id, a', b', offset, origin');
    hide Little, Distance, Opcode, AluDigit;
    LittleSame(b, b');
    match id
    case Binary(Mov, RI) => assert s[1..] == Little(b) && s'[1..] == Little(b') && s[0] == Opcode(id) + Reg(a);
    case Binary(alu, RI) =>
      assert s[2..] == Little(b) && s'[2..] == Little(b') && s[1] == 0xC0 + 8 * AluDigit(alu) + Reg(a);
    case Binary(_, RM) => assert s[2..] == Little(b) && s'[2..] == Little(b') && s[1] == 5 + 8 * Reg(a);
    case Binary(_, MR) => assert s[2..] == Little(b) && s'[2..] == Little(b') && s[1] == 5 + 8 * Reg(b);
  }

  lemma EmitAlikeShort(id: Id, a: Word, b: Word, origin: Word, a': Word, b': Word, origin': Word, offset: nat)
    requires OperandsFit(id, a, b) && OperandsFit(id, a', b')
    requires id.Push? || id.Pop? || id.Int? || id.Ret? || id.Unary?
      || (id.Binary? && (id.form.RR? || id.form.RP? || id.form.PR?))
    ensures Emit(id, a, b, offset, origin) == Emit(id, a', b', offset, origin')
      <==> Alike(id, a, b, origin, a', b', origin')
  {
    var s, s' := Emit(id, a, b, offset, origin), Emit(id, a', b', offset, origin');
    hide Little, Distance, Opcode, UnaryDigit;
    assert s == s' ==> s[0] == s'[0] && (|s| > 1 ==> s[1] == s'[1]);
  }

  /** Two sets of operands give an instruction the same bytes in the same place if and only if they
      agree in everything that is shown. */
  lemma EmitAlike(id: Id, a: Word, b: Word, origin: Word, a': Word, b': Word, origin': Word, offset: nat)
    requires OperandsFit(id, a, b) && OperandsFit(id, a', b')
    ensures Emit(id, a, b, offset, origin) == Emit(id, a', b', offset, origin')
      <==> Alike(id, a, b, origin, a', b', origin')
  {
    hide Emit, Alike, OperandsFit;
    match id
    case Call | Jmp | Jump(_) => EmitAlikeJump(id, a, b, origin, a', b', origin', offset);
    case Binary(_, RI) | Binary(_, RM) | Binary(_, MR) => EmitAlikeWord(id, a, b, origin, a', b', origin', offset);
    case _ => EmitAlikeShort(id, a, b, origin, a', b', origin', offset);
  }

  // ----- decoding -----

  /** What can be read off the bytes: the instruction, its operands, and for a relative jump its target. */
  datatype Decoded = Decoded(id: Id, a: Word, b: Word)

  datatype Option<T> = None | Some(value: T)

  function AluOf(code: Byte): Option<Alu> {
    if code == 0x89 then Some(Mov) else if code == 0x39 then Some(Cmp) else if code == 0x01 then Some(Add)
    else if code == 0x29 then Some(Sub) else if code == 0x21 then Some(And) else if code == 0x09 then Some(Or) else None
  }

  function DigitOf(digit: int): Option<Alu> {
    if digit == 0 then Some(Add) else if digit == 1 then Some(Or) else if digit == 4 then Some(And)
    else if digit == 5 then Some(Sub) else if digit == 7 then Some(Cmp) else None
  }

  function CondOf(code: Byte): Option<Cond> {
    if code == 0x74 then Some(Eq) else if code == 0x75 then Some(Ne) else if code == 0x7F then Some(Gt)
    else if code == 0x7D then Some(Ge) else if code == 0x7C then Some(Lt) else if code == 0x7E then Some(Le)
    else if code == 0x72 then Some(Carry) else if code == 0x73 then Some(NoCarry) else None
  }

  /** A displacement byte counts backwards from 128 on. */
  function Extended(b: Byte): int { if b < 0x80 then b else b - 0x100 }

  /** Reads the first instruction of `s`, which starts at `offset`. The second byte of the two-operand
      forms has fields of 2, 3 and 3 bits, as section 2.1.5 of volume 2 of the Intel manual lays out: with
      a top field of 0, a low field of 5 announces an address, and one of 4 announces a further byte, which
      no instruction of this assembler has. */
  function Decode(s: seq<Byte>, offset: nat, origin: Word): Option<Decoded> {
    if |s| == 0 then None
    else if s[0] == 0xC3 then Some(Decoded(Ret, 0, 0))
    else if 0x50 <= s[0] < 0x58 then Some(Decoded(Push, s[0] - 0x50 + 1, 0))
    else if 0x58 <= s[0] < 0x60 then Some(Decoded(Pop, s[0] - 0x58 + 1, 0))
    else if 0xB8 <= s[0] < 0xC0 then
      if |s| < 5 then None else Some(Decoded(Binary(Mov, RI), s[0] - 0xB8 + 1, Big(s[1..5])))
    else if s[0] == 0xE8 || s[0] == 0xE9 then
      if |s| < 5 then None
      else Some(Decoded(if s[0] == 0xE8 then Call else Jmp, (Big(s[1..5]) + origin + offset + 5) % WORD, 0))
    else if |s| < 2 then None
    else if s[0] == 0xCD then Some(Decoded(Int, s[1], 0))
    else if CondOf(s[0]).Some? then
      Some(Decoded(Jump(CondOf(s[0]).value), (Extended(s[1]) + origin + offset + 2) % WORD, 0))
    else
      var top, mid, low := s[1] / 64, s[1] / 8 % 8, s[1] % 8;
      if s[0] == 0x81 then
        if |s| < 6 || top != 3 || DigitOf(mid).None? then None
        else Some(Decoded(Binary(DigitOf(mid).value, RI), low + 1, Big(s[2..6])))
      else if s[0] == 0xF7 then
        if top != 3 || mid !in {2, 4, 6} then None
        else Some(Decoded(Unary(if mid == 2 then Not else if mid == 4 then Mul else Div), low + 1, 0))
      else if AluOf(s[0]).Some? then
        if top == 3 then Some(Decoded(Binary(AluOf(s[0]).value, RR), low + 1, mid + 1))
        else if top == 0 && low != 4 && low != 5 then Some(Decoded(Binary(AluOf(s[0]).value, PR), low + 1, mid + 1))
        else None
      else if s[0] >= 2 && AluOf(s[0] - 2).Some? then
        if top != 0 || low == 4 then None
        else if low == 5 then
          if |s| < 6 then None else Some(Decoded(Binary(AluOf(s[0] - 2).value, RM), mid + 1, Big(s[2..6])))
        else Some(Decoded(Binary(AluOf(s[0] - 2).value, RP), mid + 1, low + 1))
      else None
  }

  /** What is lost in encoding: the address of a store, more than a byte of an interrupt number, a jump
      out of reach of its displacement byte, and the base registers `esp` and `ebp`, whose codes mean
      something else. */
  predicate Readable(id: Id, a: Word, b: Word, offset: nat, origin: Word) {
    && OperandsFit(id, a, b)
    && match id
      case Int => a < 0x100
      case Jump(_) => Distance(a, origin, offset + 2) < 0x80 || Distance(a, origin, offset + 2) >= WORD - 0x80
      case Binary(_, MR) => false
      case Binary(_, RP) => b != 5 && b != 6
      case Binary(_, PR) => a != 5 && a != 6
      case _ => true
  }

  /** The base register is `esp`: the second byte announces a further one, which is not emitted. */
  predicate AsksForMore(id: Id, a: Word, b: Word) {
    match id
    case Binary(_, RP) => b == 5
    case Binary(_, PR) => a == 5
    case _ => false
  }

  /** Operands an instruction does not have. */
  function Shown(id: Id, a: Word, b: Word): Decoded {
    Decoded(id, if id.Ret? then 0 else a, if id.Binary? then b else 0)
  }

  lemma DistanceBack(target: Word, origin: Word, next: nat)
    ensures (Distance(target, origin, next) + origin + next) % WORD == target
  {
    var d := target - origin - next;
    assert d == WORD * (d / WORD) + d % WORD;
    Wraps(target, d / WORD);
  }

  lemma Wraps(t: Word, q: int)
    ensures (t - WORD * q) % WORD == t
  {}

  lemma NearBack(target: Word, origin: Word, next: nat)
    requires Distance(target, origin, next) < 0x80 || Distance(target, origin, next) >= WORD - 0x80
    ensures (Extended(Distance(target, origin, next) % 0x100) + origin + next) % WORD == target
  {
    DistanceBack(target, origin, next);
    var d := Distance(target, origin, next);
    if d >= 0x80 {
      assert d % 0x100 == d - (WORD - 0x100);
      assert Extended(d % 0x100) == d - WORD;
      var x := d + origin + next;
      assert (x - WORD) % WORD == x % WORD;
    }
  }

  lemma DecodeImmediate(alu: Alu, a: Word, b: Word, offset: nat, origin: Word, rest: seq<Byte>)
    requires IsRegister(a)
    ensures Decode(Emit(Binary(alu, RI), a, b, offset, origin) + rest, offset, origin)
      == Some(Decoded(Binary(alu, RI), a, b))
  {
    var s := Emit(Binary(alu, RI), a, b, offset, origin) + rest;
    hide Little, Big, Distance, Extended;
    LittleBig(b);
    if alu.Mov? {
      assert s[1..5] == Little(b);
    } else {
      assert s[2..6] == Little(b);
    }
  }

  lemma DecodeMemory(alu: Alu, a: Word, b: Word, offset: nat, origin: Word, rest: seq<Byte>)
    requires IsRegister(a)
    ensures Decode(Emit(Binary(alu, RM), a, b, offset, origin) + rest, offset, origin)
      == Some(Decoded(Binary(alu, RM), a, b))
  {
    var s := Emit(Binary(alu, RM), a, b, offset, origin) + rest;
    hide Little, Big, Distance, Extended;
    LittleBig(b);
    assert s[2..6] == Little(b);
  }

  lemma Fields(top: int, mid: int, low: int)
    requires 0 <= top < 4 && 0 <= mid < 8 && 0 <= low < 8
    ensures (64 * top + 8 * mid + low) / 64 == top && (64 * top + 8 * mid + low) % 8 == low
    ensures (64 * top + 8 * mid + low) / 8 % 8 == mid
  {
    assert (64 * top + 8 * mid + low) / 8 == 8 * top + mid;
  }

  lemma AluBack(alu: Alu)
    ensures AluOf(AluCode(alu)) == Some(alu) && CondOf(AluCode(alu)).None? && CondOf(AluCode(alu) + 2).None?
    ensures AluOf(AluCode(alu) + 2).None?
    ensures AluCode(alu) !in {0x81, 0xC3, 0xCD, 0xE8, 0xE9, 0xF7}
    ensures AluCode(alu) + 2 !in {0x81, 0xC3, 0xCD, 0xE8, 0xE9, 0xF7}
    ensures !(0x4E <= AluCode(alu) < 0x60)
  {}

  lemma DecodeRegisters(alu: Alu, form: Form, a: Word, b: Word, offset: nat, origin: Word, rest: seq<Byte>)
    requires form.RR? || form.RP? || form.PR?
    requires Readable(Binary(alu, form), a, b, offset, origin)
    ensures Decode(Emit(Binary(alu, form), a, b, offset, origin) + rest, offset, origin)
      == Some(Decoded(Binary(alu, form), a, b))
  {
    hide Little, Big, Distance, Extended, AluOf, AluCode, CondOf;
    AluBack(alu);
    match form
    case RR => Fields(3, Reg(b), Reg(a));
    case RP => Fields(0, Reg(a), Reg(b));
    case PR => Fields(0, Reg(b), Reg(a));
  }

  lemma DecodeJump(id: Id, a: Word, b: Word, offset: nat, origin: Word, rest: seq<Byte>)
    requires id.Call? || id.Jmp? || id.Jump?
    requires Readable(id, a, b, offset, origin)
    ensures Decode(Emit(id, a, b, offset, origin) + rest, offset, origin) == Some(Shown(id, a, b))
  {
    var s := Emit(id, a, b, offset, origin) + rest;
    hide Little, Big, Distance, Extended;
    if id.Jump? {
      NearBack(a, origin, offset + 2);
    } else {
      LittleBig(Distance(a, origin, offset + 5));
      assert s[1..5] == Little(Distance(a, origin, offset + 5));
      DistanceBack(a, origin, offset + 5);
    }
  }

  lemma DecodeShort(id: Id, a: Word, b: Word, offset: nat, origin: Word, rest: seq<Byte>)
    requires id.Ret? || id.Push? || id.Pop? || id.Int? || id.Unary?
    requires Readable(id, a, b, offset, origin)
    ensures Decode(Emit(id, a, b, offset, origin) + rest, offset, origin) == Some(Shown(id, a, b))
  {
    hide Little, Big, Distance, Extended;
  }

  /** Reading back the instruction at the front of any stream gives what was encoded there if and only if
      the instruction is readable. */
  lemma DecodeFirst(id: Id, a: Word, b: Word, offset: nat, origin: Word, rest: seq<Byte>)
    requires OperandsFit(id, a, b)
    ensures Decode(Emit(id, a, b, offset, origin) + rest, offset, origin) == Some(Shown(id, a, b))
      <==> Readable(id, a, b, offset, origin)
  {
    hide *;
    if Readable(id, a, b, offset, origin) {
      DecodeReadable(id, a, b, offset, origin, rest);
    } else {
      DecodeOther(id, a, b, offset, origin, rest);
    }
  }

  /** An operand that is lost is not read back: another one is, or none. */
  lemma DecodeOther(id: Id, a: Word, b: Word, offset: nat, origin: Word, rest: seq<Byte>)
    requires OperandsFit(id, a, b) && !Readable(id, a, b, offset, origin)
    ensures Decode(Emit(id, a, b, offset, origin) + rest, offset, origin) != Some(Shown(id, a, b))
  {
    hide Little, Big, Distance, Extended, AluOf, AluCode, CondOf;
    match id
    case Int =>
    case Jump(cond) =>
      CondBack(cond);
      NearTarget(a, origin, offset + 2);
    case Binary(alu, MR) =>
      AluBack(alu);
      Fields(0, Reg(b), 5);
    case Binary(alu, RP) =>
      AluBack(alu);
      Fields(0, Reg(a), Reg(b));
    case Binary(alu, PR) =>
      AluBack(alu);
      Fields(0, Reg(b), Reg(a));
  }

  lemma CondBack(cond: Cond)
    ensures CondOf(CondCode(cond)) == Some(cond) && 0x70 <= CondCode(cond) < 0x80
  {}

  lemma DecodeReadable(id: Id, a: Word, b: Word, offset: nat, origin: Word, rest: seq<Byte>)
    requires Readable(id, a, b, offset, origin)
    ensures Decode(Emit(id, a, b, offset, origin) + rest, offset, origin) == Some(Shown(id, a, b))
  {
    hide Decode, Emit;
    match id
    case Call | Jmp | Jump(_) =>
      DecodeJump(id, a, b, offset, origin, rest);
    case Binary(alu, RI) =>
      DecodeImmediate(alu, a, b, offset, origin, rest);
    case Binary(alu, RM) =>
      DecodeMemory(alu, a, b, offset, origin, rest);
    case Binary(alu, RR) =>
      DecodeRegisters(alu, RR, a, b, offset, origin, rest);
    case Binary(alu, RP) =>
      DecodeRegisters(alu, RP, a, b, offset, origin, rest);
    case Binary(alu, PR) =>
      DecodeRegisters(alu, PR, a, b, offset, origin, rest);
    case Ret | Push | Pop | Int | Unary(_) => DecodeShort(id, a, b, offset, origin, rest);
  }

  /** Whatever is not readable is lost: but for the base register `esp`, after which no instruction of the
      assembler can be read, something else begins with the same bytes. */
  lemma Unreadable(id: Id, a: Word, b: Word, offset: nat, origin: Word) returns (id': Id, a': Word, b': Word)
    requires OperandsFit(id, a, b) && !Readable(id, a, b, offset, origin) && !AsksForMore(id, a, b)
    ensures OperandsFit(id', a', b') && Shown(id', a', b') != Shown(id, a, b)
    ensures Emit(id, a, b, offset, origin) <= Emit(id', a', b', offset, origin)
  {
    id', a', b' := id, a, b;
    match id
    case Int =>
      a' := a % 0x100;
    case Jump(_) =>
      var d := Distance(a, origin, offset + 2);
      a' := (Extended(d % 0x100) + origin + offset + 2) % WORD;
      NearTarget(a, origin, offset + 2);
    case Binary(_, MR) =>
      a' := (a + 1) % WORD;
    case Binary(alu, RP) =>
      id' := Binary(alu, RM);
    case Binary(alu, PR) =>
      id' := Binary(alu, MR);
  }

  /** With the base register `esp` nothing at all is read, whatever follows. */
  lemma NothingRead(id: Id, a: Word, b: Word, offset: nat, origin: Word, rest: seq<Byte>)
    requires OperandsFit(id, a, b) && AsksForMore(id, a, b)
    ensures Decode(Emit(id, a, b, offset, origin) + rest, offset, origin) == None
  {
    hide Little, Big, Distance, Extended, AluOf, AluCode, CondOf;
    AluBack(id.alu);
    if id.form.RP? {
      Fields(0, Reg(a), Reg(b));
    } else {
      Fields(0, Reg(b), Reg(a));
    }
  }

  /** Some target in reach has the displacement byte of any other one. */
  lemma NearTarget(target: Word, origin: Word, next: nat)
    ensures var d := Distance(target, origin, next); var t := (Extended(d % 0x100) + origin + next) % WORD;
      Distance(t, origin, next) % 0x100 == d % 0x100 && (t == target ==> d < 0x80 || d >= WORD - 0x80)
  {
    var d := Distance(target, origin, next);
    var e := Extended(d % 0x100);
    var x := e + origin + next;
    var t := x % WORD;
    assert t - x == -WORD * (x / WORD);
    ModShift(e, x / WORD);
    assert t - origin - next == e - WORD * (x / WORD);
  }

  lemma ModShift(e: int, q: int)
    requires -0x80 <= e < 0x80
    ensures (e - WORD * q) % WORD == if e >= 0 then e else e + WORD
  {}

  // ----- streams -----

  datatype Step = Step(id: Id, a: Word, b: Word)

  ghost predicate AllReadable(steps: seq<Step>, offset: nat, origin: Word) {
    steps != [] ==>
      && Readable(steps[0].id, steps[0].a, steps[0].b, offset, origin)
      && AllReadable(steps[1..], offset + Length(steps[0].id), origin)
  }

  /** The bytes of instructions that follow one another. */
  ghost function EmitAll(steps: seq<Step>, offset: nat, origin: Word): seq<Byte>
    requires AllReadable(steps, offset, origin)
  {
    if steps == [] then []
    else
      Emit(steps[0].id, steps[0].a, steps[0].b, offset, origin)
        + EmitAll(steps[1..], offset + Length(steps[0].id), origin)
  }

  /** Reads instruction after instruction, each where the one before it ends. */
  ghost function DecodeAll(s: seq<Byte>, offset: nat, origin: Word): Option<seq<Decoded>>
    decreases |s|
  {
    if s == [] then Some([])
    else
      match Decode(s, offset, origin)
      case None => None
      case Some(d) =>
        if Length(d.id) > |s| then None
        else match DecodeAll(s[Length(d.id)..], offset + Length(d.id), origin)
          case None => None
          case Some(rest) => Some([d] + rest)
  }

  function ShownAll(steps: seq<Step>): seq<Decoded> {
    if steps == [] then [] else [Shown(steps[0].id, steps[0].a, steps[0].b)] + ShownAll(steps[1..])
  }

  /** A stream of encoded instructions is read back as those instructions, and in no other way. */
  lemma {:induction false} DecodeStream(steps: seq<Step>, offset: nat, origin: Word)
    requires AllReadable(steps, offset, origin)
    ensures DecodeAll(EmitAll(steps, offset, origin), offset, origin) == Some(ShownAll(steps))
  {
    hide Decode, Emit, Readable;
    if steps != [] {
      var id, a, b := steps[0].id, steps[0].a, steps[0].b;
      assert OperandsFit(id, a, b) by { FitsOperands(id, a, b, offset, origin); }
      var first, rest := Emit(id, a, b, offset, origin), EmitAll(steps[1..], offset + Length(id), origin);
      EmitLength(id, a, b, offset, origin);
      DecodeFirst(id, a, b, offset, origin, rest);
      assert (first + rest)[Length(id)..] == rest;
      DecodeStream(steps[1..], offset + Length(id), origin);
    }
  }

  lemma FitsOperands(id: Id, a: Word, b: Word, offset: nat, origin: Word)
    requires Readable(id, a, b, offset, origin)
    ensures OperandsFit(id, a, b)
  {}
}
