/** Short programs that are assembled wrongly. */
module AssemblerWitnesses {
  import opened Entries
  import opened Instructions
  import opened Assembler
  import opened Manual

  /** Whatever the assembler puts out for the program, it is not what one pass with all symbols known would. */
  ghost predicate ComesOutWrong(items: seq<Item>) {
    && ProgramOk(items)
    && forall out :: |out| == OffsetAt(items, |items|) && Lines(out, items, |items|, KeptAt(items, |items|)) ==>
         out != Reference(items, |items|)
  }

  /** One line that is neither recorded nor settled is enough. */
  lemma OneIsEnough(items: seq<Item>, i: nat)
    requires ProgramOk(items) && i < |items| && !Recorded(items, i) && !SettledBy(items, i)
    ensures ComesOutWrong(items)
  {
    hide ProgramOk, Lines, Recorded, SettledBy, KeptAt, Reference, OffsetAt;
    forall out | |out| == OffsetAt(items, |items|) && Lines(out, items, |items|, KeptAt(items, |items|))
      ensures out != Reference(items, |items|)
    {
      ExactlyRight(out, items);
    }
  }

  /** A jump or call to a symbol or a number. */
  lemma Branch(item: Item)
    requires item.Code? && |item.operands| == 1 && KindOf(item.operands[0]) == Immediate
    requires item.mnemonic == "jmp" || item.mnemonic == "call"
    ensures IdOf(item) == Some(if item.mnemonic == "jmp" then Jmp else Call)
  {
    hide IdOf;
    assert KindsOf(item.operands) == [Immediate];
    Chosen(item, if item.mnemonic == "jmp" then Jmp else Call);
  }

  /** `jmp l` on the first line and `l:` on the next. The letter parses to 21, and that stays. */
  lemma JumpFirst()
    ensures ComesOutWrong([Code("jmp", [Symbol("l", false, 21)]), Label("l")])
  {
    hide FindFrom, Mnemonic;
    var items := [Code("jmp", [Symbol("l", false, 21)]), Label("l")];
    Branch(items[0]);
    assert items[0].operands[..0] == [];
    assert OffsetAt(items, 0) == 0 && OffsetAt(items, 1) == 5;
    assert ValueAt(items, 2, "l") == 5 && OriginAt(items, 2) == ORIGIN;
    assert AddressOf(items, "l") == ORIGIN + 5;
    OneIsEnough(items, 0);
  }

  /** A call of a number, with another origin on the line behind it. */
  lemma LateOrigin()
    ensures ComesOutWrong([Code("call", [Number(0x20005, false)]), Org(0x30000)])
  {
    hide FindFrom, Mnemonic;
    var items := [Code("call", [Number(0x20005, false)]), Org(0x30000)];
    Branch(items[0]);
    assert items[0].operands[..0] == [];
    assert OriginAt(items, 0) == ORIGIN && OriginAt(items, 2) == 0x30000;
    OneIsEnough(items, 0);
  }

  // ----- what the decoder makes of it -----

  const EAX: Word := 1
  const ESP: Word := 5
  const EBP: Word := 6

  /** `mov eax,[ebp]` begins `mov eax,[0]`. */
  lemma ThroughEbp()
    ensures Emit(Binary(Mov, RP), EAX, EBP, 0, ORIGIN) <= Emit(Binary(Mov, RM), EAX, 0, 0, ORIGIN)
  {}

  /** `mov eax,[esp]` is not read, whatever follows. */
  lemma ThroughEsp(rest: seq<Byte>)
    ensures Decode(Emit(Binary(Mov, RP), EAX, ESP, 0, ORIGIN) + rest, 0, ORIGIN) == None
  {
    NothingRead(Binary(Mov, RP), EAX, ESP, 0, ORIGIN, rest);
  }

  // ----- a reference too many -----

  /** A return, 33 jumps to `l`, and `l` itself. */
  function ManyJumps(): seq<Item> {
    [Code("ret", [])] + seq(33, _ => Code("jmp", [Symbol("l", false, 21)])) + [Label("l")]
  }

  lemma ManyAt(i: nat)
    requires i < 35
    ensures |ManyJumps()| == 35
    ensures ManyJumps()[i] == if i == 0 then Code("ret", []) else if i < 34 then Code("jmp", [Symbol("l", false, 21)])
      else Label("l")
  {}

  lemma JumpLine(i: nat)
    requires 0 < i < 34
    ensures |ManyJumps()| == 35 && SizeOf(ManyJumps()[i]) == 5 && Refers(ManyJumps(), i)
    ensures ManyJumps()[i].Code? && IdOf(ManyJumps()[i]) == Some(Jmp) && ItemOk(ManyJumps()[i])
  {
    hide ManyJumps, FindFrom;
    ManyAt(i);
    Branch(ManyJumps()[i]);
  }

  lemma FirstReturn()
    ensures |ManyJumps()| == 35 && SizeOf(ManyJumps()[0]) == 1 && !Refers(ManyJumps(), 0)
    ensures ManyJumps()[0].Code? && IdOf(ManyJumps()[0]) == Some(Ret) && ItemOk(ManyJumps()[0])
  {
    hide ManyJumps, FindFrom;
    ManyAt(0);
    var item := ManyJumps()[0];
    assert KindsOf(item.operands) == [];
    Chosen(item, Ret);
  }

  lemma {:induction false} ManyOffsets(k: nat)
    requires 0 < k <= 34
    ensures |ManyJumps()| == 35 && OffsetAt(ManyJumps(), k) == 5 * k - 4 && CountedAt(ManyJumps(), k) == k - 1
    ensures OriginAt(ManyJumps(), k) == ORIGIN
  {
    hide ManyJumps, FindFrom, SizeOf, IdOf, ItemOk, Refers;
    FirstReturn();
    if k > 1 {
      ManyOffsets(k - 1);
      JumpLine(k - 1);
    }
  }

  /** The last of the jumps finds no slot. */
  lemma OneReferenceTooMany()
    ensures ComesOutWrong(ManyJumps())
  {
    hide ManyJumps, FindFrom, SizeOf, IdOf, ItemOk, OffsetAt, OriginAt, CountedAt;
    var items := ManyJumps();
    FirstReturn();
    forall i | 0 <= i < 35 ensures ItemOk(items[i]) && Known(items[i]) {
      ManyAt(i);
      if 0 < i < 34 { JumpLine(i); }
      if i == 34 { EndOk(i); }
    }
    ManyOffsets(33);
    LabelAt();
    JumpLine(33);
    ManyAt(33);
    assert items[33].operands[..0] == [];
    OneIsEnough(items, 33);
  }

  lemma EndOk(i: nat)
    requires i == 34
    ensures |ManyJumps()| == 35 && ItemOk(ManyJumps()[34]) && Known(ManyJumps()[34])
  {
    ManyAt(34);
  }

  lemma LabelAt()
    ensures |ManyJumps()| == 35 && AddressOf(ManyJumps(), "l") == ORIGIN + 166 && OriginAt(ManyJumps(), 35) == ORIGIN
  {
    hide ManyJumps, OffsetAt;
    ManyAt(34);
    ManyOffsets(34);
  }
}
