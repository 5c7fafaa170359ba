// Branch instructions by the numbers in their fields, and where the debugger steps to from them.

module BranchWords {
  import opened Arith
  import opened Bedbug

  // A branch is taken: the bits of its BO field that are to be zero are, and the counter as it will be and the
  // condition bit are what the field asks for, or are not asked for.
  predicate Taken(bo: nat, bi: nat, ccr: nat, ctr: nat)
    requires bi < 32
  {
    && !(bo / 4 % 2 == 1 && bo / 2 % 2 == 1) && !(bo / 16 % 2 == 1 && bo / 8 % 2 == 1)
    && (bo / 4 % 2 == 1 || (ctr == 1) == (bo / 2 % 2 == 1))
    && (bo / 16 % 2 == 1 || (ccr / Pow2(31 - bi) % 2 == 1) == (bo / 8 % 2 == 1))
  }

  function Following(nip: nat): nat {
    (nip / 4 * 4 + 4) % 0x1_0000_0000
  }

  // ---- the fields of a word

  lemma FieldsAre(instr: nat)
    ensures Field(BO, instr) == instr / 0x20_0000 % 32 && Field(BI, instr) == instr / 0x1_0000 % 32
    ensures Field(BD, instr) == instr / 4 % 0x4000 && Field(LI, instr) == instr / 4 % 0x100_0000
    ensures Field(AA, instr) == instr / 2 % 2 && Field(LK, instr) == instr % 2
  {
    PowersAre();
  }

  lemma PowersAre()
    ensures Pow2(0) == 1 && Pow2(1) == 2 && Pow2(2) == 4 && Pow2(5) == 32
    ensures Pow2(14) == 0x4000 && Pow2(16) == 0x1_0000 && Pow2(21) == 0x20_0000 && Pow2(24) == 0x100_0000
  {
    PowersAdd(5, 5);
    PowersAdd(10, 4);
    PowersAdd(14, 2);
    PowersAdd(16, 5);
    PowersAdd(21, 3);
    assert Pow2(4) == 16 && Pow2(3) == 8;
  }

  lemma Digits(w: nat, q: nat, r: nat, a: nat)
    requires a > 0 && w == q * a + r && r < a
    ensures w / a == q && w % a == r
  {
    Divides(w, a, q, r);
  }

  // The upper half: the main opcode and two fields of five bits
  lemma UpperFields(main: nat, bo: nat, bi: nat, rest: nat)
    requires main < 64 && bo < 32 && bi < 32 && rest < 0x1_0000
    ensures var w := main * 0x400_0000 + bo * 0x20_0000 + bi * 0x1_0000 + rest;
            && w < 0x1_0000_0000 && w / 0x400_0000 % 64 == main && w / 0x20_0000 % 32 == bo && w / 0x1_0000 % 32 == bi
            && w % 0x1_0000 == rest
  {
    var w := main * 0x400_0000 + bo * 0x20_0000 + bi * 0x1_0000 + rest;
    Digits(w, main, bo * 0x20_0000 + bi * 0x1_0000 + rest, 0x400_0000);
    Digits(w, main * 32 + bo, bi * 0x1_0000 + rest, 0x20_0000);
    Digits(w, main * 1024 + bo * 32 + bi, rest, 0x1_0000);
  }

  // The lower half
  lemma LowerFields(w: nat, rest: nat)
    requires w % 0x1_0000 == rest
    ensures w / 4 % 0x4000 == rest / 4 && w / 2 % 1024 == rest / 2 % 1024
    ensures w / 2 % 2 == rest / 2 % 2 && w % 2 == rest % 2
  {
    var q, half := w / 0x1_0000, rest / 2;
    Quotient(w, 0x1_0000);
    Digits(w, q * 0x4000 + rest / 4, rest % 4, 4);
    Digits(w / 4, q, rest / 4, 0x4000);
    Digits(w, q * 0x8000 + half, rest % 2, 2);
    Digits(w / 2, q * 32 + half / 1024, half % 1024, 1024);
    Digits(w / 2, q * 0x4000 + half / 2, half % 2, 2);
  }

  lemma DisplacementIs(bits: nat, f: nat, half: nat)
    requires (bits == 14 && half == 0x2000) || (bits == 24 && half == 0x80_0000)
    requires f < 2 * half
    ensures Extended(bits, f) == (if f < half then 4 * f else 4 * f - 8 * half) % 0x1_0000_0000
  {
    PowersAre();
    PowersAdd(13, 1);
    PowersAdd(23, 1);
    hide Pow2, Extended;
    assert Pow2(bits - 1) == half && Pow2(bits) == 2 * half;
    ExtendedIs(bits, f);
  }

  lemma AddedTo(pc: nat, d: int)
    ensures (d % 0x1_0000_0000 + pc) % 0x1_0000_0000 == (pc + d) % 0x1_0000_0000
  {
  }

  // ---- one step

  // bclr and bcctr: opcode 19, with 16 or 528 in the ten bits in front of LK
  method StepsThroughRegister(bo: nat, bi: nat, toLink: bool, lk: nat, regs: Regs, stepOver: bool) returns (a: nat)
    requires bo < 32 && bi < 32 && lk < 2
    requires regs.ctr < WORD && regs.link < WORD && regs.nip < WORD
    ensures a == if Taken(bo, bi, regs.ccr, regs.ctr) && !(stepOver && lk == 1)
                 then if toLink then regs.link else regs.ctr
                 else Following(regs.nip)
  {
    hide Field, Pow2;
    var rest := (if toLink then 16 else 528) * 2 + lk;
    var w := 19 * 0x400_0000 + bo * 0x20_0000 + bi * 0x1_0000 + rest;
    UpperFields(19, bo, bi, rest);
    LowerFields(w, rest);
    FieldsAre(w);
    var ok;
    ok, a := FindNextAddress(regs, w, true, stepOver);
  }

  lemma ConditionalWord(bo: nat, bi: nat, bd: nat, aa: nat, lk: nat, regs: Regs)
    requires bo < 32 && bi < 32 && bd < 0x4000 && aa < 2 && lk < 2
    ensures var w := 16 * 0x400_0000 + bo * 0x20_0000 + bi * 0x1_0000 + bd * 4 + aa * 2 + lk;
            var d: int := if bd < 0x2000 then 4 * bd else 4 * bd - 0x1_0000;
            && w < WORD && KindOf(w) == Conditional
            && Field(BO, w) == bo && Field(BI, w) == bi && Field(LK, w) == lk
            && Target(w, regs) == (if aa == 1 then d else regs.nip / 4 * 4 + d) % 0x1_0000_0000
  {
    hide Field, Pow2, Extended;
    var rest := bd * 4 + aa * 2 + lk;
    var w := 16 * 0x400_0000 + bo * 0x20_0000 + bi * 0x1_0000 + rest;
    UpperFields(16, bo, bi, rest);
    LowerFields(w, rest);
    FieldsAre(w);
    DisplacementIs(14, bd, 0x2000);
    AddedTo(Pc(regs), if bd < 0x2000 then 4 * bd else 4 * bd - 0x1_0000);
  }

  lemma TakenIs(bo: nat, bi: nat, regs: Regs)
    requires bi < 32
    ensures Taken(bo, bi, regs.ccr, regs.ctr) <==> Regular(bo) && Takes(bo, bi, regs)
  {
    hide Pow2;
  }

  // bc: opcode 16, with fourteen bits for a distance in words, AA and LK
  method StepsConditionally(bo: nat, bi: nat, bd: nat, aa: nat, lk: nat, regs: Regs, stepOver: bool) returns (a: nat)
    requires bo < 32 && bi < 32 && bd < 0x4000 && aa < 2 && lk < 2
    requires regs.ctr < WORD && regs.link < WORD && regs.nip < WORD
    ensures var d: int := if bd < 0x2000 then 4 * bd else 4 * bd - 0x1_0000;
            a == if Taken(bo, bi, regs.ccr, regs.ctr) && !(stepOver && lk == 1)
                 then (if aa == 1 then d else regs.nip / 4 * 4 + d) % 0x1_0000_0000
                 else Following(regs.nip)
  {
    hide Field, KindOf, Target, Taken, Takes, Regular;
    var w := 16 * 0x400_0000 + bo * 0x20_0000 + bi * 0x1_0000 + bd * 4 + aa * 2 + lk;
    ConditionalWord(bo, bi, bd, aa, lk, regs);
    TakenIs(bo, bi, regs);
    var ok;
    ok, a := FindNextAddress(regs, w, true, stepOver);
  }

  // b: opcode 18, with twenty-four bits
  method StepsUnconditionally(li: nat, aa: nat, lk: nat, regs: Regs, stepOver: bool) returns (a: nat)
    requires li < 0x100_0000 && aa < 2 && lk < 2
    requires regs.ctr < WORD && regs.link < WORD && regs.nip < WORD
    ensures var d: int := if li < 0x80_0000 then 4 * li else 4 * li - 0x400_0000;
            a == if !(stepOver && lk == 1) then (if aa == 1 then d else regs.nip / 4 * 4 + d) % 0x1_0000_0000
                 else Following(regs.nip)
  {
    hide Field, Pow2, Extended;
    var w := 18 * 0x400_0000 + li * 4 + aa * 2 + lk;
    Digits(w, 18, li * 4 + aa * 2 + lk, 0x400_0000);
    Digits(w, 18 * 0x100_0000 + li, aa * 2 + lk, 4);
    Digits(w / 4, 18, li, 0x100_0000);
    Digits(w, (18 * 0x100_0000 + li) * 2 + aa, lk, 2);
    FieldsAre(w);
    DisplacementIs(24, li, 0x80_0000);
    AddedTo(Pc(regs), if li < 0x80_0000 then 4 * li else 4 * li - 0x400_0000);
    var ok;
    ok, a := FindNextAddress(regs, w, true, stepOver);
  }

  // Any other instruction
  method StepsOn(main: nat, rest: nat, regs: Regs, stepOver: bool) returns (a: nat)
    requires main < 64 && main != 16 && main != 18 && rest < 0x400_0000
    requires main == 19 ==> rest / 2 % 1024 != 16 && rest / 2 % 1024 != 528
    requires regs.ctr < WORD && regs.link < WORD && regs.nip < WORD
    ensures a == Following(regs.nip)
  {
    hide Field, Pow2;
    var w := main * 0x400_0000 + rest;
    Digits(w, main, rest, 0x400_0000);
    Digits(w, main * 0x200_0000 + rest / 2, rest % 2, 2);
    Digits(w / 2, main * 0x8000 + rest / 2 / 1024, rest / 2 % 1024, 1024);
    var ok;
    ok, a := FindNextAddress(regs, w, true, stepOver);
  }

  // mftb, assembled: opcode 31, the register that is loaded, the number of the time base register with its halves
  // exchanged, and 371
  lemma TimeBaseWord(rt: nat, number: nat)
    requires rt < 32 && number < 1024
    ensures var opcode := 31 * 0x400_0000 + rt * 0x20_0000 + 371 * 2;
            Or(opcode, Swapped(number) * Pow2(TBR.shift)) ==
            opcode + (number % 32) * 0x1_0000 + number / 32 * 0x800
  {
    var opcode := 31 * 0x400_0000 + rt * 0x20_0000 + 371 * 2;
    PowersAre();
    PowersAdd(5, 6);
    Digits(opcode, (31 * 32 + rt) * 1024, 742, 0x800);
    assert Pow2(6) == 64;
    assert Pow2(10) == 1024 by {
      PowersAdd(5, 5);
    }
    Digits((31 * 32 + rt) * 1024, 31 * 32 + rt, 0, 1024);
    hide Or, Pow2;
    SwappedTwice(number);
    FieldAdds(TBR, opcode, Swapped(number));
  }
}
