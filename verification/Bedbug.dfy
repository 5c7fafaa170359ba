// Branch operands of PowerPC instructions: assembling them, showing them, and following them one step.

module Bedbug {
  import opened Arith

  const WORD: nat := 0x1_0000_0000
  const HALF: int := 0x8000_0000

  // A field of the instruction word (struct operand)
  datatype Operand = Operand(bits: nat, shift: nat)

  const AA := Operand(1, 1)
  const LK := Operand(1, 0)
  const BD := Operand(14, 2)
  const LI := Operand(24, 2)
  const BI := Operand(5, 16)
  const BO := Operand(5, 21)
  const TBR := Operand(10, 11)

  // (instr >> shift) & ((1 << bits) - 1)
  function Field(o: Operand, instr: nat): nat {
    instr / Pow2(o.shift) % Pow2(o.bits)
  }

  function Signed(w: nat): int {
    if w < HALF then w else w - WORD
  }

  // ---- the assembler ----

  // What parse_operand encodes for an address
  function Distance(target: nat, memaddr: nat, relative: bool): int {
    Signed(if relative then (target - memaddr) % WORD else target)
  }

  // parse_operand for an address; >> keeps the sign
  function ParseAddress(o: Operand, target: nat, memaddr: nat, relative: bool): nat
    requires o.bits >= 1
  {
    var d := Distance(target, memaddr, relative);
    var data := d / 4 % Pow2(o.bits - 1);
    (if d < 0 then Or(data, Pow2(o.bits - 1)) else data) % Pow2(o.bits) * Pow2(o.shift)
  }

  // asmppc, from the opcode on
  function Assembled(o: Operand, opcode: nat, target: nat, memaddr: nat, relative: bool): nat
    requires o.bits >= 1
  {
    Or(opcode, ParseAddress(o, target, memaddr, relative))
  }

  // ---- the disassembler ----

  // The sign of a field extended to the word, and the two low bits put back
  function Extended(bits: nat, field: nat): nat
    requires bits >= 1
  {
    (if field / Pow2(bits - 1) % 2 == 1 then (field - Pow2(bits)) % WORD else field) * 4 % WORD
  }

  // print_operands for an address
  function Shown(o: Operand, instr: nat, at: nat, relative: bool): nat
    requires o.bits >= 1
  {
    var operand := Extended(o.bits, Field(o, instr));
    if relative then (operand + at) % WORD else operand
  }

  // ---- fields of an assembled word ----

  // A word with nothing in the field, taken apart
  lemma Parts(o: Operand, w: nat)
    requires Field(o, w) == 0
    ensures w % Pow2(o.shift) < Pow2(o.shift)
    ensures w == w / Pow2(o.shift + o.bits) * Pow2(o.shift + o.bits) + w % Pow2(o.shift)
  {
    hide Pow2;
    PowersAdd(o.shift, o.bits);
    TakenApart(w, Pow2(o.shift), Pow2(o.bits));
  }

  lemma TakenApart(w: nat, a: nat, b: nat)
    requires 0 < a && 0 < b && w / a % b == 0
    ensures a * b > 0 && w == w / (a * b) * (a * b) + w % a
  {
    Nested(w, a, b);
    var q, d := w / a, w / a / b;
    Quotient(w, a);
    Quotient(q, b);
    assert q == b * d;
    Reordered(a, b, d);
  }

  lemma {:induction false} FieldIsFree(hi: nat, lo: nat, f: nat, shift: nat, bits: nat)
    requires lo < Pow2(shift) && f < Pow2(bits)
    ensures Disjoint(hi * Pow2(shift + bits) + lo, f * Pow2(shift))
    decreases shift + bits
  {
    hide Disjoint, Pow2;
    Powers(shift);
    Powers(bits);
    if shift > 0 {
      FieldIsFree(hi, lo / 2, f, shift - 1, bits);
      HalvedAbove(hi, shift + bits);
      HalvedAbove(f, shift);
      var half, field := hi * Pow2(shift + bits - 1), f * Pow2(shift - 1);
      DisjointMore(2 * half + lo, 2 * field, half + lo / 2, field);
    } else if bits > 0 {
      FieldIsFree(hi, 0, f / 2, 0, bits - 1);
      HalvedAbove(hi, bits);
      var half := hi * Pow2(bits - 1);
      DisjointMore(2 * half, f, half, f / 2);
    } else {
      NothingDisjoint(hi);
    }
  }

  lemma Powers(n: nat)
    ensures if n == 0 then Pow2(n) == 1 else Pow2(n) == 2 * Pow2(n - 1)
  {
  }

  lemma HalvedAbove(x: nat, n: nat)
    requires n > 0
    ensures x * Pow2(n) == 2 * (x * Pow2(n - 1))
  {
  }

  lemma NothingDisjoint(w: nat)
    ensures Disjoint(w, 0)
  {
  }

  lemma DisjointMore(w: nat, v: nat, w2: nat, v2: nat)
    requires w / 2 == w2 && v / 2 == v2 && (w % 2 == 0 || v % 2 == 0) && Disjoint(w2, v2)
    ensures Disjoint(w, v)
  {
  }

  // Putting a value into a free field adds it there.
  lemma FieldAdds(o: Operand, opcode: nat, f: nat)
    requires Field(o, opcode) == 0 && f < Pow2(o.bits)
    ensures Or(opcode, f * Pow2(o.shift)) == opcode + f * Pow2(o.shift)
  {
    hide Or, Disjoint, Pow2;
    Parts(o, opcode);
    FieldIsFree(opcode / Pow2(o.shift + o.bits), opcode % Pow2(o.shift), f, o.shift, o.bits);
    DisjointAdds(opcode, f * Pow2(o.shift));
  }

  // The field then holds the value,
  lemma FieldHolds(o: Operand, opcode: nat, f: nat)
    requires Field(o, opcode) == 0 && f < Pow2(o.bits)
    ensures Field(o, Or(opcode, f * Pow2(o.shift))) == f
  {
    hide Or, Pow2;
    FieldAdds(o, opcode, f);
    var s, b := Pow2(o.shift), Pow2(o.bits);
    var q := opcode / s;
    Quotient(opcode, s);
    Divides(opcode + f * s, s, q + f, opcode % s);
    Quotient(q, b);
    Divides(q + f, b, q / b, f);
  }

  predicate Separate(o: Operand, p: Operand) {
    o.shift + o.bits <= p.shift || p.shift + p.bits <= o.shift
  }

  // and no other field has changed.
  lemma OtherFields(o: Operand, p: Operand, opcode: nat, f: nat)
    requires Field(o, opcode) == 0 && f < Pow2(o.bits) && Separate(o, p)
    ensures Field(p, Or(opcode, f * Pow2(o.shift))) == Field(p, opcode)
  {
    hide Or, Pow2;
    FieldAdds(o, opcode, f);
    if p.shift + p.bits <= o.shift {
      LowField(o, p, opcode, f);
    } else {
      HighField(o, p, opcode, f);
    }
  }

  lemma LowField(o: Operand, p: Operand, opcode: nat, f: nat)
    requires p.shift + p.bits <= o.shift
    ensures Field(p, opcode + f * Pow2(o.shift)) == Field(p, opcode)
  {
    hide Pow2;
    PowersAdd(p.shift, p.bits);
    PowersAdd(p.shift + p.bits, o.shift - p.shift - p.bits);
    AboveField(opcode, Pow2(p.shift), Pow2(p.bits), Pow2(o.shift - p.shift - p.bits), f, Pow2(o.shift));
  }

  lemma HighField(o: Operand, p: Operand, opcode: nat, f: nat)
    requires Field(o, opcode) == 0 && f < Pow2(o.bits) && o.shift + o.bits <= p.shift
    ensures Field(p, opcode + f * Pow2(o.shift)) == Field(p, opcode)
  {
    hide Pow2;
    PowersAdd(o.shift, o.bits);
    PowersAdd(o.shift + o.bits, p.shift - o.shift - o.bits);
    BelowField(opcode, Pow2(o.shift), Pow2(o.bits), f);
    Nested(opcode + f * Pow2(o.shift), Pow2(o.shift) * Pow2(o.bits), Pow2(p.shift - o.shift - o.bits));
    Nested(opcode, Pow2(o.shift) * Pow2(o.bits), Pow2(p.shift - o.shift - o.bits));
  }

  lemma BelowField(w: nat, a: nat, b: nat, f: nat)
    requires 0 < a && 0 < b && w / a % b == 0 && f < b
    ensures a * b > 0 && (w + f * a) / (a * b) == w / (a * b)
  {
    TakenApart(w, a, b);
    Products(f + 1, b, a);
    Divides(w + f * a, a * b, w / (a * b), w % a + f * a);
  }

  // ---- what was assembled is shown ----

  predicate InRange(bits: nat, d: int) {
    d % 4 == 0 && -1 * Pow2(bits + 1) <= d < Pow2(bits + 1)
  }

  // The value the field gets
  function Encoded(bits: nat, d: int): nat
    requires bits >= 1
  {
    d / 4 % Pow2(bits - 1) + if d < 0 then Pow2(bits - 1) else 0
  }

  lemma ParsedIsEncoded(o: Operand, target: nat, memaddr: nat, relative: bool)
    requires o.bits >= 1
    ensures var f := Encoded(o.bits, Distance(target, memaddr, relative));
            f < Pow2(o.bits) && ParseAddress(o, target, memaddr, relative) == f * Pow2(o.shift)
  {
    hide Or, Disjoint, Distance;
    var d := Distance(target, memaddr, relative);
    var p := Pow2(o.bits - 1);
    var data := d / 4 % p;
    assert Pow2(o.bits) == 2 * p;
    if d < 0 {
      FieldIsFree(1, 0, data, 0, o.bits - 1);
      assert 1 * Pow2(0 + (o.bits - 1)) + 0 == p && data * Pow2(0) == data;
      DisjointSwaps(p, data);
      DisjointAdds(data, p);
      Divides(data + p, 2 * p, 0, data + p);
    } else {
      Divides(data, 2 * p, 0, data);
    }
  }

  lemma {:induction false} DisjointSwaps(a: nat, b: nat)
    requires Disjoint(a, b)
    ensures Disjoint(b, a)
  {
    if a != 0 && b != 0 {
      DisjointSwaps(a / 2, b / 2);
    }
  }

  // The signed multiple of four that a field stands for
  function Displacement(bits: nat, f: nat): int
    requires bits >= 1
  {
    4 * if f < Pow2(bits - 1) then f else f - Pow2(bits)
  }

  lemma ExtendedIs(bits: nat, f: nat)
    requires 1 <= bits <= 30 && f < Pow2(bits)
    ensures Extended(bits, f) == Displacement(bits, f) % WORD
    ensures -HALF <= Displacement(bits, f) < HALF
  {
    PowersRise(bits - 1, 29);
    Large();
    SignExtended(Pow2(bits - 1), f);
  }

  lemma SignExtended(p: nat, f: nat)
    requires 0 < p <= 0x2000_0000 && f < 2 * p
    ensures f / p % 2 == if f < p then 0 else 1
    ensures f >= p ==> (f - 2 * p) % WORD * 4 % WORD == 4 * (f - 2 * p) % WORD
  {
    if f < p {
      Divides(f, p, 0, f);
    } else {
      Divides(f, p, 1, f - p);
      assert (f - 2 * p) % WORD == WORD + f - 2 * p;
    }
  }

  lemma Large()
    ensures Pow2(29) == 0x2000_0000
  {
    assert Pow2(9) == 512 by {
      assert Pow2(4) == 16;
    }
    PowersAdd(9, 9);
    PowersAdd(18, 9);
    assert Pow2(27) == 512 * 512 * 512;
  }

  // The field stands for the distance exactly when the distance is a multiple of four that it has room for.
  lemma EncodedStandsFor(bits: nat, d: int)
    requires bits >= 1
    ensures Displacement(bits, Encoded(bits, d)) == d <==> InRange(bits, d)
  {
    var p := Pow2(bits - 1);
    var q := d / 4;
    assert Pow2(bits + 1) == 4 * p && Pow2(bits) == 2 * p;
    hide Pow2;
    if 0 <= q < p {
      Divides(q, p, 0, q);
    } else if -p <= q < 0 {
      NegativeMod(q, p);
    }
  }

  lemma NegativeMod(q: int, p: int)
    requires 0 < p && -p <= q < 0
    ensures q % p == q + p
  {
    var e := q / p;
    assert p * e <= q < p * e + p;
    Signs(p, e);
  }

  lemma Signs(p: int, e: int)
    requires 0 < p
    ensures e >= 0 ==> p * e >= 0
    ensures e <= -2 ==> p * e <= -2 * p
  {
    if e <= -2 {
      Products(2, -e, p);
    }
  }

  // Assembling an address and showing it gives the address back exactly when the distance to it is a multiple of
  // four that fits the field, with its sign; for fields of any width up to 30 bits, in any place.
  lemma AssembledIsShown(o: Operand, opcode: nat, target: nat, memaddr: nat, relative: bool)
    requires 1 <= o.bits <= 30 && Field(o, opcode) == 0 && target < WORD && memaddr < WORD
    ensures Shown(o, Assembled(o, opcode, target, memaddr, relative), memaddr, relative) == target
            <==> InRange(o.bits, Distance(target, memaddr, relative))
  {
    hide Field, Pow2, Or, ParseAddress, Encoded, Displacement, InRange, Extended, Distance;
    var d := Distance(target, memaddr, relative);
    var f := Encoded(o.bits, d);
    ParsedIsEncoded(o, target, memaddr, relative);
    FieldHolds(o, opcode, f);
    ExtendedIs(o.bits, f);
    EncodedStandsFor(o.bits, d);
    DistanceIs(target, memaddr, relative);
    SameResidue(d, Displacement(o.bits, f));
    AddsBack(Extended(o.bits, f), memaddr, target);
  }

  lemma DistanceIs(target: nat, memaddr: nat, relative: bool)
    requires target < WORD && memaddr < WORD
    ensures var d := Distance(target, memaddr, relative);
            -HALF <= d < HALF && d % WORD == if relative then (target - memaddr) % WORD else target
  {
  }

  lemma SameResidue(d: int, e: int)
    requires -HALF <= d < HALF && -HALF <= e < HALF
    ensures d % WORD == e % WORD <==> d == e
  {
  }

  lemma AddsBack(x: nat, memaddr: nat, target: nat)
    requires x < WORD && memaddr < WORD && target < WORD
    ensures (x + memaddr) % WORD == target <==> x == (target - memaddr) % WORD
  {
  }

  // ---- one step ----

  // struct pt_regs
  datatype Regs = Regs(nip: nat, ctr: nat, ccr: nat, link: nat)

  datatype Kind = Conditional | Unconditional | ToCtr | ToLink | NoBranch

  // The entry of the opcode table that matches
  function KindOf(instr: nat): Kind {
    var main, extended := instr / 0x400_0000 % 64, instr / 2 % 1024;
    if main == 16 then Conditional
    else if main == 18 then Unconditional
    else if main == 19 && extended == 528 then ToCtr
    else if main == 19 && extended == 16 then ToLink
    else NoBranch
  }

  predicate Set(w: nat, k: nat) {
    w / Pow2(k) % 2 == 1
  }

  function Decremented(ctr: nat): nat {
    if ctr == 0 then WORD - 1 else ctr - 1
  }

  // Bits 0 to 4 of the BO field, as the architecture numbers them
  predicate IgnoresCondition(bo: nat) { bo / 16 % 2 == 1 }
  predicate WantsTrue(bo: nat) { bo / 8 % 2 == 1 }
  predicate IgnoresCount(bo: nat) { bo / 4 % 2 == 1 }
  predicate WantsZero(bo: nat) { bo / 2 % 2 == 1 }

  // When the architecture takes a conditional branch
  predicate Takes(bo: nat, bi: nat, regs: Regs)
    requires bi < 32
  {
    && (IgnoresCount(bo) || (Decremented(regs.ctr) == 0) == WantsZero(bo))
    && (IgnoresCondition(bo) || Set(regs.ccr, 31 - bi) == WantsTrue(bo))
  }

  // The bits that are to be zero are.
  predicate Regular(bo: nat) {
    !(IgnoresCount(bo) && WantsZero(bo)) && !(IgnoresCondition(bo) && WantsTrue(bo))
  }

  predicate Branches(instr: nat, regs: Regs) {
    match KindOf(instr)
    case NoBranch => false
    case Unconditional => true
    case _ =>
      Field(BI, instr) < 32 && Takes(Field(BO, instr), Field(BI, instr), regs)
  }

  function Pc(regs: Regs): nat {
    regs.nip / 4 * 4
  }

  // Where a branch goes; a register target as it stands in the register
  function Target(instr: nat, regs: Regs): nat {
    var absolute := Field(AA, instr) == 1;
    match KindOf(instr)
    case Conditional => Shown(BD, instr, Pc(regs), !absolute)
    case Unconditional => Shown(LI, instr, Pc(regs), !absolute)
    case ToCtr => regs.ctr
    case ToLink => regs.link
    case NoBranch => 0
  }

  function Next(instr: nat, regs: Regs, taken: bool, target: nat, stepOver: bool): nat {
    if taken && !(stepOver && Field(LK, instr) == 1) then target else (Pc(regs) + 4) % WORD
  }

  predicate IsRegular(instr: nat) {
    KindOf(instr) in {Conditional, ToCtr, ToLink} ==> Regular(Field(BO, instr))
  }

  // The switch on the BO field
  method TestCondition(bo: nat, bi: nat, regs: Regs) returns (taken: bool)
    requires bo < 32 && bi < 32
    ensures taken == (Regular(bo) && Takes(bo, bi, regs))
  {
    hide Set;
    var ctr := Decremented(regs.ctr);
    var bit := Set(regs.ccr, 31 - bi);
    var ctrOk, condOk := false, false;
    match bo / 2 {
      case 0 => ctrOk, condOk := ctr != 0, !bit;
      case 1 => ctrOk, condOk := ctr == 0, !bit;
      case 2 => ctrOk, condOk := true, !bit;
      case 4 => ctrOk, condOk := ctr != 0, bit;
      case 5 => ctrOk, condOk := ctr == 0, bit;
      case 6 => ctrOk, condOk := true, bit;
      case 8 => if ctr != 0 { ctrOk, condOk := true, true; }
      case 9 => if ctr == 0 { ctrOk, condOk := true, true; }
      case 10 => ctrOk, condOk := true, true;
      case _ =>
    }
    taken := ctrOk && condOk;
  }

  // find_next_address; `known` tells whether the opcode table has an entry for the instruction.
  method FindNextAddress(regs: Regs, instr: nat, known: bool, stepOver: bool) returns (ok: bool, nextAddr: nat)
    requires instr < WORD && regs.ctr < WORD && regs.link < WORD && regs.nip < WORD
    ensures ok == known
    ensures ok ==> nextAddr ==
                   Next(instr, regs, IsRegular(instr) && Branches(instr, regs), Target(instr, regs), stepOver)
  {
    hide Takes, Regular, Pow2;
    ok, nextAddr := known, 0;
    if !known {
      return;
    }
    var pc := Pc(regs);
    var addr, aa, lk, bo, bi := 0, 0, 0, 0, 0;
    var conditional, branch := false, false;
    Bounds(instr);
    match KindOf(instr) {
      case Conditional =>
        addr, bo, bi := Field(BD, instr), Field(BO, instr), Field(BI, instr);
        aa, lk := Field(AA, instr), Field(LK, instr);
        SignBit(14, addr);
        if Set(addr, 13) {
          addr := (addr - 0x4000) % WORD;
        }
        addr := addr * 4 % WORD;
        conditional, branch := true, true;
      case Unconditional =>
        addr, aa, lk := Field(LI, instr), Field(AA, instr), Field(LK, instr);
        SignBit(24, addr);
        if Set(addr, 23) {
          addr := (addr - 0x100_0000) % WORD;
        }
        addr := addr * 4 % WORD;
        branch := true;
      case ToCtr =>
        bo, bi, lk := Field(BO, instr), Field(BI, instr), Field(LK, instr);
        addr, aa := regs.ctr, 1;
        conditional, branch := true, true;
      case ToLink =>
        bo, bi, lk := Field(BO, instr), Field(BI, instr), Field(LK, instr);
        addr, aa := regs.link, 1;
        conditional, branch := true, true;
      case NoBranch =>
    }
    var met := false;
    if conditional {
      met := TestCondition(bo, bi, regs);
    }
    var step, next;
    if branch && (!conditional || met) {
      step := if aa != 0 then addr else (addr + pc) % WORD;
      next := if lk != 0 then (pc + 4) % WORD else step;
    } else {
      next := (pc + 4) % WORD;
      step := next;
    }
    nextAddr := if stepOver then next else step;
  }

  lemma Bounds(instr: nat)
    ensures Field(BI, instr) < 32 && Field(BO, instr) < 32 && Field(AA, instr) < 2 && Field(LK, instr) < 2
  {
    assert Pow2(5) == 32 && Pow2(1) == 2;
  }

  lemma SignBit(bits: nat, addr: nat)
    requires bits in {14, 24}
    ensures Pow2(14) == 0x4000 && Pow2(24) == 0x100_0000
    ensures Extended(bits, addr) == (if Set(addr, bits - 1) then (addr - Pow2(bits)) % WORD else addr) * 4 % WORD
  {
    assert Pow2(7) == 128 by {
      assert Pow2(4) == 16;
    }
    PowersAdd(7, 7);
    PowersAdd(14, 10);
    PowersAdd(7, 3);
  }

  // ---- against the architecture ----

  // The architecture ignores the two low bits of a register target.
  function ArchTarget(instr: nat, regs: Regs): nat {
    match KindOf(instr)
    case ToCtr => regs.ctr / 4 * 4
    case ToLink => regs.link / 4 * 4
    case _ => Target(instr, regs)
  }

  function ArchNext(instr: nat, regs: Regs, stepOver: bool): nat {
    Next(instr, regs, Branches(instr, regs), ArchTarget(instr, regs), stepOver)
  }

  function Aligned(instr: nat, regs: Regs): bool {
    (KindOf(instr) == ToCtr ==> regs.ctr % 4 == 0) && (KindOf(instr) == ToLink ==> regs.link % 4 == 0)
  }

  // The address found is the one the processor goes to, except for a branch that is taken although bits of its BO
  // field that should be zero are not (unless it goes to the next instruction anyway), and for one through a
  // register whose two low bits are not zero.
  lemma FollowsTheProcessor(instr: nat, regs: Regs, stepOver: bool)
    ensures Next(instr, regs, IsRegular(instr) && Branches(instr, regs), Target(instr, regs), stepOver)
            == ArchNext(instr, regs, stepOver)
            <==>
            || !Branches(instr, regs)
            || (stepOver && Field(LK, instr) == 1)
            || (if IsRegular(instr) then Aligned(instr, regs) else ArchTarget(instr, regs) == (Pc(regs) + 4) % WORD)
  {
  }

  // An address that was assembled into a branch at pc is the address stepped to, in every form of the branch.
  lemma AssembledIsFollowed(opcode: nat, target: nat, regs: Regs)
    requires KindOf(opcode) in {Conditional, Unconditional}
    requires target < WORD && regs.nip < WORD
    requires var o := if KindOf(opcode) == Conditional then BD else LI;
             Field(o, opcode) == 0
    ensures var o := if KindOf(opcode) == Conditional then BD else LI;
            var relative := Field(AA, opcode) == 0;
            var instr := Assembled(o, opcode, target, Pc(regs), relative);
            && KindOf(instr) == KindOf(opcode) && Field(AA, instr) == Field(AA, opcode)
            && Field(LK, instr) == Field(LK, opcode)
            && (KindOf(opcode) == Conditional ==>
                  Field(BO, instr) == Field(BO, opcode) && Field(BI, instr) == Field(BI, opcode))
            && (Target(instr, regs) == target <==> InRange(o.bits, Distance(target, Pc(regs), relative)))
  {
    hide Field, Pow2, Or, ParseAddress, Encoded, Shown, Distance, InRange;
    var o := if KindOf(opcode) == Conditional then BD else LI;
    var relative := Field(AA, opcode) == 0;
    var instr := Assembled(o, opcode, target, Pc(regs), relative);
    var f := Encoded(o.bits, Distance(target, Pc(regs), relative));
    ParsedIsEncoded(o, target, Pc(regs), relative);
    OtherFields(o, AA, opcode, f);
    OtherFields(o, LK, opcode, f);
    OtherFields(o, Operand(6, 26), opcode, f);
    SameKind(opcode, instr);
    if o == BD {
      OtherFields(o, BO, opcode, f);
      OtherFields(o, BI, opcode, f);
    }
    Bounds(instr);
    AssembledIsShown(o, opcode, target, Pc(regs), relative);
  }

  lemma SameKind(opcode: nat, instr: nat)
    requires Field(Operand(6, 26), instr) == Field(Operand(6, 26), opcode)
    requires KindOf(opcode) in {Conditional, Unconditional}
    ensures KindOf(instr) == KindOf(opcode)
  {
    assert Pow2(6) == 64;
    assert Pow2(26) == 0x400_0000 by {
      PowersAdd(6, 6);
      PowersAdd(12, 12);
      PowersAdd(24, 2);
    }
  }

  // ---- the time base registers, whose number is written in two halves the other way round ----

  function Swapped(v: nat): nat {
    Or(v / 32 % 32, v % 32 * 32)
  }

  lemma SwappedTwice(v: nat)
    requires v < 1024
    ensures Swapped(v) == v / 32 + v % 32 * 32
    ensures Swapped(v) < 1024 && Swapped(Swapped(v)) == v
  {
    hide Or;
    SwapAdds(v / 32, v % 32);
    SwapAdds(v % 32, v / 32);
  }

  // The number of a time base register is found again in the word it was assembled into.
  lemma RegisterIsShown(opcode: nat, number: nat)
    requires Field(TBR, opcode) == 0 && number < 1024
    ensures Swapped(Field(TBR, Or(opcode, Swapped(number) * Pow2(TBR.shift)))) == number
  {
    hide Or, Field;
    SwappedTwice(number);
    assert Pow2(TBR.bits) == 1024 by {
      assert Pow2(5) == 32;
      PowersAdd(5, 5);
    }
    FieldHolds(TBR, opcode, Swapped(number));
  }

  lemma SwapAdds(a: nat, b: nat)
    requires a < 32 && b < 32
    ensures Or(a, b * 32) == a + b * 32
  {
    hide Or, Disjoint;
    FieldIsFree(b, 0, a, 0, 5);
    assert Pow2(5) == 32 && Pow2(0) == 1;
    DisjointSwaps(b * 32, a);
    DisjointAdds(a, b * 32);
  }
}
