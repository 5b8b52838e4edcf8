/**
 Relocating a Thumb-2 MOVW/MOVT pair (the IMAGE_REL_BASED_THUMB_MOV32 case of performBaseRelocation in
 node/tun/wintun/memmod/memmod_windows.go). The encodings are T3 of section A8.8.102 and T1 of section
 A8.8.106 of the ARMv7-A/R Architecture Reference Manual (DDI 0406C), as two little-endian halfwords.

 A 32-bit word is a natural below 2^32. The model uses the code's masks and shifts; the proofs go through
 the fields that they pick:

   bits   0-3    4-9     10   11-15   16-23   24-27      28-30   31
          imm4   opcode  i    opcode  imm8    register   imm3    zero
 */
module Thumb {
  import opened Arithmetic
  import opened Bits

  // ---- the code's masks and shifts ----

  function Shl(x: nat, scale: nat): nat { x * scale % 0x1_0000_0000 }

  /** The 16-bit immediate of an instruction. */
  function Imm(inst: nat): nat {
    And(Shl(inst, 2), 0x0800) + And(Shl(inst, 0x1000), 0xf000) + And(inst / 0x10_0000, 0x0700)
    + And(inst / 0x1_0000, 0x00ff)
  }

  /** Everything but the immediate. */
  function Fixed(inst: nat): nat {
    And(inst, 0x8f00_fbf0)
  }

  /** The instruction with its immediate replaced by the low 16 bits of `imm`. */
  function WithImm(inst: nat, imm: nat): nat {
    Fixed(inst) + And(imm / 2, 0x0400) + And(imm / 0x1000, 0x000f) + And(Shl(imm, 0x10_0000), 0x7000_0000)
    + And(Shl(imm, 0x1_0000), 0xff_0000)
  }

  predicate IsMovw(inst: nat) { And(inst, 0x8000_fbf0) == 0x0000_f240 }
  predicate IsMovt(inst: nat) { And(inst, 0x8000_fbf0) == 0x0000_f2c0 }

  /** The 32-bit constant that the pair loads. */
  function Constant(movw: nat, movt: nat): nat {
    Imm(movw) + Imm(movt) * 0x1_0000
  }

  datatype Patched = Patched(movw: nat, movt: nat, ok: bool)
  datatype Raised = Raised(word: nat, ok: bool)

  /** The second instruction's part: it is looked at only if something is to be added. */
  function Raise(movt: nat, hiDelta: nat): Raised {
    if hiDelta == 0 then Raised(movt, true)
    else if !IsMovt(movt) then Raised(movt, false)
    else
      var hi := Imm(movt) + hiDelta;
      if hi > 0xffff then Raised(movt, false) else Raised(WithImm(movt, hi), true)
  }

  /** What reaches the high half. */
  function HighDelta(movw: nat, delta: nat): nat {
    delta / 0x1_0000 + (Imm(movw) + delta % 0x1_0000) / 0x1_0000
  }

  /** The code of the case, for uint32(delta). After a failed check on the second word the first has
      already been stored. */
  function Relocate(movw: nat, movt: nat, delta: nat): Patched
    requires delta < 0x1_0000_0000
  {
    if !IsMovw(movw) then Patched(movw, movt, false)
    else
      var t := Raise(movt, HighDelta(movw, delta));
      Patched(WithImm(movw, Imm(movw) + delta % 0x1_0000), t.word, t.ok)
  }

  // ---- fields ----

  /** Field `x` of `width` values at `place`, with `below` under it and `above` over it. */
  lemma FieldAt(below: nat, place: nat, x: nat, width: nat, above: nat, w: nat)
    requires below < place && x < width && w == (above * width + x) * place + below
    ensures w / place % width == x
  {
    DivisionIsUnique(w, place, above * width + x, below);
    DivisionIsUnique(above * width + x, width, above, x);
  }

  /** A word put together from its fields. */
  function Assemble(imm4: nat, op1: nat, i: nat, op2: nat, imm8: nat, rd: nat, imm3: nat, top: nat): nat {
    imm4 + op1 * 0x10 + i * 0x400 + op2 * 0x800 + imm8 * 0x1_0000 + rd * 0x100_0000
    + imm3 * 0x1000_0000 + top * 0x8000_0000
  }

  /** Each field can be read back. */
  lemma Fields(imm4: nat, op1: nat, i: nat, op2: nat, imm8: nat, rd: nat, imm3: nat, top: nat)
    requires imm4 < 0x10 && op1 < 0x40 && i < 2 && op2 < 0x20 && imm8 < 0x100 && rd < 0x10 && imm3 < 8 && top < 2
    ensures
      var w := Assemble(imm4, op1, i, op2, imm8, rd, imm3, top);
      && w < 0x1_0000_0000
      && w % 0x10 == imm4 && w / 0x10 % 0x40 == op1 && w / 0x400 % 2 == i && w / 0x800 % 0x20 == op2
      && w / 0x1_0000 % 0x100 == imm8 && w / 0x100_0000 % 0x10 == rd && w / 0x1000_0000 % 8 == imm3
      && w / 0x8000_0000 % 2 == top
  {
    var w := Assemble(imm4, op1, i, op2, imm8, rd, imm3, top);
    var b4 := imm4;
    var b10 := b4 + op1 * 0x10;
    var b11 := b10 + i * 0x400;
    var b16 := b11 + op2 * 0x800;
    var b24 := b16 + imm8 * 0x1_0000;
    var b28 := b24 + rd * 0x100_0000;
    var b31 := b28 + imm3 * 0x1000_0000;
    var a28 := top * 8 + imm3;
    var a24 := a28 * 0x10 + rd;
    var a16 := a24 * 0x100 + imm8;
    var a11 := a16 * 0x20 + op2;
    var a10 := a11 * 2 + i;
    FieldAt(0, 1, imm4, 0x10, a10 * 0x40 + op1, w);
    FieldAt(b4, 0x10, op1, 0x40, a10, w);
    FieldAt(b10, 0x400, i, 2, a11, w);
    FieldAt(b11, 0x800, op2, 0x20, a16, w);
    FieldAt(b16, 0x1_0000, imm8, 0x100, a24, w);
    FieldAt(b24, 0x100_0000, rd, 0x10, a28, w);
    FieldAt(b28, 0x1000_0000, imm3, 8, top, w);
    FieldAt(b31, 0x8000_0000, top, 2, 0, w);
  }

  /** The 16 bits of an immediate put together again. */
  lemma ImmBits(imm: nat)
    ensures imm / 0x800 % 2 * 0x800 + imm / 0x1000 % 0x10 * 0x1000 + imm / 0x100 % 8 * 0x100 + imm % 0x100
            == imm % 0x1_0000
  {
    var b8, q8 := imm % 0x100, imm / 0x100;
    var b3, q11 := q8 % 8, q8 / 8;
    var b1, q12 := q11 % 2, q11 / 2;
    var b4, q16 := q12 % 0x10, q12 / 0x10;
    DivisionIsUnique(imm, 0x800, q11, b8 + b3 * 0x100);
    DivisionIsUnique(imm, 0x1000, q12, b8 + b3 * 0x100 + b1 * 0x800);
    DivisionIsUnique(imm, 0x1_0000, q16, b8 + b3 * 0x100 + b1 * 0x800 + b4 * 0x1000);
  }

  // ---- the masks pick fields ----

  lemma Mask0800(x: nat)
    ensures And(x, 0x0800) == x / 0x800 % 2 * 0x800
  {
    calc {
      And(x, 0x100 * 8);
    == { AndShift8(x, 8); }
      0x100 * And(x / 0x100, 4 * 2);
    == { AndShift2(x / 0x100, 2); assert x / 0x100 / 4 == x / 0x400; }
      0x400 * And(x / 0x400, 2 * 1);
    == { AndEven(x / 0x400, 1); assert x / 0x400 / 2 == x / 0x800; }
      0x800 * And(x / 0x800, 1);
    == { AndSmallMasks(x / 0x800); }
      0x800 * (x / 0x800 % 2);
    }
  }

  lemma Mask0400(x: nat)
    ensures And(x, 0x0400) == x / 0x400 % 2 * 0x400
  {
    calc {
      And(x, 0x100 * 4);
    == { AndShift8(x, 4); }
      0x100 * And(x / 0x100, 4 * 1);
    == { AndShift2(x / 0x100, 1); assert x / 0x100 / 4 == x / 0x400; }
      0x400 * And(x / 0x400, 1);
    == { AndSmallMasks(x / 0x400); }
      0x400 * (x / 0x400 % 2);
    }
  }

  lemma MaskF000(x: nat)
    ensures And(x, 0xf000) == x / 0x1000 % 0x10 * 0x1000
  {
    AndShift8(x, 0xf0);
    AndShift4(x / 0x100, 0xf);
    AndSmallMasks(x / 0x1000);
  }

  lemma Mask0700(x: nat)
    ensures And(x, 0x0700) == x / 0x100 % 8 * 0x100
  {
    AndShift8(x, 7);
    AndSmallMasks(x / 0x100);
  }

  lemma Mask7000_0000(x: nat)
    ensures And(x, 0x7000_0000) == x / 0x1000_0000 % 8 * 0x1000_0000
  {
    calc {
      And(x, 0x1_0000 * 0x7000);
    == { AndShift16(x, 0x7000); }
      0x1_0000 * And(x / 0x1_0000, 0x100 * 0x70);
    == { AndShift8(x / 0x1_0000, 0x70); assert x / 0x1_0000 / 0x100 == x / 0x100_0000; }
      0x100_0000 * And(x / 0x100_0000, 0x10 * 7);
    == { AndShift4(x / 0x100_0000, 7); assert x / 0x100_0000 / 0x10 == x / 0x1000_0000; }
      0x1000_0000 * And(x / 0x1000_0000, 7);
    == { AndSmallMasks(x / 0x1000_0000); }
      0x1000_0000 * (x / 0x1000_0000 % 8);
    }
  }

  lemma MaskFF_0000(x: nat)
    ensures And(x, 0xff_0000) == x / 0x1_0000 % 0x100 * 0x1_0000
  {
    AndShift16(x, 0xff);
    AndSmallMasks(x / 0x1_0000);
  }

  lemma Mask8000_0000(x: nat)
    ensures And(x, 0x8000_0000) == x / 0x8000_0000 % 2 * 0x8000_0000
  {
    AndShift16(x, 0x8000);
    Mask8000(x / 0x1_0000);
  }

  lemma Mask8000(x: nat)
    ensures And(x, 0x8000) == x / 0x8000 % 2 * 0x8000
  {
    AndShift4(x, 0x800);
    Mask0800(x / 0x10);
  }

  lemma Mask0F00_0000(x: nat)
    ensures And(x, 0x0f00_0000) == x / 0x100_0000 % 0x10 * 0x100_0000
  {
    AndShift16(x, 0xf00);
    AndShift8(x / 0x1_0000, 0xf);
    AndSmallMasks(x / 0x100_0000);
  }

  lemma MaskF800(x: nat)
    ensures And(x, 0xf800) == x / 0x800 % 0x20 * 0x800
  {
    calc {
      And(x, 0x100 * 0xf8);
    == { AndShift8(x, 0xf8); }
      0x100 * And(x / 0x100, 4 * 0x3e);
    == { AndShift2(x / 0x100, 0x3e); assert x / 0x100 / 4 == x / 0x400; }
      0x400 * And(x / 0x400, 2 * 0x1f);
    == { AndEven(x / 0x400, 0x1f); assert x / 0x400 / 2 == x / 0x800; }
      0x800 * And(x / 0x800, 0x1f);
    == { AndSmallMasks(x / 0x800); }
      0x800 * (x / 0x800 % 0x20);
    }
  }

  lemma Mask03F0(x: nat)
    ensures And(x, 0x03f0) == x / 0x10 % 0x40 * 0x10
  {
    AndShift4(x, 0x3f);
    AndSmallMasks(x / 0x10);
  }

  /** The mask of opcode bits, field by field. */
  lemma MaskFBF0(x: nat)
    ensures And(x, 0xfbf0) == x / 0x10 % 0x40 * 0x10 + x / 0x800 % 0x20 * 0x800
  {
    Pow2Table();
    AndSplit(x, 0x03f0, 0xf800, 11);
    Mask03F0(x);
    MaskF800(x);
  }

  lemma OpcodeFields(inst: nat)
    ensures And(inst, 0x8000_fbf0) ==
            inst / 0x10 % 0x40 * 0x10 + inst / 0x800 % 0x20 * 0x800 + inst / 0x8000_0000 % 2 * 0x8000_0000
  {
    Pow2Table();
    AndSplit(inst, 0xfbf0, 0x8000_0000, 16);
    MaskFBF0(inst);
    Mask8000_0000(inst);
  }

  lemma FixedFields(inst: nat)
    ensures Fixed(inst) ==
            inst / 0x10 % 0x40 * 0x10 + inst / 0x800 % 0x20 * 0x800
            + inst / 0x100_0000 % 0x10 * 0x100_0000 + inst / 0x8000_0000 % 2 * 0x8000_0000
  {
    Pow2Table();
    AndSplit(inst, 0xfbf0, 0x8f00_0000, 16);
    AndSplit(inst, 0x0f00_0000, 0x8000_0000, 28);
    MaskFBF0(inst);
    Mask0F00_0000(inst);
    Mask8000_0000(inst);
  }

  // Bits shifted up and cut off at 32 bits are found higher up.

  lemma Shifted1(x: nat)
    ensures Shl(x, 2) / 0x800 % 2 == x / 0x400 % 2
  {
    var q, r := x / 0x8000_0000, x % 0x8000_0000;
    var s, t := r / 0x400, r % 0x400;
    DivisionIsUnique(x * 2, 0x1_0000_0000, q, r * 2);
    DivisionIsUnique(r * 2, 0x800, s, t * 2);
    DivisionIsUnique(x, 0x400, q * 0x20_0000 + s, t);
    DivisionIsUnique(q * 0x20_0000 + s, 2, q * 0x10_0000 + s / 2, s % 2);
  }

  lemma Shifted12(x: nat)
    ensures Shl(x, 0x1000) / 0x1000 % 0x10 == x % 0x10
  {
    var q, r := x / 0x10_0000, x % 0x10_0000;
    DivisionIsUnique(x * 0x1000, 0x1_0000_0000, q, r * 0x1000);
    DivisionIsUnique(r * 0x1000, 0x1000, r, 0);
    DivisionIsUnique(x, 0x10, q * 0x1_0000 + r / 0x10, r % 0x10);
  }

  lemma Shifted20(x: nat)
    ensures Shl(x, 0x10_0000) / 0x1000_0000 % 8 == x / 0x100 % 8
  {
    var q, r := x / 0x1000, x % 0x1000;
    var s, t := r / 0x100, r % 0x100;
    DivisionIsUnique(x * 0x10_0000, 0x1_0000_0000, q, r * 0x10_0000);
    DivisionIsUnique(r * 0x10_0000, 0x1000_0000, s, t * 0x10_0000);
    DivisionIsUnique(x, 0x100, q * 0x10 + s, t);
    DivisionIsUnique(q * 0x10 + s, 8, q * 2 + s / 8, s % 8);
  }

  lemma Shifted16(x: nat)
    ensures Shl(x, 0x1_0000) / 0x1_0000 % 0x100 == x % 0x100
  {
    var q, r := x / 0x1_0000, x % 0x1_0000;
    DivisionIsUnique(x * 0x1_0000, 0x1_0000_0000, q, r * 0x1_0000);
    DivisionIsUnique(r * 0x1_0000, 0x1_0000, r, 0);
    DivisionIsUnique(x, 0x100, q * 0x100 + r / 0x100, r % 0x100);
  }

  // The parts of Imm and WithImm.

  lemma ImmPart1(x: nat)
    ensures And(Shl(x, 2), 0x0800) == x / 0x400 % 2 * 0x800
  {
    Mask0800(Shl(x, 2));
    Shifted1(x);
  }

  lemma ImmPart4(x: nat)
    ensures And(Shl(x, 0x1000), 0xf000) == x % 0x10 * 0x1000
  {
    MaskF000(Shl(x, 0x1000));
    Shifted12(x);
  }

  lemma ImmPart3(x: nat)
    ensures And(x / 0x10_0000, 0x0700) == x / 0x1000_0000 % 8 * 0x100
  {
    Mask0700(x / 0x10_0000);
    assert x / 0x10_0000 / 0x100 == x / 0x1000_0000;
  }

  lemma ImmPart8(x: nat)
    ensures And(x / 0x1_0000, 0x00ff) == x / 0x1_0000 % 0x100
  {
    AndSmallMasks(x / 0x1_0000);
  }

  lemma WithPart1(x: nat)
    ensures And(x / 2, 0x0400) == x / 0x800 % 2 * 0x400
  {
    Mask0400(x / 2);
    assert x / 2 / 0x400 == x / 0x800;
  }

  lemma WithPart4(x: nat)
    ensures And(x / 0x1000, 0x000f) == x / 0x1000 % 0x10
  {
    AndSmallMasks(x / 0x1000);
  }

  lemma WithPart3(x: nat)
    ensures And(Shl(x, 0x10_0000), 0x7000_0000) == x / 0x100 % 8 * 0x1000_0000
  {
    Mask7000_0000(Shl(x, 0x10_0000));
    Shifted20(x);
  }

  lemma WithPart8(x: nat)
    ensures And(Shl(x, 0x1_0000), 0xff_0000) == x % 0x100 * 0x1_0000
  {
    MaskFF_0000(Shl(x, 0x1_0000));
    Shifted16(x);
  }

  lemma ImmFields(inst: nat)
    ensures Imm(inst) ==
            inst / 0x400 % 2 * 0x800 + inst % 0x10 * 0x1000 + inst / 0x1000_0000 % 8 * 0x100 + inst / 0x1_0000 % 0x100
  {
    ImmPart1(inst);
    ImmPart4(inst);
    ImmPart3(inst);
    ImmPart8(inst);
  }

  /** The new word is assembled from the old fixed fields and the new immediate. */
  lemma WithImmIsAssembled(inst: nat, imm: nat)
    ensures WithImm(inst, imm) ==
            Assemble(imm / 0x1000 % 0x10, inst / 0x10 % 0x40, imm / 0x800 % 2, inst / 0x800 % 0x20,
                     imm % 0x100, inst / 0x100_0000 % 0x10, imm / 0x100 % 8, inst / 0x8000_0000 % 2)
  {
    FixedFields(inst);
    WithPart1(imm);
    WithPart4(imm);
    WithPart3(imm);
    WithPart8(imm);
  }

  /** Replacing the immediate replaces the immediate and nothing else. */
  lemma WithImmFields(inst: nat, imm: nat)
    ensures Imm(WithImm(inst, imm)) == imm % 0x1_0000
    ensures Fixed(WithImm(inst, imm)) == Fixed(inst)
    ensures And(WithImm(inst, imm), 0x8000_fbf0) == And(inst, 0x8000_fbf0)
    ensures WithImm(inst, imm) < 0x1_0000_0000
  {
    var w := WithImm(inst, imm);
    WithImmIsAssembled(inst, imm);
    Fields(imm / 0x1000 % 0x10, inst / 0x10 % 0x40, imm / 0x800 % 2, inst / 0x800 % 0x20,
           imm % 0x100, inst / 0x100_0000 % 0x10, imm / 0x100 % 8, inst / 0x8000_0000 % 2);
    ImmFields(w);
    ImmBits(imm);
    FixedFields(w);
    FixedFields(inst);
    OpcodeFields(w);
    OpcodeFields(inst);
  }

  /** MOVW is encoding T3 of section A8.8.102 and MOVT encoding T1 of section A8.8.106: opcode 11110 with i
      left out, then 100100 or 101100, and a second halfword whose top bit is zero. */
  lemma Encodings(inst: nat)
    ensures IsMovw(inst) <==>
            inst / 0x800 % 0x20 == 0x1e && inst / 0x10 % 0x40 == 0x24 && inst / 0x8000_0000 % 2 == 0
    ensures IsMovt(inst) <==>
            inst / 0x800 % 0x20 == 0x1e && inst / 0x10 % 0x40 == 0x2c && inst / 0x8000_0000 % 2 == 0
  {
    OpcodeFields(inst);
    OpcodeSplits(inst / 0x10 % 0x40, inst / 0x800 % 0x20, inst / 0x8000_0000 % 2);
  }

  lemma OpcodeSplits(low: nat, high: nat, top: nat)
    requires low < 0x40 && high < 0x20 && top < 2
    ensures low * 0x10 + high * 0x800 + top * 0x8000_0000 == 0xf240 <==> low == 0x24 && high == 0x1e && top == 0
    ensures low * 0x10 + high * 0x800 + top * 0x8000_0000 == 0xf2c0 <==> low == 0x2c && high == 0x1e && top == 0
  {
  }

  lemma ImmIsSmall(inst: nat)
    ensures Imm(inst) < 0x1_0000
  {
    ImmFields(inst);
  }

  // ---- relocation ----

  /** The delta reaches the high half. */
  predicate Carries(movw: nat, delta: nat) {
    Imm(movw) + delta >= 0x1_0000
  }

  /** The relocation succeeds exactly when the first instruction is a MOVW and, if the delta reaches the
      high half at all, the second is a MOVT and the sum does not overflow 32 bits. */
  lemma SucceedsExactly(movw: nat, movt: nat, delta: nat)
    requires delta < 0x1_0000_0000
    ensures Relocate(movw, movt, delta).ok <==>
            && IsMovw(movw)
            && (Carries(movw, delta) ==> IsMovt(movt) && Constant(movw, movt) + delta < 0x1_0000_0000)
  {
    ImmIsSmall(movw);
    ImmIsSmall(movt);
  }

  /** On success the constant read back is the old constant plus the delta, without wrap-around, and
      opcode and register bits are unchanged. */
  lemma AddsDelta(movw: nat, movt: nat, delta: nat)
    requires delta < 0x1_0000_0000 && Relocate(movw, movt, delta).ok
    ensures
      var r := Relocate(movw, movt, delta);
      && Constant(r.movw, r.movt) == Constant(movw, movt) + delta < 0x1_0000_0000
      && Fixed(r.movw) == Fixed(movw) && Fixed(r.movt) == Fixed(movt)
      && IsMovw(r.movw) && IsMovt(r.movt) == IsMovt(movt)
  {
    ConstantMoves(movw, movt, delta);
    FixedStays(movw, movt, delta);
  }

  lemma KeepsFixed(inst: nat, imm: nat, w: nat)
    requires w == WithImm(inst, imm)
    ensures Fixed(w) == Fixed(inst) && IsMovw(w) == IsMovw(inst) && IsMovt(w) == IsMovt(inst)
  {
    WithImmFields(inst, imm);
  }

  lemma TakesImm(inst: nat, imm: nat, w: nat)
    requires w == WithImm(inst, imm)
    ensures Imm(w) == imm % 0x1_0000
  {
    WithImmFields(inst, imm);
  }

  /** The words after a success: the first with the low half of the sum, the second with the rest of it
      or, if nothing reaches the high half, as it was. */
  lemma Outcome(movw: nat, movt: nat, delta: nat) returns (lo: nat, hiDelta: nat)
    requires delta < 0x1_0000_0000 && Relocate(movw, movt, delta).ok
    ensures lo == Imm(movw) + delta % 0x1_0000 && hiDelta == delta / 0x1_0000 + lo / 0x1_0000
    ensures IsMovw(movw) && Relocate(movw, movt, delta).movw == WithImm(movw, lo)
    ensures Relocate(movw, movt, delta).movt == if hiDelta == 0 then movt else WithImm(movt, Imm(movt) + hiDelta)
    ensures hiDelta != 0 ==> Imm(movt) + hiDelta < 0x1_0000
  {
    lo := Imm(movw) + delta % 0x1_0000;
    hiDelta := HighDelta(movw, delta);
    OutcomeLow(movw, movt, delta);
    if hiDelta != 0 { OutcomeHigh(movw, movt, delta); }
  }

  lemma OutcomeLow(movw: nat, movt: nat, delta: nat)
    requires delta < 0x1_0000_0000 && Relocate(movw, movt, delta).ok
    ensures IsMovw(movw) && Relocate(movw, movt, delta).movw == WithImm(movw, Imm(movw) + delta % 0x1_0000)
    ensures HighDelta(movw, delta) == 0 ==> Relocate(movw, movt, delta).movt == movt
  {
  }

  lemma OutcomeHigh(movw: nat, movt: nat, delta: nat)
    requires delta < 0x1_0000_0000 && Relocate(movw, movt, delta).ok && HighDelta(movw, delta) != 0
    ensures Relocate(movw, movt, delta).movt == WithImm(movt, Imm(movt) + HighDelta(movw, delta))
    ensures Imm(movt) + HighDelta(movw, delta) < 0x1_0000
  {
  }

  lemma FixedStays(movw: nat, movt: nat, delta: nat)
    requires delta < 0x1_0000_0000 && Relocate(movw, movt, delta).ok
    ensures
      var r := Relocate(movw, movt, delta);
      && Fixed(r.movw) == Fixed(movw) && Fixed(r.movt) == Fixed(movt)
      && IsMovw(r.movw) && IsMovt(r.movt) == IsMovt(movt)
  {
    var r := Relocate(movw, movt, delta);
    OutcomeLow(movw, movt, delta);
    KeepsFixed(movw, Imm(movw) + delta % 0x1_0000, r.movw);
    if HighDelta(movw, delta) != 0 {
      OutcomeHigh(movw, movt, delta);
      KeepsFixed(movt, Imm(movt) + HighDelta(movw, delta), r.movt);
    }
  }

  /** What the new immediates add up to. */
  lemma ConstantMoves(movw: nat, movt: nat, delta: nat)
    requires delta < 0x1_0000_0000 && Relocate(movw, movt, delta).ok
    ensures
      var r := Relocate(movw, movt, delta);
      Imm(r.movw) + Imm(r.movt) * 0x1_0000 == Imm(movw) + Imm(movt) * 0x1_0000 + delta < 0x1_0000_0000
  {
    var r := Relocate(movw, movt, delta);
    var lo, hiDelta := Outcome(movw, movt, delta);
    TakesImm(movw, lo, r.movw);
    if hiDelta != 0 {
      TakesImm(movt, Imm(movt) + hiDelta, r.movt);
      SmallMod(Imm(movt) + hiDelta);
    }
    ImmIsSmall(movt);
    Sums(Imm(movw), Imm(movt), delta, Imm(r.movw), Imm(r.movt));
  }

  lemma Sums(a: nat, b: nat, delta: nat, a': nat, b': nat)
    requires
      var lo := a + delta % 0x1_0000;
      a' == lo % 0x1_0000 && b' == b + (delta / 0x1_0000 + lo / 0x1_0000) < 0x1_0000
    ensures a' + b' * 0x1_0000 == a + b * 0x1_0000 + delta < 0x1_0000_0000
  {
    AddHalves(a, b, delta);
  }

  lemma SmallMod(x: nat)
    requires x < 0x1_0000
    ensures x % 0x1_0000 == x
  {
  }

  /** Adding a delta half by half, with the carry. */
  lemma AddHalves(a: nat, b: nat, delta: nat)
    ensures
      var lo := a + delta % 0x1_0000;
      var hi := b + (delta / 0x1_0000 + lo / 0x1_0000);
      a + b * 0x1_0000 + delta == lo % 0x1_0000 + hi * 0x1_0000
  {
  }

  /** Overflow of the high half is always an error. */
  lemma OverflowIsError(movw: nat, movt: nat, delta: nat)
    requires delta < 0x1_0000_0000 && Constant(movw, movt) + delta >= 0x1_0000_0000
    ensures !Relocate(movw, movt, delta).ok
  {
    ImmIsSmall(movw);
    ImmIsSmall(movt);
    SucceedsExactly(movw, movt, delta);
  }

  /** Hence no such site can be moved back: after a successful move by a non-zero delta, moving by the
      negated delta always fails. */
  lemma CannotMoveBack(movw: nat, movt: nat, delta: nat)
    requires 0 < delta < 0x1_0000_0000 && Relocate(movw, movt, delta).ok
    ensures
      var r := Relocate(movw, movt, delta);
      !Relocate(r.movw, r.movt, 0x1_0000_0000 - delta).ok
  {
    var r := Relocate(movw, movt, delta);
    AddsDelta(movw, movt, delta);
    OverflowIsError(r.movw, r.movt, 0x1_0000_0000 - delta);
  }

  // ---- two relocations ----

  /** Where WithImm puts the bits of an immediate. */
  function Spread(imm: nat): nat {
    imm / 0x1000 % 0x10 + imm / 0x800 % 2 * 0x400 + imm % 0x100 * 0x1_0000 + imm / 0x100 % 8 * 0x1000_0000
  }

  lemma ImmSplits(i4: nat, i1: nat, i8: nat, i3: nat)
    requires i4 < 0x10 && i1 < 2 && i8 < 0x100 && i3 < 8
    ensures
      var imm := i1 * 0x800 + i4 * 0x1000 + i3 * 0x100 + i8;
      imm / 0x1000 % 0x10 == i4 && imm / 0x800 % 2 == i1 && imm % 0x100 == i8 && imm / 0x100 % 8 == i3
  {
    var imm := i1 * 0x800 + i4 * 0x1000 + i3 * 0x100 + i8;
    FieldAt(0, 1, i8, 0x100, i4 * 0x10 + i1 * 8 + i3, imm);
    FieldAt(i8, 0x100, i3, 8, i4 * 2 + i1, imm);
    FieldAt(i8 + i3 * 0x100, 0x800, i1, 2, i4, imm);
    FieldAt(i8 + i3 * 0x100 + i1 * 0x800, 0x1000, i4, 0x10, 0, imm);
  }

  /** Dividing twice. */
  lemma Quotients(w: nat, a: nat, b: nat) returns (q: nat, r: nat)
    requires a > 0 && b > 0
    ensures q == w / (a * b) && r == w / a % b && w / a == q * b + r
  {
    var p, t := Divide(w, a);
    q, r := Divide(p, b);
    assert a * b == b * a;
    Associate(q, b, a);
    Distribute(q * b, r, a);
    MulMonotone(r + 1, b, a);
    Distribute(r, 1, a);
    DivisionIsUnique(w, a * b, q, r * a + t);
  }

  lemma ReassembledHigh(h: nat)
    requires h < 0x1_0000
    ensures h == h % 0x100 + h / 0x100 % 0x10 * 0x100 + h / 0x1000 % 8 * 0x1000 + h / 0x8000 % 2 * 0x8000
  {
    var q8, r8 := Quotients(h, 1, 0x100);
    var q12, r12 := Quotients(h, 0x100, 0x10);
    var q15, r15 := Quotients(h, 0x1000, 8);
  }

  lemma ReassembledLow(w: nat)
    ensures w == w % 0x10 + w / 0x10 % 0x40 * 0x10 + w / 0x400 % 2 * 0x400 + w / 0x800 % 0x20 * 0x800
                 + w / 0x1_0000 * 0x1_0000
  {
    var q4, r4 := Quotients(w, 1, 0x10);
    var q10, r10 := Quotients(w, 0x10, 0x40);
    var q11, r11 := Quotients(w, 0x400, 2);
    var q16, r16 := Quotients(w, 0x800, 0x20);
  }

  lemma Reassembled(w: nat)
    requires w < 0x1_0000_0000
    ensures w == Assemble(w % 0x10, w / 0x10 % 0x40, w / 0x400 % 2, w / 0x800 % 0x20, w / 0x1_0000 % 0x100,
                          w / 0x100_0000 % 0x10, w / 0x1000_0000 % 8, w / 0x8000_0000 % 2)
  {
    ReassembledLow(w);
    var h := w / 0x1_0000;
    ReassembledHigh(h);
    var q24, r24 := Quotients(w, 0x1_0000, 0x100);
    var q28, r28 := Quotients(w, 0x1_0000, 0x1000);
    var q31, r31 := Quotients(w, 0x1_0000, 0x8000);
    assert h / 0x100 == q24 && h / 0x1000 == q28 && h / 0x8000 == q31;
  }

  /** Fixed fields and spread immediate make up the word. */
  lemma Assembled(imm4: nat, op1: nat, i: nat, op2: nat, imm8: nat, rd: nat, imm3: nat, top: nat, f: nat, imm: nat)
    requires imm4 < 0x10 && i < 2 && imm8 < 0x100 && imm3 < 8
    requires f == op1 * 0x10 + op2 * 0x800 + rd * 0x100_0000 + top * 0x8000_0000
    requires imm == i * 0x800 + imm4 * 0x1000 + imm3 * 0x100 + imm8
    ensures Assemble(imm4, op1, i, op2, imm8, rd, imm3, top) == f + Spread(imm)
  {
    ImmSplits(imm4, i, imm8, imm3);
  }

  lemma FromFields(w: nat, f: nat, imm: nat)
    requires w < 0x1_0000_0000
    requires f == w / 0x10 % 0x40 * 0x10 + w / 0x800 % 0x20 * 0x800 + w / 0x100_0000 % 0x10 * 0x100_0000
                  + w / 0x8000_0000 % 2 * 0x8000_0000
    requires imm == w / 0x400 % 2 * 0x800 + w % 0x10 * 0x1000 + w / 0x1000_0000 % 8 * 0x100 + w / 0x1_0000 % 0x100
    ensures w == f + Spread(imm)
  {
    Reassembled(w);
    Assembled(w % 0x10, w / 0x10 % 0x40, w / 0x400 % 2, w / 0x800 % 0x20, w / 0x1_0000 % 0x100,
              w / 0x100_0000 % 0x10, w / 0x1000_0000 % 8, w / 0x8000_0000 % 2, f, imm);
  }

  /** An instruction is its fixed bits and its immediate. */
  lemma FromParts(inst: nat)
    requires inst < 0x1_0000_0000
    ensures inst == Fixed(inst) + Spread(Imm(inst))
  {
    ImmFields(inst);
    FixedFields(inst);
    FromFields(inst, Fixed(inst), Imm(inst));
  }

  lemma Determined(x: nat, y: nat)
    requires x < 0x1_0000_0000 && y < 0x1_0000_0000 && Fixed(x) == Fixed(y) && Imm(x) == Imm(y)
    ensures x == y
  {
    FromParts(x);
    FromParts(y);
  }

  lemma HalvesDetermined(a: nat, b: nat, c: nat, d: nat)
    requires a < 0x1_0000 && c < 0x1_0000 && a + b * 0x1_0000 == c + d * 0x1_0000
    ensures a == c && b == d
  {
  }

  /** A pair is its fixed bits and the constant it loads. */
  lemma PairDetermined(movw: nat, movt: nat, movw': nat, movt': nat)
    requires movw < 0x1_0000_0000 && movt < 0x1_0000_0000 && movw' < 0x1_0000_0000 && movt' < 0x1_0000_0000
    requires Fixed(movw) == Fixed(movw') && Fixed(movt) == Fixed(movt')
    requires Constant(movw, movt) == Constant(movw', movt')
    ensures movw == movw' && movt == movt'
  {
    ImmIsSmall(movw);
    ImmIsSmall(movw');
    HalvesDetermined(Imm(movw), Imm(movt), Imm(movw'), Imm(movt'));
    Determined(movw, movw');
    Determined(movt, movt');
  }

  lemma WordsStayWords(movw: nat, movt: nat, delta: nat)
    requires movw < 0x1_0000_0000 && movt < 0x1_0000_0000 && delta < 0x1_0000_0000
    requires Relocate(movw, movt, delta).ok
    ensures Relocate(movw, movt, delta).movw < 0x1_0000_0000 && Relocate(movw, movt, delta).movt < 0x1_0000_0000
  {
    MovwIsWord(movw, movt, delta);
    MovtIsWord(movw, movt, delta);
  }

  lemma MovwIsWord(movw: nat, movt: nat, delta: nat)
    requires delta < 0x1_0000_0000 && Relocate(movw, movt, delta).ok
    ensures Relocate(movw, movt, delta).movw < 0x1_0000_0000
  {
    OutcomeLow(movw, movt, delta);
    IsWord(movw, Imm(movw) + delta % 0x1_0000, Relocate(movw, movt, delta).movw);
  }

  lemma MovtIsWord(movw: nat, movt: nat, delta: nat)
    requires movt < 0x1_0000_0000 && delta < 0x1_0000_0000 && Relocate(movw, movt, delta).ok
    ensures Relocate(movw, movt, delta).movt < 0x1_0000_0000
  {
    var h := HighDelta(movw, delta);
    if h == 0 { OutcomeLow(movw, movt, delta); }
    else {
      OutcomeHigh(movw, movt, delta);
      IsWord(movt, Imm(movt) + h, Relocate(movw, movt, delta).movt);
    }
  }

  lemma IsWord(inst: nat, imm: nat, w: nat)
    requires w == WithImm(inst, imm)
    ensures w < 0x1_0000_0000
  {
    WithImmFields(inst, imm);
  }

  /** The sum succeeds whenever both steps do. */
  lemma SumSucceeds(movw: nat, movt: nat, d1: nat, d2: nat)
    requires d1 < 0x1_0000_0000 && d2 < 0x1_0000_0000 && Relocate(movw, movt, d1).ok
    requires Relocate(Relocate(movw, movt, d1).movw, Relocate(movw, movt, d1).movt, d2).ok
    ensures d1 + d2 < 0x1_0000_0000 && Relocate(movw, movt, d1 + d2).ok
  {
    var r := Relocate(movw, movt, d1);
    var lo1, hi1 := Outcome(movw, movt, d1);
    TakesImm(movw, lo1, r.movw);
    AddsDelta(movw, movt, d1);
    AddsDelta(r.movw, r.movt, d2);
    SucceedsExactly(movw, movt, d1);
    SucceedsExactly(r.movw, r.movt, d2);
    SucceedsExactly(movw, movt, d1 + d2);
  }

  /** Two successful relocations of a pair are one by the sum of the deltas. */
  lemma Composes(movw: nat, movt: nat, d1: nat, d2: nat)
    requires movw < 0x1_0000_0000 && movt < 0x1_0000_0000 && d1 < 0x1_0000_0000 && d2 < 0x1_0000_0000
    requires Relocate(movw, movt, d1).ok
    requires Relocate(Relocate(movw, movt, d1).movw, Relocate(movw, movt, d1).movt, d2).ok
    ensures d1 + d2 < 0x1_0000_0000
    ensures Relocate(Relocate(movw, movt, d1).movw, Relocate(movw, movt, d1).movt, d2) == Relocate(movw, movt, d1 + d2)
  {
    SumSucceeds(movw, movt, d1, d2);
    var r1 := Relocate(movw, movt, d1);
    var r2 := Relocate(r1.movw, r1.movt, d2);
    var r := Relocate(movw, movt, d1 + d2);
    AddsDelta(movw, movt, d1);
    AddsDelta(r1.movw, r1.movt, d2);
    AddsDelta(movw, movt, d1 + d2);
    WordsStayWords(movw, movt, d1);
    WordsStayWords(r1.movw, r1.movt, d2);
    WordsStayWords(movw, movt, d1 + d2);
    PairDetermined(r2.movw, r2.movt, r.movw, r.movt);
  }

  lemma ComposesTo(movw: nat, movt: nat, d1: nat, d2: nat, d: nat)
    requires movw < 0x1_0000_0000 && movt < 0x1_0000_0000 && d1 < 0x1_0000_0000 && d2 < 0x1_0000_0000
    requires d < 0x1_0000_0000 && (d1 + d2 < 0x1_0000_0000 ==> d == d1 + d2)
    requires Relocate(movw, movt, d1).ok
    requires Relocate(Relocate(movw, movt, d1).movw, Relocate(movw, movt, d1).movt, d2).ok
    ensures Relocate(Relocate(movw, movt, d1).movw, Relocate(movw, movt, d1).movt, d2) == Relocate(movw, movt, d)
  {
    var r1 := Relocate(movw, movt, d1);
    var r2 := Relocate(r1.movw, r1.movt, d2);
    Composes(movw, movt, d1, d2);
    assert d == d1 + d2;
    assert r2 == Relocate(movw, movt, d);
  }

  /** A relocation by zero changes nothing. */
  lemma MovesByZero(movw: nat, movt: nat)
    requires movw < 0x1_0000_0000 && movt < 0x1_0000_0000
    ensures Relocate(movw, movt, 0).movw == movw && Relocate(movw, movt, 0).movt == movt
  {
    if IsMovw(movw) {
      var r := Relocate(movw, movt, 0);
      ImmIsSmall(movw);
      SucceedsExactly(movw, movt, 0);
      AddsDelta(movw, movt, 0);
      WordsStayWords(movw, movt, 0);
      PairDetermined(r.movw, r.movt, movw, movt);
    }
  }
}
