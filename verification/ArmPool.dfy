// dyngen.h, ARM host: emitting a constant pool and pointing the loads of earlier code at it.
// Instructions are 32-bit words, addresses are numbers.

module ArmPool {
  import opened Basics
  import opened Bits

  // ----- numbers in bit fields -----

  function Join(f: bv32, b: bv32): bv32 { (f << 1) | b }

  function Mask(n: nat): bv32 { if n == 0 then 0 else Join(Mask(n - 1), 1) }

  // The low n bits of x.
  function Field(x: nat, n: nat): bv32
  {
    if n == 0 then 0 else Join(Field(x / 2, n - 1), if x % 2 == 1 then 1 else 0)
  }

  // The number in the low n bits of w.
  function Value(w: bv32, n: nat): (r: nat)
    ensures r < Pow2(n)
  {
    if n == 0 then 0 else 2 * Value(w >> 1, n - 1) + (if w & 1 != 0 then 1 else 0)
  }

  lemma {:induction false} MaskNext(n: nat)
    ensures Mask(n) & !Mask(n + 1) == 0
  {
    if n > 0 {
      MaskNext(n - 1);
      Nested(Mask(n - 1), Mask(n));
    }
  }

  lemma Nested(a: bv32, b: bv32)
    requires a & !b == 0
    ensures ((a << 1) | 1) & !((b << 1) | 1) == 0
  {
  }

  lemma Chain(a: bv32, b: bv32, c: bv32)
    requires a & !b == 0 && b & !c == 0
    ensures a & !c == 0
  {
  }

  lemma {:induction false} MaskSub(n: nat, m: nat)
    requires n <= m
    ensures Mask(n) & !Mask(m) == 0
    decreases m - n
  {
    if n < m {
      MaskNext(n);
      MaskSub(n + 1, m);
      Chain(Mask(n), Mask(n + 1), Mask(m));
    }
  }

  lemma Masks()
    ensures Mask(8) == 0xff && Mask(12) == 0xfff && Mask(23) == 0x7fffff && Mask(24) == 0xffffff
  {
    assert Mask(4) == 0xf;
    assert Mask(8) == 0xff by { assert Mask(6) == 0x3f; }
    assert Mask(12) == 0xfff by { assert Mask(10) == 0x3ff; }
    assert Mask(16) == 0xffff by { assert Mask(14) == 0x3fff; }
    assert Mask(20) == 0xfffff by { assert Mask(18) == 0x3ffff; }
    assert Mask(22) == 0x3fffff;
  }

  lemma Shifted(f: bv32, m: bv32, b: bv32)
    requires f & !m == 0 && (b == 0 || b == 1)
    ensures Join(f, b) & !Join(m, 1) == 0
  {
  }

  lemma {:induction false} FieldFits(x: nat, n: nat)
    ensures Field(x, n) & !Mask(n) == 0
  {
    hide Join;
    if n > 0 {
      FieldFits(x / 2, n - 1);
      Shifted(Field(x / 2, n - 1), Mask(n - 1), if x % 2 == 1 then 1 else 0);
    }
  }

  lemma Unshift(f: bv32, b: bv32)
    requires f & !0xffffff == 0 && (b == 0 || b == 1)
    ensures ((f << 1) | b) >> 1 == f && ((f << 1) | b) & 1 == b
  {
  }

  lemma ValueStep(f: bv32, b: bv32, n: nat)
    requires f & !0xffffff == 0 && (b == 0 || b == 1) && n > 0
    ensures Value((f << 1) | b, n) == 2 * Value(f, n - 1) + (if b == 1 then 1 else 0)
  {
    Unshift(f, b);
  }

  // A field narrower than 24 bits leaves the top byte alone.
  lemma FieldTop(x: nat, n: nat)
    requires n <= 24
    ensures Field(x, n) & !0xffffff == 0
  {
    FieldFits(x, n);
    MaskSub(n, 24);
    Masks();
    Chain(Field(x, n), Mask(n), Mask(24));
  }

  lemma FieldOdd(x: nat, n: nat)
    requires 0 < n <= 24 && x % 2 == 1
    ensures Value(Field(x, n), n) == 2 * Value(Field(x / 2, n - 1), n - 1) + 1
  {
    hide Value, Field;
    FieldStep(x, n);
    FieldTop(x / 2, n - 1);
    ValueStep(Field(x / 2, n - 1), 1, n);
  }

  lemma FieldEven(x: nat, n: nat)
    requires 0 < n <= 24 && x % 2 == 0
    ensures Value(Field(x, n), n) == 2 * Value(Field(x / 2, n - 1), n - 1)
  {
    hide Value, Field;
    FieldStep(x, n);
    FieldTop(x / 2, n - 1);
    ValueStep(Field(x / 2, n - 1), 0, n);
  }

  // A number that fits is read back from its field.
  lemma {:induction false} ValueField(x: nat, n: nat)
    requires n <= 24 && x < Pow2(n)
    ensures Value(Field(x, n), n) == x
  {
    hide Value, Field;
    if n == 0 {
      ValueNone(Field(x, n));
    } else {
      ValueField(x / 2, n - 1);
      if x % 2 == 1 { FieldOdd(x, n); } else { FieldEven(x, n); }
    }
  }

  lemma FieldStep(x: nat, n: nat)
    requires n > 0
    ensures x % 2 == 1 ==> Field(x, n) == (Field(x / 2, n - 1) << 1) | 1
    ensures x % 2 == 0 ==> Field(x, n) == (Field(x / 2, n - 1) << 1) | 0
  {
  }

  lemma ValueNone(w: bv32)
    ensures Value(w, 0) == 0
  {
  }

  lemma Powers()
    ensures Pow2(8) == 256 && Pow2(12) == 4096 && Pow2(24) == 0x100_0000
  {
    assert Pow2(4) == 16;
    assert Pow2(8) == 256 by { assert Pow2(6) == 64; }
    assert Pow2(12) == 4096 by { assert Pow2(10) == 1024; }
    assert Pow2(16) == 65536 by { assert Pow2(14) == 16384; }
    assert Pow2(20) == 0x10_0000 by { assert Pow2(18) == 0x4_0000; }
    assert Pow2(24) == 0x100_0000 by { assert Pow2(22) == 0x40_0000; }
  }

  // ----- branches -----

  // The word arm_reloc_pc24 stores: the low 24 bits of insn plus the distance in words.
  function RelocPc24(ptr: nat, insn: bv32, val: nat): bv32
  {
    (insn & 0xff000000) | Field((Value(insn, 24) + (val - ptr) / 4) % 0x100_0000, 24)
  }

  // Where a branch at ptr goes: the pipeline is two instructions ahead and the offset counts words, with sign.
  function BranchTarget(ptr: nat, insn: bv32): int
  {
    var v := Value(insn & 0xffffff, 24);
    ptr + 8 + 4 * (if v < 0x80_0000 then v else v - 0x100_0000)
  }

  lemma Fields(top: bv32, low: bv32)
    requires low & !0xffffff == 0
    ensures ((top & 0xff000000) | low) & 0xffffff == low && ((top & 0xff000000) | low) & 0xff000000 == top & 0xff000000
  {
  }

  // The offset of the branch that jumps to itself.
  lemma SelfOffset()
    ensures Value(0xeafffffe, 24) == 0xff_fffe
  {
    Masks();
    AllOnes(0x757fffff, 23);
    Powers();
    assert Pow2(24) == 2 * Pow2(23);
    assert (0xeafffffe as bv32) >> 1 == 0x757fffff;
  }

  lemma MaskStep(n: nat)
    requires n > 0
    ensures Mask(n) == (Mask(n - 1) << 1) | 1
  {
  }

  lemma ValueOdd(w: bv32, n: nat)
    requires n > 0 && w & 1 == 1
    ensures Value(w, n) == 2 * Value(w >> 1, n - 1) + 1
  {
  }

  lemma Peel(m: bv32, w: bv32)
    requires ((m << 1) | 1) & !w == 0 && m & !0xffffff == 0
    ensures m & !(w >> 1) == 0 && w & 1 == 1
  {
  }

  lemma {:induction false} AllOnes(w: bv32, n: nat)
    requires n <= 24 && Mask(n) & !w == 0
    ensures Value(w, n) == Pow2(n) - 1
  {
    hide Value, Mask;
    if n > 0 {
      OnesStep(w, n);
      AllOnes(w >> 1, n - 1);
      ValueOdd(w, n);
    } else {
      ValueNone(w);
    }
  }

  lemma OnesStep(w: bv32, n: nat)
    requires 0 < n <= 24 && Mask(n) & !w == 0
    ensures Mask(n - 1) & !(w >> 1) == 0 && w & 1 == 1
  {
    hide Mask;
    MaskStep(n);
    MaskSub(n - 1, 24);
    Masks();
    Peel(Mask(n - 1), w);
  }

  // A branch within reach, relocated, goes exactly where it should and keeps its condition and opcode.
  lemma RelocLands(ptr: nat, val: nat)
    requires (val - ptr) % 4 == 0 && -0x80_0000 <= (val - ptr) / 4 - 2 < 0x80_0000
    ensures BranchTarget(ptr, RelocPc24(ptr, 0xeafffffe, val)) == val
    ensures RelocPc24(ptr, 0xeafffffe, val) & 0xff000000 == 0xea000000
  {
    hide Field, Value, Pow2;
    SelfOffset();
    var v := (0xff_fffe + (val - ptr) / 4) % 0x100_0000;
    Powers();
    ValueField(v, 24);
    FieldTop(v, 24);
    Fields(0xeafffffe, Field(v, 24));
  }

  // ----- loads -----

  // An entry of arm_ldr_table: the address of the instruction, the number of its constant in the table
  // of constants, and the kind of instruction (0 ldr, 1 ldc, 2 add).
  datatype LdrEntry = LdrEntry(ptr: nat, index: nat, kind: nat)

  // Where the constant will be, relative to the program counter of the instruction.
  function OffsetOf(dataPtr: nat, e: LdrEntry): int { 4 * e.index + dataPtr - e.ptr - 8 }

  // The range checks.
  predicate InRange(kind: nat, offset: int)
  {
    offset >= 0 && ((kind == 0 && offset < 4096) || ((kind == 1 || kind == 2) && offset < 1024))
  }

  // The instruction without its offset field.
  function Rest(kind: nat, insn: bv32): bv32
  {
    if kind == 0 then insn & !0x00800fff else if kind == 1 then insn & !0x008000ff else insn & !0x00000fff
  }

  function Patch(kind: nat, insn: bv32, offset: nat): bv32
  {
    if kind == 0 then (insn & !0x00800fff) | Field(offset, 12) | 0x00800000
    else if kind == 1 then (insn & !0x008000ff) | Field(offset / 4, 8) | 0x00800000
    else AddWord(insn, Field(offset / 4, 8))
  }

  // An add of a rotated immediate: rotation 30, that is times four.
  function AddWord(insn: bv32, f: bv32): bv32 { (insn & !0x00000fff) | f | 0xf00 }

  // The immediate of a data-processing instruction: eight bits rotated right.
  function Rotated(insn: bv32): bv32
  {
    var imm, r := insn & 0xff, (insn & 0xf00) >> 7;
    (imm >> r) | (imm << (32 - r))
  }

  // The offset from the program counter that an instruction forms, decoded the way the generator decodes it.
  function Decoded(kind: nat, insn: bv32): int
  {
    if kind == 2 then Value(Rotated(insn), 24)
    else
      var offset := if kind == 0 then Value(insn & 0xfff, 12) else 4 * Value(insn & 0xff, 8);
      if insn & 0x00800000 != 0 then offset else -offset
  }

  function Addressed(kind: nat, ptr: nat, insn: bv32): int { ptr + 8 + Decoded(kind, insn) }

  lemma LdrBits(insn: bv32, f: bv32)
    requires f & !0xfff == 0
    ensures var p := (insn & !0x00800fff) | f | 0x00800000;
      p & 0xfff == f && p & 0x00800000 != 0 && p & !0x00800fff == insn & !0x00800fff
  {
  }

  lemma LdcBits(insn: bv32, f: bv32)
    requires f & !0xff == 0
    ensures var p := (insn & !0x008000ff) | f | 0x00800000;
      p & 0xff == f && p & 0x00800000 != 0 && p & !0x008000ff == insn & !0x008000ff
  {
  }

  lemma AddBits(insn: bv32, f: bv32)
    requires f & !0xff == 0
    ensures Rotated(AddWord(insn, f)) == f << 2 && AddWord(insn, f) & !0xfff == insn & !0xfff
  {
  }

  lemma PatchLdr(insn: bv32, offset: nat)
    requires offset < 4096
    ensures Decoded(0, Patch(0, insn, offset)) == offset && Rest(0, Patch(0, insn, offset)) == Rest(0, insn)
  {
    hide Field, Value;
    FieldFits(offset, 12);
    Masks();
    LdrBits(insn, Field(offset, 12));
    Powers();
    ValueField(offset, 12);
  }

  lemma PatchLdc(insn: bv32, offset: nat)
    requires offset < 1024 && offset % 4 == 0
    ensures Decoded(1, Patch(1, insn, offset)) == offset && Rest(1, Patch(1, insn, offset)) == Rest(1, insn)
  {
    hide Field, Value;
    FieldFits(offset / 4, 8);
    Masks();
    LdcBits(insn, Field(offset / 4, 8));
    Powers();
    ValueField(offset / 4, 8);
  }

  lemma {:induction false} FieldWide(x: nat, n: nat, m: nat)
    requires n <= m && x < Pow2(n)
    ensures Field(x, m) == Field(x, n)
  {
    if n > 0 {
      FieldWide(x / 2, n - 1, m - 1);
    } else if m > 0 {
      FieldWide(0, 0, m - 1);
    }
  }

  lemma TwiceTwo(q: nat)
    requires q < 256
    ensures Value(Field(q, 8) << 2, 24) == 4 * q
  {
    hide Field, Value;
    FieldFits(q, 8);
    Masks();
    Powers();
    FieldWide(q, 8, 22);
    assert Pow2(22) >= Pow2(8) by { assert Pow2(22) == 0x40_0000 by { assert Pow2(24) == 4 * Pow2(22); } }
    ValueField(q, 22);
    var f := Field(q, 8);
    Doubled(f);
    ValueStep(f, 0, 23);
    ValueStep(f << 1, 0, 24);
  }

  lemma Doubled(f: bv32)
    requires f & !0xff == 0
    ensures f & !0xffffff == 0 && (f << 1) & !0xffffff == 0 && (f << 1) << 1 == f << 2
  {
  }

  lemma AddValue(insn: bv32, q: nat)
    requires q < 256
    ensures Value(Rotated(AddWord(insn, Field(q, 8))), 24) == 4 * q
    ensures AddWord(insn, Field(q, 8)) & !0xfff == insn & !0xfff
  {
    hide Field, Value, Rotated, Mask, AddWord;
    FieldFits(q, 8);
    Masks();
    AddBits(insn, Field(q, 8));
    TwiceTwo(q);
  }

  lemma PatchAddValue(insn: bv32, offset: nat)
    requires offset < 1024 && offset % 4 == 0
    ensures Value(Rotated(Patch(2, insn, offset)), 24) == offset && Patch(2, insn, offset) & !0xfff == insn & !0xfff
  {
    hide Field, Value, Rotated, AddWord;
    AddValue(insn, offset / 4);
  }

  lemma PatchAdd(insn: bv32, offset: nat)
    requires offset < 1024 && offset % 4 == 0
    ensures Decoded(2, Patch(2, insn, offset)) == offset && Rest(2, Patch(2, insn, offset)) == Rest(2, insn)
  {
    hide Patch, Value, Rotated;
    PatchAddValue(insn, offset);
  }

  // A patched instruction addresses the copy of its own constant ...
  lemma PatchAddresses(e: LdrEntry, dataPtr: nat, insn: bv32)
    requires InRange(e.kind, OffsetOf(dataPtr, e)) && OffsetOf(dataPtr, e) % 4 == 0
    ensures Addressed(e.kind, e.ptr, Patch(e.kind, insn, OffsetOf(dataPtr, e))) == dataPtr + 4 * e.index
  {
    hide Patch, Decoded, Rest;
    var offset := OffsetOf(dataPtr, e);
    if e.kind == 0 { PatchLdr(insn, offset); }
      else if e.kind == 1 { PatchLdc(insn, offset); } else { PatchAdd(insn, offset); }
  }

  // ... and keeps its other bits.
  lemma PatchKeeps(kind: nat, insn: bv32, offset: nat)
    requires InRange(kind, offset) && offset % 4 == 0
    ensures Rest(kind, Patch(kind, insn, offset)) == Rest(kind, insn)
  {
    hide Patch, Decoded, Rest;
    if kind == 0 { PatchLdr(insn, offset); }
      else if kind == 1 { PatchLdc(insn, offset); } else { PatchAdd(insn, offset); }
  }

  // The instruction `now` addresses the constant of entry e in the pool at dataPtr and is otherwise `was`.
  ghost predicate Served(e: LdrEntry, dataPtr: nat, was: bv32, now: bv32)
  {
    Addressed(e.kind, e.ptr, now) == dataPtr + 4 * e.index && Rest(e.kind, now) == Rest(e.kind, was)
  }

  lemma PatchServes(e: LdrEntry, dataPtr: nat, insn: bv32)
    requires InRange(e.kind, OffsetOf(dataPtr, e)) && OffsetOf(dataPtr, e) % 4 == 0
    ensures OffsetOf(dataPtr, e) >= 0 && Served(e, dataPtr, insn, Patch(e.kind, insn, OffsetOf(dataPtr, e)))
  {
    hide Patch, Addressed, Rest;
    PatchAddresses(e, dataPtr, insn);
    PatchKeeps(e.kind, insn, OffsetOf(dataPtr, e));
  }

  // ----- arm_flush_ldr -----

  const TABLE_SIZE: nat := 1024

  // The words of the code buffer, by address.
  class CodeBuffer {
    var mem: map<nat, bv32>

    constructor ()
    {
      mem := map[];
    }

    // memcpy of the constants
    method CopyPool(at: nat, data: seq<bv32>)
      modifies this
      ensures forall k: nat :: k < |data| ==> at + 4 * k in mem && mem[at + 4 * k] == data[k]
      ensures forall x: nat :: !(at <= x < at + 4 * |data|) ==>
        (x in mem <==> x in old(mem)) && (x in mem ==> mem[x] == old(mem)[x])
    {
      var k := 0;
      while k < |data|
        invariant 0 <= k <= |data|
        invariant forall j: nat :: j < k ==> at + 4 * j in mem && mem[at + 4 * j] == data[j]
        invariant forall x: nat :: !(at <= x < at + 4 * k) ==>
          (x in mem <==> x in old(mem)) && (x in mem ==> mem[x] == old(mem)[x])
      {
        mem := mem[at + 4 * k := data[k]];
        k := k + 1;
      }
    }

    // The patching loop
    method PatchAll(entries: seq<LdrEntry>, dataPtr: nat) returns (ok: bool)
      requires forall i: nat :: i < |entries| ==> entries[i].ptr in mem && entries[i].ptr % 4 == dataPtr % 4
      requires Distinct(entries)
      modifies this
      ensures ok <==> forall i: nat :: i < |entries| ==> InRange(entries[i].kind, OffsetOf(dataPtr, entries[i]))
      ensures ok ==> forall i: nat :: i < |entries| ==>
        entries[i].ptr in mem && Served(entries[i], dataPtr, old(mem)[entries[i].ptr], mem[entries[i].ptr])
      ensures mem.Keys == old(mem).Keys && forall x: nat :: x in mem && !Patched(entries, x) ==> mem[x] == old(mem)[x]
    {
      hide Patch, Served, InRange;
      var i := 0;
      while i < |entries|
        invariant 0 <= i <= |entries| && mem.Keys == old(mem).Keys
        invariant forall j: nat :: j < i ==> InRange(entries[j].kind, OffsetOf(dataPtr, entries[j]))
        invariant forall j: nat :: j < i ==> Served(entries[j], dataPtr, old(mem)[entries[j].ptr], mem[entries[j].ptr])
        invariant forall j: nat :: i <= j < |entries| ==> mem[entries[j].ptr] == old(mem)[entries[j].ptr]
        invariant forall x: nat :: x in mem && !Patched(entries, x) ==> mem[x] == old(mem)[x]
      {
        var e := entries[i];
        var offset := OffsetOf(dataPtr, e);
        if !InRange(e.kind, offset) { return false; }
        PatchServes(e, dataPtr, mem[e.ptr]);
        mem := mem[e.ptr := Patch(e.kind, mem[e.ptr], offset)];
        i := i + 1;
      }
      ok := true;
    }

    // arm_flush_ldr: the pool follows the code at `code`, after a branch around it if genJmp
    method FlushLdr(code: nat, entries: seq<LdrEntry>, data: seq<bv32>, genJmp: bool) returns (r: Option<nat>)
      requires |data| <= TABLE_SIZE && Distinct(entries)
      requires forall i: nat :: i < |entries| ==>
        && entries[i].ptr in mem && entries[i].ptr + 4 <= code
        && entries[i].ptr % 4 == code % 4 && entries[i].index < |data|
      modifies this
      // Nothing to do.
      ensures genJmp && |data| == 0 ==> r == Some(code) && mem == old(mem)
      // The range checks fail exactly when some constant is out of reach.
      ensures !(genJmp && |data| == 0) ==>
        (r.Some? <==> forall i: nat :: i < |entries| ==>
          InRange(entries[i].kind, OffsetOf(PoolAt(code, genJmp), entries[i])))
      ensures r.Some? ==> r.value == (if genJmp && |data| == 0 then code else PoolAt(code, genJmp) + 4 * |data|)
      // The branch goes to the end of the pool.
      ensures r.Some? && genJmp && |data| > 0 ==>
        code in mem && BranchTarget(code, mem[code]) == r.value && mem[code] & 0xff000000 == 0xea000000
      // The pool holds the constants.
      ensures r.Some? ==> forall k: nat :: k < |data| ==>
        PoolAt(code, genJmp) + 4 * k in mem && mem[PoolAt(code, genJmp) + 4 * k] == data[k]
      // Every instruction addresses its own constant and is otherwise unchanged.
      ensures r.Some? && !(genJmp && |data| == 0) ==>
        forall i: nat :: i < |entries| ==>
          entries[i].ptr in mem && Served(entries[i], PoolAt(code, genJmp), old(mem)[entries[i].ptr],
                                          mem[entries[i].ptr])
      // No other word outside the branch and the pool changes, before or after them.
      ensures forall x: nat :: !(code <= x < PoolAt(code, genJmp) + 4 * |data|) && !Patched(entries, x) ==>
        (x in mem <==> x in old(mem)) && (x in mem ==> mem[x] == old(mem)[x])
    {
      hide RelocPc24, BranchTarget, Served, Patched, Distinct;
      var ptr := code;
      if genJmp {
        if |data| == 0 { return Some(code); }
        var target := code + 4 * |data| + 4;
        RelocLands(code, target);
        mem := mem[code := RelocPc24(code, 0xeafffffe, target)];
        ptr := code + 4;
      }
      var dataPtr := ptr;
      CopyPool(dataPtr, data);
      ghost var copied := mem;
      var ok := PatchAll(entries, dataPtr);
      NotPatched(entries, code);
      r := if ok then Some(dataPtr + 4 * |data|) else None;
    }
  }

  function PoolAt(code: nat, genJmp: bool): nat { if genJmp then code + 4 else code }

  ghost predicate Distinct(entries: seq<LdrEntry>)
  {
    forall i: nat, j: nat :: i < j < |entries| ==> entries[i].ptr != entries[j].ptr
  }

  ghost predicate Patched(entries: seq<LdrEntry>, x: nat)
  {
    exists i: nat :: i < |entries| && entries[i].ptr == x
  }

  lemma NotPatched(entries: seq<LdrEntry>, code: nat)
    requires forall i: nat :: i < |entries| ==> entries[i].ptr + 4 <= code
    ensures forall x: nat :: x >= code ==> !Patched(entries, x)
  {
  }
}
