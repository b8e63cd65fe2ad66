/** The boot control block and its CRC-32.

    The reference is the checksum of section 8 of RFC 1952 taken one bit at a time; the program uses a
    table and takes a byte at a time. */
module Crc32 {

  // ---------- bit by bit ----------

  function Low(r: bv32): bv32 { r & 1 }

  function Half(r: bv32): bv32 { r >> 1 }

  function Xor(x: bv32, y: bv32): bv32 { x ^ y }

  /** The polynomial if the bit is set. */
  function Masked(bit: bv32): bv32 { 0xEDB8_8320 & (0 - bit) }

  /** One turn of the register. */
  function Shift(r: bv32): bv32 {
    Xor(Half(r), Masked(Low(r)))
  }

  function Shifts(r: bv32, n: nat): bv32
    decreases n
  {
    if n == 0 then r else Shifts(Shift(r), n - 1)
  }

  /** Take in n bits of e, least significant first. */
  function TakeBits(r: bv32, e: bv32, n: nat): bv32
    decreases n
  {
    if n == 0 then r else TakeBits(Shift(Xor(r, Low(e))), Half(e), n - 1)
  }

  function Value(b: bv8): bv32 { b as bv32 }

  /** The register after all the bits of the bytes, in order. */
  function Register(buf: seq<bv8>): bv32 {
    if buf == [] then 0xFFFF_FFFF else TakeBits(Register(buf[..|buf| - 1]), Value(buf[|buf| - 1]), 8)
  }

  function Not(x: bv32): bv32 { !x }

  function BitSerialCrc(buf: seq<bv8>): bv32 {
    Not(Register(buf))
  }

  // ---------- the register is linear ----------

  lemma XorLaws(x: bv32, y: bv32, z: bv32, w: bv32)
    ensures Xor(Xor(x, y), Xor(z, w)) == Xor(Xor(x, z), Xor(y, w))
    ensures Xor(x, y) == Xor(y, x) && Xor(x, 0) == x
  {
  }

  lemma HalfLinear(x: bv32, y: bv32)
    ensures Half(Xor(x, y)) == Xor(Half(x), Half(y))
  {
  }

  lemma LowLinear(x: bv32, y: bv32)
    ensures Low(Xor(x, y)) == Xor(Low(x), Low(y)) && (Low(x) == 0 || Low(x) == 1)
  {
  }

  lemma MaskedLinear(a: bv32, b: bv32)
    requires (a == 0 || a == 1) && (b == 0 || b == 1)
    ensures Masked(Xor(a, b)) == Xor(Masked(a), Masked(b))
  {
    assert a == 0 ==> a ^ b == b;
    assert a == 1 && b == 1 ==> a ^ b == 0;
    assert a == 1 && b == 0 ==> a ^ b == 1;
  }

  lemma ShiftLinear(x: bv32, y: bv32)
    ensures Shift(Xor(x, y)) == Xor(Shift(x), Shift(y))
  {
    hide Low, Masked, Half, Xor;
    HalfLinear(x, y);
    LowLinear(x, y);
    LowLinear(y, x);
    MaskedLinear(Low(x), Low(y));
    XorLaws(Half(x), Half(y), Masked(Low(x)), Masked(Low(y)));
  }

  lemma {:induction false} ShiftsLinear(x: bv32, y: bv32, n: nat)
    ensures Shifts(Xor(x, y), n) == Xor(Shifts(x, n), Shifts(y, n))
    decreases n
  {
    hide Shift, Xor;
    if n > 0 {
      ShiftLinear(x, y);
      ShiftsLinear(Shift(x), Shift(y), n - 1);
    }
  }

  // ---------- division of polynomials ----------

  /** A polynomial over the field of two elements, as its exponents. */
  type Poly = set<nat>

  function Plus(a: Poly, b: Poly): Poly {
    (a - b) + (b - a)
  }

  function TimesX(a: Poly): Poly {
    set e | e in a :: e + 1
  }

  function If(present: bool, a: Poly): Poly {
    if present then a else {}
  }

  function Generator(): Poly {
    {32, 26, 23, 22, 16, 12, 11, 10, 8, 7, 5, 4, 2, 1, 0}
  }

  /** The product of the generator and the polynomial with these coefficients, the highest first. */
  function Multiple(q: seq<bool>): Poly {
    if q == [] then {} else Plus(TimesX(Multiple(q[..|q| - 1])), If(q[|q| - 1], Generator()))
  }

  /** All the exponents below n. */
  function Ones(n: nat): Poly {
    if n == 0 then {} else Ones(n - 1) + {n - 1}
  }

  /** The message times x^32, the highest coefficient first, with ones added to its first 32 coefficients. */
  function Dividend(bits: seq<bool>): Poly {
    if bits == [] then Ones(32) else Plus(TimesX(Dividend(bits[..|bits| - 1])), If(bits[|bits| - 1], {32}))
  }

  predicate Bit(r: bv32, i: nat) {
    if i == 0 then Low(r) == 1 else Bit(Half(r), i - 1)
  }

  /** The register as a polynomial: its lowest bit is the coefficient of x^31. */
  function PolyOf(r: bv32): Poly {
    set k: nat | k < 32 && Coefficient(r, k)
  }

  predicate Coefficient(r: bv32, k: nat) {
    k < 32 && Bit(r, 31 - k)
  }

  /** The lowest n bits, in the order in which they are taken. */
  function LowFirst(e: bv32, n: nat): seq<bool> {
    if n == 0 then [] else [Low(e) == 1] + LowFirst(Half(e), n - 1)
  }

  function MessageBits(buf: seq<bv8>): seq<bool> {
    if buf == [] then [] else MessageBits(buf[..|buf| - 1]) + LowFirst(Value(buf[|buf| - 1]), 8)
  }

  lemma PlusLaws(a: Poly, b: Poly, c: Poly, d: Poly)
    ensures Plus(Plus(a, b), Plus(c, d)) == Plus(Plus(a, c), Plus(b, d))
    ensures Plus(a, {}) == a && Plus(a, a) == {} && Plus(a, b) == Plus(b, a)
            && Plus(Plus(a, b), c) == Plus(a, Plus(b, c))
  {
    forall e ensures e in Plus(Plus(a, b), Plus(c, d)) <==> e in Plus(Plus(a, c), Plus(b, d)) {
    }
  }

  lemma TimesXPlus(a: Poly, b: Poly)
    ensures TimesX(Plus(a, b)) == Plus(TimesX(a), TimesX(b))
  {
    forall e ensures e in TimesX(Plus(a, b)) <==> e in Plus(TimesX(a), TimesX(b)) {
      if e > 0 { assert e - 1 + 1 == e; }
    }
  }

  lemma {:induction false} BitXor(a: bv32, b: bv32, i: nat)
    ensures Bit(Xor(a, b), i) <==> Bit(a, i) != Bit(b, i)
    decreases i
  {
    hide Xor, Half, Low;
    LowLinear(a, b);
    LowLinear(b, a);
    if i == 0 {
      XorOfBits(Low(a), Low(b));
    } else {
      HalfLinear(a, b);
      BitXor(Half(a), Half(b), i - 1);
    }
  }

  lemma XorOfBits(a: bv32, b: bv32)
    requires (a == 0 || a == 1) && (b == 0 || b == 1)
    ensures Xor(a, b) == 1 <==> (a == 1) != (b == 1)
  {
    assert a == b ==> a ^ b == 0;
    assert a == 0 ==> a ^ b == b;
    assert b == 0 ==> a ^ b == a;
  }

  lemma {:induction false} ZeroBits(i: nat)
    ensures !Bit(0, i)
    decreases i
  {
    if i > 0 { ZeroBits(i - 1); }
  }

  lemma OneBit(i: nat)
    ensures Bit(1, i) <==> i == 0
  {
    if i > 0 {
      assert Half(1) == 0;
      ZeroBits(i - 1);
    }
  }

  /** The bits of the constant are the exponents of the generator. */
  lemma GeneratorBits(k: nat)
    requires k < 32
    ensures Bit(0xEDB8_8320, 31 - k) <==> k in Generator()
  {
    var i := 31 - k;
    ConstantBits();
    if i >= 8 { BitUp(0xEDB8_8320, i - 8); }
    if i >= 16 { BitUp(0x00ED_B883, i - 16); }
    if i >= 24 { BitUp(0x0000_EDB8, i - 24); }
  }

  lemma ConstantBits()
    ensures !Bit(0xEDB8_8320, 0) && !Bit(0xEDB8_8320, 1) && !Bit(0xEDB8_8320, 2) && !Bit(0xEDB8_8320, 3)
            && !Bit(0xEDB8_8320, 4) && Bit(0xEDB8_8320, 5) && !Bit(0xEDB8_8320, 6) && !Bit(0xEDB8_8320, 7)
    ensures Bit(0x00ED_B883, 0) && Bit(0x00ED_B883, 1) && !Bit(0x00ED_B883, 2) && !Bit(0x00ED_B883, 3)
            && !Bit(0x00ED_B883, 4) && !Bit(0x00ED_B883, 5) && !Bit(0x00ED_B883, 6) && Bit(0x00ED_B883, 7)
    ensures !Bit(0x0000_EDB8, 0) && !Bit(0x0000_EDB8, 1) && !Bit(0x0000_EDB8, 2) && Bit(0x0000_EDB8, 3)
            && Bit(0x0000_EDB8, 4) && Bit(0x0000_EDB8, 5) && !Bit(0x0000_EDB8, 6) && Bit(0x0000_EDB8, 7)
    ensures Bit(0x0000_00ED, 0) && !Bit(0x0000_00ED, 1) && Bit(0x0000_00ED, 2) && Bit(0x0000_00ED, 3)
            && !Bit(0x0000_00ED, 4) && Bit(0x0000_00ED, 5) && Bit(0x0000_00ED, 6) && Bit(0x0000_00ED, 7)
  {
  }

  lemma BitUp(r: bv32, i: nat)
    ensures Bit(r, i + 8) <==> Bit(ShiftByte(r), i)
  {
    hide Half, Low;
    BitHalves(r, i + 8);
    HalvesMore(r, 8, i);
    EightHalves(r);
    BitHalves(ShiftByte(r), i);
  }

  /** One turn multiplies by x and takes off the generator if the degree gets too high. */
  lemma ShiftDivides(r: bv32)
    ensures PolyOf(Shift(r)) == Plus(TimesX(PolyOf(r)), If(Bit(r, 0), Generator()))
  {
    hide Low, Half, Masked, Xor, Generator, Shift;
    ShiftIs(r);
    MaskOf(r);
    forall e: nat
      ensures e in PolyOf(Shift(r)) <==> e in Plus(TimesX(PolyOf(r)), If(Bit(r, 0), Generator()))
    {
      if e < 32 {
        BitXor(Half(r), Masked(Low(r)), 31 - e);
        GeneratorBits(e);
        ZeroBits(31 - e);
        NoBit32(r);
        BitHalf(r, 31 - e);
        assert e in TimesX(PolyOf(r)) <==> e > 0 && e - 1 in PolyOf(r);
      } else {
        assert e in TimesX(PolyOf(r)) <==> e - 1 in PolyOf(r);
      }
    }
  }

  lemma {:induction false} BitHalves(r: bv32, n: nat)
    ensures Bit(r, n) <==> Bit(Halves(r, n), 0)
    decreases n
  {
    hide Half, Low;
    if n > 0 { BitHalves(Half(r), n - 1); }
  }

  lemma {:induction false} HalvesMore(r: bv32, m: nat, n: nat)
    ensures Halves(r, m + n) == Halves(Halves(r, m), n)
    decreases m
  {
    hide Half;
    if m > 0 { HalvesMore(Half(r), m - 1, n); }
  }

  lemma EightHalves(r: bv32)
    ensures Halves(r, 8) == ShiftByte(r)
  {
    HalvesTwice(r);
    FourHalves(r);
    FourHalves(r >> 4);
  }

  lemma FourHalves(r: bv32)
    ensures Halves(r, 4) == r >> 4
  {
    assert Halves(r, 4) == Half(Half(Half(Half(r))));
  }

  lemma NoBit32(r: bv32)
    ensures !Bit(r, 32)
  {
    hide Half, Low, Bit, ShiftByte;
    var r1, r2, r3 := ShiftByte(r), ShiftByte(ShiftByte(r)), ShiftByte(ShiftByte(ShiftByte(r)));
    BitUp(r, 24);
    BitUp(r1, 16);
    BitUp(r2, 8);
    BitUp(r3, 0);
    AllOut(r);
    ZeroBits(0);
  }

  lemma AllOut(r: bv32)
    ensures ShiftByte(ShiftByte(ShiftByte(ShiftByte(r)))) == 0
  {
  }

  lemma ShiftIs(r: bv32)
    ensures Shift(r) == Xor(Half(r), Masked(Low(r))) && (Bit(r, 0) <==> Low(r) == 1)
    ensures forall e :: e in Generator() ==> e <= 32
    ensures 32 in Generator()
  {
  }

  lemma BitHalf(r: bv32, i: nat)
    ensures Bit(Half(r), i) <==> Bit(r, i + 1)
  {
  }

  lemma MaskOf(r: bv32)
    ensures Masked(Low(r)) == if Low(r) == 1 then 0xEDB8_8320 else 0
  {
  }

  /** The register is what is left of the dividend when multiples of the generator are taken off. */
  ghost predicate Divides(r: bv32, q: seq<bool>, bits: seq<bool>) {
    Plus(PolyOf(r), Multiple(q)) == Dividend(bits)
  }

  lemma TakingBit(r: bv32, b: bv32)
    requires b == 0 || b == 1
    ensures PolyOf(Xor(r, b)) == Plus(PolyOf(r), If(b == 1, {31}))
  {
    hide Xor, Bit;
    forall e: nat ensures e in PolyOf(Xor(r, b)) <==> e in Plus(PolyOf(r), If(b == 1, {31})) {
      if e < 32 {
        BitXor(r, b, 31 - e);
        ZeroBits(31 - e);
        OneBit(31 - e);
      }
    }
  }

  /** Taking a bit is a step of the division. */
  lemma DivisionStep(r: bv32, q: seq<bool>, bits: seq<bool>, b: bv32) returns (q': seq<bool>)
    requires Divides(r, q, bits) && (b == 0 || b == 1)
    ensures Divides(Shift(Xor(r, b)), q', bits + [b == 1])
  {
    hide *;
    var x := Xor(r, b);
    q' := q + [Bit(x, 0)];
    Parts(r, q, bits);
    Snoc(q, Bit(x, 0), bits, b == 1);
    ShiftDivides(x);
    TakingBit(r, b);
    StepAlgebra(PolyOf(r), Multiple(q), b == 1, If(Bit(x, 0), Generator()));
    Parts(Shift(x), q', bits + [b == 1]);
  }

  lemma Parts(r: bv32, q: seq<bool>, bits: seq<bool>)
    ensures Divides(r, q, bits) <==> Plus(PolyOf(r), Multiple(q)) == Dividend(bits)
  {
  }

  lemma Snoc(q: seq<bool>, top: bool, bits: seq<bool>, bit: bool)
    ensures Multiple(q + [top]) == Plus(TimesX(Multiple(q)), If(top, Generator()))
    ensures Dividend(bits + [bit]) == Plus(TimesX(Dividend(bits)), If(bit, {32}))
  {
    hide Plus, TimesX, Generator, Ones, If;
    assert (q + [top])[..|q + [top]| - 1] == q && (bits + [bit])[..|bits + [bit]| - 1] == bits;
  }

  lemma StepAlgebra(r: Poly, m: Poly, bit: bool, g: Poly)
    ensures Plus(Plus(TimesX(Plus(r, If(bit, {31}))), g), Plus(TimesX(m), g)) == Plus(TimesX(Plus(r, m)), If(bit, {32}))
  {
    hide Plus, TimesX, If;
    TimesXPlus(r, If(bit, {31}));
    TimesXPlus(r, m);
    TimesXOf(bit);
    Rearranged(TimesX(r), If(bit, {32}), g, TimesX(m));
  }

  lemma TimesXOf(bit: bool)
    ensures TimesX(If(bit, {31})) == If(bit, {32})
  {
    if bit { assert TimesX({31}) == {32}; }
  }

  lemma Rearranged(p: Poly, i: Poly, g: Poly, m: Poly)
    ensures Plus(Plus(Plus(p, i), g), Plus(m, g)) == Plus(Plus(p, m), i)
  {
    forall e ensures e in Plus(Plus(Plus(p, i), g), Plus(m, g)) <==> e in Plus(Plus(p, m), i) {
    }
  }

  lemma {:induction false} TakingBits(r: bv32, q: seq<bool>, bits: seq<bool>, e: bv32, n: nat) returns (q': seq<bool>)
    requires Divides(r, q, bits)
    ensures Divides(TakeBits(r, e, n), q', bits + LowFirst(e, n))
    decreases n
  {
    hide Divides, Shift, Xor, Low, Half;
    if n == 0 {
      assert bits + LowFirst(e, n) == bits;
      return q;
    }
    LowLinear(e, 0);
    var q1 := DivisionStep(r, q, bits, Low(e));
    var more := bits + [Low(e) == 1];
    q' := TakingBits(Shift(Xor(r, Low(e))), q1, more, Half(e), n - 1);
    assert bits + LowFirst(e, n) == more + LowFirst(Half(e), n - 1);
  }

  /** The register is the remainder of the message, with its bits in the order in which they are taken,
      times x^32 and with its first 32 coefficients complemented, divided by the generator of RFC 1952. */
  lemma {:induction false} RegisterIsRemainder(buf: seq<bv8>) returns (q: seq<bool>)
    ensures Divides(Register(buf), q, MessageBits(buf))
    ensures forall e :: e in PolyOf(Register(buf)) ==> e < 32
  {
    hide Divides, TakeBits, LowFirst, Value, Bit;
    if buf == [] {
      q := StartDivides();
    } else {
      var n := |buf| - 1;
      var q1 := RegisterIsRemainder(buf[..n]);
      q := TakingBits(Register(buf[..n]), q1, MessageBits(buf[..n]), Value(buf[n]), 8);
    }
  }

  lemma StartDivides() returns (q: seq<bool>)
    ensures Divides(0xFFFF_FFFF, q, [])
  {
    q := [];
    forall e: nat ensures e in PolyOf(0xFFFF_FFFF) <==> e in Ones(32) {
      OnesAre(32, e);
      if e < 32 { AllBits(31 - e); }
    }
    PlusLaws(PolyOf(0xFFFF_FFFF), {}, {}, {});
  }

  lemma {:induction false} OnesAre(n: nat, e: nat)
    ensures e in Ones(n) <==> e < n
  {
    if n > 0 { OnesAre(n - 1, e); }
  }

  lemma AllBits(i: nat)
    requires i < 32
    ensures Bit(0xFFFF_FFFF, i)
  {
    LowBits();
    if i >= 8 { BitUp(0xFFFF_FFFF, i - 8); }
    if i >= 16 { BitUp(0x00FF_FFFF, i - 16); }
    if i >= 24 { BitUp(0x0000_FFFF, i - 24); }
  }

  lemma LowBits()
    ensures forall i :: 0 <= i < 8 ==> Bit(0xFFFF_FFFF, i)
    ensures forall i :: 0 <= i < 8 ==> Bit(0x00FF_FFFF, i)
    ensures forall i :: 0 <= i < 8 ==> Bit(0x0000_FFFF, i)
    ensures forall i :: 0 <= i < 8 ==> Bit(0x0000_00FF, i)
  {
    assert Bit(0xFFFF_FFFF, 0) && Bit(0xFFFF_FFFF, 1) && Bit(0xFFFF_FFFF, 2) && Bit(0xFFFF_FFFF, 3)
           && Bit(0xFFFF_FFFF, 4) && Bit(0xFFFF_FFFF, 5) && Bit(0xFFFF_FFFF, 6) && Bit(0xFFFF_FFFF, 7);
    assert Bit(0x00FF_FFFF, 0) && Bit(0x00FF_FFFF, 1) && Bit(0x00FF_FFFF, 2) && Bit(0x00FF_FFFF, 3)
           && Bit(0x00FF_FFFF, 4) && Bit(0x00FF_FFFF, 5) && Bit(0x00FF_FFFF, 6) && Bit(0x00FF_FFFF, 7);
    assert Bit(0x0000_FFFF, 0) && Bit(0x0000_FFFF, 1) && Bit(0x0000_FFFF, 2) && Bit(0x0000_FFFF, 3)
           && Bit(0x0000_FFFF, 4) && Bit(0x0000_FFFF, 5) && Bit(0x0000_FFFF, 6) && Bit(0x0000_FFFF, 7);
    assert Bit(0x0000_00FF, 0) && Bit(0x0000_00FF, 1) && Bit(0x0000_00FF, 2) && Bit(0x0000_00FF, 3)
           && Bit(0x0000_00FF, 4) && Bit(0x0000_00FF, 5) && Bit(0x0000_00FF, 6) && Bit(0x0000_00FF, 7);
  }

  /** The checksum of nothing is zero, that of a zero byte is known. */
  lemma KnownChecksums()
    ensures BitSerialCrc([]) == 0 && BitSerialCrc([0]) == 0xD202_EF8D
  {
    assert [0][..0] == [];
    ZeroByte();
  }

  lemma ZeroByte()
    ensures TakeBits(0xFFFF_FFFF, 0, 8) == 0x2DFD_1072
  {
  }

  // ---------- a byte at a time ----------

  function Shift8(r: bv32): bv32 {
    Shift(Shift(Shift(Shift(Shift(Shift(Shift(Shift(r))))))))
  }

  lemma Eight(r: bv32)
    ensures Shifts(r, 8) == Shift8(r)
  {
    hide Shift;
    assert Shifts(r, 8) == Shifts(Shift(Shift(Shift(Shift(r)))), 4);
  }

  function Halves(e: bv32, n: nat): bv32
    decreases n
  {
    if n == 0 then e else Halves(Half(e), n - 1)
  }

  function ClearLow(e: bv32): bv32 { e & 0xFFFF_FFFE }

  lemma ShiftEven(e: bv32)
    ensures Shift(ClearLow(e)) == Half(e)
  {
  }

  lemma SplitLow(r: bv32, e: bv32)
    ensures Xor(r, e) == Xor(Xor(r, Low(e)), ClearLow(e))
  {
  }

  lemma EvenShift(r: bv32, e: bv32)
    ensures Shift(Xor(r, e)) == Xor(Shift(Xor(r, Low(e))), Half(e))
  {
    hide Xor, Low, ClearLow, Half, Shift;
    SplitLow(r, e);
    ShiftLinear(Xor(r, Low(e)), ClearLow(e));
    ShiftEven(e);
  }

  /** Taking the bits one by one is the same as taking them all at once and turning the register. */
  lemma {:induction false} TakeBitsTogether(r: bv32, e: bv32, n: nat)
    ensures Shifts(Xor(r, e), n) == Xor(TakeBits(r, e, n), Halves(e, n))
    decreases n
  {
    hide Shift, Low, Half, Xor;
    if n > 0 {
      EvenShift(r, e);
      TakeBitsTogether(Shift(Xor(r, Low(e))), Half(e), n - 1);
    }
  }

  lemma NoBitsLeft(e: bv32)
    requires e < 256
    ensures Halves(e, 8) == 0
  {
    HalvesTwice(e);
    HalvesFour(e);
    HalvesFour(Halves(e, 4));
  }

  lemma HalvesFour(e: bv32)
    ensures Halves(e, 4) == e >> 4
  {
    assert Halves(e, 4) == Half(Half(Half(Half(e))));
  }

  lemma HalvesTwice(e: bv32)
    ensures Halves(e, 8) == Halves(Halves(e, 4), 4)
  {
    hide Half;
    assert Halves(e, 8) == Halves(Half(Half(Half(Half(e)))), 4);
  }

  lemma Shift8Linear(x: bv32, y: bv32)
    ensures Shift8(Xor(x, y)) == Xor(Shift8(x), Shift8(y))
  {
    hide Shift8, Shifts, Xor;
    Eight(Xor(x, y));
    Eight(x);
    Eight(y);
    ShiftsLinear(x, y, 8);
  }

  /** The register after one byte. */
  function Next(r: bv32, b: bv8): bv32 {
    Shift8(Xor(r, Value(b)))
  }

  lemma ByteIsSmall(b: bv8)
    ensures Value(b) < 256
  {
  }

  lemma TakeByte(r: bv32, b: bv8)
    ensures TakeBits(r, Value(b), 8) == Next(r, b)
  {
    hide TakeBits, Shifts, Shift8, Halves, Xor, Value;
    TakeBitsTogether(r, Value(b), 8);
    ByteIsSmall(b);
    NoBitsLeft(Value(b));
    Eight(Xor(r, Value(b)));
    XorLaws(TakeBits(r, Value(b), 8), 0, 0, 0);
  }

  function LowByte(x: bv32): bv32 { x & 0xFF }

  function HighBytes(x: bv32): bv32 { x & 0xFFFF_FF00 }

  function ShiftByte(x: bv32): bv32 { x >> 8 }

  lemma ShiftHighBytes(x: bv32)
    ensures Shift8(HighBytes(x)) == ShiftByte(x)
  {
  }

  lemma SplitByte(x: bv32)
    ensures x == Xor(LowByte(x), HighBytes(x))
  {
  }

  lemma ShiftOutByte(r: bv32, e: bv32)
    requires e < 256
    ensures ShiftByte(Xor(r, e)) == ShiftByte(r)
  {
  }

  /** One look-up in the table of the 256 turned bytes. */
  lemma TableStep(r: bv32, b: bv8)
    ensures Next(r, b) == Xor(ShiftByte(r), Shift8(LowByte(Xor(r, Value(b)))))
  {
    hide Shift8, Xor, Value, LowByte, HighBytes, ShiftByte;
    var x := Xor(r, Value(b));
    ByteIsSmall(b);
    SplitByte(x);
    Shift8Linear(LowByte(x), HighBytes(x));
    ShiftHighBytes(x);
    ShiftOutByte(r, Value(b));
    XorLaws(Shift8(LowByte(x)), ShiftByte(r), 0, 0);
  }

  // ---------- the program ----------

  ghost predicate Computed(t: seq<bv32>) {
    |t| == 256 && forall k: nat :: k < 256 ==> t[k] == Shift8(k as bv32)
  }

  /** The static table; its second entry is zero until it has been computed. */
  class Table {
    var crcTable: seq<bv32>

    ghost predicate Valid()
      reads this
    {
      |crcTable| == 256 && (crcTable[1] == 0 || Computed(crcTable))
    }

    constructor ()
      ensures Valid()
    {
      crcTable := seq(256, _ => 0);
    }

    method Compute()
      modifies this
      ensures Valid() && Computed(crcTable)
    {
      hide Shift, Xor;
      var table: seq<bv32>, i := [], 0;
      while i < 256
        invariant 0 <= i <= 256 && |table| == i
        invariant forall k: nat :: k < i ==> table[k] == Shift8(k as bv32)
      {
        var crc := TurnEight(i as bv32);
        table := table + [crc];
        i := i + 1;
      }
      crcTable := table;
    }

    /** The checksum of a buffer, from the table. */
    method CRC32(buf: seq<bv8>) returns (crc: bv32)
      requires Valid()
      modifies this
      ensures Valid() && crc == BitSerialCrc(buf)
    {
      hide Shift8, TakeBits, Next, Computed, Xor, LowByte, ShiftByte, Value, Not;
      if crcTable[1] == 0 { Compute(); }
      var ret: bv32, i := 0xFFFF_FFFF, 0;
      while i < |buf|
        invariant 0 <= i <= |buf| && ret == Register(buf[..i]) && |crcTable| == 256 && Valid() && Computed(crcTable)
      {
        assert buf[..i + 1][..i] == buf[..i];
        TakeByte(ret, buf[i]);
        TableStep(ret, buf[i]);
        ret := LookUp(crcTable, ret, buf[i]);
        i := i + 1;
      }
      assert buf[..i] == buf;
      return Not(ret);
    }
  }

  /** The entry of the table for a byte. */
  method TurnEight(byte: bv32) returns (crc: bv32)
    ensures crc == Shift8(byte)
  {
    hide Shift8, Half, Low, Masked, Xor;
    crc := byte;
    var j := 0;
    while j < 8
      invariant 0 <= j <= 8 && Shifts(crc, 8 - j) == Shifts(byte, 8)
    {
      var mask := Masked(Low(crc));
      crc := Xor(Half(crc), mask);
      j := j + 1;
    }
    Eight(byte);
  }

  method LookUp(t: seq<bv32>, ret0: bv32, b: bv8) returns (ret: bv32)
    requires Computed(t)
    ensures ret == Xor(ShiftByte(ret0), Shift8(LowByte(Xor(ret0, Value(b)))))
  {
    hide Shift8, Computed, LowByte, Xor, ShiftByte, Value;
    IndexIs(ret0, b);
    var index := LowByte(Xor(ret0, Value(b)));
    EntryIs(t, index);
    ret := Xor(ShiftByte(ret0), t[index as int]);
  }

  lemma IndexIs(r: bv32, b: bv8)
    ensures LowByte(Xor(r, Value(b))) == (r ^ (b as bv32)) & 0xFF && LowByte(Xor(r, Value(b))) < 256
  {
  }

  lemma EntryIs(t: seq<bv32>, index: bv32)
    requires Computed(t) && index < 256
    ensures 0 <= index as int < 256 == |t| && t[index as int] == Shift8(index)
  {
    hide Shift8;
    assert (index as int) as bv32 == index;
  }

  // ---------- what it detects ----------

  function Up(x: bv32): bv32 { x << 8 }

  /** Below 24 bits the register can be turned back without the polynomial. */
  lemma TurnBack(x: bv32)
    requires Shift8(x) < 0x100_0000
    ensures x == Up(Shift8(x))
  {
  }

  lemma UndoXor(x: bv32, y: bv32)
    ensures x == Xor(Xor(x, y), y)
  {
  }

  lemma XorIsSmall(d: bv32, e: bv32)
    requires e < 256
    ensures d < 0x100 ==> Xor(Up(d), e) < 0x1_0000
    ensures d < 0x1_0000 ==> Xor(Up(d), e) < 0x100_0000
  {
  }

  /** Turning back the register before a byte was taken in. */
  lemma ByteBack(d: bv32, e: bv32)
    requires Shift8(Xor(d, e)) < 0x100_0000
    ensures d == Xor(Up(Shift8(Xor(d, e))), e)
  {
    hide Shift8, Xor, Up;
    TurnBack(Xor(d, e));
    UndoXor(d, e);
  }

  /** Four bytes that turn a zero register to zero are zero. */
  lemma FourZeros(e0: bv32, e1: bv32, e2: bv32, e3: bv32)
    requires e0 < 256 && e1 < 256 && e2 < 256 && e3 < 256
    requires Shift8(Xor(Shift8(Xor(Shift8(Xor(Shift8(e0), e1)), e2)), e3)) == 0
    ensures e0 == 0 && e1 == 0 && e2 == 0 && e3 == 0
  {
    hide Shift8, Xor, Up;
    var d1 := Shift8(e0);
    var d2 := Shift8(Xor(d1, e1));
    var d3 := Shift8(Xor(d2, e2));
    ByteBack(d3, e3);
    UpZero(e3);
    ByteBack(d2, e2);
    XorIsSmall(d3, e2);
    ByteBack(d1, e1);
    XorIsSmall(d2, e1);
    TurnBack(e0);
    UpIsSmall(e0, d1);
    FirstIsZero(e1, d2);
    FirstIsZero(e2, d3);
  }

  lemma UpZero(e: bv32)
    ensures Xor(Up(0), e) == e
  {
  }

  lemma UpIsSmall(e: bv32, d: bv32)
    requires e < 256 && e == Up(d) && d < 0x100_0000
    ensures e == 0 && d == 0
  {
  }

  lemma FirstIsZero(e: bv32, d: bv32)
    requires e < 256 && Xor(Up(d), e) == 0 && d < 0x100_0000
    ensures e == 0 && d == 0
  {
  }

  /** By how much the registers of two buffers differ after n bytes, and two bytes of them. */
  function Diff(a: seq<bv8>, b: seq<bv8>, n: nat): bv32
    requires n <= |a| && n <= |b|
  {
    Xor(Register(a[..n]), Register(b[..n]))
  }

  function ByteDiff(a: seq<bv8>, b: seq<bv8>, k: int): bv32 {
    if 0 <= k < |a| && k < |b| then Xor(Value(a[k]), Value(b[k])) else 0
  }

  lemma ByteDiffMeaning(a: seq<bv8>, b: seq<bv8>, k: int)
    ensures ByteDiff(a, b, k) < 256
    ensures 0 <= k < |a| && k < |b| ==> (ByteDiff(a, b, k) == 0 <==> a[k] == b[k])
  {
    if 0 <= k < |a| && k < |b| { ValuesDiffer(a[k], b[k]); }
  }

  lemma ValuesDiffer(x: bv8, y: bv8)
    ensures Xor(Value(x), Value(y)) < 256 && (Xor(Value(x), Value(y)) == 0 <==> x == y)
  {
  }

  lemma XorSelf(x: bv32)
    ensures Xor(x, x) == 0
  {
  }

  lemma XorNone(x: bv32)
    ensures Xor(0, x) == x
  {
  }

  lemma RegisterStep(a: seq<bv8>, n: nat)
    requires n < |a|
    ensures Register(a[..n + 1]) == Shift8(Xor(Register(a[..n]), Value(a[n])))
  {
    hide TakeBits, Shift8, Xor, Value;
    assert a[..n + 1][..n] == a[..n];
    TakeByte(Register(a[..n]), a[n]);
  }

  lemma DiffStep(a: seq<bv8>, b: seq<bv8>, n: nat)
    requires n < |a| && n < |b|
    ensures Diff(a, b, n + 1) == Shift8(Xor(Diff(a, b, n), ByteDiff(a, b, n)))
  {
    hide Register, Shift8, Xor, Value;
    RegisterStep(a, n);
    RegisterStep(b, n);
    var r, s, x, y := Register(a[..n]), Register(b[..n]), Value(a[n]), Value(b[n]);
    Shift8Linear(Xor(r, x), Xor(s, y));
    XorLaws(r, x, s, y);
  }

  lemma DiffNone(a: seq<bv8>, b: seq<bv8>, n: nat)
    requires n <= |a| && n <= |b| && forall k :: 0 <= k < n ==> a[k] == b[k]
    ensures Diff(a, b, n) == 0
  {
    hide Register;
    assert a[..n] == b[..n];
    XorSelf(Register(a[..n]));
  }

  lemma Shift8Zero()
    ensures Shift8(0) == 0
  {
  }

  /** A change within the last four bytes. */
  lemma LastFour(a: seq<bv8>, b: seq<bv8>, n: nat)
    requires n < |a| && n < |b| && a[n] != b[n] && forall k :: 0 <= k < n - 3 ==> a[k] == b[k]
    ensures Diff(a, b, n + 1) != 0
  {
    hide Register, Shift8, Xor, Diff, ByteDiff;
    var e0, e1, e2, e3 := ByteDiff(a, b, n - 3), ByteDiff(a, b, n - 2), ByteDiff(a, b, n - 1), ByteDiff(a, b, n);
    ByteDiffMeaning(a, b, n - 3);
    ByteDiffMeaning(a, b, n - 2);
    ByteDiffMeaning(a, b, n - 1);
    ByteDiffMeaning(a, b, n);
    var d1, d2, d3 := DiffUpTo(a, b, n - 2), DiffUpTo(a, b, n - 1), DiffUpTo(a, b, n);
    UpToStep(a, b, n, n - 3);
    UpToStep(a, b, n, n - 2);
    UpToStep(a, b, n, n - 1);
    UpToStep(a, b, n, n);
    UpToNone(a, b, n - 3);
    XorNone(e0);
    if Diff(a, b, n + 1) == 0 {
      FourZeros(e0, e1, e2, e3);
    }
  }

  /** Diff, for positions before the beginning too. */
  function DiffUpTo(a: seq<bv8>, b: seq<bv8>, n: int): bv32 {
    if 0 <= n <= |a| && n <= |b| then Diff(a, b, n) else 0
  }

  lemma UpToNone(a: seq<bv8>, b: seq<bv8>, n: int)
    requires n <= |a| && n <= |b| && forall k :: 0 <= k < n ==> a[k] == b[k]
    ensures DiffUpTo(a, b, n) == 0
  {
    if n >= 0 { DiffNone(a, b, n); }
  }

  lemma UpToStep(a: seq<bv8>, b: seq<bv8>, n: nat, k: int)
    requires n < |a| && n < |b| && k <= n
    ensures DiffUpTo(a, b, k + 1) == Shift8(Xor(DiffUpTo(a, b, k), ByteDiff(a, b, k)))
  {
    hide Register, Shift8, Xor, Diff;
    Shift8Zero();
    XorNone(0);
    if k >= 0 {
      DiffStep(a, b, k);
    } else if k == -1 {
      DiffNone(a, b, 0);
    }
  }

  /** Two buffers that differ only within four consecutive bytes have different checksums. */
  lemma {:induction false} BurstDetected(a: seq<bv8>, b: seq<bv8>, i: nat)
    requires |a| == |b| && a != b && forall k :: 0 <= k < |a| && !(i <= k < i + 4) ==> a[k] == b[k]
    ensures BitSerialCrc(a) != BitSerialCrc(b)
    decreases |a|
  {
    hide Register, Shift8, Xor, Diff, ByteDiff;
    DiffersFrom(a, b, i, |a|);
    assert a[..|a|] == a && b[..|b|] == b;
    CrcsDiffer(a, b);
  }

  lemma CrcsDiffer(a: seq<bv8>, b: seq<bv8>)
    requires |a| == |b| && a[..|a|] == a && b[..|b|] == b && Diff(a, b, |a|) != 0
    ensures BitSerialCrc(a) != BitSerialCrc(b)
  {
    hide Register, Not, Xor;
    XorSelf(Register(a));
    NotInjective(Register(a), Register(b));
  }

  lemma NotTwice(x: bv32)
    ensures Not(Not(x)) == x
  {
  }

  lemma NotInjective(x: bv32, y: bv32)
    ensures Not(x) == Not(y) <==> x == y
  {
    hide Not;
    NotTwice(x);
    NotTwice(y);
  }

  lemma {:induction false} DiffersFrom(a: seq<bv8>, b: seq<bv8>, i: nat, n: nat)
    requires n <= |a| && n <= |b| && (exists k :: 0 <= k < n && a[k] != b[k])
    requires forall k :: 0 <= k < n && !(i <= k < i + 4) ==> a[k] == b[k]
    ensures Diff(a, b, n) != 0
    decreases n
  {
    hide Register, Shift8, Xor, Diff, ByteDiff;
    var m := n - 1;
    if a[m] != b[m] {
      LastFour(a, b, m);
    } else {
      DiffersFrom(a, b, i, m);
      DiffStep(a, b, m);
      ByteDiffMeaning(a, b, m);
      StaysNonZero(Diff(a, b, m));
    }
  }

  lemma StaysNonZero(d: bv32)
    ensures Shift8(Xor(d, 0)) == 0 ==> d == 0
  {
    hide Shift8, Xor, Up;
    if Shift8(Xor(d, 0)) == 0 {
      ByteBack(d, 0);
      UpZero(0);
    }
  }
}
