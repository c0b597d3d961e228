/**
 * The IEEE 802.3 cyclic redundancy check (clause 3.2.9), bit by bit: a 32-bit register, bit 0 the least
 * significant, shifted right with the reflected generator 0xEDB88320.  Bits are booleans and exclusive or is `!=`,
 * so linearity is pointwise.
 */
module Crc32 {
  import opened Bytes

  /** 0xEDB88320, least significant bit first. */
  const GENERATOR := [
    false, false, false, false, false, true, false, false, // 0x20
    true, true, false, false, false, false, false, true,   // 0x83
    false, false, false, true, true, true, false, true,    // 0xB8
    true, false, true, true, false, true, true, true       // 0xED
  ]

  type Register = r: seq<bool> | |r| == 32 witness GENERATOR

  /** The register's start value. */
  function Ones(): Register {
    Complement(Bits(0, 32))
  }

  /** The `n` low bits of `v`, least significant first. */
  function Bits(v: nat, n: nat): (b: seq<bool>)
    ensures |b| == n
  {
    if n == 0 then [] else [v % 2 == 1] + Bits(v / 2, n - 1)
  }

  /** The number a bit sequence stands for, least significant bit first. */
  function Value(b: seq<bool>): nat {
    if b == [] then 0 else (if b[0] then 1 else 0) + 2 * Value(b[1..])
  }

  function Xor(a: Register, b: Register): Register {
    seq(32, i requires 0 <= i < 32 => a[i] != b[i])
  }

  function Complement(a: Register): Register {
    seq(32, i requires 0 <= i < 32 => !a[i])
  }

  /** A byte in the low end of a register. */
  function Low(b: byte): Register {
    Bits(b, 8) + seq(24, i => false)
  }

  /** One shift of the register. */
  function Shift(r: Register): Register {
    seq(32, i requires 0 <= i < 32 => (i < 31 && r[i + 1]) != (r[0] && GENERATOR[i]))
  }

  function Shifts(r: Register, n: nat): Register {
    if n == 0 then r else Shift(Shifts(r, n - 1))
  }

  /** The register after one more input byte. */
  function Feed(r: Register, b: byte): Register {
    Shifts(Xor(r, Low(b)), 8)
  }

  /** The register after the bytes of `s`. */
  function Run(r: Register, s: seq<byte>): Register
    decreases |s|
  {
    if s == [] then r else Run(Feed(r, s[0]), s[1..])
  }

  /** The checksum of a byte sequence, as a 32-bit number. */
  function Checksum(s: seq<byte>): (c: nat)
    ensures c < 0x1_0000_0000
  {
    ChecksumBound(s);
    Value(Complement(Run(Ones(), s)))
  }

  lemma ChecksumBound(s: seq<byte>)
    ensures Value(Complement(Run(Ones(), s))) < 0x1_0000_0000
  {
    ValueBound(Complement(Run(Ones(), s)));
    Pow2Of32();
  }

  lemma Pow2Of32()
    ensures Pow2(32) == 0x1_0000_0000
  {
    assert Pow2(8) == 0x100 && Pow2(16) == 0x1_0000 && Pow2(24) == 0x100_0000;
  }

  function Pow2(n: nat): nat { if n == 0 then 1 else 2 * Pow2(n - 1) }

  lemma ValueBound(b: seq<bool>)
    ensures Value(b) < Pow2(|b|)
  {
    if b != [] {
      ValueBound(b[1..]);
    }
  }

  lemma {:induction false} ValueInjective(a: seq<bool>, b: seq<bool>)
    requires |a| == |b| && Value(a) == Value(b)
    ensures a == b
  {
    if a != [] {
      ValueSplit(a);
      ValueSplit(b);
      ValueInjective(a[1..], b[1..]);
      assert a == [a[0]] + a[1..] && b == [b[0]] + b[1..];
    }
  }

  lemma ValueSplit(b: seq<bool>)
    requires b != []
    ensures Value(b) % 2 == (if b[0] then 1 else 0) && Value(b) / 2 == Value(b[1..])
  {
  }

  lemma {:induction false} BitsInjective(a: nat, b: nat, n: nat)
    requires a < Pow2(n) && b < Pow2(n) && Bits(a, n) == Bits(b, n)
    ensures a == b
  {
    if n > 0 {
      var x, y := Bits(a, n), Bits(b, n);
      assert x[0] == y[0];
      assert x[1..] == y[1..];
      assert x[1..] == Bits(a / 2, n - 1) && y[1..] == Bits(b / 2, n - 1);
      BitsInjective(a / 2, b / 2, n - 1);
    }
  }

  lemma LowInjective(a: byte, b: byte)
    requires Low(a) == Low(b)
    ensures a == b
  {
    assert Low(a)[..8] == Bits(a, 8) && Low(b)[..8] == Bits(b, 8);
    assert Pow2(8) == 256;
    BitsInjective(a, b, 8);
  }

  // ----- The register step is linear and loses nothing.

  lemma ShiftLinear(a: Register, b: Register)
    ensures Shift(Xor(a, b)) == Xor(Shift(a), Shift(b))
  {
  }

  lemma {:induction false} ShiftsLinear(a: Register, b: Register, n: nat)
    ensures Shifts(Xor(a, b), n) == Xor(Shifts(a, n), Shifts(b, n))
  {
    if n > 0 {
      ShiftsLinear(a, b, n - 1);
      ShiftLinear(Shifts(a, n - 1), Shifts(b, n - 1));
    }
  }

  /**
   * The generator's top bit is set, so a register whose top `n` bits are clear after `n` shifts was only ever moved:
   * its `n` low bits were clear and the rest slid down unchanged.
   */
  lemma {:induction false} ClearTopWasAMove(r: Register, n: nat)
    requires n <= 32 && forall i :: 32 - n <= i < 32 ==> !Shifts(r, n)[i]
    ensures forall i :: 0 <= i < n ==> !r[i]
    ensures forall i :: n <= i < 32 ==> r[i] == Shifts(r, n)[i - n]
  {
    if n > 0 {
      var z := Shifts(r, n - 1);
      var out := Shift(z);
      assert out == Shifts(r, n);
      assert !out[31];
      assert !z[0];
      assert forall i :: 1 <= i < 32 ==> z[i] == out[i - 1];
      ClearTopWasAMove(r, n - 1);
      forall i | n - 1 <= i < 32 ensures i == n - 1 ==> !r[i] {
        assert r[i] == z[i - (n - 1)];
      }
    }
  }

  lemma XorSelf(a: Register, b: Register)
    requires forall i :: 0 <= i < 32 ==> !Xor(a, b)[i]
    ensures a == b
  {
    forall i | 0 <= i < 32 ensures a[i] == b[i] {
      assert !Xor(a, b)[i];
    }
  }

  /** Feeding the same byte to different registers leaves them different, and so does any common tail. */
  lemma {:induction false} RunInjective(a: Register, b: Register, s: seq<byte>)
    requires Run(a, s) == Run(b, s)
    ensures a == b
    decreases |s|
  {
    if s != [] {
      RunInjective(Feed(a, s[0]), Feed(b, s[0]), s[1..]);
      var x, y := Xor(a, Low(s[0])), Xor(b, Low(s[0]));
      ShiftsLinear(x, y, 8);
      ZeroAfterEight(Xor(x, y));
      XorSelf(x, y);
      forall i | 0 <= i < 32 ensures a[i] == b[i] {
        assert x[i] == y[i];
      }
    }
  }

  lemma ZeroAfterEight(d: Register)
    requires forall i :: 0 <= i < 32 ==> !Shifts(d, 8)[i]
    ensures forall i :: 0 <= i < 32 ==> !d[i]
  {
    ClearTopWasAMove(d, 8);
  }

  lemma {:induction false} RunAppend(r: Register, s: seq<byte>, t: seq<byte>)
    ensures Run(r, s + t) == Run(Run(r, s), t)
    decreases |s|
  {
    if s == [] {
      assert s + t == t;
    } else {
      assert (s + t)[1..] == s[1..] + t;
      RunAppend(Feed(r, s[0]), s[1..], t);
    }
  }

  // ----- Bursts.

  /**
   * Walking back over one byte: if two registers differ by `out` after the byte, and `out` is clear above bit 24,
   * then before it, with the two bytes mixed in, they differed by `out` moved eight bits up.
   */
  lemma StepBack(a: Register, b: Register, x: byte, y: byte)
    requires forall i :: 24 <= i < 32 ==> Feed(a, x)[i] == Feed(b, y)[i]
    ensures forall i :: 0 <= i < 8 ==> Xor(a, Low(x))[i] == Xor(b, Low(y))[i]
    ensures forall i :: 8 <= i < 32 ==>
              (Xor(a, Low(x))[i] != Xor(b, Low(y))[i]) == (Feed(a, x)[i - 8] != Feed(b, y)[i - 8])
  {
    var d := Xor(Xor(a, Low(x)), Xor(b, Low(y)));
    ShiftsLinear(Xor(a, Low(x)), Xor(b, Low(y)), 8);
    forall i | 24 <= i < 32 ensures !Shifts(d, 8)[i] {
      assert Feed(a, x)[i] == Feed(b, y)[i];
    }
    ClearTopWasAMove(d, 8);
    forall i | 8 <= i < 32
      ensures (Xor(a, Low(x))[i] != Xor(b, Low(y))[i]) == (Feed(a, x)[i - 8] != Feed(b, y)[i - 8])
    {
      assert d[i] == Shifts(d, 8)[i - 8];
    }
    forall i | 0 <= i < 8 ensures Xor(a, Low(x))[i] == Xor(b, Low(y))[i] {
      assert !d[i];
    }
  }

  /** Registers that some `n <= 4` bytes can bring together agree above their low `8 * n` bits. */
  lemma {:induction false} MeetingSpan(a: Register, b: Register, s: seq<byte>, t: seq<byte>)
    requires |s| == |t| <= 4 && Run(a, s) == Run(b, t)
    ensures forall i :: 8 * |s| <= i < 32 ==> a[i] == b[i]
    decreases |s|
  {
    if s != [] {
      MeetingSpan(Feed(a, s[0]), Feed(b, t[0]), s[1..], t[1..]);
      StepBack(a, b, s[0], t[0]);
      forall i | 8 * |s| <= i < 32 ensures a[i] == b[i] {
        assert Xor(a, Low(s[0]))[i] == Xor(b, Low(t[0]))[i];
      }
    }
  }

  /** After at most four bytes from a common register, equal registers mean equal bytes. */
  lemma {:induction false} BurstInjective(r: Register, s: seq<byte>, t: seq<byte>)
    requires |s| == |t| <= 4 && Run(r, s) == Run(r, t)
    ensures s == t
    decreases |s|
  {
    if s != [] {
      MeetingSpan(Feed(r, s[0]), Feed(r, t[0]), s[1..], t[1..]);
      StepBack(r, r, s[0], t[0]);
      forall i | 0 <= i < 32 ensures Low(s[0])[i] == Low(t[0])[i] {
        if i < 8 {
          assert Xor(r, Low(s[0]))[i] == Xor(r, Low(t[0]))[i];
        }
      }
      assert Low(s[0]) == Low(t[0]);
      LowInjective(s[0], t[0]);
      BurstInjective(Feed(r, s[0]), s[1..], t[1..]);
      assert s == [s[0]] + s[1..] && t == [t[0]] + t[1..];
    }
  }

  /** Equal checksums come from equal registers. */
  lemma SameChecksum(s: seq<byte>, t: seq<byte>)
    requires Checksum(s) == Checksum(t)
    ensures Run(Ones(), s) == Run(Ones(), t)
  {
    var p, q := Run(Ones(), s), Run(Ones(), t);
    ValueInjective(Complement(p), Complement(q));
    forall i | 0 <= i < 32 ensures p[i] == q[i] {
      assert Complement(p)[i] == Complement(q)[i];
    }
  }

  /** The checksum tells apart any two messages that differ only inside one window of at most four bytes. */
  lemma ChecksumDetectsBurst(before: seq<byte>, x: seq<byte>, y: seq<byte>, after: seq<byte>)
    requires |x| == |y| <= 4 && x != y
    ensures Checksum(before + x + after) != Checksum(before + y + after)
  {
    if Checksum(before + x + after) == Checksum(before + y + after) {
      var r := Run(Ones(), before);
      SameChecksum(before + x + after, before + y + after);
      RunAppend(Ones(), before + x, after);
      RunAppend(Ones(), before + y, after);
      RunAppend(Ones(), before, x);
      RunAppend(Ones(), before, y);
      RunInjective(Run(r, x), Run(r, y), after);
      BurstInjective(r, x, y);
    }
  }

  // ----- The same on machine words, as programs compute it.

  /** The four places of a byte in a word, each with the mask of its lowest bit. */
  predicate Place(at: nat, m: bv32) {
    (at == 0 && m == 1) || (at == 8 && m == 0x100) || (at == 16 && m == 0x1_0000) || (at == 24 && m == 0x100_0000)
  }

  /** Eight bits of the register are those of the word. */
  predicate Holds(r: Register, w: bv32, at: nat, m: bv32)
    requires at <= 24
  {
    && r[at] == (w & m != 0) && r[at + 1] == (w & (m << 1) != 0) && r[at + 2] == (w & (m << 2) != 0)
    && r[at + 3] == (w & (m << 3) != 0) && r[at + 4] == (w & (m << 4) != 0) && r[at + 5] == (w & (m << 5) != 0)
    && r[at + 6] == (w & (m << 6) != 0) && r[at + 7] == (w & (m << 7) != 0)
  }

  predicate Is(r: Register, w: bv32) {
    Holds(r, w, 0, 1) && Holds(r, w, 8, 0x100) && Holds(r, w, 16, 0x1_0000) && Holds(r, w, 24, 0x100_0000)
  }

  /** One shift of a word, with the reflected generator. */
  function Turn(w: bv32): bv32 {
    if w & 1 == 1 then (w >> 1) ^ 0xEDB8_8320 else w >> 1
  }

  function Turned(w: bv32, n: nat): bv32 {
    if n == 0 then w else Turn(Turned(w, n - 1))
  }

  lemma XorHolds(r: Register, q: Register, w: bv32, x: bv32, at: nat, m: bv32)
    requires Place(at, m) && Holds(r, w, at, m) && Holds(q, x, at, m)
    ensures Holds(Xor(r, q), w ^ x, at, m)
  {
  }

  lemma XorIs(r: Register, w: bv32, q: Register, x: bv32)
    requires Is(r, w) && Is(q, x)
    ensures Is(Xor(r, q), w ^ x)
  {
    hide Holds, Xor;
    XorHolds(r, q, w, x, 0, 1);
    XorHolds(r, q, w, x, 8, 0x100);
    XorHolds(r, q, w, x, 16, 0x1_0000);
    XorHolds(r, q, w, x, 24, 0x100_0000);
  }

  function Half(r: Register): Register {
    r[1..] + [false]
  }

  lemma HalfHolds(r: Register, w: bv32, at: nat, m: bv32)
    requires Place(at, m) && Holds(r, w, at, m) && (at < 24 ==> r[at + 8] == (w & (m << 8) != 0))
    ensures Holds(Half(r), w >> 1, at, m)
  {
  }

  lemma HalfIs(r: Register, w: bv32)
    requires Is(r, w)
    ensures Is(Half(r), w >> 1)
  {
    assert r[8] == (w & 0x100 != 0) && r[16] == (w & 0x1_0000 != 0) && r[24] == (w & 0x100_0000 != 0);
    hide Holds, Half;
    HalfHolds(r, w, 0, 1);
    HalfHolds(r, w, 8, 0x100);
    HalfHolds(r, w, 16, 0x1_0000);
    HalfHolds(r, w, 24, 0x100_0000);
  }

  /** The generator is 0xEDB88320. */
  lemma GeneratorIs()
    ensures Is(GENERATOR, 0xEDB8_8320)
  {
    GeneratorHolds(0, 1);
    GeneratorHolds(8, 0x100);
    GeneratorHolds(16, 0x1_0000);
    GeneratorHolds(24, 0x100_0000);
    hide Holds;
  }

  lemma GeneratorHolds(at: nat, m: bv32)
    requires Place(at, m)
    ensures Holds(GENERATOR, 0xEDB8_8320, at, m)
  {
  }

  lemma ShiftIs(r: Register, w: bv32)
    requires Is(r, w)
    ensures Is(Shift(r), Turn(w))
  {
    GeneratorIs();
    HalfIs(r, w);
    XorIs(Half(r), w >> 1, GENERATOR, 0xEDB8_8320);
    assert r[0] == (w & 1 == 1);
    assert Shift(r) == if r[0] then Xor(Half(r), GENERATOR) else Half(r);
    hide Is;
  }

  lemma {:induction false} ShiftsAre(r: Register, w: bv32, n: nat)
    requires Is(r, w)
    ensures Is(Shifts(r, n), Turned(w, n))
  {
    if n > 0 {
      ShiftsAre(r, w, n - 1);
      ShiftIs(Shifts(r, n - 1), Turned(w, n - 1));
    }
    hide Is, Shift, Turn;
  }

  lemma {:induction false} BitsOfZero(n: nat)
    ensures forall i :: 0 <= i < n ==> !Bits(0, n)[i]
  {
    if n > 0 {
      BitsOfZero(n - 1);
    }
  }

  lemma OnesAre()
    ensures Is(Ones(), 0xFFFF_FFFF)
  {
    BitsOfZero(32);
    AllSet(Ones(), 0, 1);
    AllSet(Ones(), 8, 0x100);
    AllSet(Ones(), 16, 0x1_0000);
    AllSet(Ones(), 24, 0x100_0000);
    hide Bits, Holds;
  }

  lemma AllSet(r: Register, at: nat, m: bv32)
    requires Place(at, m) && forall i :: 0 <= i < 32 ==> r[i]
    ensures Holds(r, 0xFFFF_FFFF, at, m)
  {
  }

  /** Feeding the byte `b`, which is the word `x`. */
  lemma Fed(r: Register, w: bv32, b: byte, x: bv32)
    requires Is(r, w) && Is(Low(b), x)
    ensures Is(Feed(r, b), Turned(w ^ x, 8))
  {
    hide Is, Shifts, Turned, Xor;
    XorIs(r, w, Low(b), x);
    ShiftsAre(Xor(r, Low(b)), w ^ x, 8);
  }

  lemma CheckSteps1()
    ensures Turned(0xFFFF_FFFF ^ 0x31, 8) == 0x7C23_1048
    ensures Turned(0x7C23_1048 ^ 0x32, 8) == 0xB0AC_BB32
    ensures Turned(0xB0AC_BB32 ^ 0x33, 8) == 0x77B7_9C2D
  {
  }

  lemma CheckSteps2()
    ensures Turned(0x77B7_9C2D ^ 0x34, 8) == 0x641C_1F5C
    ensures Turned(0x641C_1F5C ^ 0x35, 8) == 0x340A_C5E3
    ensures Turned(0x340A_C5E3 ^ 0x36, 8) == 0xF68D_2C9E
  {
  }

  lemma CheckSteps3()
    ensures Turned(0xF68D_2C9E ^ 0x37, 8) == 0xAFFC_9660
    ensures Turned(0xAFFC_9660 ^ 0x38, 8) == 0x651F_2550
    ensures Turned(0x651F_2550 ^ 0x39, 8) == 0x340B_C6D9
  {
  }

  /** A leading zero byte is never invisible. */
  lemma LeadingZeroSeen(s: seq<byte>)
    ensures Checksum([0] + s) != Checksum(s)
  {
    if Checksum([0] + s) == Checksum(s) {
      SameChecksum([0] + s, s);
      assert ([0] + s)[1..] == s;
      RunInjective(Feed(Ones(), 0), Ones(), s);
      OnesAfterZero();
    }
  }

  lemma OnesAfterZero()
    ensures Feed(Ones(), 0) != Ones()
  {
    hide *;
    OnesAre();
    NothingLow();
    Fed(Ones(), 0xFFFF_FFFF, 0, 0);
    assert Turned(0xFFFF_FFFF ^ 0, 8) & 1 == 0 by {
      ZeroTurned();
    }
    LowestBit(Ones(), 0xFFFF_FFFF);
    LowestBit(Feed(Ones(), 0), Turned(0xFFFF_FFFF ^ 0, 8));
  }

  lemma ZeroTurned()
    ensures Turned(0xFFFF_FFFF ^ 0, 8) == 0x2DFD_1072
  {
  }

  lemma LowestBit(r: Register, w: bv32)
    requires Is(r, w)
    ensures r[0] == (w & 1 != 0)
  {
  }

  lemma NothingLow()
    ensures Is(Low(0), 0)
  {
    LowIs(0, 0);
  }

  lemma BitsAt(v: nat)
    ensures var b := Bits(v, 8);
      && b[0] == (v % 2 == 1) && b[1] == (v / 2 % 2 == 1) && b[2] == (v / 4 % 2 == 1) && b[3] == (v / 8 % 2 == 1)
      && b[4] == (v / 16 % 2 == 1) && b[5] == (v / 32 % 2 == 1) && b[6] == (v / 64 % 2 == 1)
      && b[7] == (v / 128 % 2 == 1)
  {
    BitsHalf(v, 8);
    BitsHalf(v / 16, 4);
    Divided(v);
    var b := Bits(v, 8);
    var c := b[4..];
    assert b[4] == c[0] && b[5] == c[1] && b[6] == c[2] && b[7] == c[3];
    assert c == Bits(v / 16, 4);
    hide Bits;
  }

  lemma Divided(v: nat)
    ensures v / 16 / 2 == v / 32 && v / 16 / 4 == v / 64 && v / 16 / 8 == v / 128
  {
  }

  lemma BitsHalf(v: nat, n: nat)
    requires n >= 4
    ensures var b := Bits(v, n);
      && b[0] == (v % 2 == 1) && b[1] == (v / 2 % 2 == 1) && b[2] == (v / 4 % 2 == 1) && b[3] == (v / 8 % 2 == 1)
      && b[4..] == Bits(v / 16, n - 4)
  {
    assert Bits(v, n) == [v % 2 == 1] + Bits(v / 2, n - 1);
    assert Bits(v / 2, n - 1) == [v / 2 % 2 == 1] + Bits(v / 4, n - 2);
    assert Bits(v / 4, n - 2) == [v / 4 % 2 == 1] + Bits(v / 8, n - 3);
    assert Bits(v / 8, n - 3) == [v / 8 % 2 == 1] + Bits(v / 16, n - 4);
  }

  /** A byte in the low end of a register, as a word with the same bits. */
  lemma LowIs(b: byte, x: bv32)
    requires x <= 0xFF
    requires (x & 1 != 0) == (b % 2 == 1) && (x & 2 != 0) == (b / 2 % 2 == 1) && (x & 4 != 0) == (b / 4 % 2 == 1)
    requires (x & 8 != 0) == (b / 8 % 2 == 1) && (x & 16 != 0) == (b / 16 % 2 == 1)
    requires (x & 32 != 0) == (b / 32 % 2 == 1) && (x & 64 != 0) == (b / 64 % 2 == 1)
    requires (x & 128 != 0) == (b / 128 % 2 == 1)
    ensures Is(Low(b), x)
  {
    BitsAt(b);
    hide Bits;
  }

  lemma ThreeFed(r: Register, w: bv32, s: seq<byte>, x: bv32, y: bv32, z: bv32, w1: bv32, w2: bv32, w3: bv32)
    requires |s| == 3 && Is(r, w) && Is(Low(s[0]), x) && Is(Low(s[1]), y) && Is(Low(s[2]), z)
    requires w1 == Turned(w ^ x, 8) && w2 == Turned(w1 ^ y, 8) && w3 == Turned(w2 ^ z, 8)
    ensures Is(Run(r, s), w3)
  {
    hide Is, Low, Feed, Turned;
    var a := Feed(r, s[0]);
    var b := Feed(a, s[1]);
    Fed(r, w, s[0], x);
    Fed(a, w1, s[1], y);
    Fed(b, w2, s[2], z);
    assert s[1..][1..] == s[2..];
    assert Run(r, s) == Run(a, s[1..]) == Run(b, s[2..]) == Feed(b, s[2]);
  }

  lemma Digits()
    ensures Is(Low(0x31), 0x31) && Is(Low(0x32), 0x32) && Is(Low(0x33), 0x33) && Is(Low(0x34), 0x34)
    ensures Is(Low(0x35), 0x35) && Is(Low(0x36), 0x36) && Is(Low(0x37), 0x37) && Is(Low(0x38), 0x38)
    ensures Is(Low(0x39), 0x39)
  {
    hide Is, Low;
    LowIs(0x31, 0x31);
    LowIs(0x32, 0x32);
    LowIs(0x33, 0x33);
    LowIs(0x34, 0x34);
    LowIs(0x35, 0x35);
    LowIs(0x36, 0x36);
    LowIs(0x37, 0x37);
    LowIs(0x38, 0x38);
    LowIs(0x39, 0x39);
  }

  /** The published check value: the checksum of the digits "123456789". */
  lemma CheckValue()
    ensures Checksum([0x31, 0x32, 0x33, 0x34, 0x35, 0x36, 0x37, 0x38, 0x39]) == 0xCBF4_3926
  {
    hide *;
    var s: seq<byte> := [0x31, 0x32, 0x33, 0x34, 0x35, 0x36, 0x37, 0x38, 0x39];
    CheckRun();
    assert s == [0x31, 0x32, 0x33] + [0x34, 0x35, 0x36] + [0x37, 0x38, 0x39];
    RunAppend(Ones(), [0x31, 0x32, 0x33] + [0x34, 0x35, 0x36], [0x37, 0x38, 0x39]);
    RunAppend(Ones(), [0x31, 0x32, 0x33], [0x34, 0x35, 0x36]);
    CheckNumber(Run(Run(Run(Ones(), [0x31, 0x32, 0x33]), [0x34, 0x35, 0x36]), [0x37, 0x38, 0x39]));
    ChecksumIs(s);
  }

  lemma ChecksumIs(s: seq<byte>)
    ensures Checksum(s) == Value(Complement(Run(Ones(), s)))
  {
  }

  lemma CheckRun()
    ensures Is(Run(Run(Run(Ones(), [0x31, 0x32, 0x33]), [0x34, 0x35, 0x36]), [0x37, 0x38, 0x39]), 0x340B_C6D9)
  {
    hide *;
    OnesAre();
    Digits();
    CheckSteps1();
    CheckSteps2();
    CheckSteps3();
    var p := Run(Ones(), [0x31, 0x32, 0x33]);
    ThreeFed(Ones(), 0xFFFF_FFFF, [0x31, 0x32, 0x33], 0x31, 0x32, 0x33,
             0x7C23_1048, 0xB0AC_BB32, 0x77B7_9C2D);
    var q := Run(p, [0x34, 0x35, 0x36]);
    ThreeFed(p, 0x77B7_9C2D, [0x34, 0x35, 0x36], 0x34, 0x35, 0x36,
             0x641C_1F5C, 0x340A_C5E3, 0xF68D_2C9E);
    ThreeFed(q, 0xF68D_2C9E, [0x37, 0x38, 0x39], 0x37, 0x38, 0x39,
             0xAFFC_9660, 0x651F_2550, 0x340B_C6D9);
  }

  function BitValue(b: bool): nat { if b then 1 else 0 }

  lemma ValueNibble(b: seq<bool>)
    requires |b| >= 4
    ensures Value(b)
         == BitValue(b[0]) + 2 * BitValue(b[1]) + 4 * BitValue(b[2]) + 8 * BitValue(b[3]) + 16 * Value(b[4..])
  {
    assert Value(b) == BitValue(b[0]) + 2 * Value(b[1..]);
    assert b[1..][1..] == b[2..] && b[2..][1..] == b[3..] && b[3..][1..] == b[4..];
    assert Value(b[1..]) == BitValue(b[1]) + 2 * Value(b[2..]);
    assert Value(b[2..]) == BitValue(b[2]) + 2 * Value(b[3..]);
    assert Value(b[3..]) == BitValue(b[3]) + 2 * Value(b[4..]);
  }

  /** The number that 16 bits and those behind them stand for. */
  lemma ValueHalf(b: seq<bool>)
    requires |b| >= 16
    ensures Value(b) ==
      BitValue(b[0]) + 2 * BitValue(b[1]) + 4 * BitValue(b[2]) + 8 * BitValue(b[3])
      + 0x10 * (BitValue(b[4]) + 2 * BitValue(b[5]) + 4 * BitValue(b[6]) + 8 * BitValue(b[7]))
      + 0x100 * (BitValue(b[8]) + 2 * BitValue(b[9]) + 4 * BitValue(b[10]) + 8 * BitValue(b[11]))
      + 0x1000 * (BitValue(b[12]) + 2 * BitValue(b[13]) + 4 * BitValue(b[14]) + 8 * BitValue(b[15]))
      + 0x1_0000 * Value(b[16..])
  {
    hide Value, BitValue;
    ValueNibble(b);
    ValueNibble(b[4..]);
    ValueNibble(b[8..]);
    ValueNibble(b[12..]);
    assert b[4..][4..] == b[8..] && b[8..][4..] == b[12..] && b[12..][4..] == b[16..];
  }

  lemma CheckNumber(r: Register)
    requires Is(r, 0x340B_C6D9)
    ensures Value(Complement(r)) == 0xCBF4_3926
  {
    var b := Complement(r);
    ValueHalf(b);
    ValueHalf(b[16..]);
    assert b[16..][16..] == [] && Value([]) == 0;
    hide Value;
  }
}
