/** The CRC-32 of kpartx/crc32.c: the table-driven loops against the loops that take one bit at
    a time, for the little-endian (reflected) and the big-endian form, and what both promise. */
module Crc32 {

  type Word = bv32
  type Byte = bv8

  const CRCPOLY_LE: Word := 0xedb88320
  const CRCPOLY_BE: Word := 0x04c11db7

  // ------------------------------------------------------------------ words

  function Xor(a: Word, b: Word): Word { a ^ b }

  function Half(c: Word): Word { c >> 1 }

  function Double(c: Word): Word { c << 1 }

  predicate Odd(c: Word) { c & 1 == 1 }

  predicate Top(c: Word) { c & 0x80000000 != 0 }

  lemma XorLaws(a: Word, b: Word, c: Word)
    ensures Xor(a, Xor(b, c)) == Xor(Xor(a, b), c)
    ensures Xor(a, b) == Xor(b, a)
    ensures Xor(a, a) == 0 && Xor(a, 0) == a
  {
  }

  lemma HalfXor(a: Word, b: Word)
    ensures Half(Xor(a, b)) == Xor(Half(a), Half(b))
  {
  }

  lemma OddXor(a: Word, b: Word)
    ensures Odd(Xor(a, b)) == (Odd(a) != Odd(b))
  {
  }

  lemma DoubleXor(a: Word, b: Word)
    ensures Double(Xor(a, b)) == Xor(Double(a), Double(b))
  {
  }

  lemma TopXor(a: Word, b: Word)
    ensures Top(Xor(a, b)) == (Top(a) != Top(b))
  {
  }

  lemma ZeroMeansEqual(a: Word, b: Word)
    ensures Xor(a, b) == 0 ==> a == b
  {
  }

  // ------------------------------------------------------------------ one bit at a time

  function StepLe(c: Word): Word {
    Xor(Half(c), if Odd(c) then CRCPOLY_LE else 0)
  }

  function StepBe(c: Word): Word {
    Xor(Double(c), if Top(c) then CRCPOLY_BE else 0)
  }

  function StepsLe(c: Word, n: nat): Word
    decreases n
  {
    if n == 0 then c else StepsLe(StepLe(c), n - 1)
  }

  function StepsBe(c: Word, n: nat): Word
    decreases n
  {
    if n == 0 then c else StepsBe(StepBe(c), n - 1)
  }

  /** The polynomial is added to both sides, to one, or to neither. */
  lemma Regroup(x: Word, y: Word, p: Word)
    ensures Xor(Xor(x, p), Xor(y, p)) == Xor(x, y)
    ensures Xor(Xor(x, p), y) == Xor(Xor(x, y), p)
    ensures Xor(x, Xor(y, p)) == Xor(Xor(x, y), p)
    ensures Xor(x, 0) == x && Xor(y, 0) == y && Xor(Xor(x, y), 0) == Xor(x, y)
  {
    XorLaws(y, p, 0);
    XorLaws(p, p, 0);
    XorLaws(Xor(x, p), p, y);
    XorLaws(x, p, p);
    XorLaws(x, p, y);
    XorLaws(x, y, p);
    XorLaws(Xor(x, y), 0, 0);
    hide Xor;
  }

  /** Division by the polynomial is linear over exclusive or. */
  lemma StepXor(a: Word, b: Word)
    ensures StepLe(Xor(a, b)) == Xor(StepLe(a), StepLe(b))
    ensures StepBe(Xor(a, b)) == Xor(StepBe(a), StepBe(b))
  {
    HalfXor(a, b);
    OddXor(a, b);
    DoubleXor(a, b);
    TopXor(a, b);
    Regroup(Half(a), Half(b), CRCPOLY_LE);
    Regroup(Double(a), Double(b), CRCPOLY_BE);
    hide Xor, Half, Double, Odd, Top;
  }

  lemma {:induction false} StepsXor(a: Word, b: Word, n: nat)
    ensures StepsLe(Xor(a, b), n) == Xor(StepsLe(a, n), StepsLe(b, n))
    ensures StepsBe(Xor(a, b), n) == Xor(StepsBe(a, n), StepsBe(b, n))
    decreases n
  {
    hide Xor, StepLe, StepBe;
    if n > 0 {
      StepXor(a, b);
      StepsXor(StepLe(a), StepLe(b), n - 1);
      StepsXor(StepBe(a), StepBe(b), n - 1);
    }
  }

  lemma {:induction false} StepsAdd(c: Word, m: nat, n: nat)
    ensures StepsLe(c, m + n) == StepsLe(StepsLe(c, m), n)
    ensures StepsBe(c, m + n) == StepsBe(StepsBe(c, m), n)
    decreases m
  {
    hide StepLe, StepBe;
    if m > 0 {
      StepsAdd(StepLe(c), m - 1, n);
      StepsAdd(StepBe(c), m - 1, n);
    }
  }

  lemma StepOfZero(c: Word)
    ensures StepLe(c) == 0 <==> c == 0
    ensures StepBe(c) == 0 <==> c == 0
  {
  }

  lemma {:induction false} StepsOfZero(c: Word, n: nat)
    ensures StepsLe(c, n) == 0 <==> c == 0
    ensures StepsBe(c, n) == 0 <==> c == 0
    decreases n
  {
    hide StepLe, StepBe;
    if n > 0 {
      StepOfZero(c);
      StepsOfZero(StepLe(c), n - 1);
      StepsOfZero(StepBe(c), n - 1);
    }
  }

  /** No two registers are taken to the same one. */
  lemma StepsInjective(a: Word, b: Word, n: nat)
    ensures StepsLe(a, n) == StepsLe(b, n) ==> a == b
    ensures StepsBe(a, n) == StepsBe(b, n) ==> a == b
  {
    StepsXor(a, b, n);
    StepsOfZero(Xor(a, b), n);
    ZeroMeansEqual(a, b);
    XorLaws(StepsLe(a, n), 0, 0);
    XorLaws(StepsBe(a, n), 0, 0);
    hide Xor, StepsLe, StepsBe;
  }

  // ------------------------------------------------------------------ eight bits that are clear

  lemma StepClear(c: Word)
    ensures !Odd(c) ==> StepLe(c) == Half(c)
    ensures !Top(c) ==> StepBe(c) == Double(c)
  {
  }

  function HalfN(c: Word, n: nat): Word
    decreases n
  {
    if n == 0 then c else HalfN(Half(c), n - 1)
  }

  function DoubleN(c: Word, n: nat): Word
    decreases n
  {
    if n == 0 then c else DoubleN(Double(c), n - 1)
  }

  predicate LowClear(c: Word, n: nat)
    decreases n
  {
    n == 0 || (!Odd(c) && LowClear(Half(c), n - 1))
  }

  predicate HighClear(c: Word, n: nat)
    decreases n
  {
    n == 0 || (!Top(c) && HighClear(Double(c), n - 1))
  }

  lemma {:induction false} StepsClear(c: Word, n: nat)
    ensures LowClear(c, n) ==> StepsLe(c, n) == HalfN(c, n)
    ensures HighClear(c, n) ==> StepsBe(c, n) == DoubleN(c, n)
    decreases n
  {
    hide StepLe, StepBe, Half, Double, Odd, Top;
    if n > 0 {
      StepClear(c);
      StepsClear(Half(c), n - 1);
      StepsClear(Double(c), n - 1);
    }
  }

  lemma HalvesByte(c: Word)
    ensures HalfN(c, 8) == c >> 8
  {
  }

  lemma LowByteClear(c: Word)
    ensures LowClear(c & 0xffffff00, 8)
  {
  }

  lemma DoublesByte(c: Word)
    ensures DoubleN(c, 8) == c << 8
    ensures HighClear(c & 0x00ffffff, 8)
  {
  }

  // ------------------------------------------------------------------ one byte at a time

  function BitsLe(c: Word, b: Byte): Word {
    StepsLe(Xor(c, b as Word), 8)
  }

  function BitsBe(c: Word, b: Byte): Word {
    StepsBe(Xor(c, InBe(b)), 8)
  }

  /** The bitwise CRC of a message: what the one-bit loops compute. */
  function CrcLe(c: Word, s: seq<Byte>): Word
    decreases |s|
  {
    if s == [] then c else CrcLe(BitsLe(c, s[0]), s[1..])
  }

  function CrcBe(c: Word, s: seq<Byte>): Word
    decreases |s|
  {
    if s == [] then c else CrcBe(BitsBe(c, s[0]), s[1..])
  }

  /** A CRC can be continued: over a concatenation it is the CRC of the second part, seeded
      with the CRC of the first. */
  lemma {:induction false} Composes(c: Word, s: seq<Byte>, t: seq<Byte>)
    ensures CrcLe(c, s + t) == CrcLe(CrcLe(c, s), t)
    ensures CrcBe(c, s + t) == CrcBe(CrcBe(c, s), t)
    decreases |s|
  {
    hide BitsLe, BitsBe;
    if s == [] {
      assert [] + t == t;
    } else {
      assert (s + t)[1..] == s[1..] + t;
      Composes(BitsLe(c, s[0]), s[1..], t);
      Composes(BitsBe(c, s[0]), s[1..], t);
    }
  }

  function Down(w: Word): Word { w >> 8 }

  function Up(w: Word): Word { w << 8 }

  predicate LowZero(w: Word) { w & 0xffffff00 == w }

  predicate HighZero(w: Word) { w & 0x00ffffff == w }

  lemma ShiftsDown(w: Word)
    requires LowZero(w)
    ensures StepsLe(w, 8) == Down(w)
  {
    LowByteClear(w);
    StepsClear(w, 8);
    HalvesByte(w);
    hide StepsLe, LowClear, HalfN;
  }

  lemma ShiftsUp(w: Word)
    requires HighZero(w)
    ensures StepsBe(w, 8) == Up(w)
  {
    DoublesByte(w);
    StepsClear(w, 8);
    hide StepsBe, HighClear, DoubleN;
  }

  /** The byte that leaves the register, with the message's byte added. */
  function OutLe(c: Word, b: Byte): Word { (c ^ (b as Word)) & 255 }

  function OutBe(c: Word, b: Byte): Word { (c >> 24) ^ (b as Word) }

  function KeptLe(c: Word): Word { c & 0xffffff00 }

  function KeptBe(c: Word): Word { c & 0x00ffffff }

  function InBe(b: Byte): Word { (b as Word) << 24 }

  function ToTop(w: Word): Word { w << 24 }

  lemma SplitLe(c: Word, b: Byte)
    ensures Xor(c, b as Word) == Xor(KeptLe(c), OutLe(c, b))
  {
  }

  lemma SplitBe(c: Word, b: Byte)
    ensures Xor(c, InBe(b)) == Xor(KeptBe(c), ToTop(OutBe(c, b)))
  {
  }

  lemma KeptLeIsLowZero(c: Word)
    ensures LowZero(KeptLe(c))
  {
  }

  lemma KeptLeShifts(c: Word)
    ensures Down(KeptLe(c)) == Down(c)
  {
  }

  lemma KeptBeIsHighZero(c: Word)
    ensures HighZero(KeptBe(c))
  {
  }

  lemma KeptBeShifts(c: Word)
    ensures Up(KeptBe(c)) == Up(c)
  {
  }

  /** Eight bit-steps are one shift by a byte and eight bit-steps of the byte shifted out. */
  lemma ByteAtOnceLe(c: Word, b: Byte)
    ensures BitsLe(c, b) == Xor(Down(c), StepsLe(OutLe(c, b), 8))
  {
    hide Xor, StepsLe, Down, LowZero, OutLe, KeptLe;
    SplitLe(c, b);
    StepsXor(KeptLe(c), OutLe(c, b), 8);
    KeptLeIsLowZero(c);
    KeptLeShifts(c);
    ShiftsDown(KeptLe(c));
  }

  lemma ByteAtOnceBe(c: Word, b: Byte)
    ensures BitsBe(c, b) == Xor(Up(c), StepsBe(ToTop(OutBe(c, b)), 8))
  {
    hide Xor, StepsBe, Up, HighZero, OutBe, KeptBe, InBe, ToTop;
    SplitBe(c, b);
    StepsXor(KeptBe(c), ToTop(OutBe(c, b)), 8);
    KeptBeIsHighZero(c);
    KeptBeShifts(c);
    ShiftsUp(KeptBe(c));
  }

  // ------------------------------------------------------------------ table indices

  /** The word with the binary digits of `n`. */
  function Digits(n: nat): Word {
    if n == 0 then 0 else Xor(Double(Digits(n / 2)), if n % 2 == 1 then 1 else 0)
  }

  lemma ByteHalves(b: Byte)
    ensures (b as int) / 2 == (b >> 1) as int
    ensures (b as int) % 2 == (if b & 1 == 1 then 1 else 0)
    ensures b == 0 <==> b as int == 0
  {
  }

  lemma ByteRebuilt(b: Byte)
    ensures Xor(Double((b >> 1) as Word), if b & 1 == 1 then 1 else 0) == b as Word
  {
  }

  lemma {:induction false} DigitsOfByte(b: Byte)
    ensures Digits(b as int) == b as Word
    decreases b as int
  {
    ByteHalves(b);
    ByteRebuilt(b);
    if b != 0 {
      DigitsOfByte(b >> 1);
    }
    hide Xor, Double;
  }

  /** Numbers without a binary digit in common. */
  predicate Apart(i: nat, j: nat) {
    i == 0 || j == 0 || (!(i % 2 == 1 && j % 2 == 1) && Apart(i / 2, j / 2))
  }

  lemma BitXor()
    ensures Xor(1, 0) == 1 && Xor(0, 1) == 1 && Xor(0, 0) == 0
  {
  }

  lemma {:induction false} DigitsXor(i: nat, j: nat)
    requires Apart(i, j)
    ensures Digits(i + j) == Xor(Digits(i), Digits(j))
  {
    XorLaws(Digits(i), Digits(j), 0);
    XorLaws(Digits(j), Digits(i), 0);
    if i != 0 && j != 0 {
      DigitsXor(i / 2, j / 2);
      assert (i + j) / 2 == i / 2 + j / 2;
      var x, y := Double(Digits(i / 2)), Double(Digits(j / 2));
      DoubleXor(Digits(i / 2), Digits(j / 2));
      Regroup(x, y, 1);
      hide Xor, Double;
    }
  }

  predicate IsPower(i: nat) {
    i == 1 || (0 < i && i % 2 == 0 && IsPower(i / 2))
  }

  predicate Multiple(j: nat, m: nat)
    requires 0 < m
  {
    j == 0 || (m <= j && Multiple(j - m, m))
  }

  lemma {:induction false} MultipleHalves(j: nat, m: nat)
    requires 0 < m && Multiple(j, 2 * m)
    ensures j % 2 == 0 && Multiple(j / 2, m)
  {
    if j != 0 {
      MultipleHalves(j - 2 * m, m);
      assert j / 2 - m == (j - 2 * m) / 2;
    }
  }

  lemma {:induction false} MultipleApart(i: nat, j: nat)
    requires IsPower(i) && Multiple(j, 2 * i)
    ensures Apart(i, j)
  {
    MultipleHalves(j, i);
    if i > 1 {
      assert i == 2 * (i / 2);
      MultipleApart(i / 2, j / 2);
    }
  }

  lemma {:induction false} BelowApart(i: nat, j: nat)
    requires IsPower(i) && j < i
    ensures Apart(i, j)
  {
    if i > 1 {
      BelowApart(i / 2, j / 2);
    }
  }

  /** Multiples of `m` are multiples of `2m`, or those with `m` added; never both. */
  lemma {:induction false} EvenOrOdd(j: nat, m: nat)
    requires 0 < m
    ensures Multiple(j, 2 * m) ==> Multiple(j, m) && Multiple(j + m, m) && !Multiple(j + m, 2 * m)
    ensures Multiple(j, m) ==> Multiple(j, 2 * m) || (m <= j && Multiple(j - m, 2 * m))
  {
    if 2 * m <= j {
      EvenOrOdd(j - 2 * m, m);
      assert j + m - 2 * m == j - 2 * m + m;
      assert j - m - m == j - 2 * m && j - m - 2 * m == j - 2 * m - m;
    }
    if m <= j {
      assert Multiple(j, m) ==> Multiple(j - m, m);
    }
  }

  lemma {:induction false} NextMultiple(j: nat, k: nat, m: nat)
    requires 0 < m && Multiple(j, m) && Multiple(k, m) && j < k
    ensures j + m <= k
  {
    if 0 < j {
      NextMultiple(j - m, k - m, m);
    }
  }

  lemma {:induction false} OnesAreAll(j: nat)
    ensures Multiple(j, 1)
  {
    if j > 0 {
      OnesAreAll(j - 1);
    }
  }

  // ------------------------------------------------------------------ the tables

  /** What entry `j` is for: eight bit-steps of the byte. */
  function EntryLe(j: nat): Word {
    StepsLe(Digits(j), 8)
  }

  function EntryBe(j: nat): Word {
    StepsBe(ToTop(Digits(j)), 8)
  }

  predicate TableLe(t: seq<Word>) {
    |t| == 256 && forall j :: 0 <= j < 256 ==> t[j] == EntryLe(j)
  }

  predicate TableBe(t: seq<Word>) {
    |t| == 256 && forall j :: 0 <= j < 256 ==> t[j] == EntryBe(j)
  }

  lemma EntryXor(i: nat, j: nat)
    requires Apart(i, j)
    ensures EntryLe(i + j) == Xor(EntryLe(i), EntryLe(j))
    ensures EntryBe(i + j) == Xor(EntryBe(i), EntryBe(j))
  {
    DigitsXor(i, j);
    StepsXor(Digits(i), Digits(j), 8);
    HighXor(Digits(i), Digits(j));
    StepsXor(ToTop(Digits(i)), ToTop(Digits(j)), 8);
    hide Xor, StepsLe, StepsBe, Digits;
  }

  lemma HighXor(a: Word, b: Word)
    ensures ToTop(Xor(a, b)) == Xor(ToTop(a), ToTop(b))
  {
  }

  lemma HalfDouble(b: Byte)
    ensures StepLe(Xor(Double(b as Word), 0)) == b as Word
  {
  }

  lemma ShiftIn(b: Byte)
    requires b < 128
    ensures (b << 1) as int == 2 * (b as int) && ((b << 1) | 1) as int == 2 * (b as int) + 1
  {
  }

  lemma ByteBelow(b: Byte)
    requires b as int < 128
    ensures b < 128
  {
  }

  lemma {:induction false} ByteOf(i: nat) returns (b: Byte)
    requires i < 256
    ensures b as int == i
  {
    if i == 0 {
      b := 0;
    } else {
      var h := ByteOf(i / 2);
      ByteBelow(h);
      ShiftIn(h);
      b := if i % 2 == 0 then h << 1 else (h << 1) | 1;
    }
  }

  lemma StepsDown(i: nat)
    requires 0 < i < 256
    ensures StepLe(Digits(2 * i)) == Digits(i)
  {
    var b := ByteOf(i);
    DigitsOfByte(b);
    HalfDouble(b);
    hide Xor, Double, StepLe;
    assert (2 * i) / 2 == i;
  }

  // ------------------------------------------------------------------ filling the tables

  /** What entries the first loop has filled when it is about to halve down to `i`. */
  predicate FilledLe(t: seq<Word>, m: nat)
    requires 0 < m
  {
    |t| == 256 && forall j :: 0 <= j < 256 && Multiple(j, m) ==> t[j] == EntryLe(j)
  }

  /** The inner loop has done the odd multiples of `i` below `i + j`. */
  predicate FillingLe(t: seq<Word>, i: nat, j: nat)
    requires 0 < i
  {
    FilledLe(t, 2 * i) &&
    forall k :: 0 <= k < j && i + k < 256 && Multiple(k, 2 * i) ==> t[i + k] == EntryLe(i + k)
  }

  lemma FillKeeps(t: seq<Word>, i: nat, j: nat, w: Word)
    requires 0 < i && i + j < 256 && Multiple(j, 2 * i) && FilledLe(t, 2 * i)
    ensures |t| == 256 && FilledLe(t[i + j := w], 2 * i)
  {
    hide EntryLe, Multiple;
    EvenOrOdd(j, i);
  }

  lemma FillOne(t: seq<Word>, i: nat, j: nat, w: Word)
    requires 0 < i && i + j < 256 && Multiple(j, 2 * i) && FillingLe(t, i, j) && w == EntryLe(i + j)
    ensures |t| == 256 && FillingLe(t[i + j := w], i, j + 2 * i)
    ensures Multiple(j + 2 * i, 2 * i)
  {
    hide EntryLe;
    FillKeeps(t, i, j, w);
    assert Multiple(j + 2 * i, 2 * i);
    hide Multiple, FilledLe;
    var u := t[i + j := w];
    forall k | 0 <= k < j + 2 * i && i + k < 256 && Multiple(k, 2 * i) ensures u[i + k] == EntryLe(i + k) {
      if j < k {
        NextMultiple(j, k, 2 * i);
      }
    }
  }

  lemma FillStep(t: seq<Word>, i: nat, j: nat)
    requires IsPower(i) && i + j < 256 && Multiple(j, 2 * i) && FillingLe(t, i, j)
    ensures |t| == 256 && FillingLe(t[i + j := Xor(EntryLe(i), t[j])], i, j + 2 * i)
    ensures Multiple(j + 2 * i, 2 * i)
  {
    FilledAt(t, 2 * i, j);
    MultipleApart(i, j);
    EntryXor(i, j);
    FillOne(t, i, j, EntryLe(i + j));
    hide EntryLe, EntryBe, Xor, Apart, IsPower, Multiple, FilledLe, FillingLe;
  }

  lemma FilledAt(t: seq<Word>, m: nat, j: nat)
    requires 0 < m && FilledLe(t, m) && j < 256 && Multiple(j, m)
    ensures |t| == 256 && t[j] == EntryLe(j)
  {
  }

  lemma FillStart(t: seq<Word>, i: nat)
    requires 0 < i && FilledLe(t, 2 * i)
    ensures FillingLe(t, i, 0) && Multiple(0, 2 * i) && |t| == 256
  {
  }

  lemma FillDone(t: seq<Word>, i: nat, j: nat)
    requires IsPower(i) && FillingLe(t, i, j) && 256 <= i + j
    ensures FilledLe(t, i) && |t| == 256
  {
    forall k | 0 <= k < 256 && Multiple(k, i) ensures t[k] == EntryLe(k) {
      EvenOrOdd(k, i);
      if !Multiple(k, 2 * i) {
        assert t[i + (k - i)] == EntryLe(i + (k - i));
      }
    }
  }

  lemma Seeds()
    ensures EntryLe(0) == 0 && EntryBe(0) == 0 && EntryLe(256) == 1
    ensures IsPower(128) && Multiple(256, 256)
    ensures forall t: seq<Word> :: |t| == 256 && t[0] == 0 ==> FilledLe(t, 256)
  {
    StepsOfZero(0, 8);
    assert ToTop(0) == 0;
    BitXor();
    DigitsOfByte(128);
    XorLaws(Double(128), 0, 0);
    assert Digits(256) == 256;
    LowByteClear(256);
    StepsClear(256, 8);
    HalvesByte(256);
    assert IsPower(16) && IsPower(128);
    hide Xor, StepsLe, StepsBe, LowClear, HalfN, Digits;
  }

  lemma PowerHalves(i: nat)
    requires IsPower(i)
    ensures i == 1 || (2 * (i / 2) == i && IsPower(i / 2))
  {
  }

  /** One more bit-step takes an entry to the one of half the index. */
  lemma NextEntryLe(i: nat)
    requires 0 < i < 256
    ensures StepLe(EntryLe(2 * i)) == EntryLe(i)
  {
    var d := Digits(2 * i);
    StepsDown(i);
    StepsAdd(d, 8, 1);
    StepsAdd(d, 1, 8);
    assert StepsLe(EntryLe(2 * i), 1) == StepLe(EntryLe(2 * i)) && StepsLe(d, 1) == StepLe(d);
    hide Digits, StepLe;
  }

  lemma AllFilled(t: seq<Word>)
    requires FilledLe(t, 1)
    ensures TableLe(t)
  {
    forall j | 0 <= j < 256 ensures t[j] == EntryLe(j) {
      OnesAreAll(j);
    }
  }

  /** The inner loop of crc32init_le. */
  method FillRowLe(table: array<Word>, i: nat, crc: Word)
    requires IsPower(i) && i <= 128 && Multiple(256, 2 * i)
    requires crc == EntryLe(i) && FilledLe(table[..], 2 * i)
    modifies table
    ensures FilledLe(table[..], i)
  {
    var j: nat := 0;
    hide StepLe, Xor, IsPower, EntryLe, FilledLe, FillingLe, Multiple;
    FillStart(table[..], i);
    while j < 256
      invariant Multiple(j, 2 * i) && FillingLe(table[..], i, j) && table.Length == 256
    {
      NextMultiple(j, 256, 2 * i);
      FillStep(table[..], i, j);
      ghost var before := table[..];
      table[i + j] := Xor(crc, table[j]);
      assert table[..] == before[i + j := Xor(crc, before[j])];
      j := j + 2 * i;
    }
    FillDone(table[..], i, j);
  }

  /** crc32init_le: entries are filled from the high index bit down, each new one as the
      exclusive or of two that are known. */
  method Crc32InitLe() returns (table: array<Word>)
    ensures fresh(table) && TableLe(table[..])
  {
    table := new Word[256];
    var crc: Word := 1;
    table[0] := 0;
    var i: nat := 128;
    Seeds();
    hide StepLe, Xor, IsPower, EntryLe, FilledLe, FillingLe, Multiple, TableLe;
    while i != 0
      invariant i == 0 || (IsPower(i) && i <= 128 && crc == EntryLe(2 * i) && Multiple(256, 2 * i))
      invariant FilledLe(table[..], if i == 0 then 1 else 2 * i)
      decreases i
    {
      NextEntryLe(i);
      crc := StepLe(crc);
      FillRowLe(table, i, crc);
      PowerHalves(i);
      EvenOrOdd(256, i);
      i := i / 2;
    }
    AllFilled(table[..]);
  }

  predicate FilledBe(t: seq<Word>, n: nat) {
    |t| == 256 && forall j :: 0 <= j < n && j < 256 ==> t[j] == EntryBe(j)
  }

  lemma FillOneBe(t: seq<Word>, n: nat, w: Word)
    requires n < 256 && FilledBe(t, n) && w == EntryBe(n)
    ensures FilledBe(t[n := w], n + 1)
  {
    hide EntryBe;
  }

  lemma FillStepBe(t: seq<Word>, i: nat, j: nat)
    requires IsPower(i) && j < i && i + j < 256 && FilledBe(t, i + j)
    ensures |t| == 256 && FilledBe(t[i + j := Xor(EntryBe(i), t[j])], i + j + 1)
  {
    hide EntryLe, EntryBe, Xor, Apart, IsPower;
    BelowApart(i, j);
    EntryXor(i, j);
    FillOneBe(t, i + j, EntryBe(i + j));
  }

  /** The register of crc32init_be before index bit `i` is stepped in. */
  function BeforeBe(i: nat): Word {
    if i == 1 then 0x80000000 else EntryBe(i / 2)
  }

  lemma DoubleHigh(b: Byte)
    ensures b < 128 ==> StepBe(ToTop(b as Word)) == ToTop(Xor(Double(b as Word), 0))
  {
  }

  lemma StepsUp(i: nat)
    requires i < 128
    ensures StepBe(ToTop(Digits(i))) == ToTop(Digits(2 * i))
  {
    var b := ByteOf(i);
    DigitsOfByte(b);
    ByteBelow(b);
    DoubleHigh(b);
    BitXor();
    hide Xor, Double, StepBe;
    assert (2 * i) / 2 == i;
  }

  lemma FirstBe()
    ensures StepsBe(0x01000000, 7) == 0x80000000
    ensures ToTop(Digits(1)) == 0x01000000
  {
    assert HighClear(0x01000000, 7) && DoubleN(0x01000000, 7) == 0x80000000;
    StepsClear(0x01000000, 7);
    DigitsOfByte(1);
  }

  lemma FirstEntryBe()
    ensures StepBe(0x80000000) == EntryBe(1)
  {
    FirstBe();
    StepsAdd(0x01000000, 7, 1);
    var c := StepsBe(0x01000000, 7);
    assert StepsBe(c, 1) == StepBe(c);
    hide Digits, StepBe;
  }

  lemma DoubledEntryBe(i: nat)
    requires i < 128
    ensures StepBe(EntryBe(i)) == EntryBe(2 * i)
  {
    StepsUp(i);
    OneMoreBe(ToTop(Digits(i)));
    hide Digits, StepBe, StepsBe;
  }

  lemma OneMoreBe(d: Word)
    ensures StepBe(StepsBe(d, 8)) == StepsBe(StepBe(d), 8)
  {
    StepsAdd(d, 8, 1);
    StepsAdd(d, 1, 8);
    hide StepBe;
    assert StepsBe(StepsBe(d, 8), 1) == StepBe(StepsBe(d, 8)) && StepsBe(d, 1) == StepBe(d);
  }

  lemma NextEntryBe(i: nat)
    requires IsPower(i) && i < 256
    ensures StepBe(BeforeBe(i)) == EntryBe(i)
  {
    if i == 1 {
      FirstEntryBe();
    } else {
      assert 2 * (i / 2) == i;
      DoubledEntryBe(i / 2);
      hide EntryBe, StepBe;
    }
  }

  /** The inner loop of crc32init_be. */
  method FillRowBe(table: array<Word>, i: nat, crc: Word)
    requires IsPower(i) && i <= 128 && crc == EntryBe(i) && FilledBe(table[..], i)
    modifies table
    ensures FilledBe(table[..], 2 * i)
  {
    var j: nat := 0;
    hide Xor, IsPower, EntryBe, FilledBe;
    while j < i
      invariant j <= i && FilledBe(table[..], i + j) && table.Length == 256
    {
      FillStepBe(table[..], i, j);
      ghost var before := table[..];
      table[i + j] := Xor(crc, table[j]);
      assert table[..] == before[i + j := Xor(crc, before[j])];
      j := j + 1;
    }
  }

  lemma {:induction false} PowerGap(i: nat, n: nat)
    requires IsPower(i) && IsPower(n) && i < 2 * n
    ensures i <= n
  {
    if 1 < i && 1 < n {
      assert 2 * (i / 2) == i && 2 * (n / 2) == n;
      PowerGap(i / 2, n / 2);
    }
  }

  lemma PowerBelow(i: nat)
    requires IsPower(i) && i < 256
    ensures i <= 128 && IsPower(2 * i) && BeforeBe(2 * i) == EntryBe(i)
  {
    hide EntryBe;
    assert (2 * i) / 2 == i;
    assert IsPower(16) && IsPower(128);
    PowerGap(i, 128);
  }

  /** crc32init_be: entries are filled from the low index bit up. */
  method Crc32InitBe() returns (table: array<Word>)
    ensures fresh(table) && TableBe(table[..])
  {
    table := new Word[256];
    var crc: Word := 0x80000000;
    table[0] := 0;
    var i: nat := 1;
    Seeds();
    hide StepBe, Xor, EntryBe, BeforeBe;
    while i < 256
      invariant IsPower(i) && i <= 256 && crc == BeforeBe(i) && FilledBe(table[..], i)
    {
      NextEntryBe(i);
      PowerBelow(i);
      crc := StepBe(crc);
      FillRowBe(table, i, crc);
      i := 2 * i;
    }
  }

  // ------------------------------------------------------------------ running over a message

  /** The low byte of a word, as an index. */
  function Index(w: Word): (k: nat)
    ensures k < 256
  {
    ((w & 255) as Byte) as int
  }

  lemma DigitsOfIndex(w: Word)
    ensures Digits(Index(w)) == w & 255
  {
    DigitsOfByte((w & 255) as Byte);
    hide Digits;
  }

  lemma OutIsByte(c: Word, b: Byte)
    ensures OutLe(c, b) & 255 == OutLe(c, b) && OutBe(c, b) & 255 == OutBe(c, b)
  {
  }

  lemma IndexOfOut(c: Word, b: Byte)
    ensures Digits(Index(OutLe(c, b))) == OutLe(c, b)
    ensures Digits(Index(OutBe(c, b))) == OutBe(c, b)
  {
    hide OutLe, OutBe, Digits, Index;
    OutIsByte(c, b);
    DigitsOfIndex(OutLe(c, b));
    DigitsOfIndex(OutBe(c, b));
  }

  /** crc32_le, one bit at a time. */
  method Crc32LeBits(seed: Word, p: seq<Byte>) returns (crc: Word)
    ensures crc == CrcLe(seed, p)
  {
    crc := seed;
    hide StepLe, Xor;
    for n := 0 to |p|
      invariant CrcLe(crc, p[n..]) == CrcLe(seed, p)
    {
      assert p[n..][1..] == p[n + 1..];
      ghost var c := crc;
      crc := Xor(crc, p[n] as Word);
      for i := 0 to 8
        invariant StepsLe(crc, 8 - i) == BitsLe(c, p[n])
      {
        crc := StepLe(crc);
      }
    }
  }

  /** crc32_be, one bit at a time. */
  method Crc32BeBits(seed: Word, p: seq<Byte>) returns (crc: Word)
    ensures crc == CrcBe(seed, p)
  {
    crc := seed;
    hide StepBe, Xor;
    for n := 0 to |p|
      invariant CrcBe(crc, p[n..]) == CrcBe(seed, p)
    {
      assert p[n..][1..] == p[n + 1..];
      ghost var c := crc;
      crc := Xor(crc, InBe(p[n]));
      for i := 0 to 8
        invariant StepsBe(crc, 8 - i) == BitsBe(c, p[n])
      {
        crc := StepBe(crc);
      }
    }
  }

  /** crc32_le with the table is crc32_le one bit at a time. */
  method Crc32Le(table: array<Word>, seed: Word, p: seq<Byte>) returns (crc: Word)
    requires TableLe(table[..])
    ensures crc == CrcLe(seed, p)
  {
    crc := seed;
    hide StepsLe, Xor, BitsLe, Digits, Index, OutLe, Down;
    for n := 0 to |p|
      invariant CrcLe(crc, p[n..]) == CrcLe(seed, p)
    {
      assert p[n..][1..] == p[n + 1..];
      ByteAtOnceLe(crc, p[n]);
      IndexOfOut(crc, p[n]);
      crc := Xor(Down(crc), table[Index(OutLe(crc, p[n]))]);
    }
  }

  /** crc32_be with the table is crc32_be one bit at a time. */
  method Crc32Be(table: array<Word>, seed: Word, p: seq<Byte>) returns (crc: Word)
    requires TableBe(table[..])
    ensures crc == CrcBe(seed, p)
  {
    crc := seed;
    hide StepsBe, Xor, BitsBe, Digits, Index, OutBe, Up, ToTop;
    for n := 0 to |p|
      invariant CrcBe(crc, p[n..]) == CrcBe(seed, p)
    {
      assert p[n..][1..] == p[n + 1..];
      ByteAtOnceBe(crc, p[n]);
      IndexOfOut(crc, p[n]);
      crc := Xor(Up(crc), table[Index(OutBe(crc, p[n]))]);
    }
  }

  // ------------------------------------------------------------------ the two forms are mirror images

  /** The word with its bits in the opposite order. */
  function Mirror(x: Word): Word {
    var a := ((x >> 1) & 0x55555555) | ((x & 0x55555555) << 1);
    var b := ((a >> 2) & 0x33333333) | ((a & 0x33333333) << 2);
    var c := ((b >> 4) & 0x0f0f0f0f) | ((b & 0x0f0f0f0f) << 4);
    var d := ((c >> 8) & 0x00ff00ff) | ((c & 0x00ff00ff) << 8);
    (d >> 16) | (d << 16)
  }

  function MirrorByte(b: Byte): Byte {
    (Mirror(b as Word) >> 24) as Byte
  }

  function MirrorBytes(s: seq<Byte>): seq<Byte> {
    seq(|s|, i requires 0 <= i < |s| => MirrorByte(s[i]))
  }

  lemma MirrorXor(a: Word, b: Word)
    ensures Mirror(Xor(a, b)) == Xor(Mirror(a), Mirror(b))
  {
  }

  lemma MirrorHalf(x: Word)
    ensures Mirror(Half(x)) == Double(Mirror(x))
    ensures Top(Mirror(x)) == Odd(x)
  {
  }

  lemma MirrorConstants()
    ensures Mirror(CRCPOLY_LE) == CRCPOLY_BE && Mirror(0) == 0
  {
  }

  lemma MirrorStep(x: Word)
    ensures StepBe(Mirror(x)) == Mirror(StepLe(x))
  {
    MirrorHalf(x);
    MirrorConstants();
    MirrorXor(Half(x), if Odd(x) then CRCPOLY_LE else 0);
    hide Mirror, Xor, Half, Double, Odd, Top;
  }

  lemma MirrorOfByte(b: Byte)
    ensures Mirror(b as Word) == InBe(MirrorByte(b))
  {
  }

  lemma MirrorInput(x: Word, b: Byte)
    ensures Mirror(Xor(x, b as Word)) == Xor(Mirror(x), InBe(MirrorByte(b)))
  {
    MirrorXor(x, b as Word);
    MirrorOfByte(b);
    hide Mirror, Xor, MirrorByte;
  }

  lemma MirrorTwice(x: Word)
    ensures Mirror(Mirror(x)) == x
  {
  }

  lemma {:induction false} MirrorSteps(x: Word, n: nat)
    ensures StepsBe(Mirror(x), n) == Mirror(StepsLe(x, n))
    decreases n
  {
    hide Mirror, StepLe, StepBe;
    if n > 0 {
      MirrorStep(x);
      MirrorSteps(StepLe(x), n - 1);
    }
  }

  /** The big-endian CRC is the little-endian one read backwards: seed, message bits and result. */
  lemma {:induction false} MirrorForms(seed: Word, s: seq<Byte>)
    ensures CrcBe(Mirror(seed), MirrorBytes(s)) == Mirror(CrcLe(seed, s))
    decreases |s|
  {
    if s != [] {
      assert MirrorBytes(s)[1..] == MirrorBytes(s[1..]);
      MirrorInput(seed, s[0]);
      MirrorSteps(Xor(seed, s[0] as Word), 8);
      hide Mirror, MirrorByte, Xor, StepsLe, StepsBe;
      MirrorForms(BitsLe(seed, s[0]), s[1..]);
    }
  }

  // ------------------------------------------------------------------ what a CRC detects

  /** Up to four bytes as they meet the register, the first one in its low byte. */
  function Pack(s: seq<Byte>): Word
    decreases |s|
  {
    if s == [] then 0 else Xor(s[0] as Word, Up(Pack(s[1..])))
  }

  predicate TopByteZero(w: Word) { w & 0xff000000 == 0 }

  /** Only the `n` low bytes may be set. */
  predicate FitsIn(w: Word, n: nat) {
    match n
    case 0 => w == 0
    case 1 => w & 0xffffff00 == 0
    case 2 => w & 0xffff0000 == 0
    case 3 => TopByteZero(w)
    case _ => true
  }

  lemma ShiftMasks(b: Byte, w: Word)
    ensures w == 0 ==> Xor(b as Word, Up(w)) & 0xffffff00 == 0
    ensures w & 0xffffff00 == 0 ==> Xor(b as Word, Up(w)) & 0xffff0000 == 0
    ensures w & 0xffff0000 == 0 ==> Xor(b as Word, Up(w)) & 0xff000000 == 0
  {
  }

  lemma FitsShift(b: Byte, w: Word, n: nat)
    requires FitsIn(w, n)
    ensures FitsIn(Xor(b as Word, Up(w)), n + 1)
  {
    ShiftMasks(b, w);
    hide Xor, Up;
  }

  lemma PackNothing()
    ensures FitsIn(Pack([]), 0)
  {
    hide Xor, Up;
  }

  lemma PackUnfold(s: seq<Byte>)
    requires s != []
    ensures Pack(s) == Xor(s[0] as Word, Up(Pack(s[1..])))
  {
    hide Xor, Up;
  }

  lemma {:induction false} PackFits(s: seq<Byte>)
    ensures FitsIn(Pack(s), |s|)
    decreases |s|
  {
    hide Xor, FitsIn, Up, Pack;
    if s == [] {
      PackNothing();
    } else {
      PackUnfold(s);
      PackFits(s[1..]);
      FitsShift(s[0], Pack(s[1..]), |s| - 1);
    }
  }

  lemma Unpack(a: Byte, v: Word, b: Byte, w: Word)
    requires FitsIn(v, 3) && FitsIn(w, 3) && Xor(a as Word, Up(v)) == Xor(b as Word, Up(w))
    ensures a == b && v == w
  {
  }

  lemma Masks(w: Word)
    ensures w == 0 || w & 0xffffff00 == 0 || w & 0xffff0000 == 0 ==> w & 0xff000000 == 0
  {
  }

  lemma Widens(w: Word, n: nat)
    requires FitsIn(w, n) && n <= 3
    ensures FitsIn(w, 3) && TopByteZero(w)
  {
    Masks(w);
  }

  lemma {:induction false} PackInjective(s: seq<Byte>, t: seq<Byte>)
    requires |s| == |t| <= 4 && Pack(s) == Pack(t)
    ensures s == t
    decreases |s|
  {
    hide Xor, FitsIn, Up;
    if s != [] {
      PackFits(s[1..]);
      PackFits(t[1..]);
      Widens(Pack(s[1..]), |s| - 1);
      Widens(Pack(t[1..]), |t| - 1);
      Unpack(s[0], Pack(s[1..]), t[0], Pack(t[1..]));
      PackInjective(s[1..], t[1..]);
      assert s == [s[0]] + s[1..] && t == [t[0]] + t[1..];
    }
  }

  lemma UpAndBack(w: Word)
    requires TopByteZero(w)
    ensures Down(Up(w)) == w
  {
  }

  lemma UpIsLowZero(w: Word)
    ensures LowZero(Up(w))
  {
  }

  lemma ShiftedIn(w: Word)
    requires TopByteZero(w)
    ensures StepsLe(Up(w), 8) == w
  {
    hide StepsLe, LowZero, Up, Down, TopByteZero;
    UpAndBack(w);
    UpIsLowZero(w);
    ShiftsDown(Up(w));
  }

  lemma StepsNone(c: Word)
    ensures StepsLe(c, 0) == c
  {
  }

  /** The bit-steps of up to four bytes are those of the bytes packed into one word. */
  lemma {:induction false} PackedAtOnce(c: Word, s: seq<Byte>)
    requires |s| <= 4
    ensures CrcLe(c, s) == StepsLe(Xor(c, Pack(s)), 8 * |s|)
    decreases |s|
  {
    XorLaws(c, 0, 0);
    hide Xor, StepsLe, FitsIn, Up;
    StepsNone(c);
    if s != [] {
      var b, p := s[0] as Word, Pack(s[1..]);
      PackFits(s[1..]);
      Widens(p, |s| - 1);
      ShiftedIn(p);
      StepsXor(Xor(c, b), Up(p), 8);
      XorLaws(c, b, Up(p));
      StepsAdd(Xor(c, Pack(s)), 8, 8 * (|s| - 1));
      PackedAtOnce(BitsLe(c, s[0]), s[1..]);
    }
  }

  lemma {:induction false} SeedInjective(c: Word, d: Word, s: seq<Byte>)
    requires CrcLe(c, s) == CrcLe(d, s)
    ensures c == d
    decreases |s|
  {
    if s != [] {
      hide BitsLe;
      SeedInjective(BitsLe(c, s[0]), BitsLe(d, s[0]), s[1..]);
      ByteInjective(c, d, s[0]);
    }
  }

  lemma ByteInjective(c: Word, d: Word, b: Byte)
    requires BitsLe(c, b) == BitsLe(d, b)
    ensures c == d
  {
    StepsInjective(Xor(c, b as Word), Xor(d, b as Word), 8);
    hide StepsLe;
    SameAdded(c, d, b as Word);
  }

  lemma SameAdded(c: Word, d: Word, w: Word)
    requires Xor(c, w) == Xor(d, w)
    ensures c == d
  {
  }

  /** Two messages that differ only within four bytes in a row have different CRCs, wherever
      those bytes are and whatever the seed. */
  lemma DetectsBurstLe(seed: Word, before: seq<Byte>, x: seq<Byte>, y: seq<Byte>, after: seq<Byte>)
    requires |x| == |y| <= 4 && x != y
    ensures CrcLe(seed, before + x + after) != CrcLe(seed, before + y + after)
  {
    Composes(seed, before + x, after);
    Composes(seed, before + y, after);
    Composes(seed, before, x);
    Composes(seed, before, y);
    var c := CrcLe(seed, before);
    hide CrcLe, CrcBe, Xor, StepsLe;
    if CrcLe(seed, before + x + after) == CrcLe(seed, before + y + after) {
      SeedInjective(CrcLe(c, x), CrcLe(c, y), after);
      PackedAtOnce(c, x);
      PackedAtOnce(c, y);
      StepsInjective(Xor(c, Pack(x)), Xor(c, Pack(y)), 8 * |x|);
      XorLaws(c, Pack(x), 0);
      XorLaws(c, Pack(y), 0);
      SameAdded(Pack(x), Pack(y), c);
      PackInjective(x, y);
      assert false;
    }
  }

  lemma MirrorByteTwice(b: Byte)
    ensures MirrorByte(MirrorByte(b)) == b
  {
  }

  lemma MirrorBytesTwice(s: seq<Byte>)
    ensures MirrorBytes(MirrorBytes(s)) == s
  {
    hide MirrorByte;
    forall i | 0 <= i < |s| ensures MirrorByte(MirrorByte(s[i])) == s[i] {
      MirrorByteTwice(s[i]);
    }
  }

  lemma DetectsBurstBe(seed: Word, before: seq<Byte>, x: seq<Byte>, y: seq<Byte>, after: seq<Byte>)
    requires |x| == |y| <= 4 && x != y
    ensures CrcBe(seed, before + x + after) != CrcBe(seed, before + y + after)
  {
    hide CrcLe, CrcBe, Mirror, MirrorByte;
    var m, b, u, v, a := Mirror(seed), MirrorBytes(before), MirrorBytes(x), MirrorBytes(y), MirrorBytes(after);
    MirrorTwice(seed);
    MirrorBytesTwice(before + x + after);
    MirrorBytesTwice(before + y + after);
    MirrorBytesTwice(x);
    MirrorBytesTwice(y);
    assert MirrorBytes(before + x + after) == b + u + a;
    assert MirrorBytes(before + y + after) == b + v + a;
    MirrorForms(m, b + u + a);
    MirrorForms(m, b + v + a);
    DetectsBurstLe(m, b, u, v, a);
    MirrorTwice(CrcLe(m, b + u + a));
    MirrorTwice(CrcLe(m, b + v + a));
  }
}
