/** The CRC-32 checksum of src/geekos/crc32.c: a 256-entry table filled by doubling, and a byte-at-a-time
    update. Words and bytes are written out as their bits, least significant first; that is also the order in
    which message bits enter the register. The reference is the definition by single bits (section 8 of
    RFC 1952): the register is shifted once for each message bit. */
module Crc32 {

  type Word = w: seq<bool> | |w| == 32 witness Zeros(32)
  type Byte = b: seq<bool> | |b| == 8 witness Zeros(8)

  function Zeros(n: nat): (bits: seq<bool>)
    ensures |bits| == n && forall i :: 0 <= i < n ==> !bits[i]
  {
    seq(n, _ => false)
  }

  function Zero(): Word {
    Zeros(32)
  }

  function AllOnes(): Word {
    seq(32, _ => true)
  }

  /** 0xedb88320, the reflected generating polynomial. */
  function Polynomial(): Word {
    seq(32, i => i in {5, 8, 9, 15, 19, 20, 21, 23, 24, 26, 27, 29, 30, 31})
  }

  function Xor(a: Word, b: Word): Word {
    seq(32, i requires 0 <= i < 32 => a[i] != b[i])
  }

  function ShiftRight(a: Word, n: nat): Word {
    seq(32, i requires 0 <= i < 32 => i + n < 32 && a[i + n])
  }

  function Invert(a: Word): Word {
    Xor(a, AllOnes())
  }

  /** One step of the shift register. */
  function Shift(h: Word): Word {
    Xor(ShiftRight(h, 1), if h[0] then Polynomial() else Zero())
  }

  function Shifts(n: nat, h: Word): Word {
    if n == 0 then h else Shifts(n - 1, Shift(h))
  }

  /** The register after one message bit. */
  function FeedBit(r: Word, bit: bool): Word {
    Shift(r[0 := r[0] != bit])
  }

  function FeedBits(r: Word, bits: seq<bool>): Word
    decreases bits
  {
    if bits == [] then r else FeedBits(FeedBit(r, bits[0]), bits[1..])
  }

  function Bits(msg: seq<Byte>): (bits: seq<bool>)
    ensures |bits| == 8 * |msg|
  {
    if msg == [] then [] else msg[0] + Bits(msg[1..])
  }

  /** The checksum by its definition, chained from an earlier checksum crc (zero to start). */
  function Crc(crc: Word, msg: seq<Byte>): Word {
    Invert(FeedBits(Invert(crc), Bits(msg)))
  }

  /** A char is signed: widened to a word, its top bit is repeated. */
  function SignExtend(b: Byte): Word {
    seq(32, i requires 0 <= i < 32 => if i < 8 then b[i] else b[7])
  }

  /** The four bytes of a word, low byte first. */
  function LittleEndian(w: Word): seq<Byte> {
    [w[..8], w[8..16], w[16..24], w[24..]]
  }

  // ---------------------------------------------------------------------------------------------
  // Algebra of the register
  // ---------------------------------------------------------------------------------------------

  lemma XorLaws(a: Word, b: Word)
    ensures Xor(a, a) == Zero() && Xor(a, Zero()) == a && Xor(Zero(), a) == a
    ensures Xor(a, b) == Zero() <==> a == b
    ensures Invert(Invert(a)) == a && Xor(Invert(a), a) == AllOnes()
  {
    if Xor(a, b) == Zero() {
      forall i | 0 <= i < 32 ensures a[i] == b[i] { assert !Xor(a, b)[i]; }
      assert a == b;
    }
  }

  lemma ShiftAt(h: Word, i: nat)
    requires i < 32
    ensures Shift(h)[i] == ((i < 31 && h[i + 1]) != (h[0] && Polynomial()[i]))
  {
  }

  /** The shift is linear over exclusive or. */
  lemma ShiftLinear(a: Word, b: Word)
    ensures Shift(Xor(a, b)) == Xor(Shift(a), Shift(b))
  {
    hide Shift;
    forall i | 0 <= i < 32 ensures Shift(Xor(a, b))[i] == Xor(Shift(a), Shift(b))[i] {
      ShiftAt(a, i);
      ShiftAt(b, i);
      ShiftAt(Xor(a, b), i);
    }
  }

  /** The top bit of the polynomial is set, so no register but the empty one becomes empty. */
  lemma ShiftZero(a: Word)
    ensures Shift(a) == Zero() <==> a == Zero()
  {
    hide Shift;
    forall i | 0 <= i < 32 ensures Shift(a)[i] == ((i < 31 && a[i + 1]) != (a[0] && Polynomial()[i])) { ShiftAt(a, i); }
    if a == Zero() {
      assert Shift(a) == Zero();
    } else if Shift(a) == Zero() {
      assert !Shift(a)[31] && Polynomial()[31];
      forall i | 0 <= i < 32 ensures !a[i] { if i > 0 { assert !Shift(a)[i - 1]; } }
    }
  }

  lemma {:induction false} ShiftsLinear(n: nat, a: Word, b: Word)
    ensures Shifts(n, Xor(a, b)) == Xor(Shifts(n, a), Shifts(n, b))
  {
    hide Shift, Xor;
    if n > 0 {
      ShiftLinear(a, b);
      ShiftsLinear(n - 1, Shift(a), Shift(b));
    }
  }

  lemma {:induction false} ShiftsCompose(m: nat, n: nat, a: Word)
    ensures Shifts(m + n, a) == Shifts(n, Shifts(m, a))
  {
    hide Shift;
    if m > 0 { ShiftsCompose(m - 1, n, Shift(a)); }
  }

  /** A non-zero register never empties, and an empty one stays empty. */
  lemma {:induction false} ShiftsZero(n: nat, a: Word)
    ensures Shifts(n, a) == Zero() <==> a == Zero()
  {
    hide Shift;
    if n > 0 {
      ShiftZero(a);
      ShiftsZero(n - 1, Shift(a));
    }
  }

  /** Shifting zero bits out is a plain right shift. */
  lemma {:induction false} ShiftsOfZeros(n: nat, a: Word)
    requires n <= 32 && forall i :: 0 <= i < n ==> !a[i]
    ensures Shifts(n, a) == ShiftRight(a, n)
  {
    if n == 0 {
      assert ShiftRight(a, 0) == a;
    } else {
      assert Shift(a) == ShiftRight(a, 1);
      ShiftsOfZeros(n - 1, Shift(a));
      assert ShiftRight(ShiftRight(a, 1), n - 1) == ShiftRight(a, n);
    }
  }

  lemma {:induction false} FeedConcat(r: Word, a: seq<bool>, b: seq<bool>)
    ensures FeedBits(r, a + b) == FeedBits(FeedBits(r, a), b)
    decreases a
  {
    hide FeedBit;
    if a == [] {
      assert a + b == b;
    } else {
      assert (a + b)[1..] == a[1..] + b;
      FeedConcat(FeedBit(r, a[0]), a[1..], b);
    }
  }

  lemma {:induction false} BitsConcat(a: seq<Byte>, b: seq<Byte>)
    ensures Bits(a + b) == Bits(a) + Bits(b)
  {
    if a == [] {
      assert a + b == b;
    } else {
      assert (a + b)[1..] == a[1..] + b;
      BitsConcat(a[1..], b);
      assert Bits(a + b) == a[0] + (Bits(a[1..]) + Bits(b));
    }
  }

  /** A window of up to 32 bits as a word, first bit lowest. */
  function Window(bits: seq<bool>): Word
    requires |bits| <= 32
  {
    seq(32, i requires 0 <= i < 32 => i < |bits| && bits[i])
  }

  /** Up to 32 message bits can be xored in at once, before any shifting. */
  lemma {:induction false} FeedWindow(r: Word, bits: seq<bool>)
    requires |bits| <= 32
    ensures FeedBits(r, bits) == Shifts(|bits|, Xor(r, Window(bits)))
    decreases bits
  {
    if bits == [] {
      assert Xor(r, Window(bits)) == r;
    } else {
      hide FeedBit, Shift;
      var rest := bits[1..];
      FeedWindow(FeedBit(r, bits[0]), rest);
      var x := Xor(r, Window(bits));
      var s := r[0 := r[0] != bits[0]];
      forall i | 0 <= i < 32 ensures Shift(x)[i] == Xor(Shift(s), Window(rest))[i] {
        ShiftAt(x, i);
        ShiftAt(s, i);
      }
      assert Shift(x) == Xor(Shift(s), Window(rest));
      FeedBitIs(r, bits[0]);
    }
  }

  lemma FeedBitIs(r: Word, bit: bool)
    ensures FeedBit(r, bit) == Shift(r[0 := r[0] != bit])
  {
  }

  // ---------------------------------------------------------------------------------------------
  // Chunking
  // ---------------------------------------------------------------------------------------------

  /** Feeding a message in two pieces, chaining the result, gives the checksum of the whole. */
  lemma Chunks(crc: Word, a: seq<Byte>, b: seq<Byte>)
    ensures Crc(Crc(crc, a), b) == Crc(crc, a + b)
  {
    hide FeedBits, Bits, Xor;
    BitsConcat(a, b);
    FeedConcat(Invert(crc), Bits(a), Bits(b));
    XorLaws(FeedBits(Invert(crc), Bits(a)), Zero());
  }

  function Flatten(chunks: seq<seq<Byte>>): seq<Byte> {
    if chunks == [] then [] else chunks[0] + Flatten(chunks[1..])
  }

  function CrcOfChunks(crc: Word, chunks: seq<seq<Byte>>): Word
    decreases chunks
  {
    if chunks == [] then crc else CrcOfChunks(Crc(crc, chunks[0]), chunks[1..])
  }

  /** However a message is cut up, chaining the calls yields the same checksum. */
  lemma {:induction false} AnyChunking(crc: Word, chunks: seq<seq<Byte>>)
    ensures CrcOfChunks(crc, chunks) == Crc(crc, Flatten(chunks))
    decreases chunks
  {
    hide Xor;
    if chunks == [] {
      XorLaws(crc, Zero());
    } else {
      AnyChunking(Crc(crc, chunks[0]), chunks[1..]);
      Chunks(crc, chunks[0], Flatten(chunks[1..]));
    }
  }

  // ---------------------------------------------------------------------------------------------
  // Bursts
  // ---------------------------------------------------------------------------------------------

  /** Where two equally long bit strings differ. */
  function Difference(a: seq<bool>, b: seq<bool>): seq<bool>
    requires |a| == |b|
  {
    seq(|a|, i requires 0 <= i < |a| => a[i] != b[i])
  }

  lemma BitDifference(r: Word, q: Word, x: bool, y: bool)
    ensures Xor(FeedBit(r, x), FeedBit(q, y)) == FeedBit(Xor(r, q), x != y)
  {
    hide Shift;
    var s, t := r[0 := r[0] != x], q[0 := q[0] != y];
    ShiftLinear(s, t);
    assert Xor(s, t) == Xor(r, q)[0 := Xor(r, q)[0] != (x != y)];
  }

  lemma {:induction false} FeedDifference(r: Word, q: Word, a: seq<bool>, b: seq<bool>)
    requires |a| == |b|
    ensures Xor(FeedBits(r, a), FeedBits(q, b)) == FeedBits(Xor(r, q), Difference(a, b))
    decreases a
  {
    hide Xor, FeedBit;
    if a != [] {
      FeedDifference(FeedBit(r, a[0]), FeedBit(q, b[0]), a[1..], b[1..]);
      assert Difference(a, b)[1..] == Difference(a[1..], b[1..]);
      BitDifference(r, q, a[0], b[0]);
    }
  }

  lemma {:induction false} FeedZeros(r: Word, bits: seq<bool>)
    requires forall i :: 0 <= i < |bits| ==> !bits[i]
    ensures FeedBits(r, bits) == Shifts(|bits|, r)
    decreases bits
  {
    hide Shift;
    if bits != [] {
      assert r[0 := r[0]] == r;
      FeedZeros(Shift(r), bits[1..]);
    }
  }

  /** Both strings agree outside the n positions that start at lo. */
  ghost predicate SameOutside(a: seq<bool>, b: seq<bool>, lo: nat, n: nat)
    requires |a| == |b|
  {
    forall i :: 0 <= i < |a| && !(lo <= i < lo + n) ==> a[i] == b[i]
  }

  /** Feeding two strings that agree outside [lo, hi) gives equal registers exactly when the window of
      differences alone, fed into an empty register, leaves it empty. */
  lemma WindowDecides(r: Word, a: seq<bool>, b: seq<bool>, lo: nat, hi: nat)
    requires |a| == |b| && lo <= hi <= |a| && SameOutside(a, b, lo, hi - lo)
    ensures FeedBits(r, a) == FeedBits(r, b) <==> FeedBits(Zero(), Difference(a, b)[lo..hi]) == Zero()
  {
    hide Xor, FeedBits, Shifts;
    var d := Difference(a, b);
    var before, window, after := d[..lo], d[lo..hi], d[hi..];
    assert d == before + (window + after);
    FeedConcat(Zero(), before, window + after);
    FeedConcat(Zero(), window, after);
    FeedZeros(Zero(), before);
    ShiftsZero(|before|, Zero());
    FeedZeros(FeedBits(Zero(), window), after);
    ShiftsZero(|after|, FeedBits(Zero(), window));
    FeedDifference(r, r, a, b);
    XorLaws(r, r);
    XorLaws(FeedBits(r, a), FeedBits(r, b));
  }

  /** The register tells any two different bit strings apart that differ in one burst of 32 bits or less. */
  lemma BurstSeparates(r: Word, a: seq<bool>, b: seq<bool>, lo: nat)
    requires |a| == |b| && a != b && SameOutside(a, b, lo, 32)
    ensures FeedBits(r, a) != FeedBits(r, b)
  {
    hide FeedBits, Xor, Shifts;
    var at :| 0 <= at < |a| && a[at] != b[at];
    var hi := if lo + 32 <= |a| then lo + 32 else |a|;
    var window := Difference(a, b)[lo..hi];
    WindowDecides(r, a, b, lo, hi);
    WindowNotLost(window, at - lo);
  }

  lemma WindowNotLost(window: seq<bool>, at: nat)
    requires at < |window| <= 32 && window[at]
    ensures FeedBits(Zero(), window) != Zero()
  {
    hide FeedBits, Xor, Shifts;
    FeedWindow(Zero(), window);
    assert Window(window)[at] && !Zero()[at];
    XorLaws(Window(window), Zero());
    ShiftsZero(|window|, Window(window));
  }

  lemma {:induction false} BitsInjective(a: seq<Byte>, b: seq<Byte>)
    requires |a| == |b| && Bits(a) == Bits(b)
    ensures a == b
  {
    if a != [] {
      assert a[0] == Bits(a)[..8] == Bits(b)[..8] == b[0];
      assert Bits(a[1..]) == Bits(a)[8..] == Bits(b)[8..] == Bits(b[1..]);
      BitsInjective(a[1..], b[1..]);
    }
  }

  /** Two different messages of equal length that differ in one burst of at most 32 bits have different
      checksums. */
  lemma BurstDetected(crc: Word, a: seq<Byte>, b: seq<Byte>, lo: nat)
    requires |a| == |b| && a != b && SameOutside(Bits(a), Bits(b), lo, 32)
    ensures Crc(crc, a) != Crc(crc, b)
  {
    hide FeedBits, Bits, Xor;
    if Bits(a) == Bits(b) { BitsInjective(a, b); }
    BurstSeparates(Invert(crc), Bits(a), Bits(b), lo);
    XorLaws(FeedBits(Invert(crc), Bits(a)), Zero());
    XorLaws(FeedBits(Invert(crc), Bits(b)), Zero());
  }

  /** 32 is the limit: a burst that spans 33 bits goes unnoticed exactly when, after its first bit, it has
      the shape of the polynomial. */
  lemma BurstOf33(crc: Word, a: seq<Byte>, b: seq<Byte>, lo: nat)
    requires |a| == |b| && lo + 33 <= 8 * |a|
    requires SameOutside(Bits(a), Bits(b), lo, 33) && Bits(a)[lo] != Bits(b)[lo]
    ensures Crc(crc, a) == Crc(crc, b) <==> Difference(Bits(a), Bits(b))[lo + 1..lo + 33] == Polynomial()
  {
    hide Bits, Xor, Shift, Shifts;
    var d := Difference(Bits(a), Bits(b));
    var window, rest := d[lo..lo + 33], d[lo + 1..lo + 33];
    assert window[0] && window[1..] == rest;
    WindowDecides(Invert(crc), Bits(a), Bits(b), lo, lo + 33);
    FirstBit();
    assert FeedBits(Zero(), window) == FeedBits(Polynomial(), rest);
    FeedWindow(Polynomial(), rest);
    assert Window(rest) == rest;
    XorLaws(Polynomial(), rest);
    ShiftsZero(32, Xor(Polynomial(), rest));
    XorLaws(FeedBits(Invert(crc), Bits(a)), Zero());
    XorLaws(FeedBits(Invert(crc), Bits(b)), Zero());
  }

  lemma FirstBit()
    ensures FeedBit(Zero(), true) == Polynomial()
  {
  }

  // ---------------------------------------------------------------------------------------------
  // The residue
  // ---------------------------------------------------------------------------------------------

  /** What a codeword (a message followed by its checksum, low byte first) always sums to. */
  function FixedResidue(): Word {
    Invert(Shifts(32, AllOnes()))
  }

  /** Any message followed by its checksum in little-endian order sums to the same residue. */
  lemma Residue(crc: Word, m: seq<Byte>)
    ensures Crc(crc, m + LittleEndian(Crc(crc, m))) == FixedResidue()
  {
    hide Xor, FeedBits, Shifts;
    var tail := Crc(crc, m);
    Chunks(crc, m, LittleEndian(tail));
    LittleEndianBits(tail);
    FeedWindow(Invert(tail), tail);
    assert Window(tail) == tail;
    XorLaws(tail, Zero());
  }

  lemma LittleEndianBits(w: Word)
    ensures Bits(LittleEndian(w)) == w
  {
    var m := LittleEndian(w);
    assert m[1..][1..][1..][1..] == [];
    assert Bits(m[1..][1..][1..]) == m[3] + [];
    assert Bits(m[1..][1..]) == w[16..];
    assert Bits(m[1..]) == w[8..];
  }

  /** What the checksum is for: a codeword damaged by one burst, anywhere in the message or in the
      appended checksum itself, no longer sums to the residue. */
  lemma DamagedCodewordRejected(crc: Word, m: seq<Byte>, received: seq<Byte>, lo: nat)
    requires var sent := m + LittleEndian(Crc(crc, m));
             |received| == |sent| && received != sent && SameOutside(Bits(sent), Bits(received), lo, 32)
    ensures Crc(crc, received) != FixedResidue()
  {
    hide Crc, Bits, LittleEndian, FixedResidue;
    Residue(crc, m);
    BurstDetected(crc, m + LittleEndian(Crc(crc, m)), received, lo);
  }

  // ---------------------------------------------------------------------------------------------
  // Numbers as table indices
  // ---------------------------------------------------------------------------------------------

  function Pow2(k: nat): nat {
    if k == 0 then 1 else 2 * Pow2(k - 1)
  }

  /** The k low bits of a number. */
  function Binary(n: nat, k: nat): (bits: seq<bool>)
    ensures |bits| == k
  {
    if k == 0 then [] else [n % 2 == 1] + Binary(n / 2, k - 1)
  }

  function Value(bits: seq<bool>): nat {
    if bits == [] then 0 else (if bits[0] then 1 else 0) + 2 * Value(bits[1..])
  }

  lemma {:induction false} ValueOfBinary(bits: seq<bool>)
    ensures Value(bits) < Pow2(|bits|)
    ensures Binary(Value(bits), |bits|) == bits
  {
    if bits != [] { ValueOfBinary(bits[1..]); }
  }

  /** Only the low eight bits can be set in a number below 256. */
  lemma {:induction false} BinaryShort(n: nat, k: nat, i: nat)
    requires n < Pow2(k) && k <= i < 32
    ensures !Binary(n, 32)[i]
  {
    BinaryAt(n, 32, i);
    BinaryAtShort(n, k, i);
  }

  function BitOf(n: nat, i: nat): bool {
    if i == 0 then n % 2 == 1 else BitOf(n / 2, i - 1)
  }

  lemma {:induction false} BinaryAt(n: nat, k: nat, i: nat)
    requires i < k
    ensures Binary(n, k)[i] == BitOf(n, i)
  {
    if i > 0 { BinaryAt(n / 2, k - 1, i - 1); }
  }

  lemma {:induction false} BinaryAtShort(n: nat, k: nat, i: nat)
    requires n < Pow2(k) && k <= i
    ensures !BitOf(n, i)
  {
    if k > 0 {
      BinaryAtShort(n / 2, k - 1, i - 1);
    } else if i > 0 {
      BinaryAtShort(n / 2, 0, i - 1);
    }
  }

  /** Adding a power of two below the lowest set bit of j sets one more bit. */
  lemma {:induction false} AddPower(p: nat, m: nat, i: nat)
    ensures BitOf(Pow2(p) + m * Pow2(p + 1), i) == (BitOf(Pow2(p), i) != BitOf(m * Pow2(p + 1), i))
  {
    if p == 0 {
      if i > 0 { BinaryAtShort(0, 0, i - 1); }
      assert Pow2(1) == 2;
    } else if i > 0 {
      var a, b := Pow2(p - 1), Pow2(p);
      assert m * Pow2(p + 1) == 2 * (m * b);
      AddPower(p - 1, m, i - 1);
    } else {
      assert m * Pow2(p + 1) == 2 * (m * Pow2(p));
    }
  }

  // ---------------------------------------------------------------------------------------------
  // The code
  // ---------------------------------------------------------------------------------------------

  /** The value the table holds for index n: eight steps of the register. */
  function Entry(n: nat): Word {
    Shifts(8, Binary(n, 32))
  }

  /** The identity behind the table: eight shifts move the upper bytes down and look the low byte up. */
  lemma TableStep(x: Word)
    ensures Value(x[..8]) < 256
    ensures Shifts(8, x) == Xor(ShiftRight(x, 8), Entry(Value(x[..8])))
  {
    hide Shift;
    var n := Value(x[..8]);
    ValueOfBinary(x[..8]);
    assert Pow2(8) == 256;
    var low := Binary(n, 32);
    var high := seq(32, i requires 0 <= i < 32 => i >= 8 && x[i]);
    forall i | 0 <= i < 32 ensures low[i] == (i < 8 && x[i]) {
      if i < 8 {
        BinaryAt(n, 32, i);
        BinaryAt(n, 8, i);
      } else {
        BinaryShort(n, 8, i);
      }
    }
    assert Xor(high, low) == x;
    ShiftsLinear(8, high, low);
    ShiftsOfZeros(8, high);
    assert ShiftRight(high, 8) == ShiftRight(x, 8);
  }

  /** Entries at doubled indices: each pass of the table fill derives its first entry from the last pass. */
  lemma HalfEntry(n: nat)
    requires n < 128
    ensures Shift(Entry(2 * n)) == Entry(n)
  {
    hide Shift;
    ShiftOfDouble(n);
    ShiftsCompose(8, 1, Binary(2 * n, 32));
    ShiftsCompose(1, 8, Binary(2 * n, 32));
    assert Shifts(1, Shifts(8, Binary(2 * n, 32))) == Shift(Shifts(8, Binary(2 * n, 32)));
    assert Shifts(1, Binary(2 * n, 32)) == Shift(Binary(2 * n, 32));
  }

  lemma ShiftOfDouble(n: nat)
    requires n < 128
    ensures Shift(Binary(2 * n, 32)) == Binary(n, 32)
  {
    hide Shift, Binary, Pow2;
    var w := Binary(2 * n, 32);
    Pow2At7();
    forall i | 0 <= i < 32 ensures w[i] == (i > 0 && Binary(n, 32)[i - 1]) {
      BinaryAt(2 * n, 32, i);
      if i > 0 { BinaryAt(n, 32, i - 1); }
    }
    BinaryShort(n, 7, 31);
    forall i | 0 <= i < 32 ensures Shift(w)[i] == Binary(n, 32)[i] { ShiftAt(w, i); }
  }

  lemma Pow2At7()
    ensures Pow2(7) == 128 && Pow2(8) == 256
  {
    assert Pow2(4) == 16;
  }

  lemma FirstEntries()
    ensures Shift(Binary(1, 32)) == Entry(128) && Entry(0) == Zero()
  {
    hide Shift;
    ShiftOfDouble(64);
    ShiftOfDouble(32);
    ShiftOfDouble(16);
    ShiftOfDouble(8);
    ShiftOfDouble(4);
    ShiftOfDouble(2);
    ShiftOfDouble(1);
    assert Entry(128) == Shifts(6, Binary(32, 32));
    assert Shifts(6, Binary(32, 32)) == Shifts(4, Binary(8, 32));
    assert Shifts(4, Binary(8, 32)) == Shifts(2, Binary(2, 32));
    assert Shifts(2, Binary(2, 32)) == Shifts(1, Binary(1, 32));
    assert Shifts(1, Binary(1, 32)) == Shift(Binary(1, 32));
    forall i | 0 <= i < 32 ensures !Binary(0, 32)[i] { BinaryShort(0, 0, i); }
    assert Binary(0, 32) == Zero();
    ShiftsZero(8, Zero());
  }

  /** Below the lowest set bit of j, setting one more bit adds (xors) the two entries. */
  lemma EntryOfSum(p: nat, m: nat, i: nat, j: nat)
    requires i == Pow2(p) && j == m * Pow2(p + 1)
    ensures Entry(i + j) == Xor(Entry(i), Entry(j))
  {
    hide Shifts, Binary, Pow2;
    forall t | 0 <= t < 32 ensures Binary(i + j, 32)[t] == (Binary(i, 32)[t] != Binary(j, 32)[t]) {
      AddPower(p, m, t);
      BinaryAt(i + j, 32, t);
      BinaryAt(i, 32, t);
      BinaryAt(j, 32, t);
    }
    assert Binary(i + j, 32) == Xor(Binary(i, 32), Binary(j, 32));
    ShiftsLinear(8, Binary(i, 32), Binary(j, 32));
  }

  /** Which entries are stored once the pass for 2 * i is over and the pass for i has reached j. */
  ghost predicate Done(n: nat, i: nat, j: nat)
    requires i > 0
  {
    n < 256 && (n % (2 * i) == 0 || (n < j && n % i == 0))
  }

  lemma DoneIs(n: nat, i: nat, j: nat)
    requires i > 0
    ensures Done(n, i, j) <==> n < 256 && (n % (2 * i) == 0 || (n < j && n % i == 0))
  {
  }

  /** The static table and the two routines of crc32.c. */
  class Table {
    const crcTable: array<Word>

    constructor ()
      ensures fresh(crcTable) && crcTable.Length == 256
    {
      crcTable := new Word[256](_ => Zero());
    }

    ghost predicate Ready()
      reads this, crcTable
    {
      && crcTable.Length == 256
      && forall n :: 0 <= n < 256 ==> crcTable[n] == Entry(n)
    }

    /** Fills the table by doubling. The ghost result counts the stores to each entry. */
    method Init() returns (ghost stores: seq<nat>)
      requires crcTable.Length == 256
      modifies crcTable
      ensures Ready()
      ensures |stores| == 256 && forall n :: 0 <= n < 256 ==> stores[n] == 1
    {
      hide Shift, Entry, Xor, Pow2, Binary, Done;
      var i := 128;
      ghost var p := 7;
      var h := Binary(1, 32);
      crcTable[0] := Zero();
      stores := seq(256, n => if n == 0 then 1 else 0);
      FirstEntries();
      Pow2At7();
      while i != 0
        invariant i == if p < 0 then 0 else Pow2(p)
        invariant -1 <= p < 8 && |h| == 32 && |stores| == 256
        invariant i != 0 ==> Shift(h) == Entry(i)
        invariant forall n :: 0 <= n < 256 && (i == 0 || n % (2 * i) == 0) ==> crcTable[n] == Entry(n)
        invariant forall n :: 0 <= n < 256 ==> stores[n] == if i == 0 || n % (2 * i) == 0 then 1 else 0
      {
        PowerOf(p);
        h := Shift(h);
        var j := 0;
        ghost var m := 0;
        forall n | 0 <= n < 256 ensures Done(n, i, 0) <==> n % (2 * i) == 0 { DoneIs(n, i, 0); }
        while j < 256
          invariant j == m * (2 * i) && j <= 256 && 0 <= m && |stores| == 256
          invariant forall n :: 0 <= n < 256 && Done(n, i, j) ==> crcTable[n] == Entry(n)
          invariant forall n :: 0 <= n < 256 ==> stores[n] == if Done(n, i, j) then 1 else 0
        {
          StepOver(i, 2 * i, m, j);
          StaysInTable(i, m);
          forall n | 0 <= n < 256 ensures Done(n, i, j + 2 * i) <==> Done(n, i, j) || n == i + j {
            DoneIs(n, i, j);
            DoneIs(n, i, j + 2 * i);
          }
          DoneIs(i + j, i, j);
          DoneIs(j, i, j);
          EntryOfSum(p, m, i, j);
          XorCommutes(Entry(i), Entry(j));
          crcTable[i + j] := Xor(crcTable[j], h);
          stores := stores[i + j := stores[i + j] + 1];
          j := j + 2 * i;
          m := m + 1;
        }
        forall n | 0 <= n < 256 ensures Done(n, i, 256) <==> n % i == 0 { PassDone(i, n); }
        if p > 0 { HalfEntry(Pow2(p - 1)); }
        i := i / 2;
        p := p - 1;
      }
    }

    /** crc32: chains on from crc over the bytes of buf. */
    method Checksum(crc: Word, buf: seq<Byte>) returns (r: Word)
      requires Ready()  // the source asserts entry 255 is set
      ensures r == Crc(crc, buf)
    {
      hide FeedBits, Bits, Xor, Shifts, ShiftRight, Entry, Value, SignExtend;
      r := Invert(crc);
      var k := 0;
      NothingFed(r, buf[..0]);
      while k < |buf|
        invariant 0 <= k <= |buf|
        invariant r == FeedBits(Invert(crc), Bits(buf[..k]))
      {
        var x := Xor(r, SignExtend(buf[k]));
        ByteStep(r, buf[k]);
        NextByte(Invert(crc), buf[..k], buf[k]);
        assert buf[..k] + [buf[k]] == buf[..k + 1];
        r := Xor(ShiftRight(r, 8), crcTable[Value(x[..8])]);
        k := k + 1;
      }
      assert buf[..k] == buf;
      r := Invert(r);
    }
  }

  lemma XorCommutes(a: Word, b: Word)
    ensures Xor(a, b) == Xor(b, a)
  {
  }

  /** One round of the loop of crc32. Only the low byte of the index is used, so the sign extension of a char
      does no harm. */
  lemma ByteStep(r: Word, b: Byte)
    ensures var n := Value(Xor(r, SignExtend(b))[..8]);
            n < 256 && Shifts(8, Xor(r, Window(b))) == Xor(ShiftRight(r, 8), Entry(n))
  {
    hide Shifts, Entry;
    var x := Xor(r, Window(b));
    assert x[..8] == Xor(r, SignExtend(b))[..8];
    assert ShiftRight(x, 8) == ShiftRight(r, 8);
    TableStep(x);
  }

  /** The routine's assertion that entry 255 is not zero: it holds of a filled table, not of a blank one. */
  lemma FilledTableIsNotBlank()
    ensures Entry(255) != Zero()
  {
    assert Binary(255, 32)[0] && !Zero()[0];
    ShiftsZero(8, Binary(255, 32));
  }

  lemma NothingFed(r: Word, m: seq<Byte>)
    requires m == []
    ensures FeedBits(r, Bits(m)) == r
  {
  }

  lemma NextByte(r: Word, m: seq<Byte>, b: Byte)
    ensures FeedBits(r, Bits(m + [b])) == Shifts(8, Xor(FeedBits(r, Bits(m)), Window(b)))
  {
    hide FeedBits, Xor, Shifts;
    BitsConcat(m, [b]);
    FeedConcat(r, Bits(m), Bits([b]));
    assert [b][1..] == [];
    assert Bits([b]) == b + [];
    assert b + [] == b;
    FeedWindow(FeedBits(r, Bits(m)), b);
  }

  lemma Quotient(n: nat, d: nat, q: nat, r: nat)
    requires r < d && n == q * d + r
    ensures n / d == q && n % d == r
  {
    var e := n / d - q;
    assert e * d == (n / d) * d - q * d == r - n % d;
    SmallMultiple(e, d);
  }

  lemma SmallMultiple(e: int, d: int)
    requires -d < e * d < d
    ensures e == 0
  {
  }

  /** The next store of a pass hits one new entry. */
  lemma StepOver(i: nat, d: nat, m: nat, j: nat)
    requires i > 0 && d == 2 * i && j == m * d
    ensures j + d == (m + 1) * d
    ensures (i + j) % d == i && (i + j) % i == 0 && j % d == 0
    ensures forall n :: j <= n < j + d && n % i == 0 ==> n == j || n == i + j
  {
    assert (m + 1) * d == m * d + d;
    assert j == (2 * m) * i;
    Quotient(i + j, d, m, i);
    Quotient(j, d, m, 0);
    assert i + j == (2 * m + 1) * i;
    Quotient(i + j, i, 2 * m + 1, 0);
    forall n | j <= n < j + d && n % i == 0 ensures n == j || n == i + j {
      assert (n / i - 2 * m) * i == n - j;
      FewMultiples(n / i - 2 * m, i);
    }
  }

  lemma FewMultiples(e: int, d: int)
    requires 0 <= e * d < 2 * d
    ensures e == 0 || e == 1
  {
  }

  lemma StaysInTable(i: nat, m: nat)
    requires i in {1, 2, 4, 8, 16, 32, 64, 128} && m * (2 * i) < 256
    ensures (m + 1) * (2 * i) <= 256
  {
    if i == 1 {} else if i == 2 {} else if i == 4 {} else if i == 8 {}
    else if i == 16 {} else if i == 32 {} else if i == 64 {} else {}
  }

  /** Once a pass has run to the end, all multiples of i are stored. */
  lemma PassDone(i: nat, n: nat)
    requires i > 0 && n < 256
    ensures Done(n, i, 256) <==> n % i == 0
  {
    if n % (2 * i) == 0 {
      var q := n / (2 * i);
      assert n == (2 * q) * i + 0;
      Quotient(n, i, 2 * q, 0);
    }
  }

  lemma PowerOf(p: nat)
    requires p < 8
    ensures Pow2(p) in {1, 2, 4, 8, 16, 32, 64, 128} && Pow2(p + 1) == 2 * Pow2(p)
    ensures if p == 0 then Pow2(p) == 1 else Pow2(p) == 2 * Pow2(p - 1) && Pow2(p - 1) < 128
  {
    if p <= 4 { assert Pow2(4) == 16; } else { assert Pow2(7) == 128; }
  }
}
