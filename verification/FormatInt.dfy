/** The number formatting behind Print (src/common/fmtout.c), and atoi (src/common/string.c). */
module FormatInt {

  const NDIGITS_MAX := 43
  const WORD := 0x1_0000_0000

  datatype Flags = Flags(zero: bool, minus: bool, plus: bool, tick: bool, space: bool, hash: bool, signed: bool,
      upper: bool)

  predicate Base(base: int) {
    base == 8 || base == 10 || base == 16
  }

  function DigitChar(d: int, upper: bool): (c: char)
    requires 0 <= d < 16
    ensures c != '_' && DigitValue(c) == d
  {
    if upper then "0123456789ABCDEF"[d] else "0123456789abcdef"[d]
  }

  // ---------------------------------------------------------------------------------------------
  // Reading a number back
  // ---------------------------------------------------------------------------------------------

  function DigitValue(c: char): int {
    if '0' <= c <= '9' then c as int - '0' as int
    else if 'a' <= c <= 'f' then c as int - 'a' as int + 10
    else if 'A' <= c <= 'F' then c as int - 'A' as int + 10
    else 0
  }

  /** The number that a string of digits with tick marks stands for. */
  function Read(s: string, base: int): int {
    if s == "" then 0
    else if s[|s| - 1] == '_' then Read(s[..|s| - 1], base)
    else Read(s[..|s| - 1], base) * base + DigitValue(s[|s| - 1])
  }

  // ---------------------------------------------------------------------------------------------
  // Digits and tick marks
  // ---------------------------------------------------------------------------------------------

  /** v has at most n digits. */
  predicate Fits(v: nat, base: int, n: nat)
    requires Base(base)
  {
    if n == 0 then v == 0 else Fits(v / base, base, n - 1)
  }

  /** How many digits v has; none for 0. */
  function Count(v: nat, base: int): (n: nat)
    requires Base(base)
    ensures Fits(v, base, n)
  {
    if v == 0 then 0 else 1 + Count(v / base, base)
  }

  /** n digits of v, generated from the right, with a mark after every skip of them; b4 is how many more come
      before the next mark. */
  function Body(v: nat, base: int, n: nat, skip: nat, b4: nat, upper: bool): string
    requires Base(base) && skip > 0
  {
    if n == 0 then ""
    else if b4 == 0 then Body(v / base, base, n - 1, skip, skip - 1, upper) + [DigitChar(v % base, upper), '_']
    else Body(v / base, base, n - 1, skip, b4 - 1, upper) + [DigitChar(v % base, upper)]
  }

  /** How many characters that is. */
  function Width(n: nat, skip: nat, b4: nat): nat
    requires skip > 0
  {
    if n == 0 then 0 else if b4 == 0 then 2 + Width(n - 1, skip, skip - 1) else 1 + Width(n - 1, skip, b4 - 1)
  }

  lemma {:induction false} FitsMore(v: nat, base: int, n: nat, m: nat)
    requires Base(base) && Fits(v, base, n) && n <= m
    ensures Fits(v, base, m)
    decreases m
  {
    if n > 0 { FitsMore(v / base, base, n - 1, m - 1); } else if m > 0 { FitsMore(0, base, 0, m - 1); }
  }

  lemma DivMod(v: nat, base: int)
    requires Base(base)
    ensures base >= 8 && v / base >= 0 && (v > 0 ==> v / base < v) && v / base * base + v % base == v
        && 0 <= v % base < 16
  {
    if base == 8 { assert v / 8 * 8 + v % 8 == v; }
    else if base == 10 { assert v / 10 * 10 + v % 10 == v; }
    else { assert v / 16 * 16 + v % 16 == v; }
  }

  lemma ReadDigit(s: string, c: char, base: int)
    requires c != '_'
    ensures Read(s + [c], base) == Read(s, base) * base + DigitValue(c)
    ensures Read(s + [c, '_'], base) == Read(s + [c], base)
  {
    assert (s + [c])[..|s|] == s;
    assert (s + [c, '_'])[..|s| + 1] == s + [c];
  }

  /** Count is the least number of digits: fewer lose something. */
  lemma {:induction false} CountIsLeast(v: nat, base: int, n: nat)
    requires Base(base)
    ensures Fits(v, base, n) <==> n >= Count(v, base)
    decreases n
  {
    if n > 0 {
      CountIsLeast(v / base, base, n - 1);
      if v == 0 { FitsMore(0, base, 0, n); }
    }
  }

  /** The digits printed, read back, are the value. */
  lemma {:induction false} ReadsBack(v: nat, base: int, n: nat, skip: nat, b4: nat, upper: bool)
    requires Base(base) && skip > 0 && Fits(v, base, n)
    ensures Read(Body(v, base, n, skip, b4, upper), base) == v
    decreases n
  {
    hide Read, DigitChar, Base;
    if n > 0 {
      DivMod(v, base);
      var c := DigitChar(v % base, upper);
      var b := if b4 == 0 then skip - 1 else b4 - 1;
      var s := Body(v / base, base, n - 1, skip, b, upper);
      ReadsBack(v / base, base, n - 1, skip, b, upper);
      ReadDigit(s, c, base);
    } else {
      ReadEmpty(base);
    }
  }

  lemma ReadEmpty(base: int)
    ensures Read("", base) == 0
  {
  }

  lemma {:induction false} BodyLength(v: nat, base: int, n: nat, skip: nat, b4: nat, upper: bool)
    requires Base(base) && skip > 0
    ensures |Body(v, base, n, skip, b4, upper)| == Width(n, skip, b4)
    decreases n
  {
    if n > 0 { BodyLength(v / base, base, n - 1, skip, if b4 == 0 then skip - 1 else b4 - 1, upper); }
  }

  /** The character p places from the right is a mark exactly if b4 digits, or b4 and whole groups, come after it. */
  predicate MarkAt(p: nat, skip: nat, b4: nat) {
    p >= b4 && if skip == 3 then (p - b4) % 4 == 0 else (p - b4) % 5 == 0
  }

  lemma {:induction false} TicksFall(v: nat, base: int, n: nat, skip: nat, b4: nat, upper: bool, p: nat)
    requires Base(base) && 3 <= skip <= 4 && b4 <= skip
    ensures var s := Body(v, base, n, skip, b4, upper);
            p < |s| ==> (s[|s| - 1 - p] == '_' <==> MarkAt(p, skip, b4))
    decreases n
  {
    hide DigitChar, Base;
    if n > 0 {
      DivMod(v, base);
      var s := Body(v, base, n, skip, b4, upper);
      if b4 == 0 {
        var t := Body(v / base, base, n - 1, skip, skip - 1, upper);
        assert s == t + [DigitChar(v % base, upper), '_'];
        if p >= 2 {
          TicksFall(v / base, base, n - 1, skip, skip - 1, upper, p - 2);
          MarksRepeat(p, skip);
          assert p < |s| ==> s[|s| - 1 - p] == t[|t| - 1 - (p - 2)];
        }
      } else {
        var t := Body(v / base, base, n - 1, skip, b4 - 1, upper);
        assert s == t + [DigitChar(v % base, upper)];
        if p > 0 {
          TicksFall(v / base, base, n - 1, skip, b4 - 1, upper, p - 1);
          assert p < |s| ==> s[|s| - 1 - p] == t[|t| - 1 - (p - 1)];
        }
      }
    }
  }

  lemma MarksRepeat(p: nat, skip: nat)
    requires 3 <= skip <= 4 && p >= 2
    ensures MarkAt(p - 2, skip, skip - 1) <==> MarkAt(p, skip, 0)
  {
  }

  lemma {:induction false} NoTicks(v: nat, base: int, n: nat, skip: nat, b4: nat, upper: bool)
    requires Base(base) && skip > 0 && n <= b4
    ensures '_' !in Body(v, base, n, skip, b4, upper)
    decreases n
  {
    hide DigitChar, Base;
    if n > 0 {
      DivMod(v, base);
      NoTicks(v / base, base, n - 1, skip, b4 - 1, upper);
    }
  }

  /** Ticks stand between digits: neither first nor last. */
  lemma {:induction false} WidthThree(n: nat, b4: nat)
    requires b4 <= 3
    ensures Width(n, 3, b4) == n + if n <= b4 then 0 else 1 + (n - b4 - 1) / 3
    decreases n
  {
    if n > 0 { WidthThree(n - 1, if b4 == 0 then 2 else b4 - 1); }
  }

  lemma {:induction false} WidthFour(n: nat, b4: nat)
    requires b4 <= 4
    ensures Width(n, 4, b4) == n + if n <= b4 then 0 else 1 + (n - b4 - 1) / 4
    decreases n
  {
    if n > 0 { WidthFour(n - 1, if b4 == 0 then 3 else b4 - 1); }
  }

  lemma {:induction false} WidthPlain(n: nat, skip: nat, b4: nat)
    requires skip > 0 && n <= b4
    ensures Width(n, skip, b4) == n
    decreases n
  {
    if n > 0 { WidthPlain(n - 1, skip, b4 - 1); }
  }

  // ---------------------------------------------------------------------------------------------
  // The whole field
  // ---------------------------------------------------------------------------------------------

  function Negative(val: nat, f: Flags): bool {
    f.signed && val >= WORD / 2
  }

  /** What is left of val without its sign. */
  function Magnitude(val: nat, f: Flags): (m: nat)
    requires val < WORD
  {
    if Negative(val, f) then WORD - val else val
  }

  /** Digits printed: as many as the value has, as the precision demands, and at least one; a leading zero for
      "#" in octal. */
  function Digits(m: nat, base: int, prec: int, f: Flags): (n: nat)
    requires Base(base)
    ensures n >= 1 && Fits(m, base, n)
  {
    var c := Count(m, base);
    var p := if f.hash && base == 8 && prec < c + 1 then c + 1 else prec;
    FitsMore(m, base, c, Max(c, p));
    if c < p then p else if m == 0 then 1 else c
  }

  function Max(x: int, y: int): int {
    if x < y then y else x
  }

  /** Digits between tick marks. */
  function Skip(n: nat, base: int, f: Flags): nat {
    if f.tick then (if base == 16 then 4 else 3) else n
  }

  function Sign(neg: bool, f: Flags): string {
    if neg then "-" else if f.plus then "+" else if f.space then " " else ""
  }

  function Prefix(base: int, f: Flags): string {
    if f.hash && base == 16 then (if f.upper then "0X" else "0x") else ""
  }

  function Number(m: nat, base: int, prec: int, f: Flags): string
    requires Base(base)
  {
    var n := Digits(m, base, prec, f);
    Body(m, base, n, Skip(n, base, f), Skip(n, base, f), f.upper)
  }

  function Fill(c: char, n: int): (s: string)
    ensures |s| == Max(n, 0) && forall i :: 0 <= i < |s| ==> s[i] == c
  {
    seq(Max(n, 0), _ => c)
  }

  /** Padding before the sign, between prefix and digits, and after the digits: at most one of them. */
  function Padding(f: Flags, missing: int): (string, string, string) {
    if f.minus then ("", "", Fill(' ', missing)) else if f.zero then ("", Fill('0', missing), "")
        else (Fill(' ', missing), "", "")
  }

  function Field(val: nat, f: Flags, base: int, width: int, prec: int): string
    requires val < WORD && Base(base)
  {
    var sign, prefix, number := Sign(Negative(val, f), f), Prefix(base, f), Number(Magnitude(val, f), base, prec, f);
    var pad := Padding(f, width - |sign| - |prefix| - |number|);
    pad.0 + sign + prefix + pad.1 + number + pad.2
  }

  lemma SmallQuotient(x: nat, n: nat)
    requires x < n
    ensures x / n == 0
  {
  }

  /** The number of characters of the number itself: its digits, and a mark for every full group but the last. */
  lemma NumberWidth(m: nat, base: int, prec: int, f: Flags)
    requires Base(base)
    ensures var n := Digits(m, base, prec, f); var skip := Skip(n, base, f);
            |Number(m, base, prec, f)| == n + (n - 1) / skip == Width(n, skip, skip)
  {
    var n := Digits(m, base, prec, f);
    var skip := Skip(n, base, f);
    BodyLength(m, base, n, skip, skip, f.upper);
    if !f.tick {
      WidthPlain(n, n, n);
      SmallQuotient(n - 1, n);
    } else if base == 16 {
      WidthFour(n, 4);
    } else {
      WidthThree(n, 3);
    }
  }

  /** A field is as wide as asked, or as its sign, prefix, digits and marks if they take more. */
  lemma FieldWidth(val: nat, f: Flags, base: int, width: int, prec: int)
    requires val < WORD && Base(base)
    ensures var n := Digits(Magnitude(val, f), base, prec, f);
            |Field(val, f, base, width, prec)|
            == Max(width, |Sign(Negative(val, f), f)| + |Prefix(base, f)| + n + (n - 1) / Skip(n, base, f))
  {
    hide Number, Digits;
    NumberWidth(Magnitude(val, f), base, prec, f);
  }

  lemma {:induction false} ReadZeros(k: nat, s: string, base: int)
    ensures Read(Fill('0', k) + s, base) == Read(s, base)
    decreases |s|, k
  {
    var z := Fill('0', k);
    if s == "" {
      assert z + s == z;
      if k > 0 {
        assert z[..k - 1] == Fill('0', k - 1) + "";
        ReadZeros(k - 1, "", base);
      }
    } else {
      assert (z + s)[..|z + s| - 1] == z + s[..|s| - 1];
      ReadZeros(k, s[..|s| - 1], base);
    }
  }

  /** Printing loses nothing: the digits of the field, with any zeros in front, read back as the magnitude, and
      the sign tells the rest. */
  lemma FieldReadsBack(val: nat, f: Flags, base: int, width: int, prec: int)
    requires val < WORD && Base(base)
    ensures var m := Magnitude(val, f); var number := Number(m, base, prec, f);
            var pad := Padding(f, width - |Sign(Negative(val, f), f)| - |Prefix(base, f)| - |number|);
            Read(pad.1 + number, base) == m && val == if Negative(val, f) then WORD - m else m
  {
    var m := Magnitude(val, f);
    var n := Digits(m, base, prec, f);
    var number := Number(m, base, prec, f);
    ReadsBack(m, base, n, Skip(n, base, f), Skip(n, base, f), f.upper);
    var missing := width - |Sign(Negative(val, f), f)| - |Prefix(base, f)| - |number|;
    if !f.minus && f.zero {
      ReadZeros(Max(missing, 0), number, base);
    } else {
      assert "" + number == number;
    }
  }

  /** Marks fall after every third digit from the right, or fourth in hexadecimal; none without the tick flag. */
  lemma NumberTicks(m: nat, base: int, prec: int, f: Flags, p: nat)
    requires Base(base) && p < |Number(m, base, prec, f)|
    ensures var s := Number(m, base, prec, f);
            s[|s| - 1 - p] == '_' <==> f.tick && if base == 16 then p % 5 == 4 else p % 4 == 3
  {
    hide Body, Digits;
    var n := Digits(m, base, prec, f);
    var skip := Skip(n, base, f);
    if f.tick {
      TicksFall(m, base, n, skip, skip, f.upper, p);
    } else {
      NoTicks(m, base, n, skip, skip, f.upper);
    }
  }

  // ---------------------------------------------------------------------------------------------
  // What a field looks like
  // ---------------------------------------------------------------------------------------------

  function Power(base: nat, n: nat): nat {
    if n == 0 then 1 else base * Power(base, n - 1)
  }

  lemma {:induction false} FitsIsPower(v: nat, base: int, n: nat)
    requires Base(base)
    ensures Fits(v, base, n) <==> v < Power(base, n)
    decreases n
  {
    if n > 0 {
      FitsIsPower(v / base, base, n - 1);
      BelowProduct(v, base, Power(base, n - 1));
    }
  }

  lemma BelowProduct(v: nat, base: int, p: nat)
    requires Base(base)
    ensures v / base < p <==> v < base * p
  {
  }

  /** A character of a number in this base, in the case asked for. */
  predicate DigitOf(c: char, base: int, upper: bool) {
    || '0' <= c <= (if base == 8 then '7' else '9')
    || (base == 16 && (if upper then 'A' <= c <= 'F' else 'a' <= c <= 'f'))
  }

  lemma DigitIs(d: int, base: int, upper: bool)
    requires Base(base) && 0 <= d < base
    ensures DigitOf(DigitChar(d, upper), base, upper)
  {
  }

  lemma {:induction false} BodyDigits(v: nat, base: int, n: nat, skip: nat, b4: nat, upper: bool)
    requires Base(base) && skip > 0
    ensures forall i :: 0 <= i < |Body(v, base, n, skip, b4, upper)| ==>
              var c := Body(v, base, n, skip, b4, upper)[i]; c == '_' || DigitOf(c, base, upper)
    decreases n
  {
    hide DigitChar, DigitOf;
    if n > 0 {
      BodyDigits(v / base, base, n - 1, skip, if b4 == 0 then skip - 1 else b4 - 1, upper);
      DigitIs(v % base, base, upper);
    }
  }

  /** n is how many digits are printed for m: at least one, as many as the precision asks for, enough for the number,
      and for an octal "#" a zero in front of it; no more. */
  ghost predicate DigitsWanted(m: nat, base: int, prec: int, f: Flags, n: nat)
    requires Base(base)
  {
    n >= 1 && n >= prec && m < Power(base, n) && (f.hash && base == 8 ==> m < Power(8, n - 1))
  }

  lemma DigitsAreLeast(m: nat, base: int, prec: int, f: Flags, k: nat)
    requires Base(base)
    ensures k >= Digits(m, base, prec, f) <==> DigitsWanted(m, base, prec, f, k)
  {
    hide Fits, Power;
    CountIsLeast(m, base, k);
    FitsIsPower(m, base, k);
    if k >= 1 {
      CountIsLeast(m, base, k - 1);
      FitsIsPower(m, base, k - 1);
    }
    CountZero(m, base);
  }

  lemma CountZero(m: nat, base: int)
    requires Base(base)
    ensures Count(m, base) == 0 <==> m == 0
  {
  }

  /** The number itself: digits of the base, in the case asked for, that read as m, as many as wanted, and the marks. */
  lemma NumberIs(m: nat, base: int, prec: int, f: Flags) returns (n: nat)
    requires Base(base)
    ensures DigitsWanted(m, base, prec, f, n) && forall k :: 0 <= k < n ==> !DigitsWanted(m, base, prec, f, k)
    ensures var number := Number(m, base, prec, f);
            && Read(number, base) == m && n > 0
            && (forall i :: 0 <= i < |number| ==> number[i] == '_' || DigitOf(number[i], base, f.upper))
            && |number| == n + if f.tick then (n - 1) / (if base == 16 then 4 else 3) else 0
  {
    n := Digits(m, base, prec, f);
    var skip := Skip(n, base, f);
    ReadsBack(m, base, n, skip, skip, f.upper);
    BodyDigits(m, base, n, skip, skip, f.upper);
    NumberWidth(m, base, prec, f);
    SmallQuotient(n - 1, n);
    hide Digits, Body, DigitsWanted, Read, DigitOf;
    DigitsAreLeast(m, base, prec, f, n);
    forall k | 0 <= k < n ensures !DigitsWanted(m, base, prec, f, k) { DigitsAreLeast(m, base, prec, f, k); }
  }

  /** The parts of a field: padding in one place only, blanks in front, zeros after sign and prefix, or blanks at the
      end, as the flags say, just enough for the width; the sign; the prefix; and the n digits of the magnitude, with
      marks if asked for. */
  lemma FieldIs(val: nat, f: Flags, base: int, width: int, prec: int)
    returns (before: string, sign: string, prefix: string, zeros: string, number: string, after: string, n: nat)
    requires val < WORD && Base(base)
    ensures Field(val, f, base, width, prec) == before + sign + prefix + zeros + number + after
    ensures sign == if f.signed && val >= 0x8000_0000 then "-" else if f.plus then "+" else if f.space then " " else ""
    ensures prefix == if !f.hash || base != 16 then "" else if f.upper then "0X" else "0x"
    ensures (forall i :: 0 <= i < |before| ==> before[i] == ' ') && (forall i :: 0 <= i < |after| ==> after[i] == ' ')
    ensures forall i :: 0 <= i < |zeros| ==> zeros[i] == '0'
    ensures |before| == if f.minus || f.zero then 0 else Max(width - |sign| - |prefix| - |number|, 0)
    ensures |zeros| == if f.minus || !f.zero then 0 else Max(width - |sign| - |prefix| - |number|, 0)
    ensures |after| == if f.minus then Max(width - |sign| - |prefix| - |number|, 0) else 0
    ensures var m := if f.signed && val >= 0x8000_0000 then 0x1_0000_0000 - val else val;
            && Read(number, base) == m
            && DigitsWanted(m, base, prec, f, n) && (forall k :: 0 <= k < n ==> !DigitsWanted(m, base, prec, f, k))
            && (forall i :: 0 <= i < |number| ==> number[i] == '_' || DigitOf(number[i], base, f.upper)) && n > 0
            && |number| == n + if f.tick then (n - 1) / (if base == 16 then 4 else 3) else 0
  {
    hide Number, DigitsWanted, Read, DigitOf;
    var m := Magnitude(val, f);
    n := NumberIs(m, base, prec, f);
    number := Number(m, base, prec, f);
    sign, prefix := Sign(Negative(val, f), f), Prefix(base, f);
    var pad := Padding(f, width - |sign| - |prefix| - |number|);
    before, zeros, after := pad.0, pad.1, pad.2;
  }

  // ---------------------------------------------------------------------------------------------
  // format_int
  // ---------------------------------------------------------------------------------------------

  class Sink {
    var out: string

    constructor ()
      ensures out == ""
    {
      out := "";
    }

    method Emit(c: char)
      modifies this
      ensures out == old(out) + [c]
    {
      out := out + [c];
    }
  }

  /** A padding loop: emits c until width is down to nchars. */
  method Pad(q: Sink, c: char, width: int, nchars: int) returns (left: int)
    modifies q
    ensures q.out == old(q.out) + Fill(c, width - nchars)
    ensures left == if width > nchars then nchars else width
  {
    left := width;
    while left > nchars
      invariant left <= width && (left >= nchars || left == width)
      invariant q.out == old(q.out) + Fill(c, width - left)
    {
      q.Emit(c);
      left := left - 1;
    }
  }

  lemma {:induction false} CountPositive(v: nat, base: int)
    requires Base(base) && v > 0
    ensures Count(v, base) == 1 + Count(v / base, base)
  {
  }

  /** The counting loop. */
  method CountDigits(val: nat, base: int) returns (ndigits: nat)
    requires Base(base)
    ensures ndigits == Count(val, base)
  {
    hide Base, Fits, Count;
    NoDigits(base);
    var tmpval: nat := val;
    ndigits := 0;
    while tmpval != 0
      invariant Base(base)
      invariant ndigits + Count(tmpval, base) == Count(val, base)
    {
      DivMod(tmpval, base);
      CountPositive(tmpval, base);
      tmpval := tmpval / base;
      ndigits := ndigits + 1;
    }
  }

  lemma BodyStep(v: nat, base: int, n: nat, skip: nat, b4: nat, upper: bool, tail: string)
    requires Base(base) && skip > 0 && n > 0
    ensures var c := DigitChar(v % base, upper);
            Body(v, base, n, skip, b4, upper) + tail
            == if b4 == 0 then Body(v / base, base, n - 1, skip, skip - 1, upper) + ([c, '_'] + tail)
               else Body(v / base, base, n - 1, skip, b4 - 1, upper) + ([c] + tail)
  {
  }

  lemma MarkFirst(c: char, tail: string)
    ensures [c, '_'] + tail == [c] + (['_'] + tail)
  {
  }

  /** Puts one character in front of the digits written so far. */
  method Put(buffer: array<char>, qq: nat, total: nat, c: char) returns (next: nat)
    requires 0 < qq <= total <= buffer.Length
    modifies buffer
    ensures next == qq - 1 && buffer[next..total] == [c] + old(buffer[qq..total])
  {
    next := qq - 1;
    buffer[next] := c;
  }

  /** The loop that writes the digits into the buffer from right to left. ndigits counts the marks too; n, which
      only the proof needs, does not. */
  method Generate(buffer: array<char>, value: nat, base: int, ghost n: nat, tickskip: nat, upper: bool, total: nat)
    requires Base(base) && tickskip > 0
    requires total == Width(n, tickskip, tickskip) <= buffer.Length
    modifies buffer
    ensures buffer[..total] == Body(value, base, n, tickskip, tickskip, upper)
  {
    hide DigitChar, Base, DigitValue;
    var val: nat, ndigits: nat, qq: nat, b4tick: nat := value, total, total, tickskip;
    ghost var k, tail := n, "";
    ghost var whole := Body(value, base, n, tickskip, tickskip, upper);
    assert whole + tail == whole;
    while ndigits > 0
      invariant ndigits == qq == Width(k, tickskip, b4tick) <= total
      invariant Base(base) && buffer[qq..total] == tail
      invariant Body(val, base, k, tickskip, b4tick, upper) + tail == whole
      decreases ndigits
    {
      DivMod(val, base);
      BodyStep(val, base, k, tickskip, b4tick, upper, tail);
      ghost var c := DigitChar(val % base, upper);
      if b4tick == 0 {
        qq := Put(buffer, qq, total, '_');
        ndigits := ndigits - 1;
        b4tick := tickskip - 1;
        MarkFirst(c, tail);
        tail := ['_'] + tail;
      } else {
        b4tick := b4tick - 1;
      }
      qq := Put(buffer, qq, total, DigitChar(val % base, upper));
      ndigits := ndigits - 1;
      tail := [c] + tail;
      val := val / base;
      k := k - 1;
    }
    assert Body(val, base, 0, tickskip, b4tick, upper) + tail == tail;
    assert buffer[..total] == buffer[0..total];
  }

  /** The adjustments to the number of digits: precision, the octal "#", and a digit for zero. */
  method PrintedDigits(val: nat, base: int, precision: int, flags: Flags) returns (ndigits: int)
    requires Base(base)
    ensures ndigits == Digits(val, base, precision, flags)
  {
    hide Fits;
    var prec := precision;
    ndigits := CountDigits(val, base);
    if flags.hash && base == 8 {
      if prec < ndigits + 1 { prec := ndigits + 1; }
    }
    if ndigits < prec {
      ndigits := prec;
    } else if val == 0 {
      ndigits := 1;
    }
    NoDigits(base);
  }

  method EmitSign(q: Sink, minus: bool, base: int, flags: Flags)
    modifies q
    ensures q.out == old(q.out) + Sign(minus, flags) + Prefix(base, flags)
  {
    if minus {
      q.Emit('-');
    } else if flags.plus {
      q.Emit('+');
    } else if flags.space {
      q.Emit(' ');
    }
    assert q.out == old(q.out) + Sign(minus, flags);
    if flags.hash && base == 16 {
      q.Emit('0');
      q.Emit(if flags.upper then 'X' else 'x');
    }
  }

  /** Generates the number and copies it to the sink. */
  method EmitNumber(q: Sink, val: nat, base: int, ghost n: nat, tickskip: nat, upper: bool, ndigits: nat)
    requires Base(base) && tickskip > 0
    requires ndigits == Width(n, tickskip, tickskip) <= NDIGITS_MAX
    modifies q
    ensures q.out == old(q.out) + Body(val, base, n, tickskip, tickskip, upper)
  {
    var digitBuffer := new char[NDIGITS_MAX];
    Generate(digitBuffer, val, base, n, tickskip, upper, ndigits);
    var oo := 0;
    ghost var number := digitBuffer[..ndigits];
    while oo < ndigits
      invariant 0 <= oo <= ndigits && digitBuffer[..ndigits] == number
      invariant q.out == old(q.out) + digitBuffer[..oo]
    {
      q.Emit(digitBuffer[oo]);
      oo := oo + 1;
    }
  }

  /** How many characters the number takes, tick marks included. */
  method Sizes(val: nat, base: int, precision: int, flags: Flags) returns (ghost n: nat, tickskip: nat, ndigits: nat)
    requires Base(base)
    ensures tickskip > 0 && Number(val, base, precision, flags) == Body(val, base, n, tickskip, tickskip, flags.upper)
    ensures ndigits == Width(n, tickskip, tickskip) == |Number(val, base, precision, flags)|
  {
    hide Body, Number, Width, Digits, Fits;
    NumberWidth(val, base, precision, flags);
    WholeBody(val, base, precision, flags);
    var digits := PrintedDigits(val, base, precision, flags);
    n := digits;
    if flags.tick {
      tickskip := if base == 16 then 4 else 3;
    } else {
      tickskip := digits;
    }
    ndigits := digits + (digits - 1) / tickskip;
  }

  /** The number's characters and the sign and prefix. */
  method Characters(minus: bool, base: int, flags: Flags, ndigits: nat) returns (nchars: nat)
    ensures nchars == |Sign(minus, flags)| + |Prefix(base, flags)| + ndigits
  {
    nchars := ndigits;
    if minus || flags.plus || flags.space { nchars := nchars + 1; }
    if flags.hash && base == 16 { nchars := nchars + 2; }
  }

  /** format_int writes exactly the field, and returns 0 whatever it wrote. */
  method Format(q: Sink, value: nat, flags: Flags, base: int, fieldWidth: int, precision: int) returns (o: nat)
    requires value < WORD && Base(base)
    requires |Number(Magnitude(value, flags), base, precision, flags)| <= NDIGITS_MAX
    modifies q
    ensures q.out == old(q.out) + Field(value, flags, base, fieldWidth, precision)
    ensures o == 0
  {
    hide Body, Number, DigitChar, Count, Width, Digits, Sign, Prefix, Padding, Fits, Fill;
    o := 0;
    var val: nat, width := value, fieldWidth;
    var minus := false;
    if flags.signed && val >= WORD / 2 {
      minus := true;
      val := WORD - val;
    }
    ghost var number := Number(val, base, precision, flags);
    ghost var sign, prefix := Sign(minus, flags), Prefix(base, flags);
    ghost var pad := Padding(flags, fieldWidth - |sign| - |prefix| - |number|);

    ghost var n;
    var tickskip, ndigits;
    n, tickskip, ndigits := Sizes(val, base, precision, flags);
    var nchars := Characters(minus, base, flags, ndigits);
    PaddingIs(flags, fieldWidth - |sign| - |prefix| - |number|);

    ghost var before := q.out;
    NothingAdded(before);
    if !(flags.minus || flags.zero) {
      width := Pad(q, ' ', width, nchars);
    }
    assert q.out == before + pad.0;
    EmitSign(q, minus, base, flags);
    ghost var middle := q.out;
    NothingAdded(middle);
    if !flags.minus && flags.zero && width > ndigits {
      width := Pad(q, '0', width, nchars);
    }
    assert q.out == middle + pad.1;
    EmitNumber(q, val, base, n, tickskip, flags.upper, ndigits);
    ghost var late := q.out;
    NothingAdded(late);
    if flags.minus {
      width := Pad(q, ' ', width, nchars);
    }
    assert q.out == late + pad.2;
    Joined(before, pad.0, sign, prefix, pad.1, number, pad.2);
  }

  lemma NothingAdded(s: string)
    ensures s + "" == s
  {
  }

  lemma Joined(s: string, a: string, b: string, c: string, d: string, e: string, f: string)
    ensures s + a + b + c + d + e + f == s + (a + b + c + d + e + f)
  {
    assert s + a + b + c + d + e + f == s + a + b + c + d + (e + f);
    assert s + a + b + c + d + (e + f) == s + a + b + (c + d + (e + f));
    assert s + a + b + (c + d + (e + f)) == s + (a + b + (c + d + (e + f)));
    assert a + b + c + d + e + f == a + b + (c + d + (e + f));
  }

  lemma PaddingIs(f: Flags, missing: int)
    ensures Padding(f, missing).0 == if f.minus || f.zero then "" else Fill(' ', missing)
    ensures Padding(f, missing).1 == if !f.minus && f.zero then Fill('0', missing) else ""
    ensures Padding(f, missing).2 == if f.minus then Fill(' ', missing) else ""
    ensures missing <= 0 ==> Fill(' ', missing) == Fill('0', missing) == ""
  {
  }

  lemma NoDigits(base: int)
    requires Base(base)
    ensures Count(0, base) == 0
  {
  }

  lemma WholeBody(m: nat, base: int, prec: int, f: Flags)
    requires Base(base)
    ensures var n := Digits(m, base, prec, f); var skip := Skip(n, base, f);
            skip > 0 && Number(m, base, prec, f) == Body(m, base, n, skip, skip, f.upper)
  {
  }

  // ---------------------------------------------------------------------------------------------
  // atoi
  // ---------------------------------------------------------------------------------------------

  predicate IsDigit(c: char) {
    '0' <= c <= '9'
  }

  /** The decimal digits a string starts with. */
  function Leading(s: string): (d: string)
    ensures d <= s && forall i :: 0 <= i < |d| ==> IsDigit(d[i])
    ensures |d| < |s| ==> !IsDigit(s[|d|])
  {
    if s == "" || !IsDigit(s[0]) then "" else [s[0]] + Leading(s[1..])
  }

  lemma {:induction false} LeadingIs(d: string, rest: string)
    requires forall i :: 0 <= i < |d| ==> IsDigit(d[i])
    requires rest != "" ==> !IsDigit(rest[0])
    ensures Leading(d + rest) == d
  {
    if d == "" {
      assert d + rest == rest;
    } else {
      assert (d + rest)[1..] == d[1..] + rest;
      LeadingIs(d[1..], rest);
    }
  }

  lemma DecimalValue(c: char)
    requires IsDigit(c)
    ensures DigitValue(c) == c as int - '0' as int
  {
  }

  /** The value of the leading digits, in a 32-bit int. */
  method Atoi(buf: string) returns (ret: int)
    ensures -WORD / 2 <= ret < WORD / 2
    ensures (Read(Leading(buf), 10) - ret) % WORD == 0
  {
    hide Read, Leading, Wrap, DigitValue;
    ReadEmpty(10);
    ret := 0;
    var i := 0;
    ghost var k := 0;
    while i < |buf| && '0' <= buf[i] <= '9'
      invariant 0 <= i <= |buf| && forall j :: 0 <= j < i ==> IsDigit(buf[j])
      invariant -WORD / 2 <= ret < WORD / 2 && Read(buf[..i], 10) == ret + k * WORD
    {
      ReadDigit(buf[..i], buf[i], 10);
      DecimalValue(buf[i]);
      assert buf[..i + 1] == buf[..i] + [buf[i]];
      var next := ret * 10 + (buf[i] as int - '0' as int);
      ret, k := Wrap(next), 10 * k + (next - Wrap(next)) / WORD;
      i := i + 1;
    }
    LeadingIs(buf[..i], buf[i..]);
    assert buf == buf[..i] + buf[i..];
  }

  function Wrap(x: int): (w: int)
    ensures -WORD / 2 <= w < WORD / 2 && (x - w) % WORD == 0
  {
    (x + WORD / 2) % WORD - WORD / 2
  }

  lemma WrapUnique(x: int, w: int)
    requires 0 <= x < WORD / 2 && -WORD / 2 <= w < WORD / 2 && (x - w) % WORD == 0
    ensures w == x
  {
  }

  lemma {:induction false} DecimalDigits(v: nat, n: nat, skip: nat, b4: nat, upper: bool)
    requires skip > 0 && n <= b4
    ensures forall i :: 0 <= i < |Body(v, 10, n, skip, b4, upper)| ==> IsDigit(Body(v, 10, n, skip, b4, upper)[i])
    decreases n
  {
    if n > 0 { DecimalDigits(v / 10, n - 1, skip, b4 - 1, upper); }
  }

  lemma PaddingDigits(f: Flags, missing: int)
    ensures var pad := Padding(f, missing); var before := pad.0 + Sign(false, f);
            && (before != "" ==> !IsDigit(before[0])) && (pad.2 != "" ==> !IsDigit(pad.2[0]))
            && forall i :: 0 <= i < |pad.1| ==> IsDigit(pad.1[i])
  {
  }

  lemma FieldParts(val: nat, f: Flags, width: int, prec: int)
    requires val < WORD / 2
    ensures var number := Number(val, 10, prec, f); var pad := Padding(f, width - |Sign(false, f)| - |number|);
            Field(val, f, 10, width, prec) == pad.0 + Sign(false, f) + ((pad.1 + number) + pad.2)
  {
    hide Number, Padding, Sign;
    var number := Number(val, 10, prec, f);
    var pad := Padding(f, width - |Sign(false, f)| - |number|);
    assert Prefix(10, f) == "";
    NothingAdded(pad.0 + Sign(false, f));
    Joined(pad.0 + Sign(false, f), "", "", "", pad.1, number, pad.2);
    assert "" + "" + "" + pad.1 == pad.1;
  }

  lemma {:induction false} LeadingAfter(a: string, b: string)
    requires forall i :: 0 <= i < |a| ==> IsDigit(a[i])
    ensures Leading(a + b) == a + Leading(b)
    decreases |a|
  {
    if a == "" {
      assert a + b == b;
    } else {
      assert (a + b)[1..] == a[1..] + b;
      LeadingAfter(a[1..], b);
    }
  }

  lemma LeadingBefore(b: string, c: string)
    requires c != "" ==> !IsDigit(c[0])
    ensures Leading(b + c) == Leading(b)
  {
    var d := Leading(b);
    assert b == d + b[|d|..];
    assert b + c == d + (b[|d|..] + c);
    LeadingIs(d, b[|d|..] + c);
  }

  /** What atoi sees in a decimal field: the digits of the number up to its first mark, or nothing if anything was
      put before them. */
  lemma SeenByAtoi(val: nat, f: Flags, width: int, prec: int)
    requires val < WORD / 2
    ensures var pad := Padding(f, width - |Sign(false, f)| - |Number(val, 10, prec, f)|);
            Leading(Field(val, f, 10, width, prec))
            == if pad.0 + Sign(false, f) == "" then pad.1 + Leading(Number(val, 10, prec, f)) else ""
  {
    hide Number, Leading, Sign, Padding, Fill, IsDigit, Field;
    var number := Number(val, 10, prec, f);
    var pad := Padding(f, width - |Sign(false, f)| - |number|);
    var before := pad.0 + Sign(false, f);
    var field := Field(val, f, 10, width, prec);
    PaddingDigits(f, width - |Sign(false, f)| - |number|);
    FieldParts(val, f, width, prec);
    if before == "" {
      assert field == (pad.1 + number) + pad.2;
      LeadingBefore(pad.1 + number, pad.2);
      LeadingAfter(pad.1, number);
    } else {
      LeadingIs("", field);
      assert "" + field == field;
    }
  }

  lemma {:induction false} ReadGrows(a: string, b: string)
    ensures Read(a + b, 10) >= Read(a, 10) >= 0
    decreases |a| + |b|
  {
    if b != "" {
      assert (a + b)[..|a + b| - 1] == a + b[..|b| - 1];
      ReadGrows(a, b[..|b| - 1]);
    } else {
      assert a + b == a;
      if a != "" {
        ReadGrows(a[..|a| - 1], "");
        assert a[..|a| - 1] + "" == a[..|a| - 1];
      }
    }
  }

  /** What stands before the first mark: everything, or so little that ten of it are no more than the value. */
  lemma FirstGroup(val: nat, f: Flags, prec: int)
    requires val < WORD / 2
    ensures var number := Number(val, 10, prec, f);
            if f.tick && Digits(val, 10, prec, f) > 3 then 0 <= 10 * Read(Leading(number), 10) <= val
            else Leading(number) == number
  {
    hide Number, Digits, Leading, Read, Body;
    var number := Number(val, 10, prec, f);
    var n := Digits(val, 10, prec, f);
    var skip := Skip(n, 10, f);
    WholeBody(val, 10, prec, f);
    NumberWidth(val, 10, prec, f);
    if f.tick && n > 3 {
      var d, m := Leading(number), |number| - 1;
      NumberTicks(val, 10, prec, f, 3);
      NumberTicks(val, 10, prec, f, 0);
      assert forall i :: 0 <= i < |d| ==> IsDigit(number[i]) && d[i] == number[i];
      assert number[..m] == d + number[|d|..m];
      ReadGrows(d, number[|d|..m]);
      assert number == number[..m] + [number[m]];
      ReadDigit(number[..m], number[m], 10);
      ReadsBack(val, 10, n, skip, skip, f.upper);
    } else {
      DecimalDigits(val, n, skip, skip, f.upper);
      LeadingIs(number, "");
      assert number + "" == number;
    }
  }

  /** What atoi makes of a decimal field that begins with its digits. */
  lemma ReadOfSeen(val: nat, f: Flags, width: int, prec: int)
    requires val < WORD / 2
    ensures var number := Number(val, 10, prec, f);
            var pad := Padding(f, width - |Sign(false, f)| - |number|);
            Read(pad.1 + Leading(number), 10) == Read(Leading(number), 10) && Read(number, 10) == val
  {
    hide Number, Digits, Leading, Read, Body;
    var number := Number(val, 10, prec, f);
    var n := Digits(val, 10, prec, f);
    WholeBody(val, 10, prec, f);
    ReadsBack(val, 10, n, Skip(n, 10, f), Skip(n, 10, f), f.upper);
    var missing := width - |Sign(false, f)| - |number|;
    ReadZeros(Max(missing, 0), Leading(number), 10);
    assert "" + Leading(number) == Leading(number);
    assert Fill('0', Max(missing, 0)) == Fill('0', missing);
  }

  /** atoi undoes a decimal field exactly if nothing was put before its digits and no mark among them, or if the
      value is 0. */
  lemma AtoiUndoes(val: nat, f: Flags, width: int, prec: int, ret: int)
    requires val < WORD / 2
    requires -WORD / 2 <= ret < WORD / 2
    requires (Read(Leading(Field(val, f, 10, width, prec)), 10) - ret) % WORD == 0
    ensures ret == val
            <==> val == 0
                 || (!f.plus && !f.space && (f.minus || f.zero || width <= |Number(val, 10, prec, f)|)
                     && (!f.tick || Digits(val, 10, prec, f) <= 3))
  {
    hide Number, Digits, Leading, Field, Read, Fill;
    SeenByAtoi(val, f, width, prec);
    FirstGroup(val, f, prec);
    ReadOfSeen(val, f, width, prec);
    ReadEmpty(10);
    EmptyFill(width - |Sign(false, f)| - |Number(val, 10, prec, f)|);
    WrapUnique(Read(Leading(Field(val, f, 10, width, prec)), 10), ret);
  }

  lemma EmptyFill(missing: int)
    ensures Fill(' ', missing) == "" <==> missing <= 0
  {
  }

  /** 1000 with marks is 1_000, of which atoi reads 1. */
  lemma AtoiStopsAtMarks(f: Flags, ret: int)
    requires f.tick && !f.plus && !f.space && -WORD / 2 <= ret < WORD / 2
    requires (Read(Leading(Field(1000, f, 10, 0, 0)), 10) - ret) % WORD == 0
    ensures ret != 1000
  {
    assert Count(1000, 10) == 4;
    AtoiUndoes(1000, f, 0, 0, ret);
  }
}
