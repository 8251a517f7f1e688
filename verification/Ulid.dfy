/** Event identities: ULIDs, written through a 64-bit accumulator that wraps.
    `Encode` is the canonical representation: the time in ten base-32 digits, then the eighty random
    bits in sixteen. */
module Ulid {
  import opened Names

  const CROCKFORD := "0123456789ABCDEFGHJKMNPQRSTVWXYZ"
  const TWO64: nat := 0x1_0000_0000_0000_0000

  const TIME_DIGITS: nat := 10
  const RANDOM_DIGITS: nat := 16
  const RANDOM_BYTES: nat := 10

  type Byte = b: nat | b < 256
  type Digit = d: nat | d < 32

  function Pow(base: nat, k: nat): nat {
    if k == 0 then 1 else base * Pow(base, k - 1)
  }

  /** The last `k` base-32 digits of a number, most significant first. */
  function ToDigits(n: nat, k: nat): (r: seq<Digit>)
    ensures |r| == k
  {
    if k == 0 then [] else ToDigits(n / 32, k - 1) + [n % 32]
  }

  function Number(digits: seq<Digit>): nat {
    if digits == [] then 0 else Number(digits[..|digits| - 1]) * 32 + digits[|digits| - 1]
  }

  /** The first `j` bytes as one big-endian number. */
  function Big(bytes: seq<Byte>, j: nat := |bytes|): nat
    requires j <= |bytes|
  {
    if j == 0 then 0 else Big(bytes, j - 1) * 256 + bytes[j - 1]
  }

  function ToBytes(n: nat, k: nat): (r: seq<Byte>)
    ensures |r| == k
  {
    if k == 0 then [] else ToBytes(n / 256, k - 1) + [n % 256]
  }

  /** The alphabet leaves out I, L, O and U. */
  function Symbol(d: Digit): char {
    if d < 10 then '0' + d as char
    else if d < 18 then 'A' + (d - 10) as char
    else if d < 20 then 'J' + (d - 18) as char
    else if d < 22 then 'M' + (d - 20) as char
    else if d < 27 then 'P' + (d - 22) as char
    else 'V' + (d - 27) as char
  }

  lemma AlphabetSymbol(d: Digit)
    ensures CROCKFORD[d] == Symbol(d)
  {
  }

  function Symbols(digits: seq<Digit>): (r: string)
    ensures |r| == |digits|
  {
    if digits == [] then "" else Symbols(digits[..|digits| - 1]) + [Symbol(digits[|digits| - 1])]
  }

  function Encode(ms: nat, random: seq<Byte>): string {
    Symbols(ToDigits(ms, TIME_DIGITS)) + Symbols(ToDigits(Big(random), RANDOM_DIGITS))
  }

  // ---- decoding ----

  function DigitOf(c: char): Digit {
    if '0' <= c <= '9' then (c - '0') as int
    else if 'A' <= c <= 'H' then 10 + (c - 'A') as int
    else if 'J' <= c <= 'K' then 18 + (c - 'J') as int
    else if 'M' <= c <= 'N' then 20 + (c - 'M') as int
    else if 'P' <= c <= 'T' then 22 + (c - 'P') as int
    else if 'V' <= c <= 'Z' then 27 + (c - 'V') as int
    else 0
  }

  lemma SymbolDigit(d: Digit)
    ensures DigitOf(Symbol(d)) == d
  {
  }

  lemma SymbolsOrdered(d: Digit, e: Digit)
    requires d < e
    ensures Symbol(d) < Symbol(e)
  {
  }

  function Digits(s: string): (r: seq<Digit>)
    ensures |r| == |s|
  {
    if s == "" then [] else Digits(s[..|s| - 1]) + [DigitOf(s[|s| - 1])]
  }

  lemma {:induction false} DigitsOfSymbols(digits: seq<Digit>)
    ensures Digits(Symbols(digits)) == digits
  {
    if digits != [] {
      var front, last := digits[..|digits| - 1], digits[|digits| - 1];
      DigitsOfSymbols(front);
      SymbolDigit(last);
      assert Symbols(digits)[..|digits| - 1] == Symbols(front);
      assert digits == front + [last];
    }
  }

  /** The time and the random bytes a representation stands for. */
  function Decode(id: string): (nat, seq<Byte>)
    requires |id| >= TIME_DIGITS
  {
    (Number(Digits(id[..TIME_DIGITS])), ToBytes(Number(Digits(id[TIME_DIGITS..])), RANDOM_BYTES))
  }

  lemma DecodeSymbols(time: seq<Digit>, rest: seq<Digit>)
    requires |time| == TIME_DIGITS
    ensures Decode(Symbols(time) + Symbols(rest)) == (Number(time), ToBytes(Number(rest), RANDOM_BYTES))
  {
    var id := Symbols(time) + Symbols(rest);
    assert id[..TIME_DIGITS] == Symbols(time) && id[TIME_DIGITS..] == Symbols(rest);
    DigitsOfSymbols(time);
    DigitsOfSymbols(rest);
  }

  // ---- numbers and digits ----

  /** What is left of a number when its last `k` digits are dropped. */
  function Dropped(n: nat, k: nat): nat {
    if k == 0 then n else Dropped(n / 32, k - 1)
  }

  lemma MulRegroup(a: nat, b: nat)
    ensures 32 * (a * b) == a * (32 * b)
  {
  }

  lemma {:induction false} NumberOfDigits(n: nat, k: nat)
    ensures n == Dropped(n, k) * Pow(32, k) + Number(ToDigits(n, k))
  {
    if k == 0 {
      assert Dropped(n, 0) * Pow(32, 0) == n;
    } else {
      NumberOfDigits(n / 32, k - 1);
      assert ToDigits(n, k)[..k - 1] == ToDigits(n / 32, k - 1);
      MulRegroup(Dropped(n / 32, k - 1), Pow(32, k - 1));
    }
  }

  lemma {:induction false} NumberBelow(digits: seq<Digit>)
    ensures Number(digits) < Pow(32, |digits|)
  {
    if digits != [] { NumberBelow(digits[..|digits| - 1]); }
  }

  lemma {:induction false} BytesOfBig(bytes: seq<Byte>, j: nat)
    requires j <= |bytes|
    ensures ToBytes(Big(bytes, j), j) == bytes[..j]
  {
    if j > 0 {
      BytesOfBig(bytes, j - 1);
      assert Big(bytes, j) / 256 == Big(bytes, j - 1) && Big(bytes, j) % 256 == bytes[j - 1];
      assert bytes[..j] == bytes[..j - 1] + [bytes[j - 1]];
    }
  }

  lemma {:induction false} BigBelow(bytes: seq<Byte>, j: nat)
    requires j <= |bytes|
    ensures Big(bytes, j) < Pow(256, j)
  {
    if j > 0 { BigBelow(bytes, j - 1); }
  }

  const TWO50: nat := 0x4_0000_0000_0000
  const TWO80: nat := 0x1_0000_0000_0000_0000_0000

  /** Ten bytes fill sixteen digits exactly; ten digits hold fifty bits. */
  lemma Widths()
    ensures Pow(256, RANDOM_BYTES) == Pow(32, RANDOM_DIGITS) == TWO80 && Pow(32, TIME_DIGITS) == TWO50
  {
    assert Pow(256, 2) == 0x1_0000;
    assert Pow(256, 4) == 0x1_0000_0000;
    assert Pow(256, 6) == 0x1_0000_0000_0000;
    assert Pow(256, 8) == 0x1_0000_0000_0000_0000;
    assert Pow(32, 2) == 0x400;
    assert Pow(32, 4) == 0x10_0000;
    assert Pow(32, 6) == 0x4000_0000;
    assert Pow(32, 8) == 0x100_0000_0000;
    assert Pow(32, 10) == TWO50;
    assert Pow(32, 12) == 0x1000_0000_0000_0000;
    assert Pow(32, 14) == 0x40_0000_0000_0000_0000;
  }

  lemma MulZero(a: nat, b: nat, n: nat)
    requires n < b && a * b <= n
    ensures a == 0
  {
  }

  lemma FullDigits(n: nat, k: nat)
    requires n < Pow(32, k)
    ensures Number(ToDigits(n, k)) == n
  {
    NumberOfDigits(n, k);
    MulZero(Dropped(n, k), Pow(32, k), n);
  }

  lemma TimeDigits(ms: nat)
    ensures Number(ToDigits(ms, TIME_DIGITS)) == ms % TWO50
  {
    Widths();
    NumberOfDigits(ms, TIME_DIGITS);
    NumberBelow(ToDigits(ms, TIME_DIGITS));
  }

  lemma RandomFits(random: seq<Byte>)
    requires |random| == RANDOM_BYTES
    ensures Big(random) < Pow(32, RANDOM_DIGITS)
  {
    Widths();
    BigBelow(random, RANDOM_BYTES);
  }

  lemma RandomDigits(random: seq<Byte>)
    requires |random| == RANDOM_BYTES
    ensures ToBytes(Number(ToDigits(Big(random), RANDOM_DIGITS)), RANDOM_BYTES) == random
  {
    RandomFits(random);
    FullDigits(Big(random), RANDOM_DIGITS);
    BytesOfBig(random, RANDOM_BYTES);
    assert random[..RANDOM_BYTES] == random;
  }

  /** Every time keeps its low fifty bits, and the random bytes come back. */
  lemma RoundTrip(ms: nat, random: seq<Byte>)
    requires |random| == RANDOM_BYTES
    ensures Decode(Encode(ms, random)) == (ms % TWO50, random)
  {
    TimeDigits(ms);
    RandomDigits(random);
    DecodeSymbols(ToDigits(ms, TIME_DIGITS), ToDigits(Big(random), RANDOM_DIGITS));
  }

  /** Every time the ULID specification admits comes back whole. */
  lemma TimeComesBack(ms: nat, random: seq<Byte>)
    requires ms < 0x1_0000_0000_0000 && |random| == RANDOM_BYTES
    ensures Decode(Encode(ms, random)) == (ms, random)
  {
    RoundTrip(ms, random);
  }

  // ---- order ----

  lemma {:induction false} LessExtends(a: string, b: string, x: string, y: string)
    requires |a| == |b| && Less(a, b)
    ensures Less(a + x, b + y)
    decreases |a|
  {
    if a != [] && a[0] == b[0] {
      LessExtends(a[1..], b[1..], x, y);
      assert (a + x)[1..] == a[1..] + x && (b + y)[1..] == b[1..] + y;
    }
  }

  lemma {:induction false} LessAfter(p: string, c: char, d: char)
    requires c < d
    ensures Less(p + [c], p + [d])
    decreases |p|
  {
    if p != [] {
      LessAfter(p[1..], c, d);
      assert (p + [c])[1..] == p[1..] + [c] && (p + [d])[1..] == p[1..] + [d];
    }
  }

  /** Digit strings of one length sort as the numbers they spell. */
  lemma {:induction false} NumbersSort(a: seq<Digit>, b: seq<Digit>)
    requires |a| == |b| && Number(a) < Number(b)
    ensures Less(Symbols(a), Symbols(b))
    decreases |a|
  {
    if a != [] {
      var front, front' := a[..|a| - 1], b[..|b| - 1];
      if Number(front) < Number(front') {
        NumbersSort(front, front');
        LessExtends(Symbols(front), Symbols(front'), [Symbol(a[|a| - 1])], [Symbol(b[|b| - 1])]);
      } else {
        SameNumber(front, front');
        SymbolsOrdered(a[|a| - 1], b[|b| - 1]);
        LessAfter(Symbols(front), Symbol(a[|a| - 1]), Symbol(b[|b| - 1]));
      }
    }
  }

  lemma {:induction false} SameNumber(a: seq<Digit>, b: seq<Digit>)
    requires |a| == |b| && Number(a) == Number(b)
    ensures a == b
    decreases |a|
  {
    if a != [] {
      SameNumber(a[..|a| - 1], b[..|b| - 1]);
      assert a == a[..|a| - 1] + [a[|a| - 1]] && b == b[..|b| - 1] + [b[|b| - 1]];
    }
  }

  lemma DigitsSort(n: nat, n': nat, k: nat)
    requires n < n' < Pow(32, k)
    ensures Less(Symbols(ToDigits(n, k)), Symbols(ToDigits(n', k)))
  {
    FullDigits(n, k);
    FullDigits(n', k);
    NumbersSort(ToDigits(n, k), ToDigits(n', k));
  }

  /** An earlier time gives a lexicographically smaller identity, whatever the random bytes are. */
  lemma TimesSort(ms: nat, ms': nat, random: seq<Byte>, random': seq<Byte>)
    requires ms < ms' < TWO50
    ensures Less(Encode(ms, random), Encode(ms', random'))
  {
    var time, time' := ToDigits(ms, TIME_DIGITS), ToDigits(ms', TIME_DIGITS);
    Widths();
    DigitsSort(ms, ms', TIME_DIGITS);
    LessExtends(Symbols(time), Symbols(time'),
                Symbols(ToDigits(Big(random), RANDOM_DIGITS)), Symbols(ToDigits(Big(random'), RANDOM_DIGITS)));
  }

  lemma {:induction false} SymbolsInAlphabet(digits: seq<Digit>, i: nat)
    requires i < |digits|
    ensures Symbols(digits)[i] in CROCKFORD
  {
    if i < |digits| - 1 { SymbolsInAlphabet(digits[..|digits| - 1], i); } else { AlphabetSymbol(digits[i]); }
  }

  /** Twenty-six characters of the alphabet. */
  lemma Wellformed(ms: nat, random: seq<Byte>, i: nat)
    ensures |Encode(ms, random)| == 26
    ensures i < 26 ==> Encode(ms, random)[i] in CROCKFORD
  {
    if i < TIME_DIGITS {
      SymbolsInAlphabet(ToDigits(ms, TIME_DIGITS), i);
    } else if i < 26 {
      SymbolsInAlphabet(ToDigits(Big(random), RANDOM_DIGITS), i - TIME_DIGITS);
    }
  }

  // ---- the generator ----

  /** `x >> k`. */
  function Shr(x: nat, k: nat): nat {
    if k == 0 then x else Shr(x / 2, k - 1)
  }

  /** `x << 8 | b` on 64 bits: the low byte of the shifted word is free. */
  function Push(x: nat, b: Byte): nat {
    x * 256 % TWO64 + b
  }

  lemma {:induction false} ShrShr(x: nat, j: nat, k: nat)
    ensures Shr(Shr(x, j), k) == Shr(x, j + k)
  {
    if j > 0 { ShrShr(x / 2, j - 1, k); }
  }

  lemma ShrTwo(x: nat)
    ensures Shr(x, 2) == x / 4
  {
    assert Shr(x, 2) == Shr(x / 2, 1) == Shr(x / 2 / 2, 0);
  }

  lemma ShrFour(x: nat)
    ensures Shr(x, 4) == x / 16
  {
    ShrTwo(x);
    ShrTwo(x / 4);
    ShrShr(x, 2, 2);
  }

  lemma ShrFive(x: nat)
    ensures Shr(x, 5) == x / 32
  {
    ShrFour(x);
    ShrShr(x, 4, 1);
    assert Shr(x / 16, 1) == x / 16 / 2;
  }

  lemma ShrEight(v: nat, b: Byte)
    ensures Shr(v * 256 + b, 8) == v
  {
    var x := v * 256 + b;
    ShrFour(x);
    ShrFour(x / 16);
    ShrShr(x, 4, 4);
  }

  /** Pushing a byte onto the word is pushing it onto the whole number, modulo 2^64. */
  lemma PushWraps(v: nat, b: Byte)
    ensures Push(v % TWO64, b) == (v * 256 + b) % TWO64
  {
    var q, r := v / TWO64, v % TWO64;
    assert v * 256 + b == 256 * q * TWO64 + (r * 256 + b);
    assert (r * 256) % 256 == 0;
  }

  lemma {:induction false} ShrSum(x: nat, y: nat, k: nat)
    ensures Shr(x + y * Pow(2, k), k) == Shr(x, k) + y
  {
    if k > 0 {
      var p := Pow(2, k - 1);
      assert y * Pow(2, k) == 2 * (y * p);
      assert (x + 2 * (y * p)) / 2 == x / 2 + y * p;
      ShrSum(x / 2, y, k - 1);
    }
  }

  lemma MulAssociates(a: nat, b: nat, c: nat)
    ensures a * (b * c) == a * b * c
  {
  }

  lemma ShrSkips(r: nat, q: nat, unit: nat, bits: nat)
    ensures Shr(r + q * (unit * Pow(2, bits)), bits) == Shr(r, bits) + q * unit
  {
    MulAssociates(q, unit, Pow(2, bits));
    ShrSum(r, q * unit, bits);
  }

  lemma WrapAt(v: nat, bits: nat, m: nat)
    requires 32 * m * Pow(2, bits) == TWO64
    ensures Shr(v % TWO64, bits) % 32 == Shr(v, bits) % 32
  {
    var q, r := v / TWO64, v % TWO64;
    assert v == r + q * TWO64;
    ShrSkips(r, q, 32 * m, bits);
    MulRegroup(q, m);
    AddThirtyTwos(Shr(r, bits), q * m);
  }

  lemma AddThirtyTwos(a: nat, b: nat)
    ensures (a + 32 * b) % 32 == a % 32
  {
  }

  /** The five bits read from the wrapping word are those of the whole number. */
  lemma WrapHarmless(v: nat, bits: nat)
    requires bits <= 7
    ensures Shr(v % TWO64, bits) % 32 == Shr(v, bits) % 32
  {
    SmallPowers();
    WrapAt(v, bits,
           if bits == 0 then 0x800_0000_0000_0000
           else if bits == 1 then 0x400_0000_0000_0000
           else if bits == 2 then 0x200_0000_0000_0000
           else if bits == 3 then 0x100_0000_0000_0000
           else if bits == 4 then 0x80_0000_0000_0000
           else if bits == 5 then 0x40_0000_0000_0000
           else if bits == 6 then 0x20_0000_0000_0000
           else 0x10_0000_0000_0000);
  }

  lemma SmallPowers()
    ensures Pow(2, 0) == 1 && Pow(2, 1) == 2 && Pow(2, 2) == 4 && Pow(2, 3) == 8
    ensures Pow(2, 4) == 16 && Pow(2, 5) == 32 && Pow(2, 6) == 64 && Pow(2, 7) == 128
  {
  }

  lemma {:induction false} SymbolsAppend(a: seq<Digit>, b: seq<Digit>)
    ensures Symbols(a + b) == Symbols(a) + Symbols(b)
    decreases |b|
  {
    if b == [] {
      assert a + b == a;
    } else {
      var front := b[..|b| - 1];
      assert (a + b)[..|a + b| - 1] == a + front;
      SymbolsAppend(a, front);
    }
  }

  method Letter(d: Digit) returns (c: char)
    ensures c == Symbol(d)
  {
    AlphabetSymbol(d);
    c := CROCKFORD[d];
  }

  /** The time loop, from the last digit to the first. */
  method WriteTime(out: array<char>, now: nat)
    requires out.Length == 26
    modifies out
    ensures out[..TIME_DIGITS] == Symbols(ToDigits(now, TIME_DIGITS))
  {
    var ms := now;
    ghost var suffix: seq<Digit> := [];
    for i := TIME_DIGITS downto 0
      invariant ToDigits(now, TIME_DIGITS) == ToDigits(ms, i) + suffix
      invariant |suffix| == TIME_DIGITS - i && out[i..TIME_DIGITS] == Symbols(suffix)
    {
      var d: Digit := ms % 32;
      ghost var before := out[i + 1..TIME_DIGITS];
      out[i] := Letter(d);
      assert out[i..TIME_DIGITS] == [Symbol(d)] + before;
      SymbolsAppend([d], suffix);
      assert Symbols([d]) == [Symbol(d)];
      assert ToDigits(ms, i + 1) + suffix == ToDigits(ms / 32, i) + ([d] + suffix);
      suffix := [d] + suffix;
      ms := ms / 32;
    }
    assert suffix == ToDigits(now, TIME_DIGITS) && out[0..TIME_DIGITS] == out[..TIME_DIGITS];
  }

  /** What is written when all but the last `bits` bits of `v` have become `p` digits. */
  function Written(v: nat, bits: nat, p: nat): string {
    Symbols(ToDigits(Shr(v, bits), p))
  }

  /** The digit read from the wrapping word is the next one of the whole number. */
  lemma WrittenStep(v: nat, bits: nat, p: nat)
    requires bits <= 7
    ensures Written(v, bits, p + 1) == Written(v, bits + 5, p) + [Symbol(Shr(v % TWO64, bits) % 32)]
  {
    var x := Shr(v, bits);
    ShrShr(v, bits, 5);
    ShrFive(x);
    WrapHarmless(v, bits);
    SymbolsLast(ToDigits(x / 32, p), x % 32);
  }

  lemma SymbolsLast(front: seq<Digit>, d: Digit)
    ensures Symbols(front + [d]) == Symbols(front) + [Symbol(d)]
  {
    assert (front + [d])[..|front|] == front;
  }

  /** The inner loop: five bits at a time come out of the accumulator. */
  method Drain(out: array<char>, value: nat, bits0: nat, pos0: nat, ghost v: nat) returns (bits: nat, pos: nat)
    requires out.Length == 26 && TIME_DIGITS <= pos0 && bits0 <= 12 && 5 * (pos0 - TIME_DIGITS) + bits0 <= 80
    requires value == v % TWO64
    requires out[TIME_DIGITS..pos0] == Written(v, bits0, pos0 - TIME_DIGITS)
    modifies out
    ensures bits < 5 && TIME_DIGITS <= pos <= 26 && 5 * pos + bits == 5 * pos0 + bits0
    ensures out[TIME_DIGITS..pos] == Written(v, bits, pos - TIME_DIGITS)
    ensures out[..TIME_DIGITS] == old(out[..TIME_DIGITS])
  {
    bits, pos := bits0, pos0;
    while bits >= 5
      invariant bits <= 12 && TIME_DIGITS <= pos <= 26 && 5 * pos + bits == 5 * pos0 + bits0
      invariant out[TIME_DIGITS..pos] == Written(v, bits, pos - TIME_DIGITS)
      invariant out[..TIME_DIGITS] == old(out[..TIME_DIGITS])
    {
      bits := bits - 5;
      ghost var before := out[TIME_DIGITS..pos];
      out[pos] := Letter(Shr(value, bits) % 32);
      assert out[TIME_DIGITS..pos + 1] == before + [out[pos]];
      WrittenStep(v, bits, pos - TIME_DIGITS);
      pos := pos + 1;
    }
  }

  lemma PushStep(v: nat, b: Byte, bits: nat)
    ensures Shr(v * 256 + b, bits + 8) == Shr(v, bits)
  {
    ShrEight(v, b);
    ShrShr(v * 256 + b, 8, bits);
  }

  /** The random loop: bytes go into the accumulator. */
  method WriteRandom(out: array<char>, random: seq<Byte>)
    requires out.Length == 26 && |random| == RANDOM_BYTES
    modifies out
    ensures out[..TIME_DIGITS] == old(out[..TIME_DIGITS])
    ensures out[TIME_DIGITS..] == Symbols(ToDigits(Big(random), RANDOM_DIGITS))
  {
    var value, bits: nat, pos: nat := 0, 0, TIME_DIGITS;
    for k := 0 to |random|
      invariant bits < 5 && TIME_DIGITS <= pos <= 26 && 8 * k == 5 * (pos - TIME_DIGITS) + bits
      invariant value == Big(random, k) % TWO64
      invariant out[TIME_DIGITS..pos] == Written(Big(random, k), bits, pos - TIME_DIGITS)
      invariant out[..TIME_DIGITS] == old(out[..TIME_DIGITS])
    {
      PushWraps(Big(random, k), random[k]);
      PushStep(Big(random, k), random[k], bits);
      value := Push(value, random[k]);
      bits, pos := Drain(out, value, bits + 8, pos, Big(random, k + 1));
    }
    assert bits == 0 && pos == 26 && out[TIME_DIGITS..pos] == out[TIME_DIGITS..];
  }

  /** `newAdmissionEventULID`, with the clock reading and the random bytes as arguments. */
  method NewAdmissionEventULID(now: nat, random: seq<Byte>) returns (id: string)
    requires now < TWO64 && |random| == RANDOM_BYTES
    ensures id == Encode(now, random)
  {
    var out := new char[26];
    WriteTime(out, now);
    WriteRandom(out, random);
    id := out[..];
    assert id == out[..TIME_DIGITS] + out[TIME_DIGITS..];
  }
}
