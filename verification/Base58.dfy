/** Base58 decoding (backend/src/services/authService.ts:240-282): the decoding algorithm
    of section 4 of the Internet-Draft draft-msporny-base58-03. */
module Base58 {
  import opened Orders

  /** The alphabet, cut where it leaves out a character: there is no 0, O, I or l. */
  const ALPHABET: string := "123456789" + "ABCDEFGH" + "JKLMN" + "PQRSTUVWXYZ" + "abcdefghijk" + "mnopqrstuvwxyz"

  /** Each piece of the alphabet is a run of consecutive characters, so ALPHABET.indexOf is
      a distance from the start of a run; -1 for any other character. */
  function IndexOf(c: char): (v: int)
    ensures -1 <= v < 58
  {
    if '1' <= c <= '9' then c as int - '1' as int
    else if 'A' <= c <= 'H' then c as int - 'A' as int + 9
    else if 'J' <= c <= 'N' then c as int - 'J' as int + 17
    else if 'P' <= c <= 'Z' then c as int - 'P' as int + 22
    else if 'a' <= c <= 'k' then c as int - 'a' as int + 33
    else if 'm' <= c <= 'z' then c as int - 'm' as int + 44
    else -1
  }

  /** The character at a position of the alphabet. */
  function CharAt(v: nat): (c: char)
    requires v < 58
    ensures IndexOf(c) == v
  {
    if v < 9 then ('1' as int + v) as char
    else if v < 17 then ('A' as int + v - 9) as char
    else if v < 22 then ('J' as int + v - 17) as char
    else if v < 33 then ('P' as int + v - 22) as char
    else if v < 44 then ('a' as int + v - 33) as char
    else ('m' as int + v - 44) as char
  }

  lemma CharAtIndexOf(c: char)
    requires IndexOf(c) >= 0
    ensures CharAt(IndexOf(c)) == c
  {
  }

  function Letters(c: char, n: nat): string
    requires c as int + n <= 128
  {
    seq(n, i requires 0 <= i < n => (c as int + i) as char)
  }

  lemma AlphabetPieces()
    ensures ALPHABET ==
            Letters('1', 9) + Letters('A', 8) + Letters('J', 5) + Letters('P', 11) + Letters('a', 11) + Letters('m', 14)
  {
    assert Letters('1', 9) == "123456789";
    assert Letters('A', 8) == "ABCDEFGH";
    assert Letters('J', 5) == "JKLMN";
    assert Letters('P', 11) == "PQRSTUVWXYZ";
    assert Letters('a', 11) == "abcdefghijk";
    assert Letters('m', 14) == "mnopqrstuvwxyz";
  }

  lemma AlphabetAt(v: nat)
    requires v < 58
    ensures |ALPHABET| == 58 && ALPHABET[v] == CharAt(v)
  {
    AlphabetPieces();
  }

  /** IndexOf is the position in the alphabet, for every character. */
  lemma IndexOfIsPosition(c: char)
    ensures |ALPHABET| == 58
    ensures if c in ALPHABET then IndexOf(c) >= 0 && ALPHABET[IndexOf(c)] == c else IndexOf(c) == -1
  {
    AlphabetAt(0);
    if IndexOf(c) >= 0 {
      CharAtIndexOf(c);
      AlphabetAt(IndexOf(c));
    }
    forall v | 0 <= v < 58 && ALPHABET[v] == c
      ensures IndexOf(c) == v
    {
      AlphabetAt(v);
    }
  }

  predicate InAlphabet(s: string) {
    forall i :: 0 <= i < |s| ==> IndexOf(s[i]) >= 0
  }

  function DigitsOfString(s: string): seq<int>
    requires InAlphabet(s)
  {
    seq(|s|, i requires 0 <= i < |s| => IndexOf(s[i]))
  }

  /** The number that a digit sequence denotes, most significant digit first. */
  function Value(base: nat, ds: seq<int>): int {
    if ds == [] then 0 else base * Value(base, ds[..|ds| - 1]) + ds[|ds| - 1]
  }

  function StringValue(s: string): int
    requires InAlphabet(s)
  {
    Value(58, DigitsOfString(s))
  }

  predicate IsBytes(b: seq<int>) {
    forall i :: 0 <= i < |b| ==> 0 <= b[i] < 256
  }

  /** The number that a byte string denotes, least significant byte first. */
  function LittleEndian(b: seq<int>): int {
    if b == [] then 0 else b[0] + 256 * LittleEndian(b[1..])
  }

  /** The number that a byte string denotes, most significant byte first. */
  function BigEndian(b: seq<int>): int {
    Value(256, b)
  }

  function Reverse<T>(s: seq<T>): (r: seq<T>)
    ensures |r| == |s|
    ensures forall i :: 0 <= i < |s| ==> r[i] == s[|s| - 1 - i]
  {
    if s == [] then [] else Reverse(s[1..]) + [s[0]]
  }

  function Zeros(n: nat): (z: seq<int>)
    ensures |z| == n && forall i :: 0 <= i < n ==> z[i] == 0
  {
    seq(n, _ => 0)
  }

  /** How many leading '1's the string has. */
  function LeadingOnes(s: string): (n: nat)
    ensures n <= |s|
    ensures forall i :: 0 <= i < n ==> s[i] == '1'
    ensures n < |s| ==> s[n] != '1'
  {
    if s != [] && s[0] == '1' then
      assert forall i :: 1 <= i < |s| ==> s[i] == s[1..][i - 1];
      1 + LeadingOnes(s[1..])
    else 0
  }

  function LeadingZeros(b: seq<int>): (n: nat)
    ensures n <= |b|
    ensures forall i :: 0 <= i < n ==> b[i] == 0
    ensures n < |b| ==> b[n] != 0
  {
    if b != [] && b[0] == 0 then
      assert forall i :: 1 <= i < |b| ==> b[i] == b[1..][i - 1];
      1 + LeadingZeros(b[1..])
    else 0
  }

  // ------------------------------------------------------------- sums of digit sequences

  lemma {:induction false} LittleEndianAppend(b: seq<int>, d: int)
    ensures LittleEndian(b + [d]) == LittleEndian(b) + d * Pow256(|b|)
  {
    if b == [] {
      assert [d][1..] == [];
    } else {
      LittleEndianAppend(b[1..], d);
      assert (b + [d])[1..] == b[1..] + [d];
      assert Pow256(|b|) == 256 * Pow256(|b| - 1);
      assert 256 * (d * Pow256(|b| - 1)) == d * Pow256(|b|);
    }
  }

  function Pow256(n: nat): (p: nat)
    ensures p >= 1
  {
    if n == 0 then 1 else 256 * Pow256(n - 1)
  }

  lemma {:induction false} ReversedValue(b: seq<int>)
    ensures BigEndian(Reverse(b)) == LittleEndian(b)
  {
    if b != [] {
      ReversedValue(b[1..]);
      assert Reverse(b)[..|b| - 1] == Reverse(b[1..]);
    }
  }

  lemma {:induction false} ValueOfPadded(base: nat, n: nat, ds: seq<int>)
    ensures Value(base, Zeros(n) + ds) == Value(base, ds)
  {
    if ds == [] {
      if n > 0 {
        ValueOfPadded(base, n - 1, ds);
        assert (Zeros(n) + ds)[..n - 1] == Zeros(n - 1) + ds;
      }
    } else {
      ValueOfPadded(base, n, ds[..|ds| - 1]);
      assert (Zeros(n) + ds)[..n + |ds| - 1] == Zeros(n) + ds[..|ds| - 1];
    }
  }

  // ------------------------------------------------------------------------- the decoder

  /** After the digits so far, the working bytes hold their value with no superfluous
      high byte. */
  ghost predicate Working(bytes: seq<int>, value: nat) {
    && |bytes| >= 1 && IsBytes(bytes)
    && LittleEndian(bytes) == value
    && (|bytes| == 1 || bytes[|bytes| - 1] != 0)
  }

  /** Multiplying by 58, adding the digit and propagating the carry, in place. No entry
      ever reaches 2^31, so the shifts and masks of the original act as division and
      remainder. */
  method PushDigit(bytes0: seq<int>, digit: nat, ghost value: nat) returns (bytes: seq<int>)
    requires Working(bytes0, value) && digit < 58
    ensures Working(bytes, 58 * value + digit)
  {
    var raised := ScaleAndAdd(bytes0, digit);
    RaisedValue(bytes0, raised, digit);
    var carry;
    bytes, carry := PropagateCarry(raised);
    bytes := PushCarry(bytes, carry);
  }

  method ScaleAndAdd(bytes0: seq<int>, digit: nat) returns (bytes: seq<int>)
    requires |bytes0| >= 1
    ensures |bytes| == |bytes0| && bytes[0] == 58 * bytes0[0] + digit
    ensures forall k :: 1 <= k < |bytes| ==> bytes[k] == 58 * bytes0[k]
  {
    bytes := bytes0;
    for i := 0 to |bytes|
      invariant |bytes| == |bytes0|
      invariant forall k :: 0 <= k < i ==> bytes[k] == 58 * bytes0[k]
      invariant forall k :: i <= k < |bytes| ==> bytes[k] == bytes0[k]
    {
      bytes := bytes[i := bytes[i] * 58];
    }
    bytes := bytes[0 := bytes[0] + digit];
  }

  method PropagateCarry(raised: seq<int>) returns (bytes: seq<int>, carry: nat)
    requires |raised| >= 1 && forall k :: 0 <= k < |raised| ==> 0 <= raised[k] <= 255 * 58 + 57
    ensures |bytes| == |raised| && IsBytes(bytes)
    ensures LittleEndian(bytes + [carry]) == LittleEndian(raised)
    ensures raised[|raised| - 1] > 0 && carry == 0 ==> bytes[|bytes| - 1] != 0
  {
    bytes := raised;
    carry := 0;
    NoCarryLeft(bytes[..0]);
    for i := 0 to |bytes|
      invariant |bytes| == |raised|
      invariant forall k :: 0 <= k < i ==> 0 <= bytes[k] < 256
      invariant forall k :: i <= k < |bytes| ==> bytes[k] == raised[k]
      invariant 0 <= carry <= 58
      invariant LittleEndian(bytes[..i] + [carry]) == LittleEndian(raised[..i])
      invariant i == |bytes| && carry == 0 && raised[i - 1] > 0 ==> bytes[i - 1] != 0
    {
      CarryEntry(bytes, raised, i, carry);
      var sum := bytes[i] + carry;
      assert sum < 0x8000_0000;
      carry := sum / 256;
      bytes := bytes[i := sum % 256];
    }
    assert bytes[..|bytes|] == bytes && raised[..|raised|] == raised;
  }

  method PushCarry(bytes0: seq<int>, carry0: nat) returns (bytes: seq<int>)
    requires |bytes0| >= 1 && IsBytes(bytes0)
    requires carry0 == 0 && |bytes0| > 1 ==> bytes0[|bytes0| - 1] != 0
    ensures |bytes| >= 1 && IsBytes(bytes)
    ensures LittleEndian(bytes) == LittleEndian(bytes0 + [carry0])
    ensures |bytes| > 1 ==> bytes[|bytes| - 1] != 0
  {
    bytes := bytes0;
    var carry := carry0;
    while carry != 0
      invariant |bytes| >= 1 && IsBytes(bytes)
      invariant LittleEndian(bytes + [carry]) == LittleEndian(bytes0 + [carry0])
      invariant carry == 0 ==> |bytes| == 1 || bytes[|bytes| - 1] != 0
      decreases carry
    {
      SpillCarry(bytes, carry);
      bytes := bytes + [carry % 256];
      carry := carry / 256;
    }
    NoCarryLeft(bytes);
  }

  lemma {:induction false} ScaledValue(b: seq<int>, scaled: seq<int>)
    requires |scaled| == |b| && forall k :: 0 <= k < |b| ==> scaled[k] == 58 * b[k]
    ensures LittleEndian(scaled) == 58 * LittleEndian(b)
  {
    if b != [] {
      ScaledValue(b[1..], scaled[1..]);
    }
  }

  lemma RaisedValue(b: seq<int>, raised: seq<int>, digit: nat)
    requires |raised| == |b| >= 1 && raised[0] == 58 * b[0] + digit
    requires forall k :: 1 <= k < |b| ==> raised[k] == 58 * b[k]
    ensures LittleEndian(raised) == 58 * LittleEndian(b) + digit
  {
    ScaledValue(b[1..], raised[1..]);
  }

  lemma CarryStep(done: int, raised: int, entry: int, carry: int, p: nat)
    requires done + carry * p == raised
    ensures done + ((entry + carry) % 256) * p + ((entry + carry) / 256) * (256 * p) == raised + entry * p
  {
    var sum := entry + carry;
    var q, r := sum / 256, sum % 256;
    assert sum == 256 * q + r;
    assert r * p + q * (256 * p) == sum * p;
    assert sum * p == entry * p + carry * p;
  }

  /** One entry of the carry pass: the bytes done so far and the carry still hold the
      value of the raised digits up to here. */
  lemma CarryEntry(bytes: seq<int>, raised: seq<int>, i: nat, carry: int)
    requires i < |bytes| == |raised| && bytes[i] == raised[i]
    requires LittleEndian(bytes[..i] + [carry]) == LittleEndian(raised[..i])
    ensures var sum := bytes[i] + carry;
            LittleEndian(bytes[i := sum % 256][..i + 1] + [sum / 256]) == LittleEndian(raised[..i + 1])
  {
    var sum := bytes[i] + carry;
    assert bytes[i := sum % 256][..i + 1] == bytes[..i] + [sum % 256];
    assert raised[..i + 1] == raised[..i] + [raised[i]];
    LittleEndianAppend(bytes[..i], carry);
    LittleEndianAppend(bytes[..i], sum % 256);
    LittleEndianAppend(bytes[..i] + [sum % 256], sum / 256);
    LittleEndianAppend(raised[..i], raised[i]);
    CarryStep(LittleEndian(bytes[..i]), LittleEndian(raised[..i]), raised[i], carry, Pow256(i));
  }

  lemma SpillCarry(bytes: seq<int>, carry: nat)
    ensures LittleEndian(bytes + [carry % 256] + [carry / 256]) == LittleEndian(bytes + [carry])
  {
    var p := Pow256(|bytes|);
    LittleEndianAppend(bytes, carry);
    LittleEndianAppend(bytes, carry % 256);
    LittleEndianAppend(bytes + [carry % 256], carry / 256);
    CarryStep(-(carry * p), 0, 0, carry, p);
  }

  lemma NoCarryLeft(bytes: seq<int>)
    ensures LittleEndian(bytes + [0]) == LittleEndian(bytes)
  {
    LittleEndianAppend(bytes, 0);
  }

  /** What the decoder promises: the value of the string, and a zero byte for each leading
      '1'; a string without any other character gets one zero byte more. */
  ghost predicate Decodes(s: string, r: seq<int>)
    requires InAlphabet(s)
  {
    && IsBytes(r)
    && BigEndian(r) == StringValue(s)
    && LeadingZeros(r) == LeadingOnes(s) + if LeadingOnes(s) == |s| then 1 else 0
  }

  method Base58ToBytes(base58: string) returns (r: Option<seq<int>>)
    ensures r.Some? <==> InAlphabet(base58)
    ensures r.Some? ==> Decodes(base58, r.value)
  {
    var bytes := [0];
    assert LittleEndian([0][1..]) == 0;
    for n := 0 to |base58|
      invariant InAlphabet(base58[..n])
      invariant StringValue(base58[..n]) >= 0 && Working(bytes, StringValue(base58[..n]))
    {
      var value := IndexOf(base58[n]);
      if value == -1 {
        return None;
      }
      assert DigitsOfString(base58[..n + 1])[..n] == DigitsOfString(base58[..n]);
      bytes := PushDigit(bytes, value, StringValue(base58[..n]));
    }
    assert base58[..|base58|] == base58;
    ghost var working := bytes;
    var i := 0;
    while i < |base58| && base58[i] == '1'
      invariant 0 <= i <= LeadingOnes(base58)
      invariant bytes == working + Zeros(i)
    {
      bytes := bytes + [0];
      i := i + 1;
    }
    r := Some(Reverse(bytes));
    OnesAreZeroDigits(base58);
    ZeroExactlyWhenAllZero(58, DigitsOfString(base58));
    DecodedShape(working, i, StringValue(base58));
  }

  lemma ReversePadded(b: seq<int>, n: nat)
    ensures Reverse(b + Zeros(n)) == Zeros(n) + Reverse(b)
  {
  }

  /** The count of leading zeros is the only one that fits. */
  lemma LeadingZerosIs(r: seq<int>, n: nat)
    requires n <= |r| && (forall i :: 0 <= i < n ==> r[i] == 0) && (n < |r| ==> r[n] != 0)
    ensures LeadingZeros(r) == n
  {
  }

  lemma DecodedShape(working: seq<int>, n: nat, value: nat)
    requires Working(working, value)
    ensures var r := Reverse(working + Zeros(n));
            IsBytes(r) && BigEndian(r) == value && LeadingZeros(r) == n + if value == 0 then 1 else 0
  {
    var r := Reverse(working + Zeros(n));
    ReversePadded(working, n);
    ValueOfPadded(256, n, Reverse(working));
    ReversedValue(working);
    TopByteNonZero(working, value);
    if value == 0 {
      LeadingZerosIs(r, n + 1);
    } else {
      LeadingZerosIs(r, n);
    }
  }

  /** A working value is zero exactly when it is the single zero byte. */
  lemma TopByteNonZero(b: seq<int>, value: nat)
    requires Working(b, value)
    ensures value == 0 <==> b == [0]
    ensures value > 0 ==> b[|b| - 1] != 0
  {
    assert LittleEndian([0][1..]) == 0;
    var n := |b| - 1;
    LittleEndianAppend(b[..n], b[n]);
    assert b == b[..n] + [b[n]];
    NonNegative(b[..n]);
    assert b[n] > 0 ==> b[n] * Pow256(n) > 0;
  }

  lemma {:induction false} NonNegative(b: seq<int>)
    requires IsBytes(b)
    ensures LittleEndian(b) >= 0
  {
    if b != [] {
      NonNegative(b[1..]);
    }
  }

  // ------------------------------------------------------- digit sequences are determined

  ghost predicate AreDigits(base: nat, ds: seq<int>) {
    base >= 2 && forall i :: 0 <= i < |ds| ==> 0 <= ds[i] < base
  }

  lemma {:induction false} ZeroExactlyWhenAllZero(base: nat, ds: seq<int>)
    requires AreDigits(base, ds)
    ensures Value(base, ds) >= 0
    ensures Value(base, ds) == 0 <==> LeadingZeros(ds) == |ds|
  {
    if ds != [] {
      var n := |ds| - 1;
      ZeroExactlyWhenAllZero(base, ds[..n]);
      var z := LeadingZeros(ds[..n]);
      if z < n {
        assert ds[z] != 0 && LeadingZeros(ds) <= z;
      }
    }
  }

  /** The minimal digits of a number. */
  function DigitsOf(base: nat, v: nat): seq<int>
    requires base >= 2
  {
    if v == 0 then [] else DigitsOf(base, v / base) + [v % base]
  }

  lemma ValueAppend(base: nat, ds: seq<int>, d: int)
    ensures Value(base, ds + [d]) == base * Value(base, ds) + d
  {
    assert (ds + [d])[..|ds|] == ds;
  }

  lemma {:induction false} DigitsOfValue(base: nat, v: nat)
    requires base >= 2
    ensures AreDigits(base, DigitsOf(base, v)) && Value(base, DigitsOf(base, v)) == v
  {
    if v != 0 {
      QuotientSmaller(base, v);
      DigitsOfValue(base, v / base);
      ValueAppend(base, DigitsOf(base, v / base), v % base);
    }
  }

  lemma QuotientSmaller(base: nat, v: nat)
    requires base >= 2 && v > 0
    ensures 0 <= v / base < v && 0 <= v % base < base && v == base * (v / base) + v % base
  {
  }

  lemma {:induction false} DigitsOfMinimal(base: nat, v: nat)
    requires base >= 2 && v > 0
    ensures DigitsOf(base, v) != [] && DigitsOf(base, v)[0] != 0
  {
    var q := v / base;
    QuotientSmaller(base, v);
    if q > 0 {
      DigitsOfMinimal(base, q);
      assert DigitsOf(base, v)[0] == DigitsOf(base, q)[0];
    } else {
      assert DigitsOf(base, v) == [v % base];
    }
  }

  /** A digit sequence is its leading zeros followed by the minimal digits of its value. */
  lemma {:induction false} DigitsDetermined(base: nat, ds: seq<int>)
    requires AreDigits(base, ds)
    ensures Value(base, ds) >= 0 && ds == Zeros(LeadingZeros(ds)) + DigitsOf(base, Value(base, ds))
  {
    ZeroExactlyWhenAllZero(base, ds);
    var zeros := Zeros(LeadingZeros(ds));
    if LeadingZeros(ds) < |ds| {
      var n := |ds| - 1;
      DigitsDetermined(base, ds[..n]);
      LeadingZerosIs(ds[..n], LeadingZeros(ds));
      var v := Value(base, ds[..n]);
      DigitsAppend(base, v, ds[n]);
      assert ds == zeros + DigitsOf(base, v) + [ds[n]];
    } else {
      assert ds == zeros;
    }
  }

  lemma DigitsAppend(base: nat, v: nat, d: nat)
    requires base >= 2 && d < base && base * v + d > 0
    ensures DigitsOf(base, base * v + d) == DigitsOf(base, v) + [d]
  {
    DivideDigit(base, v, d);
  }

  lemma DivideDigit(base: nat, v: nat, d: nat)
    requires base >= 2 && d < base
    ensures (base * v + d) / base == v && (base * v + d) % base == d
  {
    var q, r := (base * v + d) / base, (base * v + d) % base;
    assert base * v + d == base * q + r;
    MultiplesApart(q, v, base);
    MultiplesApart(v, q, base);
    assert base * v == v * base && base * q == q * base;
  }

  lemma OnesAreZeroDigits(s: string)
    requires InAlphabet(s)
    ensures AreDigits(58, DigitsOfString(s))
    ensures LeadingZeros(DigitsOfString(s)) == LeadingOnes(s)
  {
    var ds := DigitsOfString(s);
    forall i | 0 <= i < |s|
      ensures 0 <= ds[i] < 58 && (ds[i] == 0 <==> s[i] == '1')
    {
    }
  }

  // --------------------------------------------------------- injectivity and the inverse

  /** No two strings decode to the same bytes. */
  lemma DecodingIsInjective(s: string, t: string, r: seq<int>)
    requires InAlphabet(s) && InAlphabet(t) && Decodes(s, r) && Decodes(t, r)
    ensures s == t
  {
    OnesAreZeroDigits(s);
    OnesAreZeroDigits(t);
    ZeroExactlyWhenAllZero(58, DigitsOfString(s));
    ZeroExactlyWhenAllZero(58, DigitsOfString(t));
    DigitsDetermined(58, DigitsOfString(s));
    DigitsDetermined(58, DigitsOfString(t));
    assert DigitsOfString(s) == DigitsOfString(t);
    assert |s| == |DigitsOfString(s)| && |t| == |DigitsOfString(t)|;
    forall i | 0 <= i < |s|
      ensures s[i] == t[i]
    {
      assert DigitsOfString(s)[i] == DigitsOfString(t)[i];
      CharAtIndexOf(s[i]);
      CharAtIndexOf(t[i]);
    }
  }

  /** No string decodes to two byte strings: the contract determines the result. */
  lemma DecodingIsDetermined(s: string, r: seq<int>, r': seq<int>)
    requires InAlphabet(s) && Decodes(s, r) && Decodes(s, r')
    ensures r == r'
  {
    DigitsDetermined(256, r);
    DigitsDetermined(256, r');
  }

  /** The digits that the minimal encoder writes: one zero digit for each leading zero
      byte, then the base-58 digits of the value. */
  function EncodedDigits(b: seq<int>): (ds: seq<int>)
    requires IsBytes(b)
    ensures AreDigits(58, ds)
  {
    ZeroExactlyWhenAllZero(256, b);
    DigitsOfValue(58, BigEndian(b));
    Zeros(LeadingZeros(b)) + DigitsOf(58, BigEndian(b))
  }

  function Spell(ds: seq<int>): (s: string)
    requires AreDigits(58, ds)
    ensures InAlphabet(s) && DigitsOfString(s) == ds
  {
    seq(|ds|, i requires 0 <= i < |ds| => CharAt(ds[i]))
  }

  function Encode(b: seq<int>): string
    requires IsBytes(b)
  {
    Spell(EncodedDigits(b))
  }

  lemma SpellDigitsOfString(s: string)
    requires InAlphabet(s)
    ensures AreDigits(58, DigitsOfString(s)) && Spell(DigitsOfString(s)) == s
  {
    forall i | 0 <= i < |s|
      ensures Spell(DigitsOfString(s))[i] == s[i]
    {
      CharAtIndexOf(s[i]);
    }
  }

  /** Encoding undoes decoding exactly on the strings with a character other than '1'; a
      string of '1's alone comes back one '1' longer. */
  lemma EncodeAfterDecode(s: string, r: seq<int>)
    requires InAlphabet(s) && Decodes(s, r)
    ensures Encode(r) == s <==> LeadingOnes(s) < |s|
    ensures LeadingOnes(s) == |s| ==> |Encode(r)| == |s| + 1 && LeadingOnes(Encode(r)) == |s| + 1
  {
    var ds := DigitsOfString(s);
    OnesAreZeroDigits(s);
    ZeroExactlyWhenAllZero(58, ds);
    DigitsDetermined(58, ds);
    SpellDigitsOfString(s);
    if LeadingOnes(s) < |s| {
      assert EncodedDigits(r) == ds;
    } else {
      assert DigitsOf(58, 0) == [];
      assert EncodedDigits(r) == Zeros(|s| + 1);
      LeadingZerosIs(EncodedDigits(r), |s| + 1);
      OnesAreZeroDigits(Encode(r));
      assert |Encode(r)| == |DigitsOfString(Encode(r))|;
    }
  }

  /** Decoding undoes encoding exactly on the byte strings with a non-zero byte. */
  lemma DecodeAfterEncode(b: seq<int>)
    requires IsBytes(b)
    ensures InAlphabet(Encode(b))
    ensures Decodes(Encode(b), b) <==> LeadingZeros(b) < |b|
  {
    var s, v := Encode(b), BigEndian(b);
    ZeroExactlyWhenAllZero(256, b);
    DigitsOfValue(58, v);
    ValueOfPadded(58, LeadingZeros(b), DigitsOf(58, v));
    OnesAreZeroDigits(s);
    assert |s| == |EncodedDigits(b)|;
    if v > 0 {
      DigitsOfMinimal(58, v);
    }
    LeadingZerosIs(EncodedDigits(b), LeadingZeros(b));
  }
}
