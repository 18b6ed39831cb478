/** The base-58 check that decides whether a text is the address of a 32-byte key. */
module Base58 {

  /** The conversion works for any 58 characters; only their number and the zero digit matter. */
  type Alphabet = a: string | |a| == 58 && a[0] == '1' witness seq(58, _ => '1')

  const ALPHABET: Alphabet :=
    "123456789" + "ABCDEFGH" + "JKLMN" + "PQRSTUVWXYZ" + "abcdefghijk" + "mnopqrstuvwxyz"

  predicate Alphanumeric(c: char) {
    '0' <= c <= '9' || 'A' <= c <= 'Z' || 'a' <= c <= 'z'
  }

  /** The digits and letters in the order of their codes, without those that look alike. */
  lemma AlphabetIsInOrder()
    ensures forall i, j :: 0 <= i < j < 58 ==> ALPHABET[i] < ALPHABET[j]
    ensures forall c :: c in ALPHABET <==> Alphanumeric(c) && c !in "0OIl"
  {
    RunsAreRuns();
    JoinedRuns("123456789", "ABCDEFGH", "JKLMN", "PQRSTUVWXYZ", "abcdefghijk", "mnopqrstuvwxyz", ALPHABET);
    InOrder(ALPHABET);
  }

  /** Consecutive codes from the first. */
  predicate Run(s: string, first: char) {
    forall i :: 0 <= i < |s| ==> s[i] as int == first as int + i
  }

  lemma RunsAreRuns()
    ensures Run("123456789", '1') && Run("ABCDEFGH", 'A') && Run("JKLMN", 'J') && Run("PQRSTUVWXYZ", 'P')
    ensures Run("abcdefghijk", 'a') && Run("mnopqrstuvwxyz", 'm')
  {
  }

  function Skipped(i: int): int {
    if i < 9 then 0 else if i < 17 then 7 else if i < 22 then 8 else if i < 33 then 9 else if i < 44 then 15 else 16
  }

  predicate InRuns(alphabet: string) {
    |alphabet| == 58 && forall i :: 0 <= i < 58 ==> alphabet[i] as int == '1' as int + Skipped(i) + i
  }

  lemma JoinedRuns(a: string, b: string, c: string, d: string, e: string, f: string, alphabet: string)
    requires Run(a, '1') && Run(b, 'A') && Run(c, 'J') && Run(d, 'P') && Run(e, 'a') && Run(f, 'm')
    requires |a| == 9 && |b| == 8 && |c| == 5 && |d| == 11 && |e| == 11 && |f| == 14
    requires alphabet == a + b + c + d + e + f
    ensures InRuns(alphabet)
  {
  }

  lemma InOrder(alphabet: string)
    requires InRuns(alphabet)
    ensures forall i, j :: 0 <= i < j < 58 ==> alphabet[i] < alphabet[j]
    ensures forall c :: c in alphabet <==> Alphanumeric(c) && c !in "0OIl"
  {
    forall c | Alphanumeric(c) && c !in "0OIl" ensures c in alphabet {
      var code := c as int - '1' as int;
      var i := code - if c <= '9' then 0 else if c <= 'H' then 7 else if c <= 'N' then 8 else if c <= 'Z' then 9 else if c <= 'k' then 15 else 16;
      assert alphabet[i] == c;
    }
  }

  /** The position of c in s, or -1. */
  function IndexOf(s: string, c: char): (r: int)
    ensures -1 <= r < |s|
    ensures r >= 0 ==> s[r] == c
    ensures r < 0 <==> c !in s
  {
    if s == [] then -1
    else if s[0] == c then 0
    else
      var r := IndexOf(s[1..], c);
      assert s == [s[0]] + s[1..];
      if r < 0 then -1 else r + 1
  }

  predicate Written(alphabet: Alphabet, text: string) {
    forall i :: 0 <= i < |text| ==> text[i] in alphabet
  }

  type Digit = d: nat | d < 58

  /** The digits of a text over the alphabet; the digit zero is written '1'. */
  function Digits(alphabet: Alphabet, text: string): (digits: seq<Digit>)
    requires Written(alphabet, text)
    ensures |digits| == |text|
    ensures forall i :: 0 <= i < |text| ==> digits[i] == IndexOf(alphabet, text[i])
  {
    seq(|text|, i requires 0 <= i < |text| => IndexOf(alphabet, text[i]))
  }

  /** The number that digits denote, most significant first. */
  function Value(digits: seq<Digit>): (v: nat) {
    if digits == [] then 0 else 58 * Value(digits[..|digits| - 1]) + digits[|digits| - 1]
  }

  /** The shortest base-256 form of n, least significant byte first. */
  function ToBytes(n: nat): (bytes: seq<nat>) {
    if n == 0 then [] else [n % 256] + ToBytes(n / 256)
  }

  function FromBytes(bytes: seq<nat>): nat {
    if bytes == [] then 0 else bytes[0] + 256 * FromBytes(bytes[1..])
  }

  function Reverse(bytes: seq<nat>): (r: seq<nat>)
    ensures |r| == |bytes|
    ensures forall i :: 0 <= i < |r| ==> r[i] == bytes[|bytes| - 1 - i]
  {
    if bytes == [] then [] else Reverse(bytes[1..]) + [bytes[0]]
  }

  function LeadingZeros(digits: seq<nat>): (n: nat)
    ensures n <= |digits|
    ensures forall i :: 0 <= i < n ==> digits[i] == 0
    ensures n < |digits| ==> digits[n] != 0
  {
    if digits != [] && digits[0] == 0 then 1 + LeadingZeros(digits[1..]) else 0
  }

  /** Base-58 decoding: a zero byte for each leading zero digit, then the value, big end first. */
  function DecodeDigits(digits: seq<Digit>): (key: seq<nat>)
    ensures |key| == LeadingZeros(digits) + |ToBytes(Value(digits))|
  {
    seq(LeadingZeros(digits), _ => 0) + Reverse(ToBytes(Value(digits)))
  }

  function Decode(alphabet: Alphabet, text: string): (key: seq<nat>)
    requires Written(alphabet, text)
  {
    DecodeDigits(Digits(alphabet, text))
  }

  /** The address of the all-zero key. */
  const ZERO_KEY: string := seq(32, _ => '1')

  // ----- The in-place conversion -----

  /** What one digit does to the bytes: multiply by 58 and add carry. */
  function MulAdd(bytes: seq<nat>, carry: nat): seq<nat> {
    if bytes == [] then ToBytes(carry)
    else [(carry + bytes[0] * 58) % 256] + MulAdd(bytes[1..], (carry + bytes[0] * 58) / 256)
  }

  lemma {:induction false} MulAddMultiplies(n: nat, carry: nat)
    ensures MulAdd(ToBytes(n), carry) == ToBytes(58 * n + carry)
  {
    if n > 0 {
      var low := carry + n % 256 * 58;
      assert ToBytes(n)[1..] == ToBytes(n / 256);
      MulAddMultiplies(n / 256, low / 256);
      assert 58 * n + carry == 256 * (58 * (n / 256)) + low;
      assert (58 * n + carry) / 256 == 58 * (n / 256) + low / 256;
      assert (58 * n + carry) % 256 == low % 256;
    }
  }

  lemma {:induction false} ToBytesAreBytes(n: nat)
    ensures forall i :: 0 <= i < |ToBytes(n)| ==> ToBytes(n)[i] < 256
    ensures n > 0 ==> ToBytes(n) != [] && ToBytes(n)[|ToBytes(n)| - 1] > 0
    ensures FromBytes(ToBytes(n)) == n
  {
    if n > 0 {
      ToBytesAreBytes(n / 256);
      assert ToBytes(n)[1..] == ToBytes(n / 256);
    }
  }

  /** It multiplies the number that any bytes denote, and leaves bytes. */
  lemma {:induction false} MulAddIsTheProduct(bytes: seq<nat>, carry: nat)
    ensures FromBytes(MulAdd(bytes, carry)) == 58 * FromBytes(bytes) + carry
    ensures forall i :: 0 <= i < |MulAdd(bytes, carry)| ==> MulAdd(bytes, carry)[i] < 256
  {
    if bytes == [] {
      ToBytesAreBytes(carry);
    } else {
      var low := carry + bytes[0] * 58;
      MulAddIsTheProduct(bytes[1..], low / 256);
      assert MulAdd(bytes, carry)[1..] == MulAdd(bytes[1..], low / 256);
    }
  }

  /** The bytes that the loop holds for a value: a single zero stands for nothing read yet. */
  function Held(n: nat): seq<nat> {
    if n == 0 then [0] else ToBytes(n)
  }

  lemma HeldStep(n: nat, digit: nat)
    requires digit < 58
    ensures MulAdd(Held(n), digit) == Held(58 * n + digit)
  {
    if n == 0 {
      assert MulAdd([0], digit) == [digit] + MulAdd([], 0);
      assert digit > 0 ==> ToBytes(digit) == [digit] + ToBytes(0);
    } else {
      MulAddMultiplies(n, digit);
    }
  }

  lemma MulAddStep(done: seq<nat>, byte: nat, todo: seq<nat>, carry: nat)
    ensures var sum := carry + byte * 58;
      done + MulAdd([byte] + todo, carry) == (done + [sum % 256]) + MulAdd(todo, sum / 256)
  {
    assert ([byte] + todo)[1..] == todo;
  }

  lemma ToBytesStep(bytes: seq<nat>, carry: nat)
    requires carry > 0
    ensures bytes + ToBytes(carry) == (bytes + [carry % 256]) + ToBytes(carry / 256)
  {
  }

  /** One digit of the conversion, byte by byte; the carry between bytes never exceeds 57. */
  method AddDigit(before: seq<nat>, digit: Digit) returns (bytes: seq<nat>)
    requires forall i :: 0 <= i < |before| ==> before[i] < 256
    ensures bytes == MulAdd(before, digit)
    ensures FromBytes(bytes) == 58 * FromBytes(before) + digit
    ensures forall i :: 0 <= i < |bytes| ==> bytes[i] < 256
  {
    MulAddIsTheProduct(before, digit);
    bytes := before;
    var carry: nat := digit;
    for index := 0 to |bytes|
      invariant |bytes| == |before| && bytes[index..] == before[index..]
      invariant bytes[..index] + MulAdd(before[index..], carry) == MulAdd(before, digit)
      invariant carry <= 57
    {
      assert before[index..] == [before[index]] + before[index + 1..] && bytes[index] == bytes[index..][0];
      MulAddStep(bytes[..index], before[index], before[index + 1..], carry);
      ghost var done := bytes[..index];
      carry := carry + bytes[index] * 58;
      bytes := bytes[index := carry % 256];
      assert bytes[..index + 1] == done + [carry % 256];
      carry := carry / 256;
    }
    assert bytes[..|bytes|] == bytes;
    while carry > 0
      invariant bytes + ToBytes(carry) == MulAdd(before, digit)
    {
      ToBytesStep(bytes, carry);
      bytes := bytes + [carry % 256];
      carry := carry / 256;
    }
  }

  /** The characters read so far are the given digits. */
  ghost predicate HasRead(alphabet: Alphabet, value: string, digits: seq<Digit>) {
    |digits| <= |value| && forall i :: 0 <= i < |digits| ==> digits[i] == IndexOf(alphabet, value[i])
  }

  lemma ReadOne(alphabet: Alphabet, value: string, digits: seq<Digit>, digit: Digit)
    requires HasRead(alphabet, value, digits) && |digits| < |value| && digit == IndexOf(alphabet, value[|digits|])
    ensures HasRead(alphabet, value, digits + [digit])
  {
  }

  lemma HeldAfter(digits: seq<Digit>, digit: Digit)
    ensures MulAdd(Held(Value(digits)), digit) == Held(Value(digits + [digit]))
  {
    assert (digits + [digit])[..|digits|] == digits;
    assert Value(digits + [digit]) == 58 * Value(digits) + digit;
    HeldStep(Value(digits), digit);
  }

  lemma ReadAll(alphabet: Alphabet, value: string, digits: seq<Digit>)
    requires HasRead(alphabet, value, digits) && |digits| == |value|
    ensures Written(alphabet, value) && digits == Digits(alphabet, value)
  {
    assert forall i :: 0 <= i < |value| ==> digits[i] >= 0;
  }

  lemma OneIsTheZeroDigit(alphabet: Alphabet)
    ensures forall c: char :: IndexOf(alphabet, c) == 0 <==> c == '1'
  {
  }

  lemma LeadingOnesAreZeros(alphabet: Alphabet, value: string, ones: nat)
    requires ones <= |value| && forall i :: 0 <= i < ones ==> value[i] == '1'
    requires ones < |value| ==> value[ones] != '1'
    requires Written(alphabet, value)
    ensures LeadingZeros(Digits(alphabet, value)) == ones
    ensures value == ZERO_KEY <==> ones == |value| == 32
  {
    OneIsTheZeroDigit(alphabet);
    LeadingZerosAre(Digits(alphabet, value), ones);
  }

  lemma OtherLengthsAreNoKeys(alphabet: Alphabet, value: string)
    requires Written(alphabet, value) && |Decode(alphabet, value)| == 32
    ensures 32 <= |value| <= 44
  {
    LengthGuardIsRedundant(Digits(alphabet, value));
  }

  lemma KeyLength(alphabet: Alphabet, value: string, ones: nat)
    requires Written(alphabet, value)
    requires ones <= |value| && forall i :: 0 <= i < ones ==> value[i] == '1'
    requires ones < |value| ==> value[ones] != '1'
    requires |value| >= 32
    ensures |Held(Value(Digits(alphabet, value)))| + ones == 32 <==> |Decode(alphabet, value)| == 32 && value != ZERO_KEY
  {
    LeadingOnesAreZeros(alphabet, value, ones);
    ValueIsZero(Digits(alphabet, value));
  }

  /** Accepts exactly the texts that decode to 32 bytes, except the address of the all-zero
    * key: after each character the bytes hold the value read so far in shortest form. */
  method IsValidAddress(alphabet: Alphabet, value: string) returns (valid: bool)
    ensures valid <==> Written(alphabet, value) && |Decode(alphabet, value)| == 32 && value != ZERO_KEY
  {
    if |value| < 32 || |value| > 44 {
      if Written(alphabet, value) && |Decode(alphabet, value)| == 32 { OtherLengthsAreNoKeys(alphabet, value); }
      return false;
    }
    var bytes: seq<nat> := [0];
    ghost var digits: seq<Digit> := [];
    for i := 0 to |value|
      invariant |digits| == i && HasRead(alphabet, value, digits)
      invariant bytes == Held(Value(digits))
    {
      var digit := IndexOf(alphabet, value[i]);
      if digit < 0 {
        assert !Written(alphabet, value);
        return false;
      }
      ReadOne(alphabet, value, digits, digit);
      ToBytesAreBytes(Value(digits));
      HeldAfter(digits, digit);
      bytes := AddDigit(bytes, digit);
      digits := digits + [digit];
    }
    ReadAll(alphabet, value, digits);
    var leadingZeros := 0;
    while leadingZeros < |value| && value[leadingZeros] == '1'
      invariant leadingZeros <= |value|
      invariant forall i :: 0 <= i < leadingZeros ==> value[i] == '1'
    {
      leadingZeros := leadingZeros + 1;
    }
    KeyLength(alphabet, value, leadingZeros);
    valid := |bytes| + leadingZeros == 32;
  }

  method IsValidSolanaAddress(value: string) returns (valid: bool)
    ensures valid <==> Written(ALPHABET, value) && |Decode(ALPHABET, value)| == 32 && value != ZERO_KEY
  {
    valid := IsValidAddress(ALPHABET, value);
  }

  lemma {:induction false} ValueIsZero(digits: seq<Digit>)
    ensures Value(digits) == 0 <==> LeadingZeros(digits) == |digits|
  {
    if digits != [] {
      var front := digits[..|digits| - 1];
      ValueIsZero(front);
      assert LeadingZeros(front) < |front| ==> digits[LeadingZeros(front)] != 0;
    }
  }

  // ----- Why the length guard 32..44 refuses no 32-byte key -----

  function Pow58(n: nat): (p: nat)
    ensures p > 0
  {
    if n == 0 then 1 else 58 * Pow58(n - 1)
  }

  function Pow256(n: nat): (p: nat)
    ensures p > 0
  {
    if n == 0 then 1 else 256 * Pow256(n - 1)
  }

  lemma {:induction false} PowersGrow(m: nat, n: nat)
    requires m <= n
    ensures Pow58(m) <= Pow58(n) && Pow256(m) <= Pow256(n) && Pow58(m) <= Pow256(m)
    decreases n, m
  {
    if m < n {
      PowersGrow(m, n - 1);
    } else if m > 0 {
      PowersGrow(m - 1, n - 1);
    }
  }

  lemma {:induction false} ValueBounds(digits: seq<Digit>)
    requires LeadingZeros(digits) < |digits|
    ensures Pow58(|digits| - LeadingZeros(digits) - 1) <= Value(digits) < Pow58(|digits| - LeadingZeros(digits))
  {
    var front, n := digits[..|digits| - 1], LeadingZeros(digits);
    ValueIsZero(front);
    LeadingZerosOfFront(digits);
    if n == |digits| - 1 {
      assert Pow58(1) == 58 * Pow58(0);
    } else {
      ValueBounds(front);
    }
  }

  lemma LeadingZerosOfFront(digits: seq<Digit>)
    requires LeadingZeros(digits) < |digits|
    ensures LeadingZeros(digits[..|digits| - 1]) == LeadingZeros(digits)
  {
    LeadingZerosAre(digits[..|digits| - 1], LeadingZeros(digits));
  }

  lemma LeadingZerosAre(digits: seq<nat>, n: nat)
    requires n <= |digits| && forall i :: 0 <= i < n ==> digits[i] == 0
    requires n < |digits| ==> digits[n] != 0
    ensures LeadingZeros(digits) == n
  {
  }

  lemma {:induction false} ToBytesBounds(n: nat)
    requires n > 0
    ensures 0 < |ToBytes(n)| && Pow256(|ToBytes(n)| - 1) <= n < Pow256(|ToBytes(n)|)
  {
    if n >= 256 {
      ToBytesBounds(n / 256);
    } else {
      assert ToBytes(n / 256) == [];
      assert Pow256(1) == 256 * Pow256(0);
    }
  }

  /** 44 digits are enough for 32 bytes, and 12 more digits than bytes for fewer bytes. */
  lemma {:induction false} TwelveMoreDigits(k: nat)
    requires k <= 32
    ensures Pow58(12 + k) >= Pow256(k)
    decreases 32 - k
  {
    if k == 32 {
      FortyFourDigits(k - 32);
    } else {
      TwelveMoreDigits(k + 1);
      assert Pow58(12 + (k + 1)) == 58 * Pow58(12 + k);
    }
  }

  lemma ElevenMoreDigits(n: nat)
    ensures Pow58(n + 11) == 24986644000165537792 * Pow58(n)
  {
    assert Pow58(n + 2) == 3364 * Pow58(n) && Pow58(n + 4) == 3364 * Pow58(n + 2);
    assert Pow58(n + 6) == 3364 * Pow58(n + 4) && Pow58(n + 8) == 3364 * Pow58(n + 6);
    assert Pow58(n + 10) == 3364 * Pow58(n + 8);
  }

  lemma EightMoreBytes(n: nat)
    ensures Pow256(n + 8) == 18446744073709551616 * Pow256(n)
  {
    assert Pow256(n + 2) == 65536 * Pow256(n) && Pow256(n + 4) == 65536 * Pow256(n + 2);
    assert Pow256(n + 6) == 65536 * Pow256(n + 4);
  }

  lemma FortyFourDigits(n: nat)
    requires n == 0
    ensures Pow58(n + 44) >= Pow256(n + 32)
  {
    ElevenMoreDigits(n);
    ElevenMoreDigits(n + 11);
    ElevenMoreDigits(n + 22);
    ElevenMoreDigits(n + 33);
    EightMoreBytes(n);
    EightMoreBytes(n + 8);
    EightMoreBytes(n + 16);
    EightMoreBytes(n + 24);
  }

  lemma LengthGuardIsRedundant(digits: seq<Digit>)
    requires |DecodeDigits(digits)| == 32
    ensures 32 <= |digits| <= 44
  {
    ValueIsZero(digits);
    if Value(digits) > 0 {
      var k, m := |ToBytes(Value(digits))|, |digits| - LeadingZeros(digits);
      ValueBounds(digits);
      ToBytesBounds(Value(digits));
      EnoughDigits(Value(digits), k, m);
    }
  }

  lemma EnoughDigits(v: nat, k: nat, m: nat)
    requires 0 < k <= 32 && 0 < m
    requires Pow58(m - 1) <= v < Pow58(m) && Pow256(k - 1) <= v < Pow256(k)
    ensures k <= m <= 12 + k
  {
    if m <= k - 1 {
      DigitsNeedBytes(m, k - 1);
    } else if m > 12 + k {
      ManyDigits(k, m - 1);
    }
  }

  lemma DigitsNeedBytes(m: nat, k: nat)
    requires m <= k
    ensures Pow58(m) <= Pow256(k)
  {
    PowersGrow(m, k);
  }

  lemma ManyDigits(k: nat, m: nat)
    requires k <= 32 && 12 + k <= m
    ensures Pow256(k) <= Pow58(m)
  {
    PowersGrow(12 + k, m);
    TwelveMoreDigits(k);
  }

  // ----- Decoding loses nothing -----

  lemma {:induction false} EqualValuesEqualDigits(a: seq<Digit>, b: seq<Digit>)
    requires Value(a) == Value(b)
    requires LeadingZeros(a) == LeadingZeros(b) == 0
    ensures a == b
  {
    ValueIsZero(a);
    ValueIsZero(b);
    if a != [] && b != [] {
      var p, q := a[..|a| - 1], b[..|b| - 1];
      assert a[|a| - 1] == Value(a) % 58 && b[|b| - 1] == Value(b) % 58;
      LeadingZerosOfFront(a);
      LeadingZerosOfFront(b);
      EqualValuesEqualDigits(p, q);
      assert a == p + [a[|a| - 1]] && b == q + [b[|b| - 1]];
    }
  }

  lemma {:induction false} ValueSkipsZeros(digits: seq<Digit>, n: nat)
    requires n <= LeadingZeros(digits)
    ensures Value(digits) == Value(digits[n..])
  {
    if n == |digits| {
      ValueIsZero(digits);
    } else {
      var front := digits[..|digits| - 1];
      LeadingZerosAre(front, if LeadingZeros(digits) == |digits| then |digits| - 1 else LeadingZeros(digits));
      ValueSkipsZeros(front, n);
      assert digits[n..][..|digits| - n - 1] == front[n..];
    }
  }

  lemma LeadingZerosOfKey(digits: seq<Digit>, i: nat)
    requires i < |DecodeDigits(digits)|
    ensures i < LeadingZeros(digits) ==> DecodeDigits(digits)[i] == 0
    ensures i == LeadingZeros(digits) ==> DecodeDigits(digits)[i] > 0
  {
    ToBytesAreBytes(Value(digits));
  }

  lemma {:induction false} ReverseIsInjective(p: seq<nat>, q: seq<nat>)
    requires Reverse(p) == Reverse(q)
    ensures p == q
  {
    assert |p| == |q|;
    forall i | 0 <= i < |p| ensures p[i] == q[i] {
      assert p[i] == Reverse(p)[|p| - 1 - i] && q[i] == Reverse(q)[|q| - 1 - i];
    }
  }

  lemma EqualKeysEqualZeros(a: seq<Digit>, b: seq<Digit>)
    requires DecodeDigits(a) == DecodeDigits(b)
    ensures LeadingZeros(a) == LeadingZeros(b)
  {
    var m, n := LeadingZeros(a), LeadingZeros(b);
    if m < n {
      LeadingZerosOfKey(b, m);
      LeadingZerosOfKey(a, m);
    } else if n < m {
      LeadingZerosOfKey(a, n);
      LeadingZerosOfKey(b, n);
    }
  }

  lemma EqualKeysEqualValues(a: seq<Digit>, b: seq<Digit>)
    requires DecodeDigits(a) == DecodeDigits(b) && LeadingZeros(a) == LeadingZeros(b)
    ensures Value(a) == Value(b)
  {
    var n := LeadingZeros(a);
    assert DecodeDigits(a)[n..] == Reverse(ToBytes(Value(a)));
    assert DecodeDigits(b)[n..] == Reverse(ToBytes(Value(b)));
    ReverseIsInjective(ToBytes(Value(a)), ToBytes(Value(b)));
    ToBytesAreBytes(Value(a));
    ToBytesAreBytes(Value(b));
  }

  lemma EqualKeysEqualDigits(a: seq<Digit>, b: seq<Digit>)
    requires DecodeDigits(a) == DecodeDigits(b)
    ensures a == b
  {
    EqualKeysEqualZeros(a, b);
    EqualKeysEqualValues(a, b);
    var n := LeadingZeros(a);
    ValueSkipsZeros(a, n);
    ValueSkipsZeros(b, n);
    LeadingZerosAre(a[n..], 0);
    LeadingZerosAre(b[n..], 0);
    EqualValuesEqualDigits(a[n..], b[n..]);
    assert a == a[..n] + a[n..] && b == b[..n] + b[n..];
  }

  /** Different texts over the alphabet are addresses of different keys. */
  lemma DecodeIsInjective(alphabet: Alphabet, a: string, b: string)
    requires Written(alphabet, a) && Written(alphabet, b) && Decode(alphabet, a) == Decode(alphabet, b)
    ensures a == b
  {
    EqualKeysEqualDigits(Digits(alphabet, a), Digits(alphabet, b));
    forall i | 0 <= i < |a| ensures a[i] == b[i] {
      assert a[i] == alphabet[Digits(alphabet, a)[i]] && b[i] == alphabet[Digits(alphabet, b)[i]];
    }
  }

  /** The all-zero key is a 32-byte key that the check refuses. */
  lemma ZeroKeyIsAKey(alphabet: Alphabet)
    ensures Written(alphabet, ZERO_KEY) && Decode(alphabet, ZERO_KEY) == seq(32, _ => 0)
  {
    OneIsTheZeroDigit(alphabet);
    assert forall i :: 0 <= i < |ZERO_KEY| ==> ZERO_KEY[i] == '1';
    LeadingZerosAre(Digits(alphabet, ZERO_KEY), 32);
    ValueIsZero(Digits(alphabet, ZERO_KEY));
  }

  // ----- Every key has an address -----

  predicate IsKey(bytes: seq<nat>) {
    forall i :: 0 <= i < |bytes| ==> bytes[i] < 256
  }

  /** The shortest base-58 form of n, most significant digit first. */
  function ToDigits(n: nat): (digits: seq<Digit>) {
    if n == 0 then [] else ToDigits(n / 58) + [n % 58]
  }

  /** Base-58 encoding: a zero digit for each leading zero byte, then the number of the rest. */
  function EncodeDigits(key: seq<nat>): seq<Digit> {
    seq(LeadingZeros(key), _ => 0) + ToDigits(FromBytes(Reverse(key[LeadingZeros(key)..])))
  }

  function Encode(alphabet: Alphabet, key: seq<nat>): (text: string) {
    var digits := EncodeDigits(key);
    seq(|digits|, i requires 0 <= i < |digits| => alphabet[digits[i]])
  }

  lemma {:induction false} ToDigitsDenote(n: nat)
    ensures Value(ToDigits(n)) == n && LeadingZeros(ToDigits(n)) == 0
  {
    if n > 0 {
      ToDigitsDenote(n / 58);
      var digits := ToDigits(n);
      assert digits[..|digits| - 1] == ToDigits(n / 58);
      ValueIsZero(ToDigits(n / 58));
      assert n >= 58 ==> digits[0] == ToDigits(n / 58)[0];
    }
  }

  lemma {:induction false} ToBytesOfShortest(bytes: seq<nat>)
    requires IsKey(bytes) && (bytes != [] ==> bytes[|bytes| - 1] > 0)
    ensures ToBytes(FromBytes(bytes)) == bytes
    ensures bytes != [] ==> FromBytes(bytes) > 0
  {
    if bytes != [] {
      var n := FromBytes(bytes[1..]);
      ToBytesOfShortest(bytes[1..]);
      assert FromBytes(bytes) == bytes[0] + 256 * n;
      assert FromBytes(bytes) / 256 == n && FromBytes(bytes) % 256 == bytes[0];
      assert bytes == [bytes[0]] + bytes[1..];
    }
  }

  lemma ReverseTwice(bytes: seq<nat>)
    ensures Reverse(Reverse(bytes)) == bytes
  {
  }

  lemma ZerosBefore(zeros: nat, digits: seq<Digit>)
    requires LeadingZeros(digits) == 0
    ensures var all := seq(zeros, _ => 0) + digits; LeadingZeros(all) == zeros && Value(all) == Value(digits)
  {
    var all: seq<Digit> := seq(zeros, _ => 0) + digits;
    assert all[zeros..] == digits;
    assert zeros < |all| ==> all[zeros] == digits[0];
    LeadingZerosAre(all, zeros);
    ValueSkipsZeros(all, zeros);
  }

  lemma EncodedRest(rest: seq<nat>)
    requires IsKey(rest) && (rest != [] ==> rest[0] > 0)
    ensures Reverse(ToBytes(FromBytes(Reverse(rest)))) == rest
  {
    ToBytesOfShortest(Reverse(rest));
    ReverseTwice(rest);
  }

  /** Decoding undoes encoding. */
  lemma DecodeOfEncode(key: seq<nat>)
    requires IsKey(key)
    ensures DecodeDigits(EncodeDigits(key)) == key
  {
    var zeros := LeadingZeros(key);
    var rest := key[zeros..];
    var n := FromBytes(Reverse(rest));
    EncodedRest(rest);
    ToDigitsDenote(n);
    ZerosBefore(zeros, ToDigits(n));
    assert key == key[..zeros] + rest && key[..zeros] == seq(zeros, _ => 0);
  }

  lemma DigitsAreTheirPositions(alphabet: Alphabet, text: string, digits: seq<Digit>)
    requires forall i, j :: 0 <= i < j < 58 ==> alphabet[i] != alphabet[j]
    requires |text| == |digits| && forall i :: 0 <= i < |text| ==> text[i] == alphabet[digits[i]]
    ensures Written(alphabet, text) && Digits(alphabet, text) == digits
  {
    forall i | 0 <= i < |text| ensures text[i] in alphabet && IndexOf(alphabet, text[i]) == digits[i] {
      var r := IndexOf(alphabet, text[i]);
      assert alphabet[r] == alphabet[digits[i]];
    }
  }

  /** Every key has one address: the text that it encodes to, and no other. */
  lemma EveryKeyHasOneAddress(key: seq<nat>, text: string)
    requires IsKey(key)
    ensures Written(ALPHABET, text) && Decode(ALPHABET, text) == key <==> text == Encode(ALPHABET, key)
  {
    AlphabetIsInOrder();
    DigitsAreTheirPositions(ALPHABET, Encode(ALPHABET, key), EncodeDigits(key));
    DecodeOfEncode(key);
    if Written(ALPHABET, text) && Decode(ALPHABET, text) == key {
      DecodeIsInjective(ALPHABET, text, Encode(ALPHABET, key));
    }
  }

  /** The texts accepted are the encodings of the 32-byte keys other than zero. */
  lemma AddressesAreKeys(text: string)
    ensures Written(ALPHABET, text) && |Decode(ALPHABET, text)| == 32 && text != ZERO_KEY
      <==> exists key :: IsKey(key) && |key| == 32 && text == Encode(ALPHABET, key) && key != seq(32, _ => 0)
  {
    ZeroKeyIsAKey(ALPHABET);
    if Written(ALPHABET, text) {
      DecodedIsKey(Digits(ALPHABET, text));
      EveryKeyHasOneAddress(Decode(ALPHABET, text), text);
    }
    forall key | IsKey(key) && |key| == 32 && text == Encode(ALPHABET, key)
      ensures Written(ALPHABET, text) && Decode(ALPHABET, text) == key
    {
      EveryKeyHasOneAddress(key, text);
    }
    if Written(ALPHABET, text) && Decode(ALPHABET, text) == seq(32, _ => 0) {
      DecodeIsInjective(ALPHABET, text, ZERO_KEY);
    }
  }

  lemma DecodedIsKey(digits: seq<Digit>)
    ensures IsKey(DecodeDigits(digits))
  {
    ToBytesAreBytes(Value(digits));
  }
}
