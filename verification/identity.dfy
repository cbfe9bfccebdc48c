/**
 * User identity on the chat page: the stable eight-digit id derived from a
 * browser fingerprint string, and the avatar chosen for an id.
 *
 * The fingerprint is a JavaScript string, so the hash runs over its UTF-16
 * code units. Bitwise operators in JavaScript first convert their operands
 * to signed 32-bit integers (ToInt32); that truncation is written out.
 */
module Identity {
  import opened Wrappers
  import opened Text

  newtype CodeUnit = x: int | 0 <= x < 0x1_0000

  const TwoTo32: int := 0x1_0000_0000
  const TwoTo31: int := 0x8000_0000

  /** ECMAScript ToInt32 on an integral number: the signed 32-bit value congruent to `x` modulo 2^32. */
  function ToInt32(x: int): (r: int)
    ensures -TwoTo31 <= r < TwoTo31
    ensures (x - r) % TwoTo32 == 0
  {
    var m := (x + TwoTo31) % TwoTo32;
    assert x + TwoTo31 == ((x + TwoTo31) / TwoTo32) * TwoTo32 + m;
    m - TwoTo31
  }

  /** Congruent inputs have the same ToInt32, and ToInt32 leaves a 32-bit value alone. */
  lemma ToInt32Congruent(x: int, y: int)
    requires (x - y) % TwoTo32 == 0
    ensures ToInt32(x) == ToInt32(y)
  {
    var k := (x - y) / TwoTo32;
    assert x - y == k * TwoTo32;
    assert x + TwoTo31 == (y + TwoTo31) + k * TwoTo32;
    ShiftedMod(y + TwoTo31, k);
  }

  lemma ShiftedMod(a: int, k: int)
    ensures (a + k * TwoTo32) % TwoTo32 == a % TwoTo32
  {
    var q, r := a / TwoTo32, a % TwoTo32;
    assert a + k * TwoTo32 == (q + k) * TwoTo32 + r;
  }

  lemma ToInt32Fixed(x: int)
    requires -TwoTo31 <= x < TwoTo31
    ensures ToInt32(x) == x
  {
  }

  /**
   * One round of the loop: `hash = ((hash << 5) - hash) + char; hash = hash & hash`.
   * `hash << 5` is ToInt32(hash * 32); the subtraction and addition are exact
   * on numbers of this size, and `hash & hash` truncates the sum to 32 bits.
   */
  function HashStep(h: int, c: CodeUnit): (r: int)
    ensures -TwoTo31 <= r < TwoTo31
  {
    ToInt32(ToInt32(h * 32) - h + c as int)
  }

  /** The step is the 31-multiplier rolling hash, reduced to 32 bits. */
  lemma HashStepMultiplies(h: int, c: CodeUnit)
    ensures HashStep(h, c) == ToInt32(31 * h + c as int)
  {
    var s := ToInt32(h * 32);
    assert (h * 32 - s) % TwoTo32 == 0;
    assert (s - h + c as int) - (31 * h + c as int) == -(h * 32 - s);
    NegatedMultiple(h * 32 - s);
    ToInt32Congruent(s - h + c as int, 31 * h + c as int);
  }

  lemma NegatedMultiple(d: int)
    requires d % TwoTo32 == 0
    ensures (-d) % TwoTo32 == 0
  {
    var k := d / TwoTo32;
    assert d == k * TwoTo32;
    assert -d == (-k) * TwoTo32;
  }

  /** The value of `hash` after the loop has read all of `s`. */
  function Hash(s: seq<CodeUnit>): (h: int)
    ensures -TwoTo31 <= h < TwoTo31
  {
    if |s| == 0 then 0 else HashStep(Hash(s[..|s| - 1]), s[|s| - 1])
  }

  /** The untruncated polynomial hash: the sum of `s[i] * 31^(|s|-1-i)`. */
  function Polynomial(s: seq<CodeUnit>): int
  {
    if |s| == 0 then 0 else 31 * Polynomial(s[..|s| - 1]) + s[|s| - 1] as int
  }

  /** Truncating after every step gives the truncated polynomial hash. */
  lemma {:induction false} HashIsTruncatedPolynomial(s: seq<CodeUnit>)
    ensures Hash(s) == ToInt32(Polynomial(s))
  {
    if |s| > 0 {
      var init, c := s[..|s| - 1], s[|s| - 1];
      HashIsTruncatedPolynomial(init);
      HashStepMultiplies(Hash(init), c);
      StepCongruent(Polynomial(init), Hash(init), c as int);
    }
  }

  /** Multiplying by 31 and adding the same code unit keeps two values congruent modulo 2^32. */
  lemma StepCongruent(p: int, h: int, c: int)
    requires ToInt32(p) == h
    ensures ToInt32(31 * p + c) == ToInt32(31 * h + c)
  {
    assert (p - h) % TwoTo32 == 0;
    ScaledMultiple(p - h, 31);
    assert (31 * p + c) - (31 * h + c) == 31 * (p - h);
    ToInt32Congruent(31 * p + c, 31 * h + c);
  }

  lemma ScaledMultiple(d: int, f: int)
    requires d % TwoTo32 == 0
    ensures (f * d) % TwoTo32 == 0
  {
    var k := d / TwoTo32;
    assert d == k * TwoTo32;
    assert f * d == (f * k) * TwoTo32;
  }

  /** `Math.abs` on a 32-bit value; `-(-2^31)` is 2^31, a representable number. */
  function Abs(h: int): (n: nat)
    ensures n == h || n == -h
  {
    if h < 0 then -h else h
  }

  const IdLength: nat := 8

  /**
   * `generateStableId` after the fingerprint has been gathered: hash the code
   * units, take the absolute value, write it in decimal, pad to eight
   * characters with leading zeros and keep the last eight.
   */
  method GenerateStableId(fingerprint: seq<CodeUnit>) returns (id: string)
    ensures |id| == IdLength && IsDigits(id)
    ensures DigitsValue(id) == Abs(ToInt32(Polynomial(fingerprint))) % Pow10(IdLength)
  {
    var hash := 0;
    var i := 0;
    while i < |fingerprint|
      invariant 0 <= i <= |fingerprint|
      invariant hash == Hash(fingerprint[..i])
    {
      var c := fingerprint[i];
      hash := ToInt32(ToInt32(hash * 32) - hash + c as int);
      assert fingerprint[..i + 1][..i] == fingerprint[..i];
      i := i + 1;
    }
    assert fingerprint[..i] == fingerprint;
    HashIsTruncatedPolynomial(fingerprint);
    var positiveHash := Abs(hash);
    var digits := DecimalString(positiveHash);
    var padded := PadStartZeros(digits, IdLength);
    id := LastChars(padded, IdLength);
    LastEightDigits(positiveHash, digits, padded, id);
  }

  /** Padding and keeping the last eight characters yields `n mod 10^8` in eight digits. */
  lemma LastEightDigits(n: nat, digits: string, padded: string, id: string)
    requires digits == DecimalString(n)
    requires padded == PadStartZeros(digits, IdLength)
    requires id == LastChars(padded, IdLength)
    ensures |id| == IdLength && IsDigits(id)
    ensures DigitsValue(id) == n % Pow10(IdLength)
  {
    ZerosDoNotCount(|padded| - |digits|, digits);
    LastDigitsValue(padded, IdLength);
  }

  // ---------------------------------------------------------------------------
  // avatars

  const AvatarBaseUrl: string := "https://raw.githubusercontent.com/diepvantien/file-nhanh/main/avatar/"
  const AvatarCount: int := 12

  /** `parseInt(s)` with no radix, for decimal input: `None` stands for NaN. */
  function ParseInt(s: string): (n: Option<int>)
    ensures n.None? <==> DigitRun(UnsignedPart(TrimStart(s))) == ""
  {
    var t := TrimStart(s);
    var negative := |t| > 0 && t[0] == '-';
    var run := DigitRun(UnsignedPart(t));
    if run == "" then None
    else
      var v: int := DigitsValue(run);
      Some(if negative then -v else v)
  }

  /** What follows an optional leading sign. */
  function UnsignedPart(t: string): (u: string)
    ensures u == t || (|t| > 0 && (t[0] == '-' || t[0] == '+') && u == t[1..])
  {
    if |t| > 0 && (t[0] == '-' || t[0] == '+') then t[1..] else t
  }

  /** The longest prefix of decimal digits. */
  function DigitRun(s: string): (r: string)
    ensures IsDigits(r) && StartsWith(s, r)
    ensures |r| == |s| || !IsDigit(s[|r|])
  {
    if |s| > 0 && IsDigit(s[0]) then
      var rest := DigitRun(s[1..]);
      assert [s[0]] + rest == s[..|rest| + 1];
      [s[0]] + rest
    else ""
  }

  /** JavaScript's `%`: the remainder of division truncated toward zero, with the sign of the dividend. */
  function TruncatedRemainder(n: int, d: int): (r: int)
    requires d > 0
    ensures n >= 0 ==> 0 <= r < d
    ensures n < 0 ==> -d < r <= 0
    ensures n == TruncatedQuotient(n, d) * d + r
  {
    if n >= 0 then n % d else -((-n) % d)
  }

  /** Division rounded toward zero. */
  function TruncatedQuotient(n: int, d: int): int
    requires d > 0
  {
    if n >= 0 then n / d else -((-n) / d)
  }

  /** `(parseInt(userId) % 12) + 1`; `None` is NaN. */
  function AvatarIndex(userId: string): (i: Option<int>)
    ensures i.None? <==> ParseInt(userId).None?
    ensures i.Some? ==> -10 <= i.value <= AvatarCount
  {
    match ParseInt(userId)
    case None => None
    case Some(n) => Some(TruncatedRemainder(n, AvatarCount) + 1)
  }

  /** A stable id, or any other non-empty digit string, picks one of the avatars `1.png` to `12.png`. */
  lemma DigitIdAvatar(userId: string)
    requires |userId| > 0 && IsDigits(userId)
    ensures AvatarIndex(userId).Some? && AvatarIndex(userId).value == DigitsValue(userId) % AvatarCount + 1
    ensures 1 <= AvatarIndex(userId).value <= AvatarCount
    ensures AvatarUrl(userId, None) == AvatarBaseUrl + DecimalString(DigitsValue(userId) % AvatarCount + 1) + ".png"
  {
    ParseDigits(userId);
    NonNegativeAvatar(userId, DigitsValue(userId));
  }

  lemma NonNegativeAvatar(userId: string, n: nat)
    requires ParseInt(userId) == Some(n)
    ensures AvatarIndex(userId).Some? && AvatarIndex(userId).value == n % AvatarCount + 1
    ensures 1 <= AvatarIndex(userId).value <= AvatarCount
    ensures AvatarUrl(userId, None) == AvatarBaseUrl + DecimalString(n % AvatarCount + 1) + ".png"
  {
    var i := n % AvatarCount + 1;
    assert AvatarIndex(userId) == Some(i) by {
      assert TruncatedRemainder(n, AvatarCount) == n % AvatarCount;
    }
    assert IntString(i) == DecimalString(i);
  }

  /** `parseInt` reads a non-empty digit string as the number it denotes. */
  lemma ParseDigits(s: string)
    requires |s| > 0 && IsDigits(s)
    ensures ParseInt(s) == Some(DigitsValue(s))
  {
    assert !IsTrimmable(s[0]);
    assert TrimStart(s) == s;
    assert UnsignedPart(s) == s;
    DigitRunOfDigits(s);
  }

  lemma {:induction false} DigitRunOfDigits(s: string)
    requires IsDigits(s)
    ensures DigitRun(s) == s
  {
    if |s| > 0 {
      DigitRunOfDigits(s[1..]);
      assert [s[0]] + s[1..] == s;
    }
  }

  /** `String(n)` for an integer: its decimal digits, after a minus sign when negative. */
  function IntString(n: int): (s: string)
    ensures n >= 0 ==> IsDigits(s) && DigitsValue(s) == n
    ensures n < 0 ==> |s| > 1 && s[0] == '-' && IsDigits(s[1..]) && DigitsValue(s[1..]) == -n
  {
    if n < 0 then "-" + DecimalString(-n) else DecimalString(n)
  }

  /**
   * `getAvatarUrl(userId)`, with the stored `customAvatar_<userId>` entry
   * passed in: a non-empty custom choice wins; otherwise the numbered
   * default, or the text `NaN` when the id does not parse.
   */
  function AvatarUrl(userId: string, customAvatar: Option<string>): (url: string)
    ensures StartsWith(url, AvatarBaseUrl) && EndsWith(url, ".png")
    ensures customAvatar.Some? && customAvatar.value != "" ==> url == AvatarBaseUrl + customAvatar.value + ".png"
  {
    var name :=
      if customAvatar.Some? && customAvatar.value != "" then customAvatar.value
      else match AvatarIndex(userId)
        case None => "NaN"
        case Some(i) => IntString(i);
    var url := AvatarBaseUrl + name + ".png";
    assert url[..|AvatarBaseUrl|] == AvatarBaseUrl;
    assert url[|url| - 4..] == ".png";
    url
  }
}
