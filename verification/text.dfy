/**
 * String helpers the page's code relies on: `split`/`join` on one separator
 * character, `startsWith`/`endsWith`, `trim`, and decimal digit strings
 * (`String(n)` for a non-negative integer, `padStart`, `slice(-k)`).
 */
module Text {

  // ---------------------------------------------------------------------------
  // split / join

  /** `s.split(sep)`: the pieces between the occurrences of `sep` (never empty: `"".split(sep)` is `[""]`). */
  function Split(s: string, sep: char): (parts: seq<string>)
    ensures |parts| >= 1
    ensures forall i :: 0 <= i < |parts| ==> sep !in parts[i]
    ensures |parts| == 1 <==> sep !in s
    decreases |s|
  {
    if |s| == 0 then [""]
    else if s[0] == sep then [""] + Split(s[1..], sep)
    else
      var rest := Split(s[1..], sep);
      [[s[0]] + rest[0]] + rest[1..]
  }

  /** `parts.join(sep)`. */
  function Join(parts: seq<string>, sep: char): string
  {
    if |parts| == 0 then ""
    else if |parts| == 1 then parts[0]
    else parts[0] + [sep] + Join(parts[1..], sep)
  }

  /** Joining the pieces of a split gives the string back. */
  lemma {:induction false} JoinSplit(s: string, sep: char)
    ensures Join(Split(s, sep), sep) == s
    decreases |s|
  {
    if |s| > 0 {
      JoinSplit(s[1..], sep);
      if s[0] == sep {
        JoinSplitAtSeparator(s, sep);
      } else {
        JoinSplitAtChar(s, sep);
      }
    }
  }

  lemma JoinSplitAtSeparator(s: string, sep: char)
    requires |s| > 0 && s[0] == sep && Join(Split(s[1..], sep), sep) == s[1..]
    ensures Join(Split(s, sep), sep) == s
  {
    var rest := Split(s[1..], sep);
    var parts := [""] + rest;
    assert Split(s, sep) == parts;
    assert parts[1..] == rest;
    assert Join(parts, sep) == "" + [sep] + Join(rest, sep);
    assert s == [sep] + s[1..];
  }

  lemma JoinSplitAtChar(s: string, sep: char)
    requires |s| > 0 && s[0] != sep && Join(Split(s[1..], sep), sep) == s[1..]
    ensures Join(Split(s, sep), sep) == s
  {
    var rest := Split(s[1..], sep);
    assert Split(s, sep) == [[s[0]] + rest[0]] + rest[1..];
    JoinCons(s[0], rest, sep);
    assert s == [s[0]] + s[1..];
  }

  /** Putting a character in front of the first piece puts it in front of the joined string. */
  lemma JoinCons(c: char, parts: seq<string>, sep: char)
    requires |parts| >= 1
    ensures Join([[c] + parts[0]] + parts[1..], sep) == [c] + Join(parts, sep)
  {
    var parts' := [[c] + parts[0]] + parts[1..];
    if |parts| > 1 {
      assert parts'[1..] == parts[1..];
    }
  }

  /** A prefix free of the separator becomes the first piece of the split, whatever follows. */
  lemma {:induction false} SplitAfterPrefix(prefix: string, sep: char, rest: string)
    requires sep !in prefix
    ensures Split(prefix + [sep] + rest, sep) == [prefix] + Split(rest, sep)
    decreases |prefix|
  {
    if |prefix| == 0 {
      assert prefix + [sep] + rest == [sep] + rest;
      assert ([sep] + rest)[1..] == rest;
    } else {
      var s := prefix + [sep] + rest;
      assert s[0] == prefix[0];
      assert s[1..] == prefix[1..] + [sep] + rest;
      SplitAfterPrefix(prefix[1..], sep, rest);
      assert [prefix[0]] + prefix[1..] == prefix;
    }
  }

  // ---------------------------------------------------------------------------
  // prefixes and suffixes

  /** `s.startsWith(p)`. */
  predicate StartsWith(s: string, p: string)
  {
    |p| <= |s| && s[..|p|] == p
  }

  /** `s.endsWith(p)`. */
  predicate EndsWith(s: string, p: string)
  {
    |p| <= |s| && s[|s| - |p|..] == p
  }

  /**
   * A string `u + [sep] + q` whose last piece `q` is free of `sep` ends with
   * `[sep] + p`, for a `p` also free of `sep`, exactly when `p == q`.
   */
  lemma SeparatedSuffix(u: string, sep: char, q: string, p: string)
    requires sep !in q && sep !in p
    ensures EndsWith(u + [sep] + q, [sep] + p) <==> p == q
  {
    var s := u + [sep] + q;
    if EndsWith(s, [sep] + p) {
      var k := |s| - |p| - 1;
      assert s == s[..k] + [sep] + p by {
        assert s[k..] == [sep] + p;
      }
      LastSeparator(s[..k], sep, p);
      LastSeparator(u, sep, q);
      assert s[k + 1..] == p;
    }
    if p == q {
      assert s[|s| - |p| - 1..] == [sep] + p;
    }
  }

  /** The position of the last `sep` in `s`, or -1. */
  function LastIndexOf(s: string, sep: char): (i: int)
    ensures -1 <= i < |s|
  {
    if |s| == 0 then -1
    else if s[|s| - 1] == sep then |s| - 1
    else LastIndexOf(s[..|s| - 1], sep)
  }

  lemma {:induction false} LastSeparator(a: string, sep: char, b: string)
    requires sep !in b
    ensures LastIndexOf(a + [sep] + b, sep) == |a|
    decreases |b|
  {
    var s := a + [sep] + b;
    if |b| > 0 {
      NotAt(b, |b| - 1, sep);
      assert s[..|s| - 1] == a + [sep] + b[..|b| - 1];
      LastSeparator(a, sep, b[..|b| - 1]);
    }
  }

  lemma NotAt(s: string, i: nat, c: char)
    requires c !in s && i < |s|
    ensures s[i] != c
  {
  }

  // ---------------------------------------------------------------------------
  // trim

  /**
   * The characters `String.prototype.trim` removes: ECMAScript's WhiteSpace
   * (tab, vertical tab, form feed, the byte order mark and every space
   * separator of Unicode category Zs) and LineTerminator code points.
   */
  predicate IsTrimmable(c: char)
  {
    var u := c as int;
    u == 0x09 || u == 0x0B || u == 0x0C || u == 0x20 || u == 0xA0 || u == 0xFEFF
    || u == 0x0A || u == 0x0D || u == 0x2028 || u == 0x2029
    || u == 0x1680 || (0x2000 <= u <= 0x200A) || u == 0x202F || u == 0x205F || u == 0x3000
  }

  function TrimStart(s: string): (r: string)
    ensures |r| <= |s| && r == s[|s| - |r|..]
    ensures r == [] || !IsTrimmable(r[0])
    ensures forall i :: 0 <= i < |s| - |r| ==> IsTrimmable(s[i])
  {
    if |s| > 0 && IsTrimmable(s[0]) then TrimStart(s[1..]) else s
  }

  function TrimEnd(s: string): (r: string)
    ensures |r| <= |s| && r == s[..|r|]
    ensures r == [] || !IsTrimmable(r[|r| - 1])
    ensures forall i :: |r| <= i < |s| ==> IsTrimmable(s[i])
  {
    if |s| > 0 && IsTrimmable(s[|s| - 1]) then TrimEnd(s[..|s| - 1]) else s
  }

  /** Every character of `t` is white space. */
  predicate AllTrimmable(t: string)
  {
    forall k :: 0 <= k < |t| ==> IsTrimmable(t[k])
  }

  /**
   * `s.trim()`: `s` without its leading and trailing white space. What
   * remains is a slice of `s` that neither starts nor ends with white space,
   * and everything cut off before and after it is white space.
   */
  function Trim(s: string): (r: string)
    ensures exists i, j :: 0 <= i <= j <= |s| && r == s[i..j] && AllTrimmable(s[..i]) && AllTrimmable(s[j..])
    ensures r == [] || (!IsTrimmable(r[0]) && !IsTrimmable(r[|r| - 1]))
    ensures s == [] || (!IsTrimmable(s[0]) && !IsTrimmable(s[|s| - 1])) ==> r == s
  {
    TrimSlice(s);
    TrimEnd(TrimStart(s))
  }

  lemma TrimSlice(s: string)
    ensures exists i, j :: 0 <= i <= j <= |s| && TrimEnd(TrimStart(s)) == s[i..j]
                           && AllTrimmable(s[..i]) && AllTrimmable(s[j..])
  {
    var t := TrimStart(s);
    var r := TrimEnd(t);
    var i := |s| - |t|;
    TrimCut(s, t, r, i);
    assert r == s[i..i + |r|] && AllTrimmable(s[..i]) && AllTrimmable(s[i + |r|..]);
  }

  /**
   * Where `Trim` cuts: `t`, what `TrimStart` leaves, starts at `i` after
   * white space only, and `r`, what `TrimEnd` leaves of it, is followed by
   * white space only.
   */
  lemma TrimCut(s: string, t: string, r: string, i: nat)
    requires i <= |s| && t == s[i..] && |r| <= |t| && r == t[..|r|]
    requires forall k :: 0 <= k < i ==> IsTrimmable(s[k])
    requires forall k :: |r| <= k < |t| ==> IsTrimmable(t[k])
    ensures r == s[i..i + |r|] && AllTrimmable(s[..i]) && AllTrimmable(s[i + |r|..])
  {
    var tail := s[i + |r|..];
    forall k | 0 <= k < |tail|
      ensures IsTrimmable(tail[k])
    {
      assert tail[k] == t[|r| + k];
    }
  }

  // ---------------------------------------------------------------------------
  // decimal digit strings

  predicate IsDigit(c: char) { '0' <= c <= '9' }

  predicate IsDigits(s: string) { forall i :: 0 <= i < |s| ==> IsDigit(s[i]) }

  function DigitChar(d: nat): (c: char)
    requires d < 10
    ensures IsDigit(c)
  {
    ['0', '1', '2', '3', '4', '5', '6', '7', '8', '9'][d]
  }

  function DigitValue(c: char): (d: nat)
    requires IsDigit(c)
    ensures d < 10 && DigitChar(d) == c
  {
    (c as int - '0' as int)
  }

  function Pow10(k: nat): (p: nat)
    ensures p >= 1
  {
    if k == 0 then 1 else 10 * Pow10(k - 1)
  }

  /** The number a string of decimal digits denotes (leading zeros allowed). */
  function DigitsValue(s: string): (v: nat)
    requires IsDigits(s)
    ensures v < Pow10(|s|)
  {
    if |s| == 0 then 0 else DigitsValue(s[..|s| - 1]) * 10 + DigitValue(s[|s| - 1])
  }

  /** `String(n)` for a non-negative integer below 10^21: its decimal digits, without leading zeros. */
  function DecimalString(n: nat): (s: string)
    ensures IsDigits(s) && |s| >= 1
    ensures DigitsValue(s) == n
    ensures |s| > 1 ==> s[0] != '0'
  {
    if n < 10 then [DigitChar(n)]
    else
      var s := DecimalString(n / 10) + [DigitChar(n % 10)];
      DigitsValueOfSnoc(DecimalString(n / 10), n % 10, s);
      s
  }

  lemma DigitsValueOfSnoc(init: string, d: nat, s: string)
    requires IsDigits(init) && d < 10 && s == init + [DigitChar(d)]
    ensures IsDigits(s) && DigitsValue(s) == DigitsValue(init) * 10 + d
  {
    assert s[..|s| - 1] == init;
  }

  /** `s.padStart(width, '0')`. */
  function PadStartZeros(s: string, width: nat): (r: string)
    ensures |r| == if |s| < width then width else |s|
    ensures r == Zeros(|r| - |s|) + s
  {
    if |s| < width then Zeros(width - |s|) + s else s
  }

  function Zeros(k: nat): (z: string)
    ensures |z| == k && IsDigits(z)
    ensures forall i :: 0 <= i < k ==> z[i] == '0'
  {
    seq(k, _ => '0')
  }

  /** `s.slice(-k)` for `k > 0`: the last `k` characters, or all of `s` when it is shorter. */
  function LastChars(s: string, k: nat): (r: string)
    requires k > 0
    ensures |r| == if |s| < k then |s| else k
    ensures r == s[|s| - |r|..]
  {
    if |s| <= k then s else s[|s| - k..]
  }

  /** Leading zeros do not change the value of a digit string. */
  lemma {:induction false} ZerosDoNotCount(k: nat, s: string)
    requires IsDigits(s)
    ensures IsDigits(Zeros(k) + s) && DigitsValue(Zeros(k) + s) == DigitsValue(s)
    decreases |s|
  {
    var z := Zeros(k) + s;
    if |s| == 0 {
      assert z == Zeros(k);
      ZerosValue(k);
    } else {
      ZerosDoNotCount(k, s[..|s| - 1]);
      assert z[..|z| - 1] == Zeros(k) + s[..|s| - 1];
    }
  }

  lemma {:induction false} ZerosValue(k: nat)
    ensures DigitsValue(Zeros(k)) == 0
  {
    if k > 0 {
      ZerosValue(k - 1);
      assert Zeros(k)[..k - 1] == Zeros(k - 1);
    }
  }

  /** The value of a concatenation: the first part shifted left by the length of the second. */
  lemma {:induction false} DigitsValueAppend(a: string, b: string)
    requires IsDigits(a) && IsDigits(b)
    ensures IsDigits(a + b)
    ensures DigitsValue(a + b) == DigitsValue(a) * Pow10(|b|) + DigitsValue(b)
    decreases |b|
  {
    DigitsConcat(a, b);
    if |b| == 0 {
      assert a + b == a && b == [];
      assert Pow10(|b|) == 1 && DigitsValue(b) == 0;
    } else {
      var ab := a + b;
      var b' := b[..|b| - 1];
      DigitsConcat(a, b');
      assert ab[..|ab| - 1] == a + b';
      DigitsValueSnoc(ab, a + b');
      DigitsValueSnoc(b, b');
      DigitsValueAppend(a, b');
      assert Pow10(|b|) == Pow10(|b'|) * 10;
      ShiftStep(DigitsValue(ab), DigitsValue(a + b'), DigitsValue(a), Pow10(|b'|), Pow10(|b|),
        DigitsValue(b'), DigitsValue(b), DigitValue(b[|b| - 1]));
    }
  }

  /** Unfolding `DigitsValue` once at the last character. */
  lemma DigitsValueSnoc(s: string, init: string)
    requires IsDigits(s) && |s| > 0 && init == s[..|s| - 1]
    ensures IsDigits(init) && DigitsValue(s) == DigitsValue(init) * 10 + DigitValue(s[|s| - 1])
  {
  }

  lemma ShiftStep(vab: nat, x: nat, va: nat, p: nat, p': nat, vb': nat, vb: nat, d: nat)
    requires vab == x * 10 + d && x == va * p + vb' && vb == vb' * 10 + d && p' == p * 10
    ensures vab == va * p' + vb
  {
  }

  lemma DigitsConcat(a: string, b: string)
    requires IsDigits(a) && IsDigits(b)
    ensures IsDigits(a + b)
  {
    assert forall i :: 0 <= i < |a + b| ==> (a + b)[i] == if i < |a| then a[i] else b[i - |a|];
  }

  /** The last `k` digits of a digit string denote its value modulo 10^k. */
  lemma LastDigitsValue(s: string, k: nat)
    requires IsDigits(s) && 0 < k <= |s|
    ensures IsDigits(s[|s| - k..])
    ensures DigitsValue(s[|s| - k..]) == DigitsValue(s) % Pow10(k)
  {
    var a, b := s[..|s| - k], s[|s| - k..];
    assert s == a + b;
    DigitsValueAppend(a, b);
    ModOfShifted(DigitsValue(a), Pow10(|b|), DigitsValue(b), DigitsValue(s));
  }

  /** Euclidean remainder of a shifted value. */
  lemma ModOfShifted(q: nat, m: nat, r: nat, x: nat)
    requires r < m && x == q * m + r
    ensures x % m == r
  {
    var a, b := x / m, x % m;
    assert x == a * m + b;
    if a > q {
      MulAtLeast(a - q, m);
    } else if a < q {
      MulAtLeast(q - a, m);
    }
  }

  lemma {:induction false} MulAtLeast(k: int, m: nat)
    requires k >= 1
    ensures k * m >= m
  {
    if k > 1 {
      MulAtLeast(k - 1, m);
      assert k * m == (k - 1) * m + m;
    }
  }
}
