/**
  Decimal text: how an index becomes `\k`, how `\k` is read back in 64-bit
  arithmetic, and why generated identifiers never collide.
*/
module Text {
  import opened Basics

  const TWO63: int := 0x8000_0000_0000_0000
  const TWO64: int := 0x1_0000_0000_0000_0000

  /** The two's complement value a 64-bit Go `int` holds after computing x. */
  function Wrap(x: int): (r: int)
    ensures -TWO63 <= r < TWO63
    ensures -TWO63 <= x < TWO63 ==> r == x
    ensures exists q: int :: x == r + q * TWO64
  {
    var m := x % TWO64;
    var r := if m < TWO63 then m else m - TWO64;
    assert x == r + (if m < TWO63 then x / TWO64 else x / TWO64 + 1) * TWO64;
    r
  }

  lemma WrapUnique(x: int, y: int, q: int)
    requires x == y + q * TWO64
    ensures Wrap(x) == Wrap(y)
  {
    var p :| y == Wrap(y) + p * TWO64;
    var o :| x == Wrap(x) + o * TWO64;
    assert Wrap(x) - Wrap(y) == (q + p - o) * TWO64;
  }

  /** Wrapping after every step is the same as wrapping once at the end. */
  lemma WrapStep(a: int, d: int)
    ensures Wrap(Wrap(a) * 10 + d) == Wrap(a * 10 + d)
  {
    var q :| a == Wrap(a) + q * TWO64;
    WrapUnique(a * 10 + d, Wrap(a) * 10 + d, q * 10);
  }

  predicate IsDigit(c: char) {
    '0' <= c <= '9'
  }

  predicate AllDigits(s: string) {
    forall i | 0 <= i < |s| :: IsDigit(s[i])
  }

  function DigitValue(c: char): nat
    requires IsDigit(c)
  {
    c as int - '0' as int
  }

  function DigitChar(d: nat): (c: char)
    requires d < 10
    ensures IsDigit(c) && DigitValue(c) == d
  {
    '0' + d as char
  }

  /** `%d` of a non-negative integer. */
  function Decimal(n: nat): (s: string)
    ensures |s| > 0
  {
    if n < 10 then [DigitChar(n)] else Decimal(n / 10) + [DigitChar(n % 10)]
  }

  /** The mathematical value of a string of digits. */
  function ValueOf(s: string): nat
    requires AllDigits(s)
  {
    if s == [] then 0 else ValueOf(s[..|s| - 1]) * 10 + DigitValue(s[|s| - 1])
  }

  lemma {:induction false} DecimalValue(n: nat)
    ensures AllDigits(Decimal(n)) && ValueOf(Decimal(n)) == n
  {
    if n < 10 {
      assert Decimal(n)[..0] == [];
    } else {
      DecimalValue(n / 10);
      var s := Decimal(n);
      assert s[..|s| - 1] == Decimal(n / 10);
    }
  }

  /** Generated ids: a fixed prefix followed by a counter. */
  function Mint(prefix: string, n: nat): string {
    prefix + Decimal(n)
  }

  /** Two counters under one prefix never give the same id. */
  lemma MintInjective(prefix: string, m: nat, n: nat)
    ensures Mint(prefix, m) == Mint(prefix, n) ==> m == n
  {
    if Mint(prefix, m) == Mint(prefix, n) {
      assert Decimal(m) == Mint(prefix, m)[|prefix|..] == Mint(prefix, n)[|prefix|..] == Decimal(n);
      DecimalValue(m);
      DecimalValue(n);
    }
  }

  predicate IsHex(c: char) {
    IsDigit(c) || 'a' <= c <= 'f'
  }

  /**
    A session's `ref-n` never equals an id `hhhh-m` minted by a connection,
    whatever four hex digits the connection drew.
  */
  lemma SessionAndConnectionIdsDiffer(connId: string, m: nat, n: nat)
    requires |connId| == 4 && forall i | 0 <= i < 4 :: IsHex(connId[i])
    ensures Mint(connId + "-", m) != Mint("ref-", n)
  {
    assert Mint(connId + "-", m)[3] == connId[3];
    assert Mint("ref-", n)[3] == '-';
  }

  /** Text of the batch-local reference to request k. */
  function LocalRef(k: nat): (s: string)
    ensures |s| > 0 && s[0] == '\\'
  {
    "\\" + Decimal(k)
  }

  predicate IsLocalRef(ref: string) {
    |ref| > 0 && ref[0] == '\\'
  }

  /** What reading a batch-local reference means, on every string. */
  function ReadLocalRef(ref: string): (r: Option<int>)
    ensures r.Some? ==> -TWO63 <= r.value < TWO63
  {
    if IsLocalRef(ref) && AllDigits(ref[1..]) then Some(Wrap(ValueOf(ref[1..]))) else None
  }

  /** The parsing loop, every intermediate sum held in a 64-bit int. */
  method ParseBatchLocalRef(ref: string) returns (r: Option<int>)
    ensures r == ReadLocalRef(ref)
  {
    if !IsLocalRef(ref) {
      return None;
    }
    var digits := ref[1..];
    var index := 0;
    for i := 0 to |digits|
      invariant AllDigits(digits[..i]) && index == Wrap(ValueOf(digits[..i]))
    {
      var ch := digits[i];
      if ch < '0' || ch > '9' {
        return None;
      }
      assert digits[..i + 1][..i] == digits[..i];
      WrapStep(ValueOf(digits[..i]), DigitValue(ch));
      index := Wrap(index * 10 + DigitValue(ch));
    }
    assert digits[..|digits|] == digits;
    return Some(index);
  }

  /** Printing then reading an index gives it back exactly when it fits a 64-bit int. */
  lemma LocalRefRoundTrip(k: nat)
    ensures ReadLocalRef(LocalRef(k)) == Some(k) <==> k < TWO63
  {
    assert LocalRef(k)[1..] == Decimal(k);
    DecimalValue(k);
  }

  lemma PrefixValue(s: string, i: nat)
    requires AllDigits(s) && i <= |s|
    ensures ValueOf(s[..i]) <= ValueOf(s)
    decreases |s| - i
  {
    if i == |s| {
      assert s[..i] == s;
    } else {
      PrefixValue(s, i + 1);
      assert s[..i + 1][..i] == s[..i];
    }
  }

  /** Read is exactly a backslash followed by nothing but digits; no digits at all count as zero, zeros in front for nothing. */
  lemma ReadsExactly(ref: string)
    ensures ReadLocalRef(ref).Some? <==> ref != "" && ref[0] == '\\' && forall i | 1 <= i < |ref| :: '0' <= ref[i] <= '9'
    ensures ReadLocalRef("\\") == Some(0)
    ensures ReadLocalRef(ref).Some? ==> ReadLocalRef("\\0" + ref[1..]) == ReadLocalRef(ref)
  {
    assert "\\"[1..] == "";
    if IsLocalRef(ref) {
      assert forall i | 1 <= i < |ref| :: ref[1..][i - 1] == ref[i];
      assert ("\\0" + ref[1..])[1..] == "0" + ref[1..];
      if AllDigits(ref[1..]) {
        ZeroInFront(ref[1..]);
      }
    }
  }

  lemma {:induction false} ZeroInFront(s: string)
    requires AllDigits(s)
    ensures AllDigits("0" + s) && ValueOf("0" + s) == ValueOf(s)
    decreases s
  {
    var t := "0" + s;
    if s == [] {
      assert t == "0" && t[..0] == "";
    } else {
      ZeroInFront(s[..|s| - 1]);
      assert t[..|t| - 1] == "0" + s[..|s| - 1];
    }
  }

  /** No partial sum of the loop overflows on the text of an index that fits. */
  lemma NoOverflowAtAnyStep(k: nat, i: nat)
    requires k < TWO63 && i <= |Decimal(k)|
    ensures AllDigits(Decimal(k)[..i])
    ensures Wrap(ValueOf(Decimal(k)[..i])) == ValueOf(Decimal(k)[..i])
  {
    DecimalValue(k);
    PrefixValue(Decimal(k), i);
  }

  /** Beyond 64 bits the loop wraps: the text of k + 2^64 is read as k. */
  lemma OverflowAliases(k: nat)
    requires k < TWO63
    ensures ReadLocalRef(LocalRef(k + TWO64)) == Some(k)
  {
    assert LocalRef(k + TWO64)[1..] == Decimal(k + TWO64);
    DecimalValue(k + TWO64);
    WrapUnique(k + TWO64, k, 1);
  }

  /** JavaScript's white space and line terminators. */
  predicate IsSpace(c: char) {
    var n := c as int;
    || 9 <= n <= 13 || n == 0x20 || n == 0xA0 || n == 0x1680 || 0x2000 <= n <= 0x200A
    || n == 0x2028 || n == 0x2029 || n == 0x202F || n == 0x205F || n == 0x3000 || n == 0xFEFF
  }

  function TrimStart(s: string): string {
    if s != [] && IsSpace(s[0]) then TrimStart(s[1..]) else s
  }

  function TrimEnd(s: string): string {
    if s != [] && IsSpace(s[|s| - 1]) then TrimEnd(s[..|s| - 1]) else s
  }

  /** `trim()`. */
  function Trim(s: string): string {
    TrimEnd(TrimStart(s))
  }

  predicate Blank(s: string) {
    forall i | 0 <= i < |s| :: IsSpace(s[i])
  }

  /** Trimming takes white space off both ends, all of it and nothing else. */
  lemma TrimIs(s: string) returns (left: string, right: string)
    ensures s == left + Trim(s) + right && Blank(left) && Blank(right)
    ensures var t := Trim(s); t != "" ==> !IsSpace(t[0]) && !IsSpace(t[|t| - 1])
  {
    left := TrimStartIs(s);
    right := TrimEndIs(TrimStart(s));
    assert left + (Trim(s) + right) == left + Trim(s) + right;
  }

  lemma {:induction false} TrimStartIs(s: string) returns (left: string)
    ensures s == left + TrimStart(s) && Blank(left)
    ensures TrimStart(s) != "" ==> !IsSpace(TrimStart(s)[0])
    decreases s
  {
    left := "";
    if s != [] && IsSpace(s[0]) {
      var rest := TrimStartIs(s[1..]);
      left := [s[0]] + rest;
      assert s == [s[0]] + s[1..];
    }
  }

  lemma {:induction false} TrimEndIs(s: string) returns (right: string)
    ensures s == TrimEnd(s) + right && Blank(right)
    ensures var t := TrimEnd(s); t != "" ==> t[0] == s[0] && !IsSpace(t[|t| - 1])
    decreases s
  {
    right := "";
    if s != [] && IsSpace(s[|s| - 1]) {
      var rest := TrimEndIs(s[..|s| - 1]);
      right := rest + [s[|s| - 1]];
      assert s == s[..|s| - 1] + [s[|s| - 1]];
    }
  }

  /** `strings.Contains`. */
  predicate Contains(s: string, part: string) {
    exists i | 0 <= i <= |s| :: part <= s[i..]
  }

  // ----- request ids as 64-bit floating-point numbers -----

  const TWO53: nat := 0x20_0000_0000_0000

  /** The distance between neighbouring 64-bit floating-point integers around n. */
  function Ulp(n: nat): (u: nat)
    ensures u >= 1 && (u == 1 <==> n < TWO53)
  {
    if n < TWO53 then 1 else 2 * Ulp(n / 2)
  }

  /** `float64(n)`: the nearest representable number, a tie going to the even one. */
  function Float64(n: nat): nat {
    var u := Ulp(n);
    var (q, r) := (n / u, n % u);
    if 2 * r < u || (2 * r == u && q % 2 == 0) then q * u else (q + 1) * u
  }

  /** The number is representable, and at most half the distance to a neighbour away. */
  lemma Float64Nearest(n: nat) returns (m: nat)
    ensures Float64(n) == m * Ulp(n)
    ensures 2 * Float64(n) <= 2 * n + Ulp(n) && 2 * n <= 2 * Float64(n) + Ulp(n)
  {
    var u := Ulp(n);
    var (q, r) := (n / u, n % u);
    m := if 2 * r < u || (2 * r == u && q % 2 == 0) then q else q + 1;
    assert n == q * u + r;
    assert (q + 1) * u == q * u + u;
  }

  lemma Float64Exact(n: nat)
    requires n <= TWO53
    ensures Float64(n) == n
  {
    if n == TWO53 {
      assert Ulp(n) == 2 * Ulp(TWO53 / 2) == 2;
    }
  }

  /** Ids counted from 1 stay distinct as floating-point numbers exactly as long as the count is at most 2^53. */
  lemma CountedIdsDistinct(count: nat)
    ensures (forall i, j | 1 <= i < j <= count :: Float64(i) != Float64(j)) <==> count <= TWO53
  {
    if count <= TWO53 {
      forall i, j | 1 <= i < j <= count ensures Float64(i) != Float64(j) {
        Float64Exact(i);
        Float64Exact(j);
      }
    } else {
      Float64Exact(TWO53);
      assert Ulp(TWO53 + 1) == 2 * Ulp((TWO53 + 1) / 2) == 2;
      assert Float64(TWO53 + 1) == Float64(TWO53);
    }
  }

  // ----- the text of a floating-point number that holds an integer -----

  function StripZeros(s: string): string {
    if s != [] && s[|s| - 1] == '0' then StripZeros(s[..|s| - 1]) else s
  }

  function TwoDigits(e: nat): string {
    if e < 10 then "0" + Decimal(e) else Decimal(e)
  }

  /**
    `%v` of the floating-point number n: plain digits below one million, from there on the
    significant digits as a fraction and a decimal exponent.
  */
  function FloatText(n: nat): string {
    var d := Decimal(n);
    if n < 1_000_000 then d
    else
      var fraction := StripZeros(d[1..]);
      d[..1] + (if fraction == "" then "" else "." + fraction) + "e+" + TwoDigits(|d| - 1)
  }

  /** From one million on the text is the first digit, the others without the zeros at the end, and how many others there were. */
  lemma FloatTextParts(n: nat) returns (first: char, fraction: string, zeros: string)
    requires n >= 1_000_000
    ensures Decimal(n) == [first] + fraction + zeros
    ensures (forall i | 0 <= i < |zeros| :: zeros[i] == '0') && (fraction != "" ==> fraction[|fraction| - 1] != '0')
    ensures FloatText(n) == [first] + (if fraction == "" then "" else "." + fraction) + "e+" + TwoDigits(|fraction| + |zeros|)
  {
    hide Decimal, TwoDigits;
    var d := Decimal(n);
    first, fraction := d[0], StripZeros(d[1..]);
    zeros := StripZerosIs(d[1..]);
    assert d == [first] + d[1..] && d[..1] == [first];
    assert [first] + (fraction + zeros) == [first] + fraction + zeros;
  }

  lemma {:induction false} StripZerosIs(s: string) returns (zeros: string)
    ensures s == StripZeros(s) + zeros && forall i | 0 <= i < |zeros| :: zeros[i] == '0'
    ensures StripZeros(s) != "" ==> StripZeros(s)[|StripZeros(s)| - 1] != '0'
    decreases s
  {
    zeros := "";
    if s != [] && s[|s| - 1] == '0' {
      var rest := StripZerosIs(s[..|s| - 1]);
      zeros := rest + "0";
      assert s == s[..|s| - 1] + [s[|s| - 1]];
    }
  }

  lemma UlpSmall(n: nat)
    requires n >= TWO53
    ensures Ulp(n) * 0x10_0000_0000_0000 <= n
    decreases n
  {
    if n / 2 >= TWO53 {
      UlpSmall(n / 2);
    }
  }

  /** Rounding never takes a large number below one million. */
  lemma Float64Large(n: nat)
    requires n >= TWO53
    ensures Float64(n) >= 1_000_000
  {
    UlpSmall(n);
    var u := Ulp(n);
    var (q, r) := (n / u, n % u);
    assert n == q * u + r;
    assert q * u > n - u;
    assert n - u >= 1_000_000;
    assert (q + 1) * u == q * u + u;
  }

  /** A number decoded from m is printed like the integer n exactly when they are the same number below one million. */
  lemma FloatTextMeets(m: nat, n: nat)
    ensures FloatText(Float64(m)) == Decimal(n) <==> m == n && n < 1_000_000
  {
    DecimalValue(n);
    var f := Float64(m);
    if m < TWO53 {
      Float64Exact(m);
    } else {
      Float64Large(m);
    }
    hide Float64, Decimal, ValueOf;
    if f >= 1_000_000 {
      HasExponent(f);
    } else {
      DecimalValue(m);
      assert Decimal(m) == Decimal(n) ==> m == n;
    }
  }

  /** An exponent is spelled with a letter, so the text is not that of an integer. */
  lemma HasExponent(f: nat)
    requires f >= 1_000_000
    ensures !AllDigits(FloatText(f))
  {
    hide Decimal, StripZeros, TwoDigits;
    var d := Decimal(f);
    DecimalValue(f);
    var fraction := StripZeros(d[1..]);
    var mantissa := d[..1] + if fraction == "" then "" else "." + fraction;
    assert FloatText(f) == mantissa + "e+" + TwoDigits(|d| - 1);
    assert FloatText(f)[|mantissa|] == 'e' && !IsDigit('e');
  }

  lemma MillionDigits()
    ensures Decimal(1_000_000) == "1000000"
  {
    assert Decimal(1000) == "1000";
    assert Decimal(100_000) == "100000";
  }

  lemma MillionPrinted()
    ensures Decimal(1_000_000) == "1000000" && FloatText(1_000_000) == "1e+06"
  {
    hide StripZeros;
    MillionDigits();
    OnlyZeros("000000");
    assert "1000000"[1..] == "000000" && "1000000"[..1] == "1";
  }

  lemma {:induction false} OnlyZeros(s: string)
    requires forall i | 0 <= i < |s| :: s[i] == '0'
    ensures StripZeros(s) == ""
    decreases s
  {
    if s != [] {
      OnlyZeros(s[..|s| - 1]);
    }
  }
}
