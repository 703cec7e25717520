/** Numbers written in base 16 and base 36, and the time-ordered identifiers built from them. */
module Encodings {
  import opened Common

  type Digit = d: int | 0 <= d < 36

  /** The character of a digit; base 36 uses capitals, base 16 small letters. */
  function DigitChar(d: Digit, capitals: bool): char {
    if d < 10 then '0' + d as char
    else if capitals then 'A' + (d - 10) as char
    else 'a' + (d - 10) as char
  }

  /** The value of a character, as `int(data, base)` reads it: case does not matter. */
  function CharDigit(c: char): Option<Digit> {
    if '0' <= c <= '9' then Some((c - '0') as int)
    else if 'A' <= c <= 'Z' then Some((c - 'A') as int + 10)
    else if 'a' <= c <= 'z' then Some((c - 'a') as int + 10)
    else None
  }

  lemma CharDigitInverts(d: Digit, capitals: bool)
    ensures CharDigit(DigitChar(d, capitals)) == Some(d)
  {
  }

  /** Digits are written as the source lists them. */
  lemma DigitsAreListed(d: Digit)
    ensures DigitChar(d, true) == "0123456789ABCDEFGHIJKLMNOPQRSTUVWXYZ"[d]
    ensures d < 16 ==> DigitChar(d, false) == "0123456789abcdef"[d]
  {
  }

  function Abs(n: int): nat {
    if n < 0 then -n else n
  }

  function Quot(n: nat, radix: nat): (q: nat)
    requires 2 <= radix
    ensures n > 0 ==> q < n
    ensures n == 0 ==> q == 0
  {
    QuotientShrinks(n, radix, n / radix, n % radix);
    n / radix
  }

  lemma QuotientShrinks(n: nat, radix: nat, q: int, rem: nat)
    requires 2 <= radix && n == radix * q + rem && rem < radix
    ensures 0 <= q && (n > 0 ==> q < n) && (n == 0 ==> q == 0)
  {
    if q < 0 {
      Product(radix, -q);
    } else if q > 0 {
      Product(radix, q);
    }
  }

  lemma Product(a: int, b: int)
    requires a >= 2 && b >= 1
    ensures a * b >= 2 * b && a * b >= a
  {
  }

  function Rem(n: nat, radix: nat): (r: nat)
    requires 2 <= radix
    ensures r < radix
  {
    n % radix
  }

  /** The digits of a positive number, most significant first; zero has none. */
  function Digits(n: nat, radix: nat, capitals: bool): string
    requires 2 <= radix <= 36
  {
    if n == 0 then "" else Digits(Quot(n, radix), radix, capitals) + [DigitChar(Rem(n, radix), capitals)]
  }

  /** `base36encode` and `base16encode`. */
  method Encode(number: int, radix: nat, capitals: bool) returns (text: string)
    requires 2 <= radix <= 36
    ensures text == Encoded(number, radix, capitals)
  {
    var isNegative := number < 0;
    var n: nat := Abs(number);
    text := "";
    while n != 0
      invariant Digits(n, radix, capitals) + text == Digits(Abs(number), radix, capitals)
      decreases n
    {
      var i := Rem(n, radix);
      assert Digits(n, radix, capitals) + text == Digits(Quot(n, radix), radix, capitals) + ([DigitChar(i, capitals)] + text);
      n := Quot(n, radix);
      text := [DigitChar(i, capitals)] + text;
    }
    assert text == Digits(Abs(number), radix, capitals);
    if isNegative {
      text := "-" + text;
    }
    if text == "" {
      text := [DigitChar(0, capitals)];
    }
  }

  function Encoded(number: int, radix: nat, capitals: bool): string
    requires 2 <= radix <= 36
  {
    if number == 0 then "0"
    else if number < 0 then "-" + Digits(-number, radix, capitals)
    else Digits(number, radix, capitals)
  }

  /** The value of a string of digits, or None if some character is not a digit of the base. */
  function Value(text: string, radix: nat): Option<nat> {
    if text == "" then Some(0)
    else
      var init, last := Value(text[..|text| - 1], radix), CharDigit(text[|text| - 1]);
      if init.Some? && last.Some? && last.value < radix then Some(init.value * radix + last.value) else None
  }

  /** `int(data, base)` on a sign and digits. */
  function Decoded(text: string, radix: nat): Option<int> {
    var negative := text != "" && text[0] == '-';
    var digits := if negative then text[1..] else text;
    var v := Value(digits, radix);
    if digits == "" || v.None? then None
    else
      var n: int := v.value;
      Some(if negative then -n else n)
  }

  lemma {:induction false} DigitsHaveTheirValue(n: nat, radix: nat, capitals: bool)
    requires 2 <= radix <= 36
    ensures Value(Digits(n, radix, capitals), radix) == Some(n)
    ensures n > 0 ==> Digits(n, radix, capitals) != "" && Digits(n, radix, capitals)[0] != '-'
  {
    if n > 0 {
      var init, last := Digits(Quot(n, radix), radix, capitals), DigitChar(Rem(n, radix), capitals);
      DigitsHaveTheirValue(Quot(n, radix), radix, capitals);
      CharDigitInverts(Rem(n, radix), capitals);
      ValueOfLast(init, last, radix);
      QuotRem(n, radix);
    }
  }

  lemma QuotRem(n: nat, radix: nat)
    requires 2 <= radix
    ensures Quot(n, radix) * radix + Rem(n, radix) == n
  {
  }

  lemma ValueOfLast(init: string, last: char, radix: nat)
    requires Value(init, radix).Some? && CharDigit(last).Some? && CharDigit(last).value < radix
    ensures Value(init + [last], radix) == Some(Value(init, radix).value * radix + CharDigit(last).value)
  {
    assert (init + [last])[..|init + [last]| - 1] == init;
  }

  /** Decoding undoes encoding, for every integer, in base 36 as in base 16. */
  lemma DecodeUndoesEncode(number: int, radix: nat, capitals: bool)
    requires 2 <= radix <= 36
    ensures Decoded(Encoded(number, radix, capitals), radix) == Some(number)
  {
    DigitsHaveTheirValue(Abs(number), radix, capitals);
    if number == 0 {
      assert "0"[..0] == "" && CharDigit('0') == Some(0);
    } else if number < 0 {
      assert Encoded(number, radix, capitals)[1..] == Digits(-number, radix, capitals);
    }
  }

  // ---------- Time-ordered identifiers ----------

  function Pow(b: nat, e: nat): nat {
    if e == 0 then 1 else b * Pow(b, e - 1)
  }

  lemma {:induction false} DigitsLength(n: nat, k: nat)
    requires Pow(16, k) <= n < Pow(16, k + 1)
    ensures |Digits(n, 16, false)| == k + 1
  {
    if k > 0 {
      DigitsLength(n / 16, k - 1);
    } else {
      assert n / 16 == 0;
    }
  }

  lemma {:induction false} BeforeExtends(a: string, b: string, c: string, d: string)
    requires |a| == |b| && Before(a, b)
    ensures Before(a + c, b + d)
  {
    if a[0] == b[0] {
      BeforeExtends(a[1..], b[1..], c, d);
      assert (a + c)[1..] == a[1..] + c && (b + d)[1..] == b[1..] + d;
    }
  }

  lemma {:induction false} CommonPrefix(p: string, a: string, b: string)
    ensures Before(p + a, p + b) <==> Before(a, b)
  {
    if p == "" {
      assert p + a == a && p + b == b;
    } else {
      CommonPrefix(p[1..], a, b);
      assert (p + a)[1..] == p[1..] + a && (p + b)[1..] == p[1..] + b;
    }
  }

  /** Numbers with equally many digits compare as their texts do. */
  lemma {:induction false} DigitsKeepOrder(m: nat, n: nat)
    requires m < n && |Digits(m, 16, false)| == |Digits(n, 16, false)|
    ensures Before(Digits(m, 16, false), Digits(n, 16, false))
  {
    if m > 0 {
      var a, b := [DigitChar(Rem(m, 16), false)], [DigitChar(Rem(n, 16), false)];
      if m / 16 == n / 16 {
        CommonPrefix(Digits(m / 16, 16, false), a, b);
      } else {
        DigitsKeepOrder(m / 16, n / 16);
        BeforeExtends(Digits(m / 16, 16, false), Digits(n / 16, 16, false), a, b);
      }
    }
  }

  /** `encode_number`: short texts are filled up with random characters. */
  function EncodeNumber(number: int, minLength: nat, fill: string): (r: string)
    requires |fill| == minLength
    ensures Encoded(number, 16, false) <= r && |r| >= minLength && (r == Encoded(number, 16, false) || |r| == minLength)
  {
    var response := Encoded(number, 16, false);
    if |response| >= minLength then response else response + fill[..minLength - |response|]
  }

  /** `str(UUIDT)`; `host` and `namespace` are the byte sums, the fills and the tail are random characters. */
  function Uuidt(timestamp: int, host: nat, namespace: nat, fills: (string, string, string), tail: string): string
    requires |fills.0| == 16 && |fills.1| == |fills.2| == 4 && |tail| == 8
  {
    var t := EncodeNumber(timestamp, 16, fills.0);
    var h := EncodeNumber(host, 4, fills.1);
    var n := EncodeNumber(namespace, 4, fills.2);
    t[..8] + "-" + t[8..12] + "-" + t[|t| - 4..] + "-" + h[..4] + "-" + n[..4] + tail
  }

  lemma {:induction false} Dashed(a: string, b: string, c: string, d: string)
    requires |a| == |b| && |c| == |d| && Before(a + c, b + d)
    ensures Before(a + "-" + c, b + "-" + d)
  {
    if a == "" {
      assert a + c == c && b + d == d && a + "-" + c == "-" + c && b + "-" + d == "-" + d;
      CommonPrefix("-", c, d);
    } else if a[0] == b[0] {
      assert (a + c)[1..] == a[1..] + c && (b + d)[1..] == b[1..] + d;
      Dashed(a[1..], b[1..], c, d);
      assert (a + "-" + c)[1..] == a[1..] + "-" + c && (b + "-" + d)[1..] == b[1..] + "-" + d;
    }
  }

  /** For timestamps of sixteen hexadecimal digits, later identifiers sort after earlier ones, wherever and however they were made. */
  lemma UuidtsSortByTime(t1: nat, t2: nat, h1: nat, h2: nat, n1: nat, n2: nat, f1: (string, string, string), f2: (string, string, string), r1: string, r2: string)
    requires Pow(16, 15) <= t1 < t2 < Pow(16, 16)
    requires |f1.0| == |f2.0| == 16 && |f1.1| == |f1.2| == |f2.1| == |f2.2| == 4 && |r1| == |r2| == 8
    ensures Before(Uuidt(t1, h1, n1, f1, r1), Uuidt(t2, h2, n2, f2, r2))
  {
    var a, b := Digits(t1, 16, false), Digits(t2, 16, false);
    DigitsLength(t1, 15);
    DigitsLength(t2, 15);
    DigitsKeepOrder(t1, t2);
    SplitBySixteen(a, b);
    var restA, restB := Rest(h1, n1, f1, r1), Rest(h2, n2, f2, r2);
    BeforeExtends(Grouped(a), Grouped(b), restA, restB);
    UuidtIsGrouped(t1, h1, n1, f1, r1);
    UuidtIsGrouped(t2, h2, n2, f2, r2);
  }

  /** The sixteen digits of a timestamp as they stand in an identifier. */
  function Grouped(digits: string): string
    requires |digits| == 16
  {
    digits[..8] + "-" + (digits[8..12] + "-" + digits[12..])
  }

  function Rest(host: nat, namespace: nat, fills: (string, string, string), tail: string): string
    requires |fills.1| == |fills.2| == 4
  {
    "-" + EncodeNumber(host, 4, fills.1)[..4] + "-" + EncodeNumber(namespace, 4, fills.2)[..4] + tail
  }

  lemma UuidtIsGrouped(t: nat, host: nat, namespace: nat, fills: (string, string, string), tail: string)
    requires |Digits(t, 16, false)| == 16 && |fills.0| == 16 && |fills.1| == |fills.2| == 4 && |tail| == 8
    ensures Uuidt(t, host, namespace, fills, tail) == Grouped(Digits(t, 16, false)) + Rest(host, namespace, fills, tail)
  {
    assert t > 0 && EncodeNumber(t, 16, fills.0) == Digits(t, 16, false);
    Dashes(Digits(t, 16, false)[..8], Digits(t, 16, false)[8..12], Digits(t, 16, false)[12..],
      EncodeNumber(host, 4, fills.1)[..4], EncodeNumber(namespace, 4, fills.2)[..4], tail);
  }

  /** The groups of an identifier: the timestamp in the first three, then host and namespace, then the random tail. */
  lemma UuidtGroups(t: nat, host: nat, namespace: nat, fills: (string, string, string), tail: string)
    requires Pow(16, 15) <= t < Pow(16, 16) && |fills.0| == 16 && |fills.1| == |fills.2| == 4 && |tail| == 8
    ensures var id := Uuidt(t, host, namespace, fills, tail);
            && |id| == 36 && id[8] == id[13] == id[18] == id[23] == '-'
            && Value(id[..8] + id[9..13] + id[14..18], 16) == Some(t) && id[28..] == tail
            && (Pow(16, 3) <= host < Pow(16, 4) ==> Value(id[19..23], 16) == Some(host))
            && (Pow(16, 3) <= namespace < Pow(16, 4) ==> Value(id[24..28], 16) == Some(namespace))
  {
    var id, digits := Uuidt(t, host, namespace, fills, tail), Digits(t, 16, false);
    DigitsLength(t, 15);
    DigitsHaveTheirValue(t, 16, false);
    UuidtIsGrouped(t, host, namespace, fills, tail);
    var h, n := EncodeNumber(host, 4, fills.1)[..4], EncodeNumber(namespace, 4, fills.2)[..4];
    GroupsAt(digits[..8], digits[8..12], digits[12..], h, n, tail);
    assert digits[..8] + digits[8..12] + digits[12..] == digits;
    FourDigits(host, fills.1);
    FourDigits(namespace, fills.2);
  }

  lemma FourDigits(n: nat, fill: string)
    requires |fill| == 4
    ensures Pow(16, 3) <= n < Pow(16, 4) ==> Value(EncodeNumber(n, 4, fill)[..4], 16) == Some(n)
  {
    if Pow(16, 3) <= n < Pow(16, 4) {
      DigitsLength(n, 3);
      DigitsHaveTheirValue(n, 16, false);
      assert EncodeNumber(n, 4, fill)[..4] == Digits(n, 16, false);
    }
  }

  lemma GroupsAt(a: string, b: string, c: string, h: string, n: string, tail: string)
    requires |a| == |tail| == 8 && |b| == |c| == |h| == |n| == 4
    ensures var id := (a + "-" + (b + "-" + c)) + ("-" + h + "-" + n + tail);
            && |id| == 36 && id[8] == id[13] == id[18] == id[23] == '-'
            && id[..8] == a && id[9..13] == b && id[14..18] == c && id[19..23] == h && id[24..28] == n && id[28..] == tail
  {
  }

  lemma Dashes(a: string, b: string, c: string, h: string, n: string, tail: string)
    ensures a + "-" + b + "-" + c + "-" + h + "-" + n + tail == (a + "-" + (b + "-" + c)) + ("-" + h + "-" + n + tail)
  {
  }

  lemma SplitBySixteen(a: string, b: string)
    requires |a| == |b| == 16 && Before(a, b)
    ensures Before(Grouped(a), Grouped(b))
  {
    assert a == a[..12] + a[12..] && b == b[..12] + b[12..];
    Dashed(a[..12], b[..12], a[12..], b[12..]);
    assert a[..12] + "-" + a[12..] == a[..8] + (a[8..12] + "-" + a[12..]);
    assert b[..12] + "-" + b[12..] == b[..8] + (b[8..12] + "-" + b[12..]);
    Dashed(a[..8], b[..8], a[8..12] + "-" + a[12..], b[8..12] + "-" + b[12..]);
  }
}
