/**
 * Number and identifier text forms used by the sources: Python's `str(int)` and
 * `f"{n:02}"`, and `str(uuid.UUID)` (32 lower-case hex digits grouped 8-4-4-4-12).
 */
module Encoding {
  import opened Wrappers

  newtype byte = x: int | 0 <= x < 256

  /** A UUID as its 16 bytes, most significant first. */
  type Uuid = b: seq<byte> | |b| == 16 witness [0, 0, 0, 0, 0, 0, 0, 0, 0, 0, 0, 0, 0, 0, 0, 0]

  // ---------------------------------------------------------------- decimal

  predicate IsDigit(c: char) {
    '0' <= c <= '9'
  }

  predicate AllDigits(s: string) {
    forall k :: 0 <= k < |s| ==> IsDigit(s[k])
  }

  function DigitChar(d: nat): (c: char)
    requires d < 10
    ensures IsDigit(c)
  {
    ('0' as int + d) as char
  }

  function DigitValue(c: char): nat
    requires IsDigit(c)
  {
    c as int - '0' as int
  }

  /** Python `str(n)` for a non-negative integer: decimal digits, no leading zero. */
  function NatToString(n: nat): (s: string)
    ensures |s| >= 1 && AllDigits(s)
    ensures n >= 10 ==> s[0] != '0'
    decreases n
  {
    if n < 10 then [DigitChar(n)] else NatToString(n / 10) + [DigitChar(n % 10)]
  }

  /** The number a string of decimal digits denotes (Python `int(s)` on such a string). */
  function DigitsValue(s: string): nat
    requires AllDigits(s)
  {
    if |s| == 0 then 0 else DigitsValue(s[..|s| - 1]) * 10 + DigitValue(s[|s| - 1])
  }

  /** Reading back the decimal form gives the number. */
  lemma {:induction false} NatToStringRoundTrip(n: nat)
    ensures DigitsValue(NatToString(n)) == n
    decreases n
  {
    if n >= 10 {
      var s := NatToString(n);
      NatToStringRoundTrip(n / 10);
      assert s[..|s| - 1] == NatToString(n / 10);
    }
  }

  /** Distinct numbers have distinct decimal forms. */
  lemma NatToStringInjective(m: nat, n: nat)
    requires NatToString(m) == NatToString(n)
    ensures m == n
  {
    NatToStringRoundTrip(m);
    NatToStringRoundTrip(n);
  }

  /** Python `str(n)` for any integer: a minus sign before the digits of a negative one. */
  function IntToString(n: int): string {
    if n < 0 then "-" + NatToString(-n) else NatToString(n)
  }

  /** The ASCII whitespace that Python's `str.strip()` and `int()` skip. */
  predicate IsSpace(c: char) {
    c == ' ' || c == '\t' || c == '\n' || c == '\r' || c == '\U{0B}' || c == '\U{0C}'
  }

  function StripLeft(s: string): string
    decreases |s|
  {
    if |s| > 0 && IsSpace(s[0]) then StripLeft(s[1..]) else s
  }

  function StripRight(s: string): string
    decreases |s|
  {
    if |s| > 0 && IsSpace(s[|s| - 1]) then StripRight(s[..|s| - 1]) else s
  }

  /** An optional sign followed by at least one decimal digit, and the integer it denotes. */
  function SignedDigits(t: string): Option<int> {
    if |t| >= 2 && (t[0] == '+' || t[0] == '-') && AllDigits(t[1..]) then
      var magnitude: int := DigitsValue(t[1..]);
      Some(if t[0] == '-' then -magnitude else magnitude)
    else if |t| >= 1 && AllDigits(t) then Some(DigitsValue(t))
    else None
  }

  /**
   * Python `int(s)` on a string: surrounding whitespace, an optional sign, then decimal
   * digits; `None` where Python raises `ValueError`.
   */
  function IntText(s: string): Option<int> {
    SignedDigits(StripRight(StripLeft(s)))
  }

  /** Whitespace before text that does not start with whitespace is all that `StripLeft` removes. */
  lemma {:induction false} StripLeftSpaces(pre: string, t: string)
    requires forall k :: 0 <= k < |pre| ==> IsSpace(pre[k])
    requires |t| > 0 && !IsSpace(t[0])
    ensures StripLeft(pre + t) == t
    decreases |pre|
  {
    if |pre| > 0 {
      assert (pre + t)[1..] == pre[1..] + t;
      StripLeftSpaces(pre[1..], t);
    } else {
      assert pre + t == t;
    }
  }

  /** Whitespace after text that does not end with whitespace is all that `StripRight` removes. */
  lemma {:induction false} StripRightSpaces(t: string, post: string)
    requires forall k :: 0 <= k < |post| ==> IsSpace(post[k])
    requires |t| > 0 && !IsSpace(t[|t| - 1])
    ensures StripRight(t + post) == t
    decreases |post|
  {
    if |post| > 0 {
      assert (t + post)[..|t + post| - 1] == t + post[..|post| - 1];
      StripRightSpaces(t, post[..|post| - 1]);
    } else {
      assert t + post == t;
    }
  }

  /** The text `str(n)` of an integer reads back as `n`. */
  lemma SignedDigitsRoundTrip(n: int)
    ensures SignedDigits(IntToString(n)) == Some(n)
  {
    if n < 0 {
      var digits := NatToString(-n);
      var t := "-" + digits;
      NatToStringRoundTrip(-n);
      assert t[1..] == digits;
      assert |t| >= 2 && t[0] == '-' && AllDigits(t[1..]);
    } else {
      var t := NatToString(n);
      NatToStringRoundTrip(n);
      assert IsDigit(t[0]);
    }
  }

  /** `int(str(n)) == n`. */
  lemma IntTextOfString(n: int)
    ensures IntText(IntToString(n)) == Some(n)
  {
    var t := IntToString(n);
    var digits := NatToString(if n < 0 then -n else n);
    assert t[0] == '-' || IsDigit(t[0]);
    assert t[|t| - 1] == digits[|digits| - 1];
    SignedDigitsRoundTrip(n);
  }

  /**
   * `int()` reads the text `str(n)` back as `n`, also with whitespace around it:
   * `int(" 1700000000\n") == 1700000000`.
   */
  lemma IntTextRoundTrip(pre: string, n: int, post: string)
    requires forall k :: 0 <= k < |pre| ==> IsSpace(pre[k])
    requires forall k :: 0 <= k < |post| ==> IsSpace(post[k])
    ensures IntText(pre + IntToString(n) + post) == Some(n)
  {
    var t := IntToString(n);
    assert t[0] == '-' || IsDigit(t[0]);
    assert t[|t| - 1] == NatToString(if n < 0 then -n else n)[|NatToString(if n < 0 then -n else n)| - 1];
    StripLeftSpaces(pre, t + post);
    assert pre + t + post == pre + (t + post);
    StripRightSpaces(t, post);
    SignedDigitsRoundTrip(n);
  }

  /** Text holding a character that is neither whitespace, a sign nor a digit is not a number. */
  lemma IntTextRejects(s: string, k: int)
    requires 0 <= k < |s| && !IsSpace(s[k]) && !IsDigit(s[k]) && s[k] != '+' && s[k] != '-'
    ensures IntText(s) == None
  {
    StripKeeps(s, k);
  }

  /** A character that is not whitespace survives stripping. */
  lemma StripKeeps(s: string, k: int)
    requires 0 <= k < |s| && !IsSpace(s[k])
    ensures s[k] in StripRight(StripLeft(s))
  {
    StripLeftKeeps(s, k);
    var j :| 0 <= j < |StripLeft(s)| && StripLeft(s)[j] == s[k];
    StripRightKeeps(StripLeft(s), j);
  }

  lemma {:induction false} StripLeftKeeps(s: string, k: int)
    requires 0 <= k < |s| && !IsSpace(s[k])
    ensures s[k] in StripLeft(s)
    decreases |s|
  {
    if IsSpace(s[0]) {
      assert s[1..][k - 1] == s[k];
      StripLeftKeeps(s[1..], k - 1);
    }
  }

  lemma {:induction false} StripRightKeeps(s: string, k: int)
    requires 0 <= k < |s| && !IsSpace(s[k])
    ensures s[k] in StripRight(s)
    decreases |s|
  {
    if IsSpace(s[|s| - 1]) {
      StripRightKeeps(s[..|s| - 1], k);
    }
  }

  /** Python `f"{n:02}"`: the decimal form, left-padded with zeros to at least two digits. */
  function ZeroPad2(n: nat): (s: string)
    ensures |s| >= 2 && AllDigits(s)
    ensures n < 100 ==> |s| == 2
    ensures DigitsValue(s) == n
  {
    NatToStringRoundTrip(n);
    if n < 10 then "0" + NatToString(n) else NatToString(n)
  }

  // ---------------------------------------------------------------- hex

  predicate IsHexDigit(c: char) {
    '0' <= c <= '9' || 'a' <= c <= 'f'
  }

  predicate AllHex(s: string) {
    forall k :: 0 <= k < |s| ==> IsHexDigit(s[k])
  }

  function HexDigit(d: nat): (c: char)
    requires d < 16
    ensures IsHexDigit(c)
  {
    if d < 10 then ('0' as int + d) as char else ('a' as int + d - 10) as char
  }

  function HexValue(c: char): (d: nat)
    requires IsHexDigit(c)
    ensures d < 16
  {
    if c <= '9' then c as int - '0' as int else c as int - 'a' as int + 10
  }

  /** Lower-case hex, two digits per byte (the `'%032x' % uuid.int` of `str(uuid)`). */
  function Hex(bs: seq<byte>): (s: string)
    ensures |s| == 2 * |bs| && AllHex(s)
  {
    if |bs| == 0 then []
    else [HexDigit(bs[0] as nat / 16), HexDigit(bs[0] as nat % 16)] + Hex(bs[1..])
  }

  /** The bytes an even-length string of hex digits denotes. */
  function ParseHex(s: string): (bs: seq<byte>)
    requires |s| % 2 == 0 && AllHex(s)
    ensures |bs| == |s| / 2
  {
    if |s| == 0 then []
    else [(HexValue(s[0]) * 16 + HexValue(s[1])) as byte] + ParseHex(s[2..])
  }

  lemma {:induction false} HexRoundTrip(bs: seq<byte>)
    ensures ParseHex(Hex(bs)) == bs
  {
    if |bs| > 0 {
      var s := Hex(bs);
      HexRoundTrip(bs[1..]);
      assert s[2..] == Hex(bs[1..]);
    }
  }

  // ---------------------------------------------------------------- UUID

  /** Python `str(uuid)`: the 32 hex digits cut 8-4-4-4-12 and joined with '-'. */
  function UuidString(u: Uuid): (s: string)
    ensures |s| == 36
  {
    var h := Hex(u);
    h[..8] + "-" + h[8..12] + "-" + h[12..16] + "-" + h[16..20] + "-" + h[20..]
  }

  /** Reads back the canonical text form of a UUID; anything else is rejected. */
  function UuidFromString(s: string): Option<Uuid> {
    if |s| == 36 && s[8] == '-' && s[13] == '-' && s[18] == '-' && s[23] == '-' then
      var h := s[..8] + s[9..13] + s[14..18] + s[19..23] + s[24..];
      if AllHex(h) then Some(ParseHex(h)) else None
    else None
  }

  /** The subject claim `str(user.id)` determines the user id. */
  lemma UuidRoundTrip(u: Uuid)
    ensures UuidFromString(UuidString(u)) == Some(u)
  {
    var h := Hex(u);
    var s := UuidString(u);
    assert s[..8] == h[..8];
    assert s[9..13] == h[8..12];
    assert s[14..18] == h[12..16];
    assert s[19..23] == h[16..20];
    assert s[24..] == h[20..];
    assert h == h[..8] + h[8..12] + h[12..16] + h[16..20] + h[20..];
    HexRoundTrip(u);
  }

  lemma UuidStringInjective(u: Uuid, v: Uuid)
    requires UuidString(u) == UuidString(v)
    ensures u == v
  {
    UuidRoundTrip(u);
    UuidRoundTrip(v);
  }
}
