/** Percent-decoding of a URI component (`decodeURIComponent`), for escapes that
    denote ASCII characters. */
module Uri {
  import opened Wrappers
  import opened Text

  predicate IsHexDigit(c: char) {
    '0' <= c <= '9' || 'a' <= c <= 'f' || 'A' <= c <= 'F'
  }

  function HexValue(c: char): (v: nat)
    requires IsHexDigit(c)
    ensures v < 16
  {
    if '0' <= c <= '9' then c as int - '0' as int
    else if 'a' <= c <= 'f' then c as int - 'a' as int + 10
    else c as int - 'A' as int + 10
  }

  /** The position `i` holds `%` followed by two hex digits that denote an ASCII code. */
  predicate ValidEscapeAt(s: string, i: nat)
    requires i < |s|
  {
    i + 2 < |s| && IsHexDigit(s[i + 1]) && IsHexDigit(s[i + 2]) &&
    16 * HexValue(s[i + 1]) + HexValue(s[i + 2]) < 0x80
  }

  /** Every `%` of `s` starts an escape that can be decoded. */
  predicate WellFormed(s: string) {
    forall i :: 0 <= i < |s| && s[i] == '%' ==> ValidEscapeAt(s, i)
  }

  /** `decodeURIComponent`: every `%XY` is replaced by the character with code
      0xXY; `None` stands for the `URIError` it throws on a malformed escape. */
  function Decode(s: string): (r: Option<string>)
    ensures r.Some? ==> |r.value| <= |s|
    decreases |s|
  {
    if s == [] then Some([])
    else if s[0] != '%' then
      match Decode(s[1..])
      case None => None
      case Some(t) => Some([s[0]] + t)
    else if |s| < 3 || !IsHexDigit(s[1]) || !IsHexDigit(s[2]) then None
    else
      var code := 16 * HexValue(s[1]) + HexValue(s[2]);
      if code >= 0x80 then None
      else
        match Decode(s[3..])
        case None => None
        case Some(t) => Some([code as char] + t)
  }

  /** Being well formed does not depend on a prefix free of `%` or on an escape. */
  lemma WellFormedDrop(s: string, k: nat)
    requires k <= |s|
    requires forall i :: 0 <= i < k && s[i] == '%' ==> ValidEscapeAt(s, i)
    requires k == 1 || (k == 3 && ValidEscapeAt(s, 0))
    ensures WellFormed(s) <==> WellFormed(s[k..])
  {
    var t := s[k..];
    if WellFormed(t) {
      forall i | 0 <= i < |s| && s[i] == '%'
        ensures ValidEscapeAt(s, i)
      {
        if i >= k {
          assert t[i - k] == s[i];
          assert ValidEscapeAt(t, i - k);
        }
      }
    }
    if WellFormed(s) {
      forall j | 0 <= j < |t| && t[j] == '%'
        ensures ValidEscapeAt(t, j)
      {
        assert s[j + k] == t[j];
        assert ValidEscapeAt(s, j + k);
      }
    }
  }

  /** Decoding fails exactly when some `%` does not start a decodable escape. */
  lemma {:induction false} DecodeSucceedsIff(s: string)
    ensures Decode(s).Some? <==> WellFormed(s)
    decreases |s|
  {
    if s == [] {
    } else if s[0] != '%' {
      DecodeSucceedsIff(s[1..]);
      WellFormedDrop(s, 1);
    } else if |s| < 3 || !IsHexDigit(s[1]) || !IsHexDigit(s[2]) {
      assert !ValidEscapeAt(s, 0);
    } else if 16 * HexValue(s[1]) + HexValue(s[2]) >= 0x80 {
      assert !ValidEscapeAt(s, 0);
    } else {
      DecodeSucceedsIff(s[3..]);
      WellFormedDrop(s, 3);
    }
  }

  /** A string without `%` decodes to itself. */
  lemma {:induction false} DecodePlain(s: string)
    requires forall i :: 0 <= i < |s| ==> s[i] != '%'
    ensures Decode(s) == Some(s)
    decreases |s|
  {
    if s != [] {
      DecodePlain(s[1..]);
      assert [s[0]] + s[1..] == s;
    }
  }

  /** Hex digits mean the same in either case. */
  lemma HexIgnoresCase(c: char, d: char)
    requires LowerChar(c) == LowerChar(d)
    ensures IsHexDigit(c) <==> IsHexDigit(d)
    ensures IsHexDigit(c) ==> HexValue(c) == HexValue(d)
  {
  }

  /** Queries equal ignoring case decode alike: both fail, or both succeed with
      results equal ignoring case. */
  lemma {:induction false} DecodeIgnoresCase(a: string, b: string)
    requires ToLower(a) == ToLower(b)
    ensures Decode(a).Some? <==> Decode(b).Some?
    ensures Decode(a).Some? ==> ToLower(Decode(a).value) == ToLower(Decode(b).value)
    decreases |a|
  {
    assert |a| == |b|;
    if a != [] {
      assert LowerChar(a[0]) == LowerChar(b[0]);
      if a[0] != '%' {
        assert b[0] != '%';
        ToLowerDrop(a, 1);
        ToLowerDrop(b, 1);
        DecodeIgnoresCase(a[1..], b[1..]);
        if Decode(a[1..]).Some? {
          ToLowerPrepend(a[0], Decode(a[1..]).value);
          ToLowerPrepend(b[0], Decode(b[1..]).value);
        }
      } else {
        assert b[0] == '%';
        if |a| >= 3 {
          assert LowerChar(a[1]) == LowerChar(b[1]);
          assert LowerChar(a[2]) == LowerChar(b[2]);
          HexIgnoresCase(a[1], b[1]);
          HexIgnoresCase(a[2], b[2]);
          ToLowerDrop(a, 3);
          ToLowerDrop(b, 3);
          DecodeIgnoresCase(a[3..], b[3..]);
          if IsHexDigit(a[1]) && IsHexDigit(a[2]) && Decode(a[3..]).Some? {
            var code := 16 * HexValue(a[1]) + HexValue(a[2]);
            if code < 0x80 {
              ToLowerPrepend(code as char, Decode(a[3..]).value);
              ToLowerPrepend(code as char, Decode(b[3..]).value);
            }
          }
        }
      }
    }
  }

  predicate IsAscii(s: string) {
    forall i :: 0 <= i < |s| ==> s[i] as int < 0x80
  }

  function HexDigitChar(v: nat): (c: char)
    requires v < 16
    ensures IsHexDigit(c) && HexValue(c) == v
  {
    if v < 10 then ('0' as int + v) as char else ('A' as int + v - 10) as char
  }

  /** The escape `%XY` of an ASCII character. */
  function EscapeChar(c: char): (r: string)
    requires c as int < 0x80
    ensures |r| == 3 && r[0] == '%'
  {
    ['%', HexDigitChar(c as int / 16), HexDigitChar(c as int % 16)]
  }

  /** A reference encoder: escapes every character of an ASCII string. */
  function EscapeAll(s: string): (r: string)
    requires IsAscii(s)
    ensures |r| == 3 * |s|
  {
    if s == [] then [] else EscapeChar(s[0]) + EscapeAll(s[1..])
  }

  /** An escape in front of `t` decodes to its character. */
  lemma DecodeEscapeChar(c: char, t: string)
    requires c as int < 0x80
    ensures Decode(EscapeChar(c) + t) ==
              match Decode(t)
              case None => None
              case Some(u) => Some([c] + u)
  {
    var e := EscapeChar(c) + t;
    var hi, lo := c as int / 16, c as int % 16;
    assert e[0] == '%' && e[1] == HexDigitChar(hi) && e[2] == HexDigitChar(lo);
    assert 16 * hi + lo == c as int;
    assert e[3..] == t;
  }

  /** Decoding undoes escaping. */
  lemma {:induction false} DecodeEscapeAll(s: string)
    requires IsAscii(s)
    ensures Decode(EscapeAll(s)) == Some(s)
    decreases |s|
  {
    if s != [] {
      DecodeEscapeAll(s[1..]);
      DecodeEscapeChar(s[0], EscapeAll(s[1..]));
      assert [s[0]] + s[1..] == s;
    }
  }
}
