/** Percent-encoding of one path segment (section 2.1 of RFC 3986), as Go's url.PathEscape and
    url.PathUnescape do it. */
module PathEscaping {
  import opened Strings

  predicate IsAlphanumeric(c: Byte) {
    'a' <= c <= 'z' || 'A' <= c <= 'Z' || '0' <= c <= '9'
  }

  /** The bytes that stand for themselves in a path segment. */
  predicate StandsForItself(c: Byte) {
    IsAlphanumeric(c) || c in ['-', '_', '.', '~', '$', '&', '+', ':', '=', '@']
  }

  function UpperHex(n: nat): (c: Byte)
    requires n < 16
  {
    if n < 10 then ('0' as int + n) as char else ('A' as int + n - 10) as char
  }

  function HexValue(c: Byte): (v: Option<nat>)
    ensures v.Some? ==> v.value < 16
  {
    if '0' <= c <= '9' then Some(c as int - '0' as int)
    else if 'a' <= c <= 'f' then Some(c as int - 'a' as int + 10)
    else if 'A' <= c <= 'F' then Some(c as int - 'A' as int + 10)
    else None
  }

  function EscapeByte(c: Byte): Text {
    if StandsForItself(c) then [c] else ['%', UpperHex(c as int / 16), UpperHex(c as int % 16)]
  }

  function PathEscape(s: Text): Text {
    if s == [] then [] else EscapeByte(s[0]) + PathEscape(s[1..])
  }

  function PathUnescape(s: Text): Option<Text> {
    if s == [] then Some([])
    else if s[0] != '%' then
      var rest := PathUnescape(s[1..]);
      if rest.None? then None else Some([s[0]] + rest.value)
    else if |s| < 3 || HexValue(s[1]).None? || HexValue(s[2]).None? then None
    else
      var rest := PathUnescape(s[3..]);
      var decoded: Byte := (HexValue(s[1]).value * 16 + HexValue(s[2]).value) as char;
      if rest.None? then None else Some([decoded] + rest.value)
  }

  lemma HexRoundTrip(n: nat)
    requires n < 16
    ensures HexValue(UpperHex(n)) == Some(n)
  {
  }

  lemma UnescapeEscapedByte(c: Byte, rest: Text, decoded: Text)
    requires PathUnescape(rest) == Some(decoded)
    ensures PathUnescape(EscapeByte(c) + rest) == Some([c] + decoded)
  {
    var first := EscapeByte(c);
    var all := first + rest;
    HexRoundTrip(c as int / 16);
    HexRoundTrip(c as int % 16);
    if StandsForItself(c) {
      assert all[0] == c && all[1..] == rest;
    } else {
      assert all[0] == '%' && all[1] == UpperHex(c as int / 16) && all[2] == UpperHex(c as int % 16);
      assert all[3..] == rest;
    }
  }

  /** Decoding undoes encoding, for every byte string. */
  lemma {:induction false} UnescapeEscape(s: Text)
    ensures PathUnescape(PathEscape(s)) == Some(s)
  {
    if s != [] {
      UnescapeEscape(s[1..]);
      UnescapeEscapedByte(s[0], PathEscape(s[1..]), s[1..]);
      assert s == [s[0]] + s[1..];
    }
  }

  lemma {:induction false} EscapeHasNoSlash(s: Text)
    ensures '/' !in PathEscape(s)
  {
    if s != [] {
      EscapeHasNoSlash(s[1..]);
    }
  }

  lemma {:induction false} EscapeIdentity(s: Text)
    requires forall i | 0 <= i < |s| :: StandsForItself(s[i])
    ensures PathEscape(s) == s
  {
    if s != [] {
      EscapeIdentity(s[1..]);
    }
  }

  lemma EscapeNonempty(s: Text)
    ensures PathEscape(s) == [] <==> s == []
  {
  }

  /** Escaping starts with a dot exactly when the name does. */
  lemma EscapeFirst(s: Text)
    requires s != []
    ensures PathEscape(s) != [] && (PathEscape(s)[0] == '.' <==> s[0] == '.')
  {
  }

  lemma DotsInTail(first: Text, tail: Text)
    requires HasDotDot(tail)
    ensures HasDotDot(first + tail)
  {
    var j :| 0 <= j < |tail| - 1 && tail[j] == '.' && tail[j + 1] == '.';
    assert (first + tail)[|first| + j] == '.' && (first + tail)[|first| + j + 1] == '.';
  }

  lemma DotsOfTail(first: Text, tail: Text)
    requires HasDotDot(first + tail) && !HasDotDot(tail)
    requires |first| >= 1 && (|first| > 1 ==> '.' !in first)
    ensures first == ['.'] && tail != [] && tail[0] == '.'
  {
    var whole := first + tail;
    var j :| 0 <= j < |whole| - 1 && whole[j] == '.' && whole[j + 1] == '.';
    assert forall k | |first| <= k < |whole| :: whole[k] == tail[k - |first|];
    if j < |first| { assert first[j] == '.'; }
  }

  lemma EscapedByteDots(c: Byte)
    ensures |EscapeByte(c)| >= 1 && (|EscapeByte(c)| > 1 ==> '.' !in EscapeByte(c))
    ensures EscapeByte(c) == ['.'] <==> c == '.'
  {
  }

  /** Escaping neither hides nor makes a "..". */
  lemma {:induction false} EscapeDotDot(s: Text)
    ensures HasDotDot(PathEscape(s)) <==> HasDotDot(s)
  {
    if s != [] {
      var first, rest := EscapeByte(s[0]), PathEscape(s[1..]);
      EscapeDotDot(s[1..]);
      EscapedByteDots(s[0]);
      assert s == [s[0]] + s[1..];
      if |s| > 1 { EscapeFirst(s[1..]); }
      if HasDotDot(s[1..]) {
        DotsInTail([s[0]], s[1..]);
        DotsInTail(first, rest);
      } else {
        if HasDotDot(s) { DotsOfTail([s[0]], s[1..]); TwoDots(first, rest); }
        if HasDotDot(first + rest) { DotsOfTail(first, rest); TwoDots([s[0]], s[1..]); }
      }
    }
  }

  lemma TwoDots(first: Text, tail: Text)
    ensures first == ['.'] && tail != [] && tail[0] == '.' ==> HasDotDot(first + tail)
  {
    if first == ['.'] && tail != [] && tail[0] == '.' {
      assert (first + tail)[0] == '.' && (first + tail)[1] == '.';
    }
  }

  // ---------------------------------------------------------------- which bytes are escaped

  /** The bytes a path segment may hold as they are: the unreserved ones (section 2.3 of RFC 3986)
      and six of the reserved. */
  lemma EscapeByteMeaning(c: Byte)
    ensures EscapeByte(c) == [c] <==>
              || 'a' <= c <= 'z' || 'A' <= c <= 'Z' || '0' <= c <= '9'
              || c == '-' || c == '.' || c == '_' || c == '~'
              || c == '$' || c == '&' || c == '+' || c == ':' || c == '=' || c == '@'
    ensures EscapeByte(c) != [c] ==>
              && |EscapeByte(c)| == 3 && EscapeByte(c)[0] == '%'
              && forall i | 1 <= i < 3 :: '0' <= EscapeByte(c)[i] <= '9' || 'A' <= EscapeByte(c)[i] <= 'F'
  {
  }

  predicate IsHexDigit(c: Byte) {
    '0' <= c <= '9' || 'a' <= c <= 'f' || 'A' <= c <= 'F'
  }

  /** A segment decodes exactly when every "%" in it is followed by two hexadecimal digits. */
  lemma {:induction false} UnescapeAccepts(s: Text)
    ensures PathUnescape(s).Some? <==>
              forall i | 0 <= i < |s| && s[i] == '%' :: i + 2 < |s| && IsHexDigit(s[i + 1]) && IsHexDigit(s[i + 2])
  {
    if s != [] {
      if s[0] != '%' {
        UnescapeAccepts(s[1..]);
        assert forall i | 1 <= i < |s| :: s[i] == s[1..][i - 1];
        assert forall i | 0 <= i < |s| - 1 :: s[1..][i] == s[i + 1];
      } else if |s| >= 3 && IsHexDigit(s[1]) && IsHexDigit(s[2]) {
        UnescapeAccepts(s[3..]);
        assert forall i | 3 <= i < |s| :: s[i] == s[3..][i - 3];
        assert forall i | 0 <= i < |s| - 3 :: s[3..][i] == s[i + 3];
      } else {
        assert s[0] == '%';
      }
    }
  }

  /** Bytes other than "%" decode to themselves, and hexadecimal digits of either case are read. */
  lemma UnescapeFirst(c: Byte, hi: Byte, lo: Byte, rest: Text)
    requires PathUnescape(rest).Some? && IsHexDigit(hi) && IsHexDigit(lo)
    ensures c != '%' ==> PathUnescape([c] + rest) == Some([c] + PathUnescape(rest).value)
    ensures HexValue(hi).Some? && HexValue(lo).Some?
    ensures PathUnescape(['%', hi, lo] + rest) ==
            Some([(HexValue(hi).value * 16 + HexValue(lo).value) as char] + PathUnescape(rest).value)
  {
    assert ([c] + rest)[1..] == rest;
    assert (['%', hi, lo] + rest)[3..] == rest;
  }

  /** Lower-case digits denote what the upper-case ones do. */
  lemma HexCases(n: nat)
    requires 10 <= n < 16
    ensures HexValue(UpperHex(n)) == Some(n) && HexValue((UpperHex(n) as int + 32) as char) == Some(n)
  {
  }
}
