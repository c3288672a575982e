/** Go strings are byte strings.  This module fixes that representation and writes out the few
    functions of Go's `strings` package that the agent relies on, with the laws used elsewhere. */
module Strings {

  /** One byte of a Go string, written as the character with the same code. */
  type Byte = c: char | c as int < 256 witness 'a'
  type Text = seq<Byte>

  datatype Option<+T> = None | Some(value: T)

  // ---------------------------------------------------------------- searching

  /** The index of the first `sep`, or the length when there is none. */
  function IndexOf(s: Text, sep: Byte): (i: nat)
    ensures i <= |s|
    ensures sep !in s[..i]
    ensures i < |s| ==> s[i] == sep
  {
    if s == [] || s[0] == sep then 0
    else
      var i := IndexOf(s[1..], sep) + 1;
      assert s[..i] == [s[0]] + s[1..][..i - 1];
      i
  }

  /** The index of the last `sep`, or -1: strings.LastIndexByte. */
  function LastIndexOf(s: Text, sep: Byte): (i: int)
    ensures -1 <= i < |s|
    ensures 0 <= i ==> s[i] == sep
    ensures forall k | i < k < |s| :: s[k] != sep
  {
    if s == [] then -1
    else if s[|s| - 1] == sep then |s| - 1
    else LastIndexOf(s[..|s| - 1], sep)
  }

  /** strings.Contains(s, "..") */
  predicate HasDotDot(s: Text) {
    exists i | 0 <= i < |s| - 1 :: s[i] == '.' && s[i + 1] == '.'
  }

  /** Two dots next to each other. */
  lemma DotDotMeaning(s: Text)
    ensures HasDotDot(s) <==> exists before: Text, after: Text :: s == before + ['.', '.'] + after
  {
    if HasDotDot(s) {
      var i :| 0 <= i < |s| - 1 && s[i] == '.' && s[i + 1] == '.';
      assert s == s[..i] + ['.', '.'] + s[i + 2..];
    }
    forall before: Text, after: Text | s == before + ['.', '.'] + after ensures HasDotDot(s) {
      assert s[|before|] == '.' && s[|before| + 1] == '.';
    }
  }

  lemma IndexOfAfter(a: Text, b: Text, sep: Byte)
    requires sep !in a
    ensures IndexOf(a + [sep] + b, sep) == |a|
  {
    var s := a + [sep] + b;
    var i := IndexOf(s, sep);
    assert s[|a|] == sep;
    assert forall k | 0 <= k < |a| :: s[k] == a[k];
    assert forall k | 0 <= k < i :: s[k] == s[..i][k];
  }

  /** A "/" and dot-free text after it add no "..". */
  lemma DotDotBeforeSlash(a: Text, b: Text)
    requires '.' !in b
    ensures HasDotDot(a + ['/'] + b) <==> HasDotDot(a)
  {
    var s := a + ['/'] + b;
    if HasDotDot(a) {
      var i :| 0 <= i < |a| - 1 && a[i] == '.' && a[i + 1] == '.';
      assert s[i] == '.' && s[i + 1] == '.';
    }
    if HasDotDot(s) {
      var i :| 0 <= i < |s| - 1 && s[i] == '.' && s[i + 1] == '.';
      assert forall k | |a| < k < |s| :: s[k] == b[k - |a| - 1];
      assert i + 1 < |a|;
      assert a[i] == '.' && a[i + 1] == '.';
    }
  }

  // ---------------------------------------------------------------- split and join

  /** strings.Split with a one-byte separator: always at least one part. */
  function Split(s: Text, sep: Byte): (parts: seq<Text>)
    ensures |parts| >= 1
  {
    if s == [] then [[]]
    else
      var rest := Split(s[1..], sep);
      if s[0] == sep then [[]] + rest else [[s[0]] + rest[0]] + rest[1..]
  }

  /** strings.Join with a one-byte separator. */
  function Join(parts: seq<Text>, sep: Byte): Text
    requires |parts| >= 1
  {
    if |parts| == 1 then parts[0] else parts[0] + [sep] + Join(parts[1..], sep)
  }

  predicate NoneContains(parts: seq<Text>, sep: Byte) {
    forall i | 0 <= i < |parts| :: sep !in parts[i]
  }

  lemma {:induction false} SplitWhole(a: Text, sep: Byte)
    requires sep !in a
    ensures Split(a, sep) == [a]
  {
    if a != [] {
      SplitWhole(a[1..], sep);
      assert [a[0]] + a[1..] == a;
    }
  }

  lemma {:induction false} SplitFirst(a: Text, s: Text, sep: Byte)
    requires sep !in a
    ensures Split(a + [sep] + s, sep) == [a] + Split(s, sep)
  {
    var whole := a + [sep] + s;
    if a == [] {
      assert whole[1..] == s;
    } else {
      SplitFirst(a[1..], s, sep);
      assert whole[1..] == a[1..] + [sep] + s;
      assert [a[0]] + a[1..] == a;
    }
  }

  /** Splitting undoes joining when no part holds the separator. */
  lemma {:induction false} SplitJoin(parts: seq<Text>, sep: Byte)
    requires |parts| >= 1 && NoneContains(parts, sep)
    ensures Split(Join(parts, sep), sep) == parts
  {
    if |parts| == 1 {
      SplitWhole(parts[0], sep);
    } else {
      SplitJoin(parts[1..], sep);
      SplitFirst(parts[0], Join(parts[1..], sep), sep);
    }
  }

  /** Joining undoes splitting, and no part of a split holds the separator. */
  lemma {:induction false} JoinSplit(s: Text, sep: Byte)
    ensures NoneContains(Split(s, sep), sep)
    ensures Join(Split(s, sep), sep) == s
  {
    if s != [] {
      JoinSplit(s[1..], sep);
      var rest := Split(s[1..], sep);
      var parts := Split(s, sep);
      if s[0] == sep {
        assert parts[1..] == rest;
        assert s == [sep] + s[1..];
      } else {
        assert parts[1..] == rest[1..];
        assert s == [s[0]] + s[1..];
      }
    }
  }

  // ---------------------------------------------------------------- white space

  /** The UTF-8 encodings, of one, two and three bytes, of the runes that unicode.IsSpace accepts. */
  predicate IsSpace1(a: Byte) {
    9 <= a as int <= 13 || a as int == 32
  }

  predicate IsSpace2(a: Byte, b: Byte) {
    a as int == 0xC2 && (b as int == 0x85 || b as int == 0xA0)
  }

  predicate IsSpace3(a: Byte, b: Byte, c: Byte) {
    var x, y, z := a as int, b as int, c as int;
    || (x == 0xE1 && y == 0x9A && z == 0x80)
    || (x == 0xE2 && y == 0x80 && (0x80 <= z <= 0x8A || z == 0xA8 || z == 0xA9 || z == 0xAF))
    || (x == 0xE2 && y == 0x81 && z == 0x9F)
    || (x == 0xE3 && y == 0x80 && z == 0x80)
  }

  /** How many bytes the white-space rune at the front of `s` takes; 0 when there is none. */
  function SpaceAtFront(s: Text): (n: nat)
    ensures n <= |s|
  {
    if |s| >= 1 && IsSpace1(s[0]) then 1
    else if |s| >= 2 && IsSpace2(s[0], s[1]) then 2
    else if |s| >= 3 && IsSpace3(s[0], s[1], s[2]) then 3
    else 0
  }

  function SpaceAtBack(s: Text): (n: nat)
    ensures n <= |s|
  {
    var k := |s|;
    if k >= 1 && IsSpace1(s[k - 1]) then 1
    else if k >= 2 && IsSpace2(s[k - 2], s[k - 1]) then 2
    else if k >= 3 && IsSpace3(s[k - 3], s[k - 2], s[k - 1]) then 3
    else 0
  }

  function TrimLeft(s: Text): Text
    decreases |s|
  {
    if SpaceAtFront(s) == 0 then s else TrimLeft(s[SpaceAtFront(s)..])
  }

  function TrimRight(s: Text): Text
    decreases |s|
  {
    if SpaceAtBack(s) == 0 then s else TrimRight(s[..|s| - SpaceAtBack(s)])
  }

  /** strings.TrimSpace */
  function TrimSpace(s: Text): Text {
    TrimRight(TrimLeft(s))
  }

  /** `t` is a stretch of `s`. */
  ghost predicate Within(t: Text, s: Text) {
    exists i, j :: 0 <= i <= j <= |s| && t == s[i..j]
  }

  lemma SliceOfSlice<T>(s: seq<T>, k: nat, l: nat, i: nat, j: nat)
    requires k <= l <= |s| && i <= j <= l - k
    ensures s[k..l][i..j] == s[k + i..k + j]
  {
    var a, b := s[k..l][i..j], s[k + i..k + j];
    assert |a| == |b|;
    assert forall n | 0 <= n < |a| :: a[n] == b[n];
  }

  lemma WithinTransitive(a: Text, b: Text, c: Text)
    requires Within(a, b) && Within(b, c)
    ensures Within(a, c)
  {
    var i, j :| 0 <= i <= j <= |b| && a == b[i..j];
    var k, l :| 0 <= k <= l <= |c| && b == c[k..l];
    SliceOfSlice(c, k, l, i, j);
    assert 0 <= k + i <= k + j <= |c| && a == c[k + i..k + j];
  }

  lemma WithinKeepsAbsence(a: Text, b: Text, c: Byte)
    requires Within(a, b) && c !in b
    ensures c !in a
  {
  }

  lemma SuffixOfSuffix<T>(s: seq<T>, n: nat, i: nat)
    requires n + i <= |s|
    ensures s[n..][i..] == s[n + i..]
  {
    assert |s[n..][i..]| == |s[n + i..]|;
  }

  lemma PrefixOfPrefix<T>(s: seq<T>, n: nat, j: nat)
    requires j <= n <= |s|
    ensures s[..n][..j] == s[..j]
  {
    assert |s[..n][..j]| == |s[..j]|;
  }

  lemma {:induction false} TrimLeftWithin(s: Text)
    ensures exists i :: 0 <= i <= |s| && TrimLeft(s) == s[i..]
    ensures SpaceAtFront(TrimLeft(s)) == 0
    decreases |s|
  {
    var n := SpaceAtFront(s);
    if n == 0 {
      assert s == s[0..];
    } else {
      TrimLeftWithin(s[n..]);
      var i :| 0 <= i <= |s[n..]| && TrimLeft(s[n..]) == s[n..][i..];
      SuffixOfSuffix(s, n, i);
    }
  }

  lemma {:induction false} TrimRightWithin(s: Text)
    ensures exists j :: 0 <= j <= |s| && TrimRight(s) == s[..j]
    ensures SpaceAtBack(TrimRight(s)) == 0
    decreases |s|
  {
    var n := SpaceAtBack(s);
    if n == 0 {
      assert s == s[..|s|];
    } else {
      TrimRightWithin(s[..|s| - n]);
      var j :| 0 <= j <= |s| - n && TrimRight(s[..|s| - n]) == s[..|s| - n][..j];
      PrefixOfPrefix(s, |s| - n, j);
    }
  }

  lemma MiddleIsWithin(s: Text, i: nat, j: nat)
    requires i + j <= |s|
    ensures Within(s[i..][..j], s)
  {
    assert |s[i..][..j]| == |s[i..i + j]|;
    assert s[i..][..j] == s[i..i + j];
  }

  /** Cutting at the back puts no white space at the front. */
  lemma TrimmedFront(left: Text, j: nat)
    requires SpaceAtFront(left) == 0 && j <= |left|
    ensures SpaceAtFront(left[..j]) == 0
  {
  }

  /** A trimmed string is a stretch of the original with no white space at either end. */
  lemma TrimSpaceWithin(s: Text)
    ensures Within(TrimSpace(s), s)
    ensures SpaceAtFront(TrimSpace(s)) == 0 && SpaceAtBack(TrimSpace(s)) == 0
  {
    var left := TrimLeft(s);
    TrimLeftWithin(s);
    TrimRightWithin(left);
    var i :| 0 <= i <= |s| && left == s[i..];
    var j :| 0 <= j <= |left| && TrimRight(left) == left[..j];
    MiddleIsWithin(s, i, j);
    TrimmedFront(left, j);
  }

  /** A byte that is neither white space nor part of a multi-byte rune. */
  predicate Graphic(c: Byte) {
    33 <= c as int < 128
  }

  lemma TrimSpaceOfGraphic(s: Text)
    requires s == [] || (Graphic(s[0]) && Graphic(s[|s| - 1]))
    ensures TrimSpace(s) == s
  {
    assert SpaceAtFront(s) == 0 && SpaceAtBack(s) == 0;
  }

  // ---------------------------------------------------------------- trimming a part

  /** Where white space at both ends meets, it is the whole string or leaves room for both. */
  lemma SpacesDoNotCross(s: Text)
    requires SpaceAtFront(s) > 0 && SpaceAtBack(s) > 0
    ensures SpaceAtFront(s) == SpaceAtBack(s) == |s| || SpaceAtFront(s) + SpaceAtBack(s) <= |s|
  {
  }

  /** The front of a string is seen in any prefix that reaches past it, and not before. */
  lemma FrontOfPrefix(s: Text, k: nat)
    requires k <= |s|
    ensures SpaceAtFront(s) <= k ==> SpaceAtFront(s[..k]) == SpaceAtFront(s)
    ensures SpaceAtFront(s) == 0 ==> SpaceAtFront(s[..k]) == 0
  {
  }

  lemma BackOfSuffix(s: Text, k: nat)
    requires k <= |s| && SpaceAtBack(s) <= |s| - k
    ensures SpaceAtBack(s[k..]) == SpaceAtBack(s)
  {
  }

  /** Taking one white-space rune off the back first changes nothing. */
  lemma {:induction false} TrimAfterBack(s: Text)
    ensures TrimSpace(s[..|s| - SpaceAtBack(s)]) == TrimSpace(s)
    decreases |s|
  {
    var f, n := SpaceAtFront(s), SpaceAtBack(s);
    var shorter := s[..|s| - n];
    if n == 0 {
      assert shorter == s;
    } else if f == 0 {
      FrontOfPrefix(s, |s| - n);
    } else {
      SpacesDoNotCross(s);
      if f == |s| {
        assert s[f..] == [] && shorter == [];
      } else {
        FrontOfPrefix(s, |s| - n);
        BackOfSuffix(s, f);
        assert s[f..][..|s| - f - n] == shorter[f..];
        TrimAfterBack(s[f..]);
      }
    }
  }

  lemma NoSlashInSpace(s: Text)
    ensures '/' !in s[..SpaceAtFront(s)] && '/' !in s[|s| - SpaceAtBack(s)..]
  {
  }

  // ---------------------------------------------------------------- which runes are white space

  /** The UTF-8 encoding of a code point below 0x10000 (section 3 of RFC 3629). */
  function Utf8(rune: nat): Text
    requires rune < 0x10000
  {
    if rune < 0x80 then [rune as char]
    else if rune < 0x800 then [(0xC0 + rune / 0x40) as char, (0x80 + rune % 0x40) as char]
    else [(0xE0 + rune / 0x1000) as char, (0x80 + rune / 0x40 % 0x40) as char, (0x80 + rune % 0x40) as char]
  }

  /** The code points of unicode.IsSpace. */
  predicate IsSpaceRune(rune: nat) {
    || 0x09 <= rune <= 0x0D || rune == 0x20 || rune == 0x85 || rune == 0xA0
    || rune == 0x1680 || 0x2000 <= rune <= 0x200A || rune == 0x2028 || rune == 0x2029
    || rune == 0x202F || rune == 0x205F || rune == 0x3000
  }

  lemma SpaceRuneIsSeenInFront(s: Text, rune: nat)
    requires IsSpaceRune(rune) && Utf8(rune) <= s
    ensures SpaceAtFront(s) == |Utf8(rune)|
  {
  }

  lemma SpaceRuneIsSeenAtBack(s: Text, rune: nat)
    requires IsSpaceRune(rune) && |Utf8(rune)| <= |s| && s[|s| - |Utf8(rune)|..] == Utf8(rune)
    ensures SpaceAtBack(s) == |Utf8(rune)|
  {
    var tail := s[|s| - |Utf8(rune)|..];
    assert forall i | 0 <= i < |tail| :: s[|s| - |tail| + i] == tail[i];
  }

  lemma Space2IsRune(a: Byte, b: Byte) returns (rune: nat)
    requires IsSpace2(a, b)
    ensures IsSpaceRune(rune) && Utf8(rune) == [a, b]
  {
    rune := b as int;
  }

  lemma Space3IsRune(a: Byte, b: Byte, c: Byte) returns (rune: nat)
    requires IsSpace3(a, b, c)
    ensures IsSpaceRune(rune) && Utf8(rune) == [a, b, c]
  {
    rune := (a as int - 0xE0) * 0x1000 + (b as int - 0x80) * 0x40 + (c as int - 0x80);
  }

  /** What is taken off either end is the encoding of one white-space rune. */
  lemma SpaceIsRune(s: Text)
    ensures SpaceAtFront(s) > 0 ==>
              exists rune: nat :: rune < 0x10000 && IsSpaceRune(rune) && s[..SpaceAtFront(s)] == Utf8(rune)
    ensures SpaceAtBack(s) > 0 ==>
              exists rune: nat :: rune < 0x10000 && IsSpaceRune(rune) && s[|s| - SpaceAtBack(s)..] == Utf8(rune)
  {
    if SpaceAtFront(s) > 0 { var rune := FrontRune(s); }
    if SpaceAtBack(s) > 0 { var rune := BackRune(s); }
  }

  lemma FrontRune(s: Text) returns (rune: nat)
    requires SpaceAtFront(s) > 0
    ensures IsSpaceRune(rune) && s[..SpaceAtFront(s)] == Utf8(rune)
  {
    var n := SpaceAtFront(s);
    if n == 1 {
      rune := s[0] as int;
      assert s[..1] == [s[0]];
    } else if n == 2 {
      rune := Space2IsRune(s[0], s[1]);
      assert s[..2] == [s[0], s[1]];
    } else {
      rune := Space3IsRune(s[0], s[1], s[2]);
      assert s[..3] == [s[0], s[1], s[2]];
    }
  }

  lemma BackRune(s: Text) returns (rune: nat)
    requires SpaceAtBack(s) > 0
    ensures IsSpaceRune(rune) && s[|s| - SpaceAtBack(s)..] == Utf8(rune)
  {
    var n, k := SpaceAtBack(s), |s|;
    if n == 1 {
      rune := s[k - 1] as int;
      assert s[k - 1..] == [s[k - 1]];
    } else if n == 2 {
      rune := Space2IsRune(s[k - 2], s[k - 1]);
      assert s[k - 2..] == [s[k - 2], s[k - 1]];
    } else {
      rune := Space3IsRune(s[k - 3], s[k - 2], s[k - 1]);
      assert s[k - 3..] == [s[k - 3], s[k - 2], s[k - 1]];
    }
  }
}
