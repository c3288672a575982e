/** Decimal printing (`fmt.Sprintf("%d", n)`) and parsing (`strconv.ParseInt(s, 10, 64)`). */
module Decimal {
  import opened Strings

  const MIN_INT64: int := -0x8000_0000_0000_0000
  const MAX_INT64: int := 0x7FFF_FFFF_FFFF_FFFF

  predicate IsInt64(n: int) {
    MIN_INT64 <= n <= MAX_INT64
  }

  predicate IsDigit(c: Byte) {
    '0' <= c <= '9'
  }

  function Digit(n: nat): (c: Byte)
    requires n < 10
    ensures IsDigit(c)
  {
    ('0' as int + n) as char
  }

  function FormatNat(n: nat): (s: Text)
    ensures |s| >= 1 && forall i | 0 <= i < |s| :: IsDigit(s[i])
  {
    if n < 10 then [Digit(n)] else FormatNat(n / 10) + [Digit(n % 10)]
  }

  function FormatInt(n: int): Text {
    if n < 0 then ['-'] + FormatNat(-n) else FormatNat(n)
  }

  /** Digits, at least one: what may follow the sign of a numeral. */
  predicate IsNumeral(s: Text) {
    |s| >= 1 && forall i | 0 <= i < |s| :: IsDigit(s[i])
  }

  /** The number a numeral denotes; unbounded. */
  function ValueOf(s: Text): nat
    requires forall i | 0 <= i < |s| :: IsDigit(s[i])
  {
    if s == [] then 0
    else
      assert IsDigit(s[|s| - 1]);
      ValueOf(s[..|s| - 1]) * 10 + (s[|s| - 1] as int - '0' as int)
  }

  /** The text after an optional sign, and the sign. */
  function Unsigned(s: Text): Text {
    if s != [] && (s[0] == '-' || s[0] == '+') then s[1..] else s
  }

  function SignedValue(s: Text): int
    requires IsNumeral(Unsigned(s))
  {
    if s[0] == '-' then -(ValueOf(Unsigned(s)) as int) else ValueOf(Unsigned(s))
  }

  function ParseInt64(s: Text): Option<int> {
    if IsNumeral(Unsigned(s)) && IsInt64(SignedValue(s)) then Some(SignedValue(s)) else None
  }

  /** parseInt64OrZero; parseIntOrZero is the same function where Go's int has 64 bits. */
  function ParseInt64OrZero(value: Text): (n: int)
    ensures IsInt64(n)
  {
    var parsed := ParseInt64(TrimSpace(value));
    if parsed.Some? then parsed.value else 0
  }

  lemma {:induction false} ValueOfFormat(n: nat)
    ensures ValueOf(FormatNat(n)) == n
  {
    var s := FormatNat(n);
    if n >= 10 {
      ValueOfFormat(n / 10);
      assert s[..|s| - 1] == FormatNat(n / 10);
    } else {
      assert s[..0] == [];
    }
  }

  lemma FormatIntInjective(m: int, n: int)
    requires FormatInt(m) == FormatInt(n)
    ensures m == n
  {
    FormatIntParses(m);
    FormatIntParses(n);
  }

  lemma FormatIntParses(n: int)
    ensures Unsigned(FormatInt(n)) == FormatNat(if n < 0 then -n else n)
    ensures IsNumeral(Unsigned(FormatInt(n))) && SignedValue(FormatInt(n)) == n
    ensures TrimSpace(FormatInt(n)) == FormatInt(n)
  {
    ValueOfFormat(if n < 0 then -n else n);
    TrimSpaceOfGraphic(FormatInt(n));
  }

  /** Parsing undoes printing over the whole 64-bit range, and answers 0 outside it, never a
      wrapped value; white space around the numeral is ignored. */
  lemma ParseOfFormat(n: int, padded: Text)
    requires TrimSpace(padded) == FormatInt(n)
    ensures ParseInt64OrZero(padded) == if IsInt64(n) then n else 0
    ensures ParseInt64OrZero(FormatInt(n)) == if IsInt64(n) then n else 0
  {
    FormatIntParses(n);
  }

  /** Numbers are printed in digits without leading zeros. */
  lemma {:induction false} FormatNatCanonical(n: nat)
    ensures n > 0 ==> FormatNat(n)[0] != '0'
    ensures FormatNat(0) == "0"
  {
    if n >= 10 { FormatNatCanonical(n / 10); }
  }

  /** The numerals accepted: digits with at most one sign before them, denoting a 64-bit number. */
  lemma ParseMeaning(digits: Text, s: Text)
    requires digits != [] && forall i | 0 <= i < |digits| :: '0' <= digits[i] <= '9'
    ensures s == digits || s == ['+'] + digits ==>
              ParseInt64(s) == (if ValueOf(digits) <= 9223372036854775807 then Some(ValueOf(digits)) else None)
    ensures s == ['-'] + digits ==>
              ParseInt64(s) == (if ValueOf(digits) <= 9223372036854775808 then Some(0 - ValueOf(digits)) else None)
  {
    if s == digits {
      assert Unsigned(s) == digits;
    } else if s == ['+'] + digits || s == ['-'] + digits {
      assert s[1..] == digits;
      assert Unsigned(s) == digits;
    }
  }

  /** Nothing else is accepted. */
  lemma ParsedShape(s: Text)
    requires ParseInt64(s).Some?
    ensures exists digits: Text ::
              && digits != [] && (forall i | 0 <= i < |digits| :: '0' <= digits[i] <= '9')
              && (s == digits || s == ['+'] + digits || s == ['-'] + digits)
  {
    var digits := Unsigned(s);
    assert s == digits || s == [s[0]] + digits;
  }
}
