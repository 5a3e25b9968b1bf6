/** Python's `int(s)` in base 10, as the command loop uses it to read a task
    number, and `str(n)` of a natural number, as the listing uses it to show
    one. `int()` reports a malformed string by raising `ValueError`; here that
    is `None`. */
module PyInt {
  import opened Wrappers
  import opened PyStr

  predicate IsDigit(c: char) {
    '0' <= c <= '9'
  }

  predicate AllDigits(s: string) {
    forall i :: 0 <= i < |s| ==> IsDigit(s[i])
  }

  /** The number a string of decimal digits denotes, most significant first. */
  function DigitsValue(s: string): nat
    requires AllDigits(s)
  {
    if s == [] then 0 else 10 * DigitsValue(s[..|s| - 1]) + (s[|s| - 1] as int - '0' as int)
  }

  /** The digit part `int()` accepts in base 10: at least one digit, and
      underscores only singly and only between two digits. Leading zeros are
      allowed. */
  predicate IsDigitRun(s: string) {
    && |s| > 0
    && IsDigit(s[0])
    && IsDigit(s[|s| - 1])
    && (forall i :: 0 <= i < |s| ==> IsDigit(s[i]) || s[i] == '_')
    && (forall i :: 0 <= i < |s| - 1 && s[i] == '_' ==> s[i + 1] != '_')
  }

  /** `s` with every underscore removed. */
  function DropUnderscores(s: string): (r: string)
    ensures |r| <= |s|
    ensures forall i :: 0 <= i < |r| ==> r[i] != '_'
    ensures (forall i :: 0 <= i < |s| ==> IsDigit(s[i]) || s[i] == '_') ==> AllDigits(r)
    ensures AllDigits(s) ==> r == s
  {
    if s == [] then [] else (if s[0] == '_' then [] else [s[0]]) + DropUnderscores(s[1..])
  }

  /** The magnitude a run of digits denotes, if it is one. */
  function Magnitude(s: string): (r: Option<nat>)
    ensures r.Some? <==> IsDigitRun(s)
  {
    if IsDigitRun(s) then Some(DigitsValue(DropUnderscores(s))) else None
  }

  /** The whitespace `int()` skips around a number. Python's integer parser
      maps every non-ASCII whitespace character to a space and then skips only
      the ASCII space, tab, line feed, vertical tab, form feed and carriage
      return. So it skips what `str.isspace()` accepts except the ASCII
      separators U+001C..U+001F, which `str.strip()` does remove. */
  predicate IsIntSpace(c: char) {
    IsSpace(c) && !('\U{1C}' <= c <= '\U{1F}')
  }

  predicate AllIntSpace(s: string) {
    AllOf(IsIntSpace, s)
  }

  /** `s` without the whitespace `int()` skips at either end. */
  function TrimIntSpace(s: string): (r: string)
    ensures |r| <= |s|
    ensures r != [] ==> !IsIntSpace(r[0]) && !IsIntSpace(r[|r| - 1])
    ensures r == [] <==> AllIntSpace(s)
  {
    TrimBy(IsIntSpace, s)
  }

  /** A plain run of digits, trimmed and read, denotes its digit value. */
  lemma SignedDigits(s: string)
    requires AllDigits(s) && s != []
    ensures Signed(TrimIntSpace(s)) == Some(DigitsValue(s))
  {
    TrimTrimmed(IsIntSpace, s);
    MagnitudeOfDigits(s);
  }

  /** A number is read only from a string holding a digit. */
  lemma SignedNeedsDigit(s: string)
    ensures Signed(TrimIntSpace(s)).Some? ==> !AllSpace(s)
  {
    var t := TrimIntSpace(s);
    if Signed(t).Some? {
      var lead := TrimIsSlice(IsIntSpace, s);
      assert t[|t| - 1] == s[lead + |t| - 1];
    }
  }

  /** `int(s)`: the whitespace `int()` skips is ignored at either end, then an
      optional sign, then a run of digits; anything else is a `ValueError`. */
  function ParseInt(s: string): (r: Option<int>)
    ensures r.Some? ==> !AllSpace(s)
    ensures AllDigits(s) && s != [] ==> r == Some(DigitsValue(s))
  {
    var t := TrimIntSpace(s);
    assert AllDigits(s) && s != [] ==> Signed(t) == Some(DigitsValue(s)) by {
      if AllDigits(s) && s != [] {
        SignedDigits(s);
      }
    }
    assert Signed(t).Some? ==> !AllSpace(s) by {
      SignedNeedsDigit(s);
    }
    Signed(t)
  }

  /** A plain run of digits, with no underscores, denotes its digit value. */
  lemma MagnitudeOfDigits(s: string)
    requires AllDigits(s) && s != []
    ensures Magnitude(s) == Some(DigitsValue(s))
  {
    assert IsDigitRun(s);
  }

  /** The sign and magnitude of an already stripped number. */
  function Signed(t: string): (r: Option<int>)
    ensures r.Some? ==> t != [] && IsDigit(t[|t| - 1])
    ensures r.Some? && t[0] == '-' ==> r.value <= 0
    ensures r.Some? && t[0] != '-' ==> r.value >= 0
  {
    if t != [] && (t[0] == '+' || t[0] == '-') then
      match Magnitude(t[1..])
      case Some(m) => Some(if t[0] == '-' then -(m as int) else m as int)
      case None => None
    else
      match Magnitude(t)
      case Some(m) => Some(m as int)
      case None => None
  }

  function DigitChar(d: nat): (c: char)
    requires d < 10
    ensures IsDigit(c) && c as int - '0' as int == d
  {
    ('0' as int + d) as char
  }

  /** `str(n)` for a natural number: its decimal digits without leading zeros. */
  function ShowNat(n: nat): (s: string)
    ensures s != [] && AllDigits(s)
    ensures s[0] == '0' ==> s == "0"
    ensures DigitsValue(s) == n
    decreases n
  {
    if n < 10 then [DigitChar(n)]
    else
      var s := ShowNat(n / 10) + [DigitChar(n % 10)];
      assert s[..|s| - 1] == ShowNat(n / 10);
      s
  }

  /** Reading back what `str()` shows gives the same number, with or without
      a minus sign in front. */
  lemma ParseShowNat(n: nat)
    ensures ParseInt(ShowNat(n)) == Some(n as int)
    ensures ParseInt("-" + ShowNat(n)) == Some(-(n as int))
  {
    ParseNegatedShowNat(n);
  }

  /** `int("-" + str(n))` is `-n`. */
  lemma ParseNegatedShowNat(n: nat)
    ensures ParseInt("-" + ShowNat(n)) == Some(-(n as int))
  {
    var s := ShowNat(n);
    var m := "-" + s;
    assert m[|m| - 1] == s[|s| - 1];
    TrimTrimmed(IsIntSpace, m);
    SignedNegatedShowNat(n);
  }

  /** Reading `"-" + str(n)` once trimmed gives `-n`. */
  lemma SignedNegatedShowNat(n: nat)
    ensures Signed("-" + ShowNat(n)) == Some(-(n as int))
  {
    var m := "-" + ShowNat(n);
    assert m[1..] == ShowNat(n);
    MagnitudeShowNat(n);
  }

  /** The same round trip holds with whitespace that `int()` skips on either
      side of the number. */
  lemma ParsePaddedShowNat(a: string, n: nat, b: string)
    requires AllIntSpace(a) && AllIntSpace(b)
    ensures ParseInt(a + ShowNat(n) + b) == Some(n as int)
  {
    var s := ShowNat(n);
    TrimPadded(IsIntSpace, a, s, b);
    MagnitudeShowNat(n);
  }

  /** The padded round trip for a negative number. */
  lemma ParsePaddedNegatedShowNat(a: string, n: nat, b: string)
    requires AllIntSpace(a) && AllIntSpace(b)
    ensures ParseInt(a + ("-" + ShowNat(n)) + b) == Some(-(n as int))
  {
    var s := ShowNat(n);
    var m := "-" + s;
    assert m[|m| - 1] == s[|s| - 1];
    TrimPadded(IsIntSpace, a, m, b);
    SignedNegatedShowNat(n);
  }

  lemma MagnitudeShowNat(n: nat)
    ensures Magnitude(ShowNat(n)) == Some(n)
  {
    assert IsDigitRun(ShowNat(n));
  }

  /** A string holding any character that is not whitespace `int()` skips, a
      digit, a sign or an underscore is never a number. The ASCII separators
      U+001C..U+001F are such characters, although `str.strip()` removes them. */
  lemma ParseRejectsForeignChar(s: string, i: nat)
    requires i < |s|
    requires !IsIntSpace(s[i]) && !IsDigit(s[i]) && s[i] != '+' && s[i] != '-' && s[i] != '_'
    ensures ParseInt(s) == None
  {
    var lead := TrimKeeps(IsIntSpace, s, i);
    var t := TrimIntSpace(s);
    SignedRejectsForeignChar(t, i - lead);
  }

  /** The trimmed form of `ParseRejectsForeignChar`. */
  lemma SignedRejectsForeignChar(t: string, j: nat)
    requires j < |t|
    requires !IsDigit(t[j]) && t[j] != '+' && t[j] != '-' && t[j] != '_'
    ensures Signed(t) == None
  {
    if t[0] == '+' || t[0] == '-' {
      assert t[1..][j - 1] == t[j];
      assert !IsDigitRun(t[1..]);
    } else {
      assert !IsDigitRun(t);
    }
  }
}
