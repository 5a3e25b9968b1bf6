/** The parts of Python's `str` the command loop relies on: whitespace,
    `str.strip()` and `str.startswith()`, over strings of code points. */
module PyStr {

  /** The characters `str.isspace()` accepts; these are the ones `str.strip()`
      with no argument removes. `int()` skips fewer of them around a number
      (`PyInt.IsIntSpace`). */
  predicate IsSpace(c: char) {
    || ('\t' <= c <= '\r')
    || ('\U{1C}' <= c <= '\U{1F}')
    || c == ' '
    || c == '\U{85}'
    || c == '\U{A0}'
    || c == '\U{1680}'
    || ('\U{2000}' <= c <= '\U{200A}')
    || c == '\U{2028}'
    || c == '\U{2029}'
    || c == '\U{202F}'
    || c == '\U{205F}'
    || c == '\U{3000}'
  }

  /** Every character of `s` is one that `blank` accepts. */
  predicate AllOf(blank: char -> bool, s: string) {
    forall i :: 0 <= i < |s| ==> blank(s[i])
  }

  /** Empty, or with neither end a character that `blank` accepts. */
  predicate TrimmedBy(blank: char -> bool, s: string) {
    s == [] || (!blank(s[0]) && !blank(s[|s| - 1]))
  }

  predicate AllSpace(s: string) {
    AllOf(IsSpace, s)
  }

  /** A string that `strip()` would leave as it is: empty, or with neither end
      a whitespace character. */
  predicate IsStripped(s: string) {
    TrimmedBy(IsSpace, s)
  }

  /** `s.startswith(prefix)`: the first characters of `s` are those of
      `prefix`, one for one. */
  predicate StartsWith(s: string, prefix: string): (b: bool)
    ensures b <==> |prefix| <= |s| && forall i :: 0 <= i < |prefix| ==> s[i] == prefix[i]
    ensures b ==> s == prefix + s[|prefix|..]
  {
    |prefix| <= |s| && s[..|prefix|] == prefix
  }

  /** The length of the run of characters accepted by `blank` that opens `s`. */
  function LeadingRun(blank: char -> bool, s: string): (k: nat)
    ensures k <= |s|
    ensures AllOf(blank, s[..k])
    ensures k < |s| ==> !blank(s[k])
  {
    if s == [] || !blank(s[0]) then 0 else 1 + LeadingRun(blank, s[1..])
  }

  /** The length of the run of characters accepted by `blank` that closes `s`. */
  function TrailingRun(blank: char -> bool, s: string): (k: nat)
    ensures k <= |s|
    ensures AllOf(blank, s[|s| - k..])
    ensures k < |s| ==> !blank(s[|s| - 1 - k])
  {
    if s == [] || !blank(s[|s| - 1]) then 0 else 1 + TrailingRun(blank, s[..|s| - 1])
  }

  /** `s` without the runs of characters accepted by `blank` at either end. */
  function TrimBy(blank: char -> bool, s: string): (r: string)
    ensures TrimmedBy(blank, r)
    ensures |r| <= |s|
    ensures r == [] <==> AllOf(blank, s)
  {
    var rest := s[LeadingRun(blank, s)..];
    rest[..|rest| - TrailingRun(blank, rest)]
  }

  /** `s.strip()`: `s` without its leading and trailing whitespace. */
  function Strip(s: string): (r: string)
    ensures IsStripped(r)
    ensures |r| <= |s|
    ensures r == [] <==> AllSpace(s)
  {
    TrimBy(IsSpace, s)
  }

  /** Characters accepted by `blank` put in front of a string add to its
      leading run. */
  lemma {:induction false} LeadingRunOfPadded(blank: char -> bool, a: string, t: string)
    requires AllOf(blank, a)
    ensures LeadingRun(blank, a + t) == |a| + LeadingRun(blank, t)
    decreases |a|
  {
    if a != [] {
      assert (a + t)[1..] == a[1..] + t;
      LeadingRunOfPadded(blank, a[1..], t);
    } else {
      assert a + t == t;
    }
  }

  /** Characters accepted by `blank` put after a string add to its trailing
      run. */
  lemma {:induction false} TrailingRunOfPadded(blank: char -> bool, t: string, b: string)
    requires AllOf(blank, b)
    ensures TrailingRun(blank, t + b) == TrailingRun(blank, t) + |b|
    decreases |b|
  {
    if b != [] {
      assert (t + b)[..|t + b| - 1] == t + b[..|b| - 1];
      TrailingRunOfPadded(blank, t, b[..|b| - 1]);
    } else {
      assert t + b == t;
    }
  }

  /** Trimming inverts padding: surrounding an already trimmed string with
      characters `blank` accepts and trimming gives the string back. */
  lemma TrimPadded(blank: char -> bool, a: string, s: string, b: string)
    requires AllOf(blank, a) && AllOf(blank, b)
    requires TrimmedBy(blank, s)
    ensures TrimBy(blank, a + s + b) == s
  {
    var w := a + s + b;
    assert w == a + (s + b);
    LeadingRunOfPadded(blank, a, s + b);
    if s == [] {
      assert s + b == b;
      LeadingRunOfPadded(blank, b, []);
      assert b + [] == b;
      assert LeadingRun(blank, w) == |w|;
    } else {
      assert LeadingRun(blank, s + b) == 0 by {
        assert (s + b)[0] == s[0];
      }
      var rest := w[|a|..];
      assert rest == s + b;
      TrailingRunOfPadded(blank, s, b);
      assert TrailingRun(blank, s) == 0;
      assert rest[..|rest| - |b|] == s;
    }
  }

  /** A string already trimmed is left as it is. */
  lemma TrimTrimmed(blank: char -> bool, s: string)
    requires TrimmedBy(blank, s)
    ensures TrimBy(blank, s) == s
  {
    TrimPadded(blank, [], s, []);
    assert [] + s + [] == s;
  }

  /** Trimming keeps a contiguous part of the string. */
  lemma TrimIsSlice(blank: char -> bool, s: string) returns (lead: nat)
    ensures lead + |TrimBy(blank, s)| <= |s|
    ensures TrimBy(blank, s) == s[lead..lead + |TrimBy(blank, s)|]
  {
    lead := LeadingRun(blank, s);
    var rest := s[lead..];
    var trail := TrailingRun(blank, rest);
    assert TrimBy(blank, s) == rest[..|rest| - trail];
    assert rest[..|rest| - trail] == s[lead..lead + (|rest| - trail)];
  }

  /** Stripping inverts padding: surrounding an already stripped string with
      whitespace on both sides and stripping gives the string back. Together
      with `StripDecomposes` this pins down `Strip` completely. */
  lemma StripPadded(a: string, s: string, b: string)
    requires AllSpace(a) && AllSpace(b)
    requires IsStripped(s)
    ensures Strip(a + s + b) == s
  {
    TrimPadded(IsSpace, a, s, b);
  }

  /** Every string is its trimmed form with runs that `blank` accepts on
      either side. */
  lemma TrimDecomposes(blank: char -> bool, s: string) returns (a: string, b: string)
    ensures AllOf(blank, a) && AllOf(blank, b)
    ensures s == a + TrimBy(blank, s) + b
  {
    var i := LeadingRun(blank, s);
    var rest := s[i..];
    var k := TrailingRun(blank, rest);
    var t := rest[..|rest| - k];
    assert TrimBy(blank, s) == t;
    a, b := s[..i], rest[|rest| - k..];
    SplitThree(s, i, k);
  }

  /** Cutting a string after `i` characters and its remainder before its last
      `k` characters gives three pieces that concatenate back to it. */
  lemma SplitThree(s: string, i: nat, k: nat)
    requires i <= |s| && k <= |s| - i
    ensures var rest := s[i..];
      s == s[..i] + rest[..|rest| - k] + rest[|rest| - k..]
  {
    var rest := s[i..];
    assert rest[..|rest| - k] + rest[|rest| - k..] == rest;
    assert s[..i] + rest == s;
    ConcatAssoc(s[..i], rest[..|rest| - k], rest[|rest| - k..]);
  }

  /** A character that `blank` rejects survives trimming, at its place
      shifted by the leading run. */
  lemma TrimKeeps(blank: char -> bool, s: string, i: nat) returns (lead: nat)
    requires i < |s| && !blank(s[i])
    ensures lead <= i < lead + |TrimBy(blank, s)|
    ensures TrimBy(blank, s)[i - lead] == s[i]
  {
    lead := LeadingRun(blank, s);
    var rest := s[lead..];
    var trail := TrailingRun(blank, rest);
    forall j | 0 <= j < lead
      ensures blank(s[j])
    {
      assert s[..lead][j] == s[j];
    }
    var end := lead + (|rest| - trail);
    forall j | end <= j < |s|
      ensures blank(s[j])
    {
      assert rest[|rest| - trail..][j - end] == s[j];
    }
    assert TrimBy(blank, s) == rest[..|rest| - trail];
  }

  /** Every string is its stripped form with whitespace on either side. */
  lemma StripDecomposes(s: string) returns (a: string, b: string)
    ensures AllSpace(a) && AllSpace(b)
    ensures s == a + Strip(s) + b
  {
    a, b := TrimDecomposes(IsSpace, s);
  }

  lemma ConcatAssoc(a: string, t: string, b: string)
    ensures a + (t + b) == a + t + b
  {
  }

  /** `strip()` leaves a stripped string alone. */
  lemma StripStripped(s: string)
    requires IsStripped(s)
    ensures Strip(s) == s
  {
    TrimTrimmed(IsSpace, s);
  }

  /** `strip()` is idempotent. */
  lemma StripIdempotent(s: string)
    ensures Strip(Strip(s)) == Strip(s)
  {
    StripStripped(Strip(s));
  }
}
