/** The pieces of Python's built-in behaviour that the dashboard's code relies
    on, written out: slice bounds (`s[:i]`, `s[i:]`), `int()` applied to a
    string, `'%d' %` on a non-negative integer, and the two regular-expression
    character classes its marker patterns use (`\w` and `.`). */
module PySemantics {
  import opened Wrappers

  // ---------------------------------------------------------------------
  // Slicing

  /** The position a Python slice bound `i` denotes in a sequence of length
      `n`: a negative bound counts from the end; the result is clamped to
      `0..n`. */
  function SliceIndex(i: int, n: nat): (k: nat)
    ensures k <= n
    ensures 0 <= i ==> k == Min(i, n)
    ensures i < 0 ==> k + Min(-i, n) == n
  {
    if i < 0 then (if n + i < 0 then 0 else n + i)
    else if i <= n then i else n
  }

  function Min(a: int, b: int): int {
    if a <= b then a else b
  }

  /** `s[:i]` */
  function SliceTo<T>(s: seq<T>, i: int): seq<T> {
    s[..SliceIndex(i, |s|)]
  }

  /** `s[i:]` */
  function SliceFrom<T>(s: seq<T>, i: int): seq<T> {
    s[SliceIndex(i, |s|)..]
  }

  // ---------------------------------------------------------------------
  // Regular-expression character classes

  /** `\w`, restricted to ASCII: letters, digits and the underscore. */
  predicate IsWordChar(c: char) {
    ('a' <= c <= 'z') || ('A' <= c <= 'Z') || ('0' <= c <= '9') || c == '_'
  }

  /** The longest run of `\w` characters at the start of `s`, which is what a
      greedy `(\w+)` captures. */
  function WordRun(s: string): (w: string)
    ensures |w| <= |s|
  {
    if s != [] && IsWordChar(s[0]) then [s[0]] + WordRun(s[1..]) else []
  }

  /** What a greedy `(.*)` captures from the start of `s`: `.` matches every
      character except a newline. */
  function UpToNewline(s: string): (r: string)
    ensures |r| <= |s|
  {
    if s != [] && s[0] != '\n' then [s[0]] + UpToNewline(s[1..]) else []
  }

  /** The run is a prefix of word characters that stops at the first
      character that is not one. */
  lemma {:induction false} WordRunMeaning(s: string)
    ensures var w := WordRun(s);
            && |w| <= |s| && w == s[..|w|]
            && (forall i :: 0 <= i < |w| ==> IsWordChar(w[i]))
            && (|w| < |s| ==> !IsWordChar(s[|w|]))
  {
    if s != [] && IsWordChar(s[0]) {
      WordRunMeaning(s[1..]);
      var w := WordRun(s);
      assert w == [s[0]] + WordRun(s[1..]);
      assert s == [s[0]] + s[1..];
    }
  }

  /** The captured text is a prefix with no newline that stops at the
      first newline. */
  lemma {:induction false} UpToNewlineMeaning(s: string)
    ensures var r := UpToNewline(s);
            && |r| <= |s| && r == s[..|r|]
            && '\n' !in r
            && (|r| < |s| ==> s[|r|] == '\n')
  {
    if s != [] && s[0] != '\n' {
      UpToNewlineMeaning(s[1..]);
      var r := UpToNewline(s);
      assert r == [s[0]] + UpToNewline(s[1..]);
      assert s == [s[0]] + s[1..];
    }
  }

  // ---------------------------------------------------------------------
  // Decimal digits, `'%d' % n` and `int(s)`

  predicate IsDigit(c: char) {
    '0' <= c <= '9'
  }

  function DigitValue(c: char): nat
    requires IsDigit(c)
  {
    (c as int) - ('0' as int)
  }

  function DigitChar(d: nat): (c: char)
    requires d < 10
    ensures IsDigit(c) && DigitValue(c) == d
  {
    ('0' as int + d) as char
  }

  /** `'%d' % n` for a non-negative `n`: its decimal digits, without leading
      zeros. */
  function NatToString(n: nat): (s: string)
    ensures |s| > 0
    ensures forall i :: 0 <= i < |s| ==> IsDigit(s[i])
    ensures |s| > 1 ==> s[0] != '0'
  {
    if n < 10 then [DigitChar(n)] else NatToString(n / 10) + [DigitChar(n % 10)]
  }

  /** The characters `int()` skips around its digits: the six ASCII
      whitespace characters (Python hands every character below 127 to the C
      parser unchanged, which skips only these) and the non-ASCII characters
      Python classifies as whitespace. */
  predicate IsIntSpace(c: char) {
    c == ' ' || ('\t' <= c <= '\r')
    || c == '\U{85}' || c == '\U{A0}' || c == '\U{1680}'
    || ('\U{2000}' <= c <= '\U{200A}')
    || c == '\U{2028}' || c == '\U{2029}' || c == '\U{202F}' || c == '\U{205F}'
    || c == '\U{3000}'
  }

  function StripLeading(s: string): (r: string)
    ensures |r| <= |s| && r == s[|s| - |r|..]
    ensures r != [] ==> !IsIntSpace(r[0])
  {
    if s != [] && IsIntSpace(s[0]) then StripLeading(s[1..]) else s
  }

  function StripTrailing(s: string): (r: string)
    ensures |r| <= |s| && r == s[..|r|]
    ensures r != [] ==> !IsIntSpace(r[|r| - 1])
  {
    if s != [] && IsIntSpace(s[|s| - 1]) then StripTrailing(s[..|s| - 1]) else s
  }

  /** The digit part `int()` accepts in base 10: digits, with single
      underscores allowed between two digits (PEP 515). Leading zeros are
      allowed. */
  predicate ValidDigitGroups(t: string) {
    && |t| > 0
    && IsDigit(t[0])
    && IsDigit(t[|t| - 1])
    && (forall i :: 0 <= i < |t| ==> IsDigit(t[i]) || t[i] == '_')
    && (forall i :: 0 <= i < |t| - 1 ==> t[i] == '_' ==> t[i + 1] != '_')
  }

  /** The value of a digit string, underscores skipped. */
  function DigitsValue(t: string): nat
    requires forall i :: 0 <= i < |t| ==> IsDigit(t[i]) || t[i] == '_'
  {
    if t == [] then 0
    else if t[|t| - 1] == '_' then DigitsValue(t[..|t| - 1])
    else 10 * DigitsValue(t[..|t| - 1]) + DigitValue(t[|t| - 1])
  }

  function ParseDigits(t: string): Option<nat> {
    if ValidDigitGroups(t) then Some(DigitsValue(t)) else None
  }

  /** `int(s)` for a string `s`; `None` is the `ValueError` Python raises. */
  function ParseInt(s: string): Option<int> {
    var t := StripTrailing(StripLeading(s));
    if |t| > 0 && (t[0] == '+' || t[0] == '-') then
      match ParseDigits(t[1..])
      case None => None
      case Some(m) =>
        var v: int := if t[0] == '-' then -(m as int) else m;
        Some(v)
    else
      match ParseDigits(t)
      case None => None
      case Some(m) => Some(m)
  }

  /** The characters `int()` can accept at all. */
  predicate IntChar(c: char) {
    IsDigit(c) || c == '_' || c == '+' || c == '-' || IsIntSpace(c)
  }

  // ---------------------------------------------------------------------
  // Lemmas

  lemma {:induction false} DigitsValueOfNatToString(n: nat)
    ensures DigitsValue(NatToString(n)) == n
  {
    var s := NatToString(n);
    if n >= 10 {
      DigitsValueOfNatToString(n / 10);
      assert s[..|s| - 1] == NatToString(n / 10);
    } else {
      assert s[..|s| - 1] == [];
    }
  }

  lemma NatToStringValid(n: nat)
    ensures ValidDigitGroups(NatToString(n))
  {
  }

  lemma NatToStringUnstripped(n: nat)
    ensures StripTrailing(StripLeading(NatToString(n))) == NatToString(n)
  {
    var s := NatToString(n);
    assert !IsIntSpace(s[0]) && !IsIntSpace(s[|s| - 1]);
  }

  /** `int('%d' % n) == n`: parsing undoes formatting. */
  lemma ParseIntOfNatToString(n: nat)
    ensures ParseInt(NatToString(n)) == Some(n)
  {
    var s := NatToString(n);
    NatToStringUnstripped(n);
    NatToStringValid(n);
    DigitsValueOfNatToString(n);
    UnsignedDigits(s);
  }

  /** Text that strips to itself and starts with a digit is parsed as a
      plain digit string. */
  lemma UnsignedDigits(s: string)
    requires StripTrailing(StripLeading(s)) == s && ValidDigitGroups(s)
    ensures ParseInt(s) == ParseDigits(s)
  {
    assert IsDigit(s[0]);
  }

  /** `int('-%d' % n) == -n`: the sign is honoured. */
  lemma ParseIntOfNegated(n: nat)
    ensures ParseInt("-" + NatToString(n)) == Some(-(n as int))
  {
    var s := "-" + NatToString(n);
    assert !IsIntSpace(s[0]) && !IsIntSpace(s[|s| - 1]);
    assert StripTrailing(StripLeading(s)) == s;
    assert s[1..] == NatToString(n);
    NatToStringValid(n);
    DigitsValueOfNatToString(n);
  }

  /** Formatting is injective, so the tab values `'t-%d'` the plotter builds
      from distinct counters are distinct. */
  lemma NatToStringInjective(i: nat, j: nat)
    ensures NatToString(i) == NatToString(j) ==> i == j
  {
    ParseIntOfNatToString(i);
    ParseIntOfNatToString(j);
  }

  /** `int()` rejects every string holding a character that is neither a
      digit, an underscore, a sign nor whitespace. */
  lemma ParseIntOnlyNumericText(s: string, k: nat)
    requires k < |s| && !IntChar(s[k])
    ensures ParseInt(s).None?
  {
    var l := StripLeading(s);
    var t := StripTrailing(l);
    assert k >= |s| - |l| by {
      if k < |s| - |l| { StripLeadingSkipsSpace(s, k); }
    }
    assert k - (|s| - |l|) < |t| by {
      if k - (|s| - |l|) >= |t| { StripTrailingSkipsSpace(l, k - (|s| - |l|)); }
    }
    var p := k - (|s| - |l|);
    assert t[p] == s[k];
    if |t| > 0 && (t[0] == '+' || t[0] == '-') {
      assert p >= 1;
      assert t[1..][p - 1] == s[k];
    }
  }

  lemma {:induction false} StripLeadingSkipsSpace(s: string, k: nat)
    requires k < |s| - |StripLeading(s)|
    ensures IsIntSpace(s[k])
  {
    if s != [] && IsIntSpace(s[0]) && k > 0 {
      StripLeadingSkipsSpace(s[1..], k - 1);
    }
  }

  lemma {:induction false} StripTrailingSkipsSpace(s: string, k: nat)
    requires |StripTrailing(s)| <= k < |s|
    ensures IsIntSpace(s[k])
  {
    if s != [] && IsIntSpace(s[|s| - 1]) && k < |s| - 1 {
      StripTrailingSkipsSpace(s[..|s| - 1], k);
    }
  }
}
