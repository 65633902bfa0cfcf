/**
 * Python's `int()` applied to a string: surrounding white space is ignored,
 * one optional sign, then decimal digits in which single underscores may
 * separate digits, no more digits than the interpreter's default
 * `sys.int_max_str_digits`. Anything else raises ValueError, modelled here
 * as None.
 */
module IntText {
  import opened Options

  predicate IsSpace(c: char)
  {
    c == ' ' || c == '\t' || c == '\n' || c == '\r' || c == '\U{000B}' || c == '\U{000C}'
  }

  predicate IsDigit(c: char)
  {
    '0' <= c <= '9'
  }

  function TrimLeft(s: string): (r: string)
    ensures |r| <= |s| && r == s[|s| - |r|..]
    ensures forall i :: 0 <= i < |s| - |r| ==> IsSpace(s[i])
    ensures |r| > 0 ==> !IsSpace(r[0])
  {
    if |s| > 0 && IsSpace(s[0]) then TrimLeft(s[1..]) else s
  }

  function TrimRight(s: string): (r: string)
    ensures r <= s
    ensures forall i :: |r| <= i < |s| ==> IsSpace(s[i])
    ensures |r| > 0 ==> !IsSpace(r[|r| - 1])
  {
    if |s| > 0 && IsSpace(s[|s| - 1]) then TrimRight(s[..|s| - 1]) else s
  }

  /** `s` without leading and trailing white space, as `int()` skips it: the six ASCII white-space characters. */
  function Strip(s: string): (r: string)
    ensures |r| <= |s|
    ensures |r| > 0 ==> !IsSpace(r[0]) && !IsSpace(r[|r| - 1])
  {
    TrimRight(TrimLeft(s))
  }

  /** `strip` keeps one contiguous slice `r` of `s`, starting where `TrimLeft` starts, and drops only white space before and after it. */
  lemma {:induction false} StripSlice(s: string, l: string, r: string)
    requires l == TrimLeft(s) && r == Strip(s)
    ensures var a := |s| - |l|;
      && a + |r| <= |s|
      && r == s[a..a + |r|]
      && (forall j :: 0 <= j < a ==> IsSpace(s[j]))
      && (forall j :: a + |r| <= j < |s| ==> IsSpace(s[j]))
  {
    SliceBetweenSpaces(s, l, r);
  }

  /**
   * When `s` is white space followed by `l`, and `l` is `r` followed by
   * white space, then `r` is a slice of `s` with only white space around it.
   */
  lemma {:induction false} SliceBetweenSpaces(s: string, l: string, r: string)
    requires |l| <= |s| && l == s[|s| - |l|..]
    requires forall i :: 0 <= i < |s| - |l| ==> IsSpace(s[i])
    requires r <= l
    requires forall i :: |r| <= i < |l| ==> IsSpace(l[i])
    ensures var a := |s| - |l|;
      && a + |r| <= |s|
      && r == s[a..a + |r|]
      && (forall j :: 0 <= j < a ==> IsSpace(s[j]))
      && (forall j :: a + |r| <= j < |s| ==> IsSpace(s[j]))
  {
    var a := |s| - |l|;
    forall j | a + |r| <= j < |s|
      ensures IsSpace(s[j])
    {
      assert s[j] == l[j - a];
    }
  }

  /** Digits, with an underscore allowed only between two digits. */
  predicate DecimalLiteral(s: string)
  {
    && |s| > 0
    && IsDigit(s[0])
    && forall i :: 0 <= i < |s| ==> WellPlaced(s, i)
  }

  /** The character at `i` is a digit, or an underscore followed by a digit. */
  predicate WellPlaced(s: string, i: nat)
    requires i < |s|
  {
    IsDigit(s[i]) || (s[i] == '_' && i + 1 < |s| && IsDigit(s[i + 1]))
  }

  /** The number the digits of `s` spell, underscores skipped. */
  function DigitsValue(s: string): nat
  {
    if s == [] then 0
    else if s[|s| - 1] == '_' then DigitsValue(s[..|s| - 1])
    else DigitsValue(s[..|s| - 1]) * 10 + DigitOf(s[|s| - 1])
  }

  function DigitOf(c: char): nat
  {
    if IsDigit(c) then (c as int - '0' as int) as nat else 0
  }

  /**
   * The default of CPython's `sys.int_max_str_digits`: decimal text with
   * more digits than this makes `int()` raise ValueError.
   */
  const MaxStrDigits: nat := 4300

  /** The number of decimal digits in `s`. */
  function DigitCount(s: string): (n: nat)
    ensures n <= |s|
  {
    if s == [] then 0
    else DigitCount(s[..|s| - 1]) + (if IsDigit(s[|s| - 1]) then 1 else 0)
  }

  /**
   * `int(s)` for a string `s`: Some(value), or None where Python raises
   * ValueError. An accepted text, once stripped, ends in a digit, and a
   * negative value is read from text that starts with a minus sign.
   */
  function ParseInt(s: string): (r: Option<int>)
    ensures r.Some? ==> |Strip(s)| > 0 && IsDigit(Strip(s)[|Strip(s)| - 1])
    ensures r.Some? && r.value < 0 ==> Strip(s)[0] == '-'
    ensures var t := Strip(s);
      var d := if |t| > 0 && (t[0] == '-' || t[0] == '+') then t[1..] else t;
      DigitCount(d) > MaxStrDigits ==> r.None?
  {
    var t := Strip(s);
    var signed := |t| > 0 && (t[0] == '-' || t[0] == '+');
    var digits := if signed then t[1..] else t;
    if !DecimalLiteral(digits) || DigitCount(digits) > MaxStrDigits then None
    else
      assert WellPlaced(digits, |digits| - 1);
      if signed && t[0] == '-' then Some(0 - DigitsValue(digits) as int)
      else Some(DigitsValue(digits))
  }

  /** The decimal text of a natural number, as `str(n)` writes it. */
  function ShowNat(n: nat): (s: string)
    ensures |s| > 0
    ensures forall i :: 0 <= i < |s| ==> IsDigit(s[i])
  {
    if n < 10 then [('0' as int + n) as char]
    else ShowNat(n / 10) + [('0' as int + n % 10) as char]
  }

  /** The decimal text of an integer, as `str(i)` writes it. */
  function ShowInt(i: int): string
  {
    if i < 0 then "-" + ShowNat(-i) else ShowNat(i)
  }

  /** Reading back the text of a natural number gives the number. */
  lemma {:induction false} DigitsValueShowNat(n: nat)
    ensures DigitsValue(ShowNat(n)) == n
  {
    var s := ShowNat(n);
    if n >= 10 {
      DigitsValueShowNat(n / 10);
      assert s[..|s| - 1] == ShowNat(n / 10);
    }
  }

  /** A string that neither starts nor ends with white space is left alone by `strip`. */
  lemma StripNoSpace(s: string)
    requires |s| > 0 && !IsSpace(s[0]) && !IsSpace(s[|s| - 1])
    ensures Strip(s) == s
  {
  }

  /** A string of digits only has as many digits as characters. */
  lemma {:induction false} DigitCountAllDigits(s: string)
    requires forall i :: 0 <= i < |s| ==> IsDigit(s[i])
    ensures DigitCount(s) == |s|
  {
    if s != [] {
      DigitCountAllDigits(s[..|s| - 1]);
    }
  }

  /** The number of digits `str(i)` writes for `i`, its sign not counted. */
  function DigitsOf(i: int): nat
  {
    |ShowNat(if i < 0 then -i else i)|
  }

  /** `int(str(i)) == i` for every integer `i` of at most `MaxStrDigits` digits. */
  lemma ParseShowRoundTrip(i: int)
    requires DigitsOf(i) <= MaxStrDigits
    ensures ParseInt(ShowInt(i)) == Some(i)
  {
    var s := ShowInt(i);
    var d := ShowNat(if i < 0 then -i else i);
    assert i < 0 ==> s[1..] == d;
    StripNoSpace(s);
    DigitsValueShowNat(if i < 0 then -i else i);
    DigitCountAllDigits(d);
    assert DecimalLiteral(d);
  }

  /** `int(str(i))` raises ValueError for every integer `i` of more than `MaxStrDigits` digits. */
  lemma ParseShowTooLong(i: int)
    requires DigitsOf(i) > MaxStrDigits
    ensures ParseInt(ShowInt(i)) == None
  {
    var s := ShowInt(i);
    var d := ShowNat(if i < 0 then -i else i);
    assert i < 0 ==> s[1..] == d;
    StripNoSpace(s);
    DigitCountAllDigits(d);
  }

  /** Text that holds something other than white space, a sign, digits and underscores never reads as a number. */
  lemma {:induction false} ParseIntRejectsOtherText(s: string, k: nat)
    requires k < |s| && !IsSpace(s[k]) && !IsDigit(s[k]) && s[k] != '_' && s[k] != '+' && s[k] != '-'
    ensures ParseInt(s) == None
  {
    StripKeeps(s, k);
    var t := Strip(s);
    var j :| 0 <= j < |t| && t[j] == s[k];
    assert !IsDigit(t[j]) && t[j] != '_';
    assert !WellPlaced(t, j);
    if |t| > 0 && (t[0] == '-' || t[0] == '+') {
      assert j > 0 && t[1..][j - 1] == t[j];
      assert !WellPlaced(t[1..], j - 1);
    }
  }

  /** A character that is not white space survives `strip`. */
  lemma StripKeeps(s: string, k: nat)
    requires k < |s| && !IsSpace(s[k])
    ensures s[k] in Strip(s)
  {
  }
}
