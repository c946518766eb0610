/**
 * Strings as Python's builtins see them: decimal rendering (`str(n)`),
 * decimal parsing (`int(s)` for base 10), `split`, prefix and substring
 * tests, and `lower()` on ASCII letters.
 */
module Text {
  import opened Wrappers

  predicate IsDigit(c: char) { '0' <= c <= '9' }

  predicate AllDigits(s: string) {
    forall i :: 0 <= i < |s| ==> IsDigit(s[i])
  }

  function DigitChar(d: nat): (c: char)
    requires d < 10
    ensures IsDigit(c)
  {
    ('0' as int + d) as char
  }

  function DigitValue(c: char): (d: nat)
    requires IsDigit(c)
    ensures d < 10
  {
    c as int - '0' as int
  }

  /** `str(n)` for a natural number: its decimal digits, most significant first, no leading zero. */
  function NatToString(n: nat): (s: string)
    ensures |s| >= 1 && AllDigits(s)
  {
    if n < 10 then [DigitChar(n)] else NatToString(n / 10) + [DigitChar(n % 10)]
  }

  /** `str(n)` for any integer. */
  function IntToString(n: int): (s: string)
    ensures |s| >= 1
  {
    if n < 0 then "-" + NatToString(-n) else NatToString(n)
  }

  /** `str(n)` never has more digits than `n` plus one. */
  lemma {:induction false} NatToStringLength(n: nat)
    ensures |NatToString(n)| <= n + 1
  {
    if n >= 10 {
      NatToStringLength(n / 10);
    }
  }

  /**
   * `sys.get_int_max_str_digits()` at its default: `int()` and `str()`
   * raise ValueError on a decimal number with more digits than this.
   */
  const MaxStrDigits := 4300

  /** The integers `str()` writes out: those of at most `MaxStrDigits` digits. */
  predicate WithinStrDigits(n: int) {
    |NatToString(if n < 0 then -n else n)| <= MaxStrDigits
  }

  /** The number a string of decimal digits denotes (leading zeros allowed). */
  function DigitsValue(s: string): nat
    requires AllDigits(s)
  {
    if |s| == 0 then 0 else DigitsValue(s[..|s| - 1]) * 10 + DigitValue(s[|s| - 1])
  }

  lemma {:induction false} DigitsValueOfNatToString(n: nat)
    ensures DigitsValue(NatToString(n)) == n
  {
    if n >= 10 {
      var s := NatToString(n);
      assert s[..|s| - 1] == NatToString(n / 10);
      DigitsValueOfNatToString(n / 10);
    }
  }

  /** Distinct numbers print differently. */
  lemma NatToStringInjective(m: nat, n: nat)
    requires NatToString(m) == NatToString(n)
    ensures m == n
  {
    DigitsValueOfNatToString(m);
    DigitsValueOfNatToString(n);
  }

  /** The characters `str.isspace` accepts, which `int()` and `strip()` drop around a string. */
  predicate IsSpace(c: char) {
    || c == ' ' || 9 <= c as int <= 13 || 28 <= c as int <= 31
    || c as int == 0x85 || c as int == 0xA0 || c as int == 0x1680
    || 0x2000 <= c as int <= 0x200A
    || c as int == 0x2028 || c as int == 0x2029 || c as int == 0x202F || c as int == 0x205F
    || c as int == 0x3000
  }

  function StripLeft(s: string): (r: string)
    ensures |r| <= |s| && r == s[|s| - |r|..]
    ensures |r| > 0 ==> !IsSpace(r[0])
    ensures forall i :: 0 <= i < |s| - |r| ==> IsSpace(s[i])
  {
    if |s| > 0 && IsSpace(s[0]) then StripLeft(s[1..]) else s
  }

  function StripRight(s: string): (r: string)
    ensures |r| <= |s| && r == s[..|r|]
    ensures |r| > 0 ==> !IsSpace(r[|r| - 1])
    ensures forall i :: |r| <= i < |s| ==> IsSpace(s[i])
  {
    if |s| > 0 && IsSpace(s[|s| - 1]) then StripRight(s[..|s| - 1]) else s
  }

  /** `s.strip()`. */
  function Strip(s: string): string {
    StripRight(StripLeft(s))
  }

  /**
   * The digit part `int()` accepts: decimal digits, where an underscore may
   * only stand between two digits.
   */
  predicate WellFormedDigits(s: string) {
    && |s| > 0
    && IsDigit(s[0])
    && IsDigit(s[|s| - 1])
    && (forall i :: 0 <= i < |s| ==> IsDigit(s[i]) || s[i] == '_')
    && (forall i :: 0 <= i < |s| && s[i] == '_' ==> 0 < i < |s| - 1 && IsDigit(s[i - 1]) && IsDigit(s[i + 1]))
  }

  function RemoveUnderscores(s: string): (r: string)
    ensures (forall i :: 0 <= i < |s| ==> IsDigit(s[i]) || s[i] == '_') ==> AllDigits(r)
    ensures AllDigits(s) ==> r == s
  {
    if |s| == 0 then [] else (if s[0] == '_' then [] else [s[0]]) + RemoveUnderscores(s[1..])
  }

  /**
   * Python's `int(s)` in base 10: surrounding whitespace, an optional sign,
   * digits with single underscores between them, at most `MaxStrDigits`
   * digits. `None` stands for the ValueError `int()` raises on anything else.
   */
  function ParseDecimal(s: string): Option<int> {
    var t := Strip(s);
    if |t| > 0 && (t[0] == '+' || t[0] == '-') then
      if WellFormedDigits(t[1..]) && |RemoveUnderscores(t[1..])| <= MaxStrDigits then
        var v: int := GroupedValue(t[1..]);
        Some(if t[0] == '-' then -v else v)
      else None
    else if WellFormedDigits(t) && |RemoveUnderscores(t)| <= MaxStrDigits then Some(GroupedValue(t))
    else None
  }

  /** The value of well-formed digits, underscores ignored. */
  function GroupedValue(s: string): nat
    requires WellFormedDigits(s)
  {
    DigitsValue(RemoveUnderscores(s))
  }

  /** Plain digits are well formed and read as their value. */
  lemma DigitsAreGrouped(s: string)
    requires |s| > 0 && AllDigits(s)
    ensures WellFormedDigits(s)
    ensures GroupedValue(s) == DigitsValue(s)
  {
    assert forall i :: 0 <= i < |s| ==> s[i] != '_';
  }

  /** `int(str(n)) == n`: the parser reads back every number `str` writes. */
  lemma ParseDecimalOfIntToString(n: int)
    requires WithinStrDigits(n)
    ensures ParseDecimal(IntToString(n)) == Some(n)
  {
    var s := IntToString(n);
    var m: nat := if n < 0 then -n else n;
    var digits := NatToString(m);
    StripUnpadded(s);
    DigitsValueOfNatToString(m);
    DigitsAreGrouped(digits);
    if n < 0 {
      assert s[0] == '-' && s[1..] == digits;
    } else {
      assert s == digits && !(s[0] == '+' || s[0] == '-');
    }
  }

  /**
   * A number of more than `MaxStrDigits` digits, underscores not counted,
   * is refused whatever its sign.
   */
  lemma ParseDecimalRejectsLong(sign: string, digits: string)
    requires sign == "" || sign == "+" || sign == "-"
    requires WellFormedDigits(digits) && |RemoveUnderscores(digits)| > MaxStrDigits
    ensures ParseDecimal(sign + digits) == None
  {
    LiteralTooLong(sign, digits);
  }

  lemma LiteralTooLong(sign: string, digits: string)
    requires sign == "" || sign == "+" || sign == "-"
    requires |digits| > 0 && IsDigit(digits[0]) && IsDigit(digits[|digits| - 1])
    requires |RemoveUnderscores(digits)| > MaxStrDigits
    ensures ParseDecimal(sign + digits) == None
  {
    var s := sign + digits;
    var last := digits[|digits| - 1];
    DigitNotSpace(digits[0]);
    DigitNotSpace(last);
    if sign == "" {
      assert s == digits;
      StripUnpadded(digits);
      UnsignedTooLong(digits);
    } else {
      assert |sign| == 1;
      assert s == [sign[0]] + digits;
      assert s[0] == sign[0] && s[1..] == digits && s[|s| - 1] == last;
      StripUnpadded(s);
      SignedTooLong(s);
    }
  }

  lemma UnsignedTooLong(t: string)
    requires Strip(t) == t && |t| > 0 && t[0] != '+' && t[0] != '-'
    requires |RemoveUnderscores(t)| > MaxStrDigits
    ensures ParseDecimal(t) == None
  {
  }

  lemma SignedTooLong(t: string)
    requires Strip(t) == t && |t| > 0 && (t[0] == '+' || t[0] == '-')
    requires |RemoveUnderscores(t[1..])| > MaxStrDigits
    ensures ParseDecimal(t) == None
  {
  }

  lemma DigitNotSpace(c: char)
    requires IsDigit(c)
    ensures !IsSpace(c) && c != '+' && c != '-'
  {
  }

  /** A string that neither starts nor ends with whitespace is its own `strip()`. */
  lemma StripUnpadded(s: string)
    requires |s| > 0 && !IsSpace(s[0]) && !IsSpace(s[|s| - 1])
    ensures Strip(s) == s
  {
    assert StripLeft(s) == s;
  }

  /** A string without a single digit is never a number. */
  lemma ParseDecimalNeedsDigit(s: string)
    requires forall i :: 0 <= i < |s| ==> !IsDigit(s[i])
    ensures ParseDecimal(s) == None
  {
    var l := StripLeft(s);
    var t := StripRight(l);
    assert t == Strip(s);
    assert forall i :: 0 <= i < |t| ==> t[i] == s[|s| - |l| + i];
    if |t| > 0 {
      assert !IsDigit(t[0]);
      assert !WellFormedDigits(t);
      if |t| > 1 {
        assert t[1..][0] == t[1];
        assert !IsDigit(t[1]);
      }
      assert !WellFormedDigits(t[1..]);
    }
  }

  /** A character no string `int()` accepts can hold: not a digit, an underscore, a sign or whitespace. */
  predicate Stray(c: char) {
    !IsDigit(c) && c != '_' && c != '+' && c != '-' && !IsSpace(c)
  }

  /** Stripping keeps every character that is not whitespace. */
  lemma StripKeeps(s: string, i: nat) returns (j: nat)
    requires i < |s| && !IsSpace(s[i])
    ensures j < |Strip(s)| && Strip(s)[j] == s[i]
  {
    var l := StripLeft(s);
    var t := StripRight(l);
    var a := |s| - |l|;
    assert l[i - a] == s[i];
    j := i - a;
  }

  /** Neither an unsigned nor a signed literal holds a stray character. */
  lemma StrayBreaksDigits(t: string, j: nat)
    requires j < |t| && Stray(t[j])
    ensures !WellFormedDigits(t)
    ensures |t| > 0 && (t[0] == '+' || t[0] == '-') ==> !WellFormedDigits(t[1..])
  {
    if |t| > 0 && (t[0] == '+' || t[0] == '-') {
      assert t[1..][j - 1] == t[j];
    }
  }

  /** A string holding a stray character is never a number. */
  lemma ParseDecimalRejectsStray(s: string, i: nat)
    requires i < |s| && Stray(s[i])
    ensures ParseDecimal(s) == None
  {
    var j := StripKeeps(s, i);
    StrayBreaksDigits(Strip(s), j);
  }

  /**
   * The strings `_parse_int` certainly does not read as a number: those
   * without a digit and those holding a stray character.
   */
  predicate NotANumber(s: string) {
    (forall i :: 0 <= i < |s| ==> !IsDigit(s[i])) || (exists i :: 0 <= i < |s| && Stray(s[i]))
  }

  lemma ParseDecimalRejects(s: string)
    requires NotANumber(s)
    ensures ParseDecimal(s) == None
  {
    if exists i :: 0 <= i < |s| && Stray(s[i]) {
      var i :| 0 <= i < |s| && Stray(s[i]);
      ParseDecimalRejectsStray(s, i);
    } else {
      ParseDecimalNeedsDigit(s);
    }
  }

  predicate StartsWith(s: string, prefix: string) {
    |prefix| <= |s| && s[..|prefix|] == prefix
  }

  predicate EndsWith(s: string, suffix: string) {
    |suffix| <= |s| && s[|s| - |suffix|..] == suffix
  }

  /** Python's `sub in s` for strings. */
  predicate Contains(s: string, sub: string) {
    exists i :: 0 <= i <= |s| - |sub| && OccursAt(s, sub, i)
  }

  predicate OccursAt(s: string, sub: string, i: int)
    requires 0 <= i <= |s| - |sub|
  {
    s[i..i + |sub|] == sub
  }

  function LowerChar(c: char): char {
    if 'A' <= c <= 'Z' then (c as int + 32) as char else c
  }

  /** `s.lower()` on ASCII letters. */
  function Lower(s: string): (r: string)
    ensures |r| == |s| && forall i :: 0 <= i < |s| ==> r[i] == LowerChar(s[i])
  {
    seq(|s|, i requires 0 <= i < |s| => LowerChar(s[i]))
  }

  /** `s.split(sep)` for a one-character separator. */
  function Split(s: string, sep: char): (parts: seq<string>)
    ensures |parts| >= 1
    ensures forall i :: 0 <= i < |parts| ==> sep !in parts[i]
  {
    if |s| == 0 then [""]
    else if s[0] == sep then [""] + Split(s[1..], sep)
    else
      var rest := Split(s[1..], sep);
      [[s[0]] + rest[0]] + rest[1..]
  }

  /** `sep.join(parts)`. */
  function JoinWith(parts: seq<string>, sep: char): string {
    if |parts| == 0 then ""
    else if |parts| == 1 then parts[0]
    else parts[0] + [sep] + JoinWith(parts[1..], sep)
  }

  lemma {:induction false} SplitConcat(x: string, y: string, sep: char)
    ensures Split(x + [sep] + y, sep) == Split(x, sep) + Split(y, sep)
  {
    if |x| == 0 {
      assert x + [sep] + y == [sep] + y;
      assert ([sep] + y)[1..] == y;
    } else {
      assert (x + [sep] + y)[1..] == x[1..] + [sep] + y;
      SplitConcat(x[1..], y, sep);
    }
  }

  lemma {:induction false} SplitNoSeparator(s: string, sep: char)
    requires sep !in s
    ensures Split(s, sep) == [s]
  {
    if |s| > 0 {
      assert sep !in s[1..] by {
        forall i | 0 <= i < |s| - 1 ensures s[1..][i] != sep {
          assert s[1..][i] == s[i + 1];
        }
      }
      SplitNoSeparator(s[1..], sep);
      assert [s[0]] + s[1..] == s;
    }
  }

  /** Splitting undoes joining when no part holds the separator. */
  lemma {:induction false} SplitJoin(parts: seq<string>, sep: char)
    requires |parts| >= 1
    requires forall i :: 0 <= i < |parts| ==> sep !in parts[i]
    ensures Split(JoinWith(parts, sep), sep) == parts
  {
    if |parts| == 1 {
      SplitNoSeparator(parts[0], sep);
    } else {
      SplitJoin(parts[1..], sep);
      SplitConcat(parts[0], JoinWith(parts[1..], sep), sep);
      SplitNoSeparator(parts[0], sep);
      assert [parts[0]] + parts[1..] == parts;
    }
  }

  /** Joining undoes splitting. */
  lemma {:induction false} JoinSplit(s: string, sep: char)
    ensures JoinWith(Split(s, sep), sep) == s
  {
    if |s| > 0 {
      JoinSplit(s[1..], sep);
      var rest := Split(s[1..], sep);
      if s[0] == sep {
        assert [""] + rest == [""] + rest;
        assert ([""] + rest)[1..] == rest;
      } else {
        var parts := [[s[0]] + rest[0]] + rest[1..];
        if |rest| == 1 {
          assert rest == [rest[0]];
        } else {
          assert parts[1..] == rest[1..];
          assert JoinWith(rest, sep) == rest[0] + [sep] + JoinWith(rest[1..], sep);
        }
        assert [s[0]] + s[1..] == s;
      }
    }
  }
}
