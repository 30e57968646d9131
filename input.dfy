/**
 * The prompt of automate_updates.py: `get_input_num` reads a line and returns `int(line)`, or
 * `None` when Python's `int` rejects it. `ParseInt` is Python's `int(str)` in base 10: surrounding
 * white space is ignored, one optional sign, then decimal digits where single underscores may
 * separate digits, and at most `MAX_STR_DIGITS` digits.
 */
module Input {
  import opened Wrappers

  /**
   * The white space `int()` skips, for code points up to U+00A0: of the ASCII characters only
   * space, tab, line feed, vertical tab, form feed and carriage return (U+001C to U+001F are
   * white space to `str.strip` but not to `int()`), and above ASCII NEL and NO-BREAK SPACE.
   */
  predicate IsSpace(c: char)
  {
    c == ' ' || c == '\t' || c == '\n' || c == '\r' || c == '\U{B}' || c == '\U{C}'
    || c == '\U{85}' || c == '\U{A0}'
  }

  predicate IsDigit(c: char)
  {
    '0' <= c <= '9'
  }

  function TrimStart(s: string): (r: string)
    ensures r == [] || !IsSpace(r[0])
    ensures |r| <= |s|
  {
    if s != [] && IsSpace(s[0]) then TrimStart(s[1..]) else s
  }

  function TrimEnd(s: string): (r: string)
    ensures r == [] || !IsSpace(r[|r| - 1])
    ensures |r| <= |s|
  {
    if s != [] && IsSpace(s[|s| - 1]) then TrimEnd(s[..|s| - 1]) else s
  }

  /** `TrimStart` removes a prefix made of white space. */
  lemma {:induction false} TrimStartRemovesSpace(s: string, i: nat)
    requires i < |s|
    ensures i < |s| - |TrimStart(s)| ==> IsSpace(s[i])
    ensures i >= |s| - |TrimStart(s)| ==> TrimStart(s)[i - (|s| - |TrimStart(s)|)] == s[i]
  {
    if s != [] && IsSpace(s[0]) && i > 0 { TrimStartRemovesSpace(s[1..], i - 1); }
  }

  /** `TrimEnd` removes a suffix made of white space. */
  lemma {:induction false} TrimEndRemovesSpace(s: string, i: nat)
    requires i < |s|
    ensures i >= |TrimEnd(s)| ==> IsSpace(s[i])
    ensures i < |TrimEnd(s)| ==> TrimEnd(s)[i] == s[i]
  {
    if s != [] && IsSpace(s[|s| - 1]) && i < |s| - 1 { TrimEndRemovesSpace(s[..|s| - 1], i); }
  }

  /** Removes the white space `int()` skips around the literal (narrower than `str.strip()`). */
  function Strip(s: string): string
  {
    TrimEnd(TrimStart(s))
  }

  /** Decimal digits, with single underscores allowed between two digits. */
  predicate IsDigitString(s: string)
  {
    |s| > 0 && IsDigit(s[0]) && IsDigit(s[|s| - 1])
    && (forall i :: 0 <= i < |s| ==> IsDigit(s[i]) || s[i] == '_')
    && (forall i :: 0 <= i < |s| - 1 ==> s[i] == '_' ==> s[i + 1] != '_')
  }

  /** The number the digits of `s` spell, underscores skipped. */
  function DigitsValue(s: string): nat
    requires forall i :: 0 <= i < |s| ==> IsDigit(s[i]) || s[i] == '_'
  {
    if s == [] then 0
    else if s[|s| - 1] == '_' then DigitsValue(s[..|s| - 1])
    else
      assert IsDigit(s[|s| - 1]);
      DigitsValue(s[..|s| - 1]) * 10 + (s[|s| - 1] as int - '0' as int)
  }

  predicate IsSign(c: char)
  {
    c == '+' || c == '-'
  }

  /** The text `int()` accepts once stripped: an optional sign and a digit string. */
  predicate IsIntLiteral(t: string)
  {
    IsDigitString(t) || (|t| > 0 && IsSign(t[0]) && IsDigitString(t[1..]))
  }

  /**
   * The most digits `int()` converts from a decimal string (the default of
   * `sys.int_info.default_max_str_digits`); a longer literal raises ValueError.
   */
  const MAX_STR_DIGITS: nat := 4300

  /** How many decimal digits `s` holds; signs and underscores are not counted. */
  function DigitCount(s: string): (k: nat)
    ensures k <= |s|
  {
    if s == [] then 0 else (if IsDigit(s[0]) then 1 else 0) + DigitCount(s[1..])
  }

  /**
   * `get_input_num`: the integer the line spells, or `None` where `int()` raises ValueError;
   * it never fails.
   */
  function ParseInt(line: string): (r: Option<int>)
    ensures r.Some? <==> IsIntLiteral(Strip(line)) && DigitCount(Strip(line)) <= MAX_STR_DIGITS
    ensures r.Some? && r.value < 0 ==> Strip(line)[0] == '-'
  {
    var t := Strip(line);
    if !IsIntLiteral(t) || DigitCount(t) > MAX_STR_DIGITS then None
    else if IsDigitString(t) then Some(DigitsValue(t))
    else
      var v: int := DigitsValue(t[1..]);
      Some(if t[0] == '-' then -v else v)
  }

  /** The shortest decimal spelling of `n`, Python's `str(n)`. */
  function NatDigits(n: nat): (r: string)
    ensures |r| > 0
    ensures forall i :: 0 <= i < |r| ==> IsDigit(r[i])
  {
    if n < 10 then [('0' as int + n) as char]
    else NatDigits(n / 10) + [('0' as int + n % 10) as char]
  }

  function Decimal(n: int): string
  {
    if n < 0 then "-" + NatDigits(-n) else NatDigits(n)
  }

  lemma {:induction false} NatDigitsValue(n: nat)
    ensures DigitsValue(NatDigits(n)) == n
  {
    var s := NatDigits(n);
    if n >= 10 {
      NatDigitsValue(n / 10);
      assert s[..|s| - 1] == NatDigits(n / 10);
    }
  }

  lemma StripUnchanged(s: string)
    requires s != [] && !IsSpace(s[0]) && !IsSpace(s[|s| - 1])
    ensures Strip(s) == s
  {
  }

  lemma NatDigitsIsDigitString(n: nat)
    ensures IsDigitString(NatDigits(n))
  {
  }

  /** A string made of digits only has as many digits as characters. */
  lemma {:induction false} AllDigitsCount(s: string)
    requires forall i :: 0 <= i < |s| ==> IsDigit(s[i])
    ensures DigitCount(s) == |s|
  {
    if s != [] { AllDigitsCount(s[1..]); }
  }

  lemma ParseNatDigits(m: nat)
    ensures ParseInt(NatDigits(m)) == if |NatDigits(m)| <= MAX_STR_DIGITS then Some(m) else None
  {
    var d := NatDigits(m);
    StripUnchanged(d);
    NatDigitsIsDigitString(m);
    NatDigitsValue(m);
    AllDigitsCount(d);
  }

  lemma ParseNegatedDigits(m: nat)
    ensures ParseInt("-" + NatDigits(m)) == if |NatDigits(m)| <= MAX_STR_DIGITS then Some(-(m as int)) else None
  {
    var d := NatDigits(m);
    var t := "-" + d;
    StripUnchanged(t);
    assert t[1..] == d;
    assert !IsDigitString(t) by { assert !IsDigit(t[0]); }
    NatDigitsIsDigitString(m);
    NatDigitsValue(m);
    AllDigitsCount(d);
    assert DigitCount(t) == DigitCount(d);
  }

  /**
   * Round trip: what the user types for a number `n` is read back as `n`, unless its digits
   * exceed the conversion limit, in which case it reads as no number.
   */
  lemma ParseDecimal(n: int)
    ensures var magnitude: nat := if n < 0 then -n else n;
      ParseInt(Decimal(n)) == if |NatDigits(magnitude)| <= MAX_STR_DIGITS then Some(n) else None
  {
    if n < 0 {
      ParseNegatedDigits(-n);
    } else {
      ParseNatDigits(n);
    }
  }

  /*
   * The spellings `int()` accepts besides `str(n)`: a `+` sign, leading zeros and underscores.
   * With `ParseDecimal` and `ParseIgnoresSurroundingSpace` they fix the value of every line
   * that reads as a number.
   */

  lemma {:induction false} DigitCountAppend(x: string, y: string)
    ensures DigitCount(x + y) == DigitCount(x) + DigitCount(y)
  {
    if x != [] {
      assert (x + y)[1..] == x[1..] + y;
      DigitCountAppend(x[1..], y);
    } else {
      assert x + y == y;
    }
  }

  lemma {:induction false} DigitsValueLeadingZero(s: string)
    requires forall i :: 0 <= i < |s| ==> IsDigit(s[i]) || s[i] == '_'
    ensures DigitsValue("0" + s) == DigitsValue(s)
  {
    if s == [] {
      assert ("0" + s)[..0] == [];
    } else {
      var init := s[..|s| - 1];
      assert ("0" + s)[..|s|] == "0" + init;
      DigitsValueLeadingZero(init);
    }
  }

  lemma {:induction false} DigitsValueSkipsUnderscore(a: string, b: string)
    requires forall i :: 0 <= i < |a| ==> IsDigit(a[i]) || a[i] == '_'
    requires forall i :: 0 <= i < |b| ==> IsDigit(b[i]) || b[i] == '_'
    ensures DigitsValue(a + "_" + b) == DigitsValue(a + b)
  {
    if b == [] {
      assert (a + "_" + b)[..|a|] == a;
      assert a + b == a;
    } else {
      var init := b[..|b| - 1];
      assert (a + "_" + b)[..|a + "_" + b| - 1] == a + "_" + init;
      assert (a + b)[..|a + b| - 1] == a + init;
      DigitsValueSkipsUnderscore(a, init);
    }
  }

  /** A sign before a digit string: `+` keeps the value and `-` negates it. */
  lemma ParseSigned(c: char, s: string)
    requires IsSign(c) && IsDigitString(s)
    ensures ParseInt([c] + s) == match ParseInt(s)
      case None => None
      case Some(v) => Some(if c == '-' then -v else v)
  {
    var t := [c] + s;
    StripUnchanged(t);
    StripUnchanged(s);
    assert t[1..] == s;
    assert !IsDigitString(t) by { assert !IsDigit(t[0]); }
  }

  /** A leading zero changes nothing, unless it takes the literal beyond the digit limit. */
  lemma ParseLeadingZero(s: string)
    requires IsDigitString(s)
    ensures ParseInt("0" + s) == if DigitCount(s) < MAX_STR_DIGITS then ParseInt(s) else None
  {
    var t := "0" + s;
    StripUnchanged(t);
    StripUnchanged(s);
    assert t[1..] == s;
    assert IsDigitString(t) by {
      forall i | 0 <= i < |t| - 1 && t[i] == '_' ensures t[i + 1] != '_' {
        assert s[i - 1] == '_';
      }
    }
    DigitsValueLeadingZero(s);
  }

  /** An underscore between two digit strings changes nothing. */
  lemma ParseUnderscore(a: string, b: string)
    requires IsDigitString(a) && IsDigitString(b)
    ensures ParseInt(a + "_" + b) == ParseInt(a + b)
  {
    var t := a + "_" + b;
    var u := a + b;
    StripUnchanged(t);
    StripUnchanged(u);
    assert IsDigitString(t) by {
      forall i | 0 <= i < |t| - 1 && t[i] == '_' ensures t[i + 1] != '_' {
        if i < |a| - 1 { assert a[i] == '_'; assert t[i + 1] == a[i + 1]; }
        else if i == |a| { assert t[i + 1] == b[0]; }
        else if i > |a| { assert b[i - |a| - 1] == '_'; assert t[i + 1] == b[i - |a|]; }
      }
    }
    assert IsDigitString(u) by {
      forall i | 0 <= i < |u| - 1 && u[i] == '_' ensures u[i + 1] != '_' {
        if i < |a| - 1 { assert a[i] == '_'; assert u[i + 1] == a[i + 1]; }
        else if i >= |a| { assert b[i - |a|] == '_'; assert u[i + 1] == b[i - |a| + 1]; }
      }
    }
    DigitCountAppend(a + "_", b);
    DigitCountAppend(a, "_");
    DigitCountAppend(a, b);
    DigitsValueSkipsUnderscore(a, b);
  }

  /** White space around the typed text does not change what is read. */
  lemma ParseIgnoresSurroundingSpace(pre: string, line: string, post: string)
    requires forall i :: 0 <= i < |pre| ==> IsSpace(pre[i])
    requires forall i :: 0 <= i < |post| ==> IsSpace(post[i])
    ensures ParseInt(pre + line + post) == ParseInt(line)
  {
    StripAround(pre, line, post);
  }

  lemma {:induction false} TrimStartSpaces(pre: string, s: string)
    requires forall i :: 0 <= i < |pre| ==> IsSpace(pre[i])
    ensures TrimStart(pre + s) == TrimStart(s)
  {
    if pre != [] {
      assert (pre + s)[1..] == pre[1..] + s;
      TrimStartSpaces(pre[1..], s);
    } else {
      assert pre + s == s;
    }
  }

  lemma {:induction false} TrimEndSpaces(s: string, post: string)
    requires forall i :: 0 <= i < |post| ==> IsSpace(post[i])
    ensures TrimEnd(s + post) == TrimEnd(s)
  {
    if post != [] {
      var p := post[..|post| - 1];
      assert (s + post)[..|s + post| - 1] == s + p;
      TrimEndSpaces(s, p);
    } else {
      assert s + post == s;
    }
  }

  lemma {:induction false} TrimStartAppend(s: string, post: string)
    requires TrimStart(s) != []
    ensures TrimStart(s + post) == TrimStart(s) + post
  {
    if IsSpace(s[0]) {
      assert (s + post)[1..] == s[1..] + post;
      TrimStartAppend(s[1..], post);
    }
  }

  lemma {:induction false} AllSpaceTrims(s: string)
    requires forall i :: 0 <= i < |s| ==> IsSpace(s[i])
    ensures TrimStart(s) == []
  {
    if s != [] { AllSpaceTrims(s[1..]); }
  }

  lemma StripAround(pre: string, line: string, post: string)
    requires forall i :: 0 <= i < |pre| ==> IsSpace(pre[i])
    requires forall i :: 0 <= i < |post| ==> IsSpace(post[i])
    ensures Strip(pre + line + post) == Strip(line)
  {
    assert pre + line + post == pre + (line + post);
    TrimStartSpaces(pre, line + post);
    if TrimStart(line) == [] {
      forall i | 0 <= i < |line + post| ensures IsSpace((line + post)[i]) {
        if i < |line| { TrimStartRemovesSpace(line, i); }
      }
      AllSpaceTrims(line + post);
    } else {
      TrimStartAppend(line, post);
      TrimEndSpaces(TrimStart(line), post);
    }
  }

  /**
   * A line holding any character other than white space, a sign, a digit or `_` reads as `None`
   * (for the code points up to U+00A0 modelled here; `int()` also reads digits of other scripts).
   */
  lemma ParseRejectsForeign(line: string, i: nat)
    requires i < |line|
    requires !IsSpace(line[i]) && !IsSign(line[i]) && !IsDigit(line[i]) && line[i] != '_'
    ensures ParseInt(line) == None
  {
    var b := TrimStart(line);
    var k := |line| - |b|;
    TrimStartRemovesSpace(line, i);
    TrimEndRemovesSpace(b, i - k);
    assert Strip(line)[i - k] == line[i];
  }

  /** An information separator (U+001C) before a digit is not skipped: the line reads as no number. */
  lemma SeparatorReadsAsNoNumber()
    ensures ParseInt("\U{1C}5") == None
  {
    ParseRejectsForeign("\U{1C}5", 0);
  }

  /** Typing `abc` reads as no number: the caller then takes its default instead of prompting again. */
  lemma LettersReadAsNoNumber()
    ensures ParseInt("abc") == None
  {
    ParseRejectsForeign("abc", 0);
  }
}
