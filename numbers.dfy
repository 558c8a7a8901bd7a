/** The two number tests of the reader: `isnum`, which decides whether a token
    is numeric, and `num`/Python's `int`, which converts a token to an integer
    (pdfaudit.py:131-137, 348-350), together with `str` on integers, which
    `iteratexref` feeds back into `num`. Every character the reader builds is
    `chr` of one byte, so the character tests below are exact on U+0000 to
    U+00FF. */
module Numbers {
  import opened Common

  /** The digits `int` reads. */
  predicate IsDecimal(c: char) { '0' <= c <= '9' }

  /** Python's `str.isdigit` on one character: the decimal digits and the
      superscripts one, two and three. */
  predicate IsDigit(c: char)
  {
    IsDecimal(c) || c == '\U{B9}' || c == '\U{B2}' || c == '\U{B3}'
  }

  /** Python's `str.isdigit`: non-empty and all digits. */
  predicate AllDigits(s: string)
  {
    |s| > 0 && forall i :: 0 <= i < |s| ==> IsDigit(s[i])
  }

  predicate AllDecimal(s: string)
  {
    |s| > 0 && forall i :: 0 <= i < |s| ==> IsDecimal(s[i])
  }

  /** Python's `str.isspace` on one character, which is what `int` strips. */
  predicate IsSpace(c: char)
  {
    || ('\t' <= c <= '\r') || ('\U{1C}' <= c <= '\U{1F}') || c == ' ' || c == '\U{85}' || c == '\U{A0}'
    || c == '\U{1680}' || ('\U{2000}' <= c <= '\U{200A}') || c == '\U{2028}' || c == '\U{2029}'
    || c == '\U{202F}' || c == '\U{205F}' || c == '\U{3000}'
  }

  /** The position of the first `c` in `s`, or `|s|` when there is none. */
  function IndexOf(s: string, c: char): (i: nat)
    ensures i <= |s| && (i < |s| ==> s[i] == c)
    ensures forall j :: 0 <= j < i ==> s[j] != c
  {
    if s == [] then 0
    else if s[0] == c then 0
    else 1 + IndexOf(s[1..], c)
  }

  /** `s.replace(c, '', 1)`. */
  function RemoveFirst(s: string, c: char): string
  {
    if s == [] then []
    else if s[0] == c then s[1..]
    else [s[0]] + RemoveFirst(s[1..], c)
  }

  /** `replace(c, '', 1)` drops the first occurrence of `c`, and leaves a
      string without `c` as it is. */
  lemma {:induction false} RemoveFirstDropsFirst(s: string, c: char)
    ensures var i := IndexOf(s, c); RemoveFirst(s, c) == if i < |s| then s[..i] + s[i + 1..] else s
  {
    if s != [] && s[0] != c {
      RemoveFirstDropsFirst(s[1..], c);
      assert s == [s[0]] + s[1..];
    }
  }

  /** `isnum`: after dropping one '.' and then one '-', only digits remain. */
  predicate IsNum(s: string)
  {
    AllDigits(RemoveFirst(RemoveFirst(s, '.'), '-'))
  }

  function DigitOf(c: char): nat
    requires IsDecimal(c)
  {
    c as int - '0' as int
  }

  /** The value of a run of decimal digits. */
  function DigitsValue(s: string): nat
    requires forall i :: 0 <= i < |s| ==> IsDecimal(s[i])
  {
    if s == [] then 0
    else DigitsValue(s[..|s| - 1]) * 10 + DigitOf(s[|s| - 1])
  }

  /** `s.strip()` with no argument: leading and trailing white space go. */
  function Strip(s: string): (r: string)
    ensures |r| <= |s|
    decreases |s|
  {
    if s != [] && IsSpace(s[0]) then Strip(s[1..])
    else if s != [] && IsSpace(s[|s| - 1]) then Strip(s[..|s| - 1])
    else s
  }

  /** The digit part `int` accepts: decimal digits, with single underscores
      allowed between two digits. */
  predicate Grouped(s: string)
  {
    && |s| > 0 && IsDecimal(s[0]) && IsDecimal(s[|s| - 1])
    && (forall i :: 0 <= i < |s| ==> IsDecimal(s[i]) || s[i] == '_')
    && (forall i :: 0 <= i < |s| - 1 ==> s[i] != '_' || s[i + 1] != '_')
  }

  /** The digits of a grouped digit part, without its underscores. */
  function Ungrouped(s: string): (r: string)
    requires forall i :: 0 <= i < |s| ==> IsDecimal(s[i]) || s[i] == '_'
    ensures forall i :: 0 <= i < |r| ==> IsDecimal(r[i])
    ensures (forall i :: 0 <= i < |s| ==> s[i] != '_') ==> r == s
  {
    if s == [] then []
    else (if s[0] == '_' then [] else [s[0]]) + Ungrouped(s[1..])
  }

  /** A token `int` accepts once stripped: an optional sign, then a grouped
      digit part. */
  predicate IntText(t: string)
  {
    Grouped(t) || (|t| > 0 && (t[0] == '-' || t[0] == '+') && Grouped(t[1..]))
  }

  /** Python's `int(s)` on a token in base ten: white space around it is
      ignored, then an optional sign and grouped decimal digits. */
  function ParseInt(s: string): (r: Result<int>)
    ensures r.Failure? ==> r.error == NotANumber
    ensures r.Success? <==> IntText(Strip(s))
  {
    var t := Strip(s);
    if Grouped(t) then Success(DigitsValue(Ungrouped(t)))
    else if |t| > 0 && (t[0] == '-' || t[0] == '+') && Grouped(t[1..]) then
      var v: int := DigitsValue(Ungrouped(t[1..]));
      Success(if t[0] == '-' then -v else v)
    else Failure(NotANumber)
  }

  function DigitChar(d: nat): (c: char)
    requires d < 10
    ensures IsDecimal(c) && c as int - '0' as int == d
  {
    (d + '0' as int) as char
  }

  /** Python's `str` on a natural number. */
  function NatToString(n: nat): (r: string)
    ensures AllDecimal(r)
    decreases n
  {
    (if n < 10 then "" else NatToString(n / 10)) + [DigitChar(n % 10)]
  }

  /** Python's `str` on an integer. */
  function IntToString(n: int): string
  {
    if n < 0 then "-" + NatToString(-n) else NatToString(n)
  }

  lemma {:induction false} NatToStringValue(n: nat)
    ensures DigitsValue(NatToString(n)) == n
    decreases n
  {
    var s := NatToString(n);
    assert s[..|s| - 1] == (if n < 10 then "" else NatToString(n / 10));
    if n >= 10 {
      NatToStringValue(n / 10);
    }
  }

  lemma StripNoSpace(s: string)
    requires s != [] && !IsSpace(s[0]) && !IsSpace(s[|s| - 1])
    ensures Strip(s) == s
  {
  }

  /** A run of decimal digits is read as its value. */
  lemma ParseIntDigits(s: string)
    requires AllDecimal(s)
    ensures ParseInt(s) == Success(DigitsValue(s))
  {
    StripNoSpace(s);
  }

  /** A minus sign and a run of decimal digits are read as the negated value. */
  lemma ParseIntNegative(t: string)
    requires AllDecimal(t)
    ensures ParseInt("-" + t) == Success(-(DigitsValue(t) as int))
  {
    var s := "-" + t;
    assert s[|s| - 1] == t[|t| - 1];
    StripNoSpace(s);
    assert s[1..] == t;
    assert !Grouped(s);
  }

  /** `num(str(n)) == n`: the round trip `iteratexref` relies on when it turns
      a cross-reference key back into the strings `jumptoobject` expects. */
  lemma ParseIntToString(n: int)
    ensures ParseInt(IntToString(n)) == Success(n)
  {
    if n < 0 {
      NatToStringValue(-n);
      ParseIntNegative(NatToString(-n));
    } else {
      NatToStringValue(n);
      ParseIntDigits(NatToString(n));
    }
  }

  /** `int` ignores white space around the number. */
  lemma ParseIntStripsSpace()
    ensures ParseInt(" 12") == Success(12)
  {
    assert " 12"[1..] == "12";
    StripNoSpace("12");
    assert DigitsValue("12") == 12 by { assert "12"[..1] == "1"; assert "1"[..0] == ""; }
  }

  lemma ParseIntStripsNewline()
    ensures ParseInt("-7\n") == Success(-7)
  {
    assert "-7\n"[..2] == "-7";
    StripNoSpace("-7");
    assert "-7"[1..] == "7";
    assert DigitsValue("7") == 7 by { assert "7"[..0] == ""; }
  }

  /** `int` ignores single underscores between digits, and leading zeros. */
  lemma ParseIntUnderscores()
    ensures ParseInt("0_10") == Success(10)
  {
    var s := "0_10";
    StripNoSpace(s);
    assert s[1..] == "_10" && s[1..][1..] == "10" && "10"[1..] == "0" && "0"[1..] == "";
    assert Ungrouped(s) == "010";
    assert DigitsValue("010") == 10 by { assert "010"[..2] == "01"; assert "01"[..1] == "0"; assert "0"[..0] == ""; }
  }

  lemma ParseIntUnderscore()
    ensures ParseInt("1_0") == Success(10)
  {
    StripNoSpace("1_0");
    assert Ungrouped("1_0") == "10";
    assert DigitsValue("10") == 10 by { assert "10"[..1] == "1"; assert "1"[..0] == ""; }
  }

  /** `int` refuses underscores that are not between two digits, an empty
      or blank token, a lone sign and a sign apart from its digits. */
  lemma ParseIntRejects()
    ensures ParseInt("1__0").Failure? && ParseInt("_1").Failure? && ParseInt("1_").Failure?
    ensures ParseInt("").Failure? && ParseInt(" ").Failure? && ParseInt("-").Failure? && ParseInt("- 5").Failure?
  {
    assert !Grouped("1__0") by { assert "1__0"[1] == '_' && "1__0"[2] == '_'; }
    StripNoSpace("1__0");
    StripNoSpace("_1");
    StripNoSpace("1_");
    assert Strip(" ") == "" by { assert " "[1..] == ""; }
    StripNoSpace("-");
    assert "-"[1..] == "";
    StripNoSpace("- 5");
    assert "- 5"[1..] == " 5";
  }

  lemma {:induction false} RemoveFirstAbsent(s: string, c: char)
    requires forall i :: 0 <= i < |s| ==> s[i] != c
    ensures RemoveFirst(s, c) == s
  {
    assert IndexOf(s, c) == |s|;
    RemoveFirstDropsFirst(s, c);
  }

  /** A run of decimal digits, with or without a leading minus sign, passes
      `isnum`. */
  lemma DecimalIsNum(t: string, negative: bool)
    requires AllDecimal(t)
    ensures IsNum(if negative then "-" + t else t)
  {
    var s := if negative then "-" + t else t;
    assert forall i :: 0 <= i < |s| ==> s[i] != '.' by {
      forall i | 0 <= i < |s| ensures s[i] != '.' {
        if negative && i > 0 { assert s[i] == t[i - 1]; }
      }
    }
    RemoveFirstAbsent(s, '.');
    if negative {
      assert RemoveFirst(s, '-') == t;
    } else {
      RemoveFirstAbsent(s, '-');
    }
  }

  /** The text of every integer passes `isnum`. */
  lemma IntToStringIsNum(n: int)
    ensures IsNum(IntToString(n))
  {
    if n < 0 {
      DecimalIsNum(NatToString(-n), true);
    } else {
      DecimalIsNum(NatToString(n), false);
    }
  }

  /** `isnum` accepts tokens `int` rejects: "1.5", "5-" and the
      superscript two pass the test, and `num` then stops the reader on
      them. */
  lemma DecimalPointNotInteger()
    ensures IsNum("1.5") && ParseInt("1.5").Failure?
  {
    assert RemoveFirst("1.5", '.') == "15" by { assert "1.5"[1..] == ".5"; }
    RemoveFirstAbsent("15", '-');
    StripNoSpace("1.5");
    assert !Grouped("1.5") by { assert "1.5"[1] == '.'; }
  }

  lemma TrailingMinusNotInteger()
    ensures IsNum("5-") && ParseInt("5-").Failure?
  {
    RemoveFirstAbsent("5-", '.');
    assert RemoveFirst("5-", '-') == "5" by { assert "5-"[1..] == "-"; }
    StripNoSpace("5-");
    assert !Grouped("5-");
  }

  lemma SuperscriptNotInteger()
    ensures IsNum("\U{B2}") && ParseInt("\U{B2}").Failure?
  {
    RemoveFirstAbsent("\U{B2}", '.');
    RemoveFirstAbsent("\U{B2}", '-');
    StripNoSpace("\U{B2}");
  }

  /** `int` accepts tokens `isnum` rejects: " 12" and "1_0". */
  lemma SpacedIntegerNotNumeric()
    ensures !IsNum(" 12") && ParseInt(" 12").Success?
  {
    RemoveFirstAbsent(" 12", '.');
    RemoveFirstAbsent(" 12", '-');
    ParseIntStripsSpace();
  }

  lemma GroupedIntegerNotNumeric()
    ensures !IsNum("1_0") && ParseInt("1_0").Success?
  {
    RemoveFirstAbsent("1_0", '.');
    RemoveFirstAbsent("1_0", '-');
    ParseIntUnderscore();
  }
}
