/** The record page's `mm:ss` display of elapsed seconds, together with the
    parser that inverts it. Minutes and seconds are each written in decimal
    and left-padded with '0' to at least two characters, so from 100 minutes
    on the minutes field grows to three or more digits. */
module TimeFormat {
  import opened Records

  predicate IsDigit(c: char)
  {
    '0' <= c <= '9'
  }

  predicate AllDigits(s: string)
  {
    forall i :: 0 <= i < |s| ==> IsDigit(s[i])
  }

  function DigitChar(d: nat): (c: char)
    requires d < 10
    ensures IsDigit(c)
  {
    (d + '0' as int) as char
  }

  function DigitValue(c: char): (d: nat)
    requires IsDigit(c)
    ensures d < 10
  {
    c as int - '0' as int
  }

  /** `n.toString()` for a non-negative integer: no sign, no leading zero. */
  function Digits(n: nat): (s: string)
    ensures |s| >= 1 && AllDigits(s)
    ensures n < 10 <==> |s| == 1
    ensures |s| > 1 ==> s[0] != '0'
    ensures n < 100 ==> |s| <= 2
    decreases n
  {
    if n < 10 then [DigitChar(n)]
    else Digits(n / 10) + [DigitChar(n % 10)]
  }

  /** The value of a string of decimal digits, most significant first. */
  function ValueOf(s: string): (n: nat)
    requires AllDigits(s)
    decreases |s|
  {
    if s == [] then 0 else ValueOf(s[..|s| - 1]) * 10 + DigitValue(s[|s| - 1])
  }

  /** `padStart(2, '0')`. */
  function Pad2(s: string): (r: string)
    ensures |r| == if |s| >= 2 then |s| else 2
    ensures |s| >= 2 ==> r == s
    ensures |s| < 2 ==> r == seq(2 - |s|, _ => '0') + s
  {
    if |s| >= 2 then s else seq(2 - |s|, _ => '0') + s
  }

  /** `formatTime`: whole minutes, a colon, the remaining seconds. */
  function FormatTime(seconds: nat): (r: string)
    ensures seconds < 6000 ==> |r| == 5 && r[2] == ':'
    ensures |r| >= 5
  {
    Pad2(Digits(seconds / 60)) + ":" + Pad2(Digits(seconds % 60))
  }

  /** Position of the first ':' (or the length, when there is none). */
  function FirstColon(s: string): (i: nat)
    ensures i <= |s|
    ensures forall j :: 0 <= j < i ==> s[j] != ':'
    ensures i < |s| ==> s[i] == ':'
  {
    if s == [] then 0
    else if s[0] == ':' then 0
    else 1 + FirstColon(s[1..])
  }

  /** A minutes field exactly as the formatter writes one: at least two
      digits, and a leading zero only in the two-digit form. */
  predicate MinutesField(f: string)
  {
    |f| >= 2 && AllDigits(f) && (|f| == 2 || f[0] != '0')
  }

  /** A seconds field as the formatter writes one: two digits below 60. */
  predicate SecondsField(f: string)
  {
    |f| == 2 && AllDigits(f) && ValueOf(f) < 60
  }

  /** Reads back a displayed time; `None` for anything the formatter could
      not have written. */
  function ParseTime(s: string): (r: Option<nat>)
  {
    var i := FirstColon(s);
    if i == |s| then None
    else
      var mins, secs := s[..i], s[i + 1..];
      if MinutesField(mins) && SecondsField(secs)
      then Some(ValueOf(mins) * 60 + ValueOf(secs))
      else None
  }

  lemma {:induction false} DigitsValue(n: nat)
    ensures ValueOf(Digits(n)) == n
    decreases n
  {
    if n >= 10 {
      DigitsValue(n / 10);
      var d := Digits(n / 10);
      var s := d + [DigitChar(n % 10)];
      assert s[..|s| - 1] == d;
    }
  }

  /** Reading a canonical digit string and writing it back gives the same
      string. */
  lemma {:induction false} ValueDigits(s: string)
    requires |s| >= 1 && AllDigits(s) && (|s| == 1 || s[0] != '0')
    ensures Digits(ValueOf(s)) == s
    decreases |s|
  {
    if |s| == 1 {
      assert s[..0] == [];
    } else {
      var p := s[..|s| - 1];
      ValueDigits(p);
      PositiveValue(p);
      var v := ValueOf(s);
      assert v / 10 == ValueOf(p) && v % 10 == DigitValue(s[|s| - 1]);
      assert s == p + [s[|s| - 1]];
    }
  }

  lemma {:induction false} PositiveValue(s: string)
    requires |s| >= 1 && AllDigits(s) && s[0] != '0'
    ensures ValueOf(s) >= 1
    decreases |s|
  {
    if |s| > 1 {
      PositiveValue(s[..|s| - 1]);
    }
  }

  /** A padded `toString` is a valid minutes field with the same value. */
  lemma PaddedDigits(n: nat)
    ensures MinutesField(Pad2(Digits(n)))
    ensures ValueOf(Pad2(Digits(n))) == n
    ensures n < 60 ==> SecondsField(Pad2(Digits(n)))
  {
    DigitsValue(n);
    var d := Digits(n);
    if |d| == 1 {
      var p := Pad2(d);
      assert p == ['0', d[0]];
      assert p[..1] == ['0'];
      assert ValueOf(['0']) == 0 by { assert ['0'][..0] == []; }
      assert d[..0] == [];
    }
  }

  /** Every valid minutes field is what the formatter writes for its value. */
  lemma FieldPadded(f: string)
    requires MinutesField(f)
    ensures Pad2(Digits(ValueOf(f))) == f
  {
    if f[0] != '0' {
      ValueDigits(f);
    } else {
      var tail := f[1..];
      assert |tail| == 1;
      assert f[..1] == ['0'];
      assert ValueOf(['0']) == 0 by { assert ['0'][..0] == []; }
      assert ValueOf(tail) == ValueOf(f) by { assert tail[..0] == []; }
      ValueDigits(tail);
      assert f == ['0'] + tail;
    }
  }

  /** The colon the formatter writes is the first one in its output. */
  lemma ColonSplit(a: string, b: string)
    requires AllDigits(a)
    ensures var s := a + ":" + b;
      FirstColon(s) == |a| && s[..|a|] == a && s[|a| + 1..] == b
  {
    var s := a + ":" + b;
    assert s[|a|] == ':';
  }

  /** Parsing what the formatter wrote gives back the seconds. */
  lemma ParseFormat(seconds: nat)
    ensures ParseTime(FormatTime(seconds)) == Some(seconds)
  {
    var m, s := Pad2(Digits(seconds / 60)), Pad2(Digits(seconds % 60));
    PaddedDigits(seconds / 60);
    PaddedDigits(seconds % 60);
    ColonSplit(m, s);
  }

  /** The parser accepts a string exactly when the formatter writes it: a
      displayed time and its seconds determine each other. */
  lemma ParseIffFormat(text: string, seconds: nat)
    ensures ParseTime(text) == Some(seconds) <==> FormatTime(seconds) == text
  {
    if FormatTime(seconds) == text {
      ParseFormat(seconds);
    }
    if ParseTime(text) == Some(seconds) {
      var i := FirstColon(text);
      var mins, secs := text[..i], text[i + 1..];
      FieldPadded(mins);
      FieldPadded(secs);
      var m, s := ValueOf(mins), ValueOf(secs);
      assert seconds / 60 == m && seconds % 60 == s;
      assert text == mins + ":" + secs;
    }
  }

  /** Below 100 minutes the display is always five characters, `mm:ss`. */
  lemma FiveCharacters(seconds: nat)
    requires seconds < 6000
    ensures |FormatTime(seconds)| == 5
    ensures AllDigits(FormatTime(seconds)[..2]) && AllDigits(FormatTime(seconds)[3..])
  {
  }
}
