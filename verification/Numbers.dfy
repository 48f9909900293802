/** Decimal text of C integers: what printf("%d") writes and atoi reads. */
module Numbers {
  import opened Sequences

  const INT_MAX := 0x7FFF_FFFF

  predicate IsDigit(c: char) {
    '0' <= c <= '9'
  }

  /** The C locale's isspace. */
  predicate IsSpace(c: char) {
    c == ' ' || 9 <= c as int <= 13
  }

  function DigitOf(c: char): nat
    requires IsDigit(c)
  {
    c as int - '0' as int
  }

  function DigitChar(d: nat): (c: char)
    requires d < 10
    ensures IsDigit(c) && DigitOf(c) == d
  {
    ('0' as int + d) as char
  }

  /** The value of a run of digits, most significant first. */
  function DigitsValue(s: string): nat
    requires All(IsDigit, s)
  {
    if s == "" then 0 else DigitsValue(s[..|s| - 1]) * 10 + DigitOf(s[|s| - 1])
  }

  function NatText(n: nat): string {
    if n < 10 then [DigitChar(n)] else NatText(n / 10) + [DigitChar(n % 10)]
  }

  /** printf("%d", n) */
  function IntText(n: int): string {
    if n < 0 then "-" + NatText(-n) else NatText(n)
  }

  /** The digits `s` starts with, as a number; 0 when there are none. */
  function LeadingDigits(s: string): nat {
    SpanIsMaximal(IsDigit, s);
    DigitsValue(s[..Span(IsDigit, s)])
  }

  /** atoi: white space, an optional sign, then digits. */
  function Atoi(s: string): int {
    var t := s[Span(IsSpace, s)..];
    if t != "" && t[0] == '-' then 0 - LeadingDigits(t[1..])
    else if t != "" && t[0] == '+' then LeadingDigits(t[1..])
    else LeadingDigits(t)
  }

  lemma {:induction false} NatTextValue(n: nat)
    ensures NatText(n) != "" && All(IsDigit, NatText(n))
    ensures DigitsValue(NatText(n)) == n
  {
    if n < 10 {
    } else {
      NatTextValue(n / 10);
      assert NatText(n)[..|NatText(n)| - 1] == NatText(n / 10);
    }
  }

  /** A decimal text is no longer than any other digits with the same value. */
  lemma {:induction false} NatTextShortest(s: string)
    requires s != "" && All(IsDigit, s)
    ensures |NatText(DigitsValue(s))| <= |s|
  {
    if |s| == 1 {
      assert DigitsValue(s[..0]) == 0;
    } else {
      var front := s[..|s| - 1];
      NatTextShortest(front);
      var n := DigitsValue(s);
      if n >= 10 {
        assert n / 10 == DigitsValue(front);
      }
    }
  }

  lemma {:induction false} LeadingRun(digits: string, rest: string)
    requires All(IsDigit, digits) && (rest == "" || !IsDigit(rest[0]))
    ensures LeadingDigits(digits + rest) == DigitsValue(digits)
  {
    SpanOfRun(IsDigit, digits, rest);
    assert (digits + rest)[..|digits|] == digits;
  }

  lemma {:induction false} SignedRun(digits: string, rest: string)
    requires digits != "" && All(IsDigit, digits) && (rest == "" || !IsDigit(rest[0]))
    ensures Atoi("-" + digits + rest) == 0 - DigitsValue(digits)
  {
    var t := "-" + digits + rest;
    assert t[0] == '-' && t[1..] == digits + rest && Span(IsSpace, t) == 0;
    LeadingRun(digits, rest);
  }

  lemma {:induction false} PlainRun(digits: string, rest: string)
    requires digits != "" && All(IsDigit, digits) && (rest == "" || !IsDigit(rest[0]))
    ensures Atoi(digits + rest) == DigitsValue(digits)
  {
    var t := digits + rest;
    assert t[0] == digits[0] && Span(IsSpace, t) == 0;
    LeadingRun(digits, rest);
  }

  /** atoi reads back what printf wrote, whatever non-digit text follows. */
  lemma {:induction false} AtoiOfText(n: int, rest: string)
    requires rest == "" || !IsDigit(rest[0])
    ensures Atoi(IntText(n) + rest) == n
  {
    if n < 0 {
      NatTextValue(-n);
      SignedRun(NatText(-n), rest);
    } else {
      NatTextValue(n);
      PlainRun(NatText(n), rest);
    }
  }

  /** atoi in full: white space, one sign or none, digits, and then anything that is
      no digit; without digits, 0. */
  lemma {:induction false} AtoiMeans(spaces: string, sign: string, digits: string, rest: string)
    requires All(IsSpace, spaces) && All(IsDigit, digits) && (rest == "" || !IsDigit(rest[0]))
    requires sign == "-" || sign == "+" || sign == ""
    requires sign == "" && digits == "" && rest != "" ==> !IsSpace(rest[0]) && rest[0] != '-' && rest[0] != '+'
    ensures Atoi(spaces + (sign + (digits + rest))) ==
            if sign == "-" then 0 - DigitsValue(digits) else DigitsValue(digits)
  {
    var number := digits + rest;
    var t := sign + number;
    assert sign == "" ==> t == number;
    assert digits != "" ==> number[0] == digits[0];
    assert digits == "" ==> number == rest;
    assert sign != "" ==> t[0] == sign[0] && t[1..] == number;
    SpanOfRun(IsSpace, spaces, t);
    LeadingRun(digits, rest);
  }

  /** The value of digits is decimal. */
  lemma {:induction false} DigitsValueMeans(digits: string, c: char)
    requires All(IsDigit, digits) && IsDigit(c)
    ensures DigitsValue(digits + [c]) == 10 * DigitsValue(digits) + (c as int - 48)
  {
    assert (digits + [c])[..|digits|] == digits;
  }

  /** On a run of digits atoi and the digit value agree. */
  lemma {:induction false} AtoiOfDigits(s: string)
    requires All(IsDigit, s)
    ensures Atoi(s) == DigitsValue(s)
  {
    assert s + "" == s;
    SpanOfRun(IsDigit, s, "");
    assert Span(IsSpace, s) == 0;
  }

  lemma {:induction false} LeadingNoLonger(s: string)
    ensures LeadingDigits(s) > 0 ==> |NatText(LeadingDigits(s))| <= |s|
  {
    var digits := s[..Span(IsDigit, s)];
    SpanIsMaximal(IsDigit, s);
    if digits != "" {
      NatTextShortest(digits);
    }
  }

  /** Reading any nonempty text with atoi and printing the result never gives
      a longer text. */
  lemma {:induction false} TextNoLonger(s: string)
    requires s != ""
    ensures |IntText(Atoi(s))| <= |s|
  {
    var t := s[Span(IsSpace, s)..];
    if t != "" && (t[0] == '-' || t[0] == '+') {
      LeadingNoLonger(t[1..]);
    } else {
      LeadingNoLonger(t);
    }
  }

  /** No prefix of a run of digits has a larger value than the whole run. */
  lemma {:induction false} PrefixValue(s: string, i: nat)
    requires All(IsDigit, s) && i <= |s|
    ensures DigitsValue(s[..i]) <= DigitsValue(s)
  {
    if i == |s| {
      assert s[..i] == s;
    } else {
      PrefixValue(s[..|s| - 1], i);
      assert s[..|s| - 1][..i] == s[..i];
    }
  }

  /** What the accumulating loop holds when it has read text[start..pos]. */
  function Accumulated(text: string, start: nat, pos: nat): int
    requires start <= pos <= |text|
  {
    if pos == start then 0
    else Accumulated(text, start, pos - 1) * 10 + (text[pos - 1] as int - '0' as int)
  }

  /** Over digits it ends with their value. */
  lemma {:induction false} AccumulatedValue(text: string, start: nat, pos: nat)
    requires start <= pos <= |text| && All(IsDigit, text[start..pos])
    ensures Accumulated(text, start, pos) == DigitsValue(text[start..pos])
  {
    if pos > start {
      var s := text[start..pos];
      assert s[..|s| - 1] == text[start..pos - 1];
      AccumulatedValue(text, start, pos - 1);
    }
  }

  /** And it never is larger on the way than at the end, so that a literal whose
      value fits an int is read without overflow. */
  lemma {:induction false} AccumulatedBound(text: string, start: nat, mid: nat, pos: nat)
    requires start <= mid <= pos <= |text| && All(IsDigit, text[start..pos])
    ensures 0 <= Accumulated(text, start, mid) <= DigitsValue(text[start..pos])
  {
    var s := text[start..pos];
    assert s[..mid - start] == text[start..mid];
    AccumulatedValue(text, start, mid);
    PrefixValue(s, mid - start);
  }
}
