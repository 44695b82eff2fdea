/** The input auto-formatters of js/form-handler.js: `formatPhoneNumber` and
    `formatPostalCode`, with their idempotence and their agreement with the
    phone and postal-code validation rules. */
module Formatters {
  import opened Text
  import opened Pattern
  import opened ValidationRules

  /** `(ddd) ddd-dddd` laid out from ten digits. */
  function PhoneLayout(d: string): string
    requires |d| == 10
  {
    "(" + d[..3] + ") " + d[3..6] + "-" + d[6..]
  }

  lemma PhoneLayoutNested(d: string)
    requires |d| == 10
    ensures PhoneLayout(d) == "(" + (d[..3] + (")" + (" " + (d[3..6] + ("-" + d[6..])))))
  {
    assert ") " == ")" + " ";
  }

  /** The layout opens with a parenthesis and closes on the last digit. */
  lemma PhoneLayoutEnds(d: string)
    requires |d| == 10
    ensures PhoneLayout(d)[0] == '(' && PhoneLayout(d)[13] == d[9]
  {
    var x := "(" + d[..3] + ") " + d[3..6] + "-";
    assert |x| == 10 && PhoneLayout(d) == x + d[6..];
  }

  lemma PhoneLayoutDigits(d: string)
    requires |d| == 10 && AllDigits(d)
    ensures Digits(PhoneLayout(d)) == d
  {
    var a, b, c := d[..3], d[3..6], d[6..];
    var p1 := "(" + a;
    var p2 := p1 + ") ";
    var p3 := p2 + b;
    var p4 := p3 + "-";
    assert Digits(p1) == a by {
      DigitsAppend("(", a);
      DigitsOfDigits(a);
    }
    assert Digits(p2) == a by {
      DigitsAppend(p1, ") ");
    }
    assert Digits(p3) == a + b by {
      DigitsAppend(p2, b);
      DigitsOfDigits(b);
    }
    assert Digits(p4) == a + b by {
      DigitsAppend(p3, "-");
    }
    assert Digits(p4 + c) == a + b + c by {
      DigitsAppend(p4, c);
      DigitsOfDigits(c);
    }
    assert PhoneLayout(d) == p4 + c;
    assert a + b + c == d;
  }

  /** `formatPhoneNumber`: an input holding exactly ten digits, wherever they
      stand, becomes `(ddd) ddd-dddd` with those digits in order; any other
      input is returned unchanged. */
  function FormatPhoneNumber(value: string): (r: string)
    ensures |Digits(value)| == 10 ==>
      && |r| == 14 && r[0] == '(' && r[4] == ')' && r[5] == ' ' && r[9] == '-'
      && Digits(r) == Digits(value)
    ensures |Digits(value)| != 10 ==> r == value
  {
    var d := Digits(value);
    if |d| == 10 then
      PhoneLayoutDigits(d);
      PhoneLayout(d)
    else value
  }

  lemma FormatPhoneNumberIdempotent(value: string)
    ensures FormatPhoneNumber(FormatPhoneNumber(value)) == FormatPhoneNumber(value)
  {
  }

  /** `\d{3}[-\s\.]?\d{4,6}` accepts `ddd-dddd`. */
  lemma PhoneLineMatches(b: string, c: string)
    requires |b| == 3 && |c| == 4 && AllDigits(b) && AllDigits(c)
    ensures Matches(PhonePattern[9..], b + ("-" + c))
  {
    var p := PhonePattern;
    MatchesSingle(p[11], c);
    assert p[11..] == [p[11]];
    var t10 := "-" + c;
    assert t10[1..] == c && t10[..1] == "-";
    MatchesStepAt(p, 10, t10, 1);
    var t9 := b + t10;
    assert t9[3..] == t10 && t9[..3] == b;
    MatchesStepAt(p, 9, t9, 3);
  }

  /** `\d{3}[\)]?[-\s\.]?` accepts `ddd) ` in front of a matching line number. */
  lemma PhoneAreaMatches(a: string, rest: string)
    requires |a| == 3 && AllDigits(a)
    requires Matches(PhonePattern[9..], rest)
    ensures Matches(PhonePattern[6..], a + (")" + (" " + rest)))
  {
    var p := PhonePattern;
    var t8 := " " + rest;
    assert t8[1..] == rest && t8[..1] == " ";
    MatchesStepAt(p, 8, t8, 1);
    var t7 := ")" + t8;
    assert t7[1..] == t8 && t7[..1] == ")";
    MatchesStepAt(p, 7, t7, 1);
    var t6 := a + t7;
    assert t6[3..] == t7 && t6[..3] == a;
    MatchesStepAt(p, 6, t6, 3);
  }

  /** `[\+]?[(]?\d{0,3}[)]?[-\s\.]?[\(]?` accepts a lone `(`: every piece
      but the second may match nothing. */
  lemma PhonePrefixMatches(ps: seq<Piece>, t6: string)
    requires |ps| >= 6 && ps[1] == Optional(Exactly('('))
    requires ps[0].min == 0 && ps[2].min == 0 && ps[3].min == 0 && ps[4].min == 0 && ps[5].min == 0
    requires Matches(ps[6..], t6)
    ensures Matches(ps, "(" + t6)
  {
    MatchesSkip(ps, 5, t6);
    MatchesSkip(ps, 4, t6);
    MatchesSkip(ps, 3, t6);
    MatchesSkip(ps, 2, t6);
    var t1 := "(" + t6;
    assert t1[1..] == t6 && t1[..1] == "(";
    MatchesStepAt(ps, 1, t1, 1);
    MatchesSkipFirst(ps, t1);
  }

  /** The first six pieces of the phone pattern: all optional, the second
      an opening parenthesis. */
  lemma PhoneHeadOptional()
    ensures |PhonePattern| >= 6 && PhonePattern[1] == Optional(Exactly('('))
    ensures PhonePattern[0].min == 0 && PhonePattern[2].min == 0 && PhonePattern[3].min == 0
    ensures PhonePattern[4].min == 0 && PhonePattern[5].min == 0
  {
  }

  /** The layout of any ten digits is accepted by the phone validation rule. */
  lemma PhoneLayoutMatches(d: string)
    requires |d| == 10 && AllDigits(d)
    ensures Matches(PhonePattern, PhoneLayout(d))
  {
    var a, b, c := d[..3], d[3..6], d[6..];
    assert AllDigits(a) && AllDigits(b) && AllDigits(c);
    var line := b + ("-" + c);
    PhoneLineMatches(b, c);
    var t6 := a + (")" + (" " + line));
    PhoneAreaMatches(a, line);
    PhoneHeadOptional();
    PhonePrefixMatches(PhonePattern, t6);
    PhoneLayoutNested(d);
  }

  /** Every formatted number is accepted by the phone validation rule. */
  lemma FormattedPhoneNumberValid(value: string)
    requires |Digits(value)| == 10
    ensures Matches(PhonePattern, FormatPhoneNumber(value))
  {
    PhoneLayoutMatches(Digits(value));
  }

  /** The cleaned value has the shape `[A-Z]\d[A-Z]\d[A-Z]\d`. */
  predicate CompactPostalCode(s: string) {
    && |s| == 6
    && IsUpper(s[0]) && IsDigit(s[1]) && IsUpper(s[2])
    && IsDigit(s[3]) && IsUpper(s[4]) && IsDigit(s[5])
  }

  /** The cleaning step: letters and digits only, upper-cased. */
  function CleanPostalCode(value: string): string {
    ToUpper(Alnums(value))
  }

  /** `formatPostalCode`: when the cleaned value is six characters alternating
      letter and digit, they are returned as `A9A 9A9`; otherwise the whole
      input is returned upper-cased. */
  function FormatPostalCode(value: string): (r: string)
    ensures CompactPostalCode(CleanPostalCode(value)) ==>
      && |r| == 7 && r[3] == ' '
      && r[..3] + r[4..] == CleanPostalCode(value)
    ensures !CompactPostalCode(CleanPostalCode(value)) ==> r == ToUpper(value)
  {
    var cleaned := CleanPostalCode(value);
    if CompactPostalCode(cleaned) then
      var r := cleaned[..3] + " " + cleaned[3..];
      assert r[..3] + r[4..] == cleaned;
      r
    else ToUpper(value)
  }

  /** Cleaning an already-formatted code gives back the compact code. */
  lemma CleanFormatted(c: string)
    requires CompactPostalCode(c)
    ensures CleanPostalCode(c[..3] + " " + c[3..]) == c
  {
    assert forall i :: 0 <= i < 3 ==> IsAlnum(c[..3][i]) && IsAlnum(c[3..][i]);
    AlnumsAround(c[..3], ' ', c[3..], c[..3] + " " + c[3..]);
    assert c[..3] + c[3..] == c;
    ToUpperKeepsUpper(c);
  }

  /** Upper-casing leaves a string without lower-case letters unchanged. */
  lemma ToUpperKeepsUpper(s: string)
    requires forall i :: 0 <= i < |s| ==> !IsLower(s[i])
    ensures ToUpper(s) == s
  {
  }

  lemma FormatPostalCodeIdempotent(value: string)
    ensures FormatPostalCode(FormatPostalCode(value)) == FormatPostalCode(value)
  {
    var cleaned := CleanPostalCode(value);
    if CompactPostalCode(cleaned) {
      CleanFormatted(cleaned);
    } else {
      AlnumsToUpper(value);
      CaseMappingFacts(Alnums(value));
      CaseMappingFacts(value);
      assert CleanPostalCode(ToUpper(value)) == cleaned;
    }
  }

  /** A formatted code is accepted by the postal-code validation rule. */
  lemma FormattedPostalCodeValid(value: string)
    requires CompactPostalCode(CleanPostalCode(value))
    ensures Matches(PostalCodePattern, FormatPostalCode(value))
  {
    PostalCodeRuleShape(FormatPostalCode(value));
  }

  /** The two halves of a code the rule accepts, and what lies between them. */
  lemma ShapedParts(value: string)
    requires PostalCodeShape(value)
    ensures forall i :: 0 <= i < 3 ==> IsAlnum(value[..3][i]) && IsAlnum(value[|value| - 3..][i])
    ensures |value| == 6 ==> value == value[..3] + value[|value| - 3..]
    ensures |value| == 7 ==> !IsAlnum(value[3]) && value == value[..3] + [value[3]] + value[|value| - 3..]
  {
  }

  /** Cleaning a code the rule accepts keeps its six letters and digits. */
  lemma CleanShaped(value: string)
    requires PostalCodeShape(value)
    ensures Alnums(value) == value[..3] + value[|value| - 3..]
  {
    var head, tail := value[..3], value[|value| - 3..];
    ShapedParts(value);
    if |value| == 6 {
      AlnumsJoin(head, tail, value);
    } else {
      AlnumsAround(head, value[3], tail, value);
    }
  }

  /** Upper-casing splits over concatenation. */
  lemma ToUpperAppend(a: string, b: string)
    ensures ToUpper(a + b) == ToUpper(a) + ToUpper(b)
  {
  }

  /** Every code the postal-code rule accepts is normalised to `A9A 9A9`. */
  lemma ValidPostalCodeFormats(value: string)
    requires PostalCodeShape(value)
    ensures FormatPostalCode(value) == ToUpper(value[..3]) + " " + ToUpper(value[|value| - 3..])
  {
    var head, tail := value[..3], value[|value| - 3..];
    CleanShaped(value);
    ToUpperAppend(head, tail);
    var cleaned := ToUpper(head) + ToUpper(tail);
    assert CleanPostalCode(value) == cleaned;
    assert cleaned[..3] == ToUpper(head) && cleaned[3..] == ToUpper(tail);
  }
}
