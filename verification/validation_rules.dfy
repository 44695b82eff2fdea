/** The validation rule table installed by `setupValidationRules`
    (js/form-handler.js): a pattern and a message per field type, with the
    patterns for names, postal codes and e-mail addresses also stated
    directly as shapes and proved equivalent. */
module ValidationRules {
  import opened Wrappers
  import opened Text
  import opened Pattern

  datatype Rule = Rule(pattern: seq<Piece>, message: string)

  /** `^[^\s@]+@[^\s@]+\.[^\s@]+$` */
  const EmailPattern: seq<Piece> :=
    [OneOrMore(NotSpaceOrAt), One(Exactly('@')), OneOrMore(NotSpaceOrAt), One(Exactly('.')), OneOrMore(NotSpaceOrAt)]

  /** `^[\+]?[(]?\d{0,3}[)]?[-\s\.]?[\(]?\d{3}[\)]?[-\s\.]?\d{3}[-\s\.]?\d{4,6}$` */
  const PhonePattern: seq<Piece> :=
    [ Optional(Exactly('+')), Optional(Exactly('(')), Between(Digit, 0, 3), Optional(Exactly(')')),
      Optional(Separator), Optional(Exactly('(')), Between(Digit, 3, 3), Optional(Exactly(')')),
      Optional(Separator), Between(Digit, 3, 3), Optional(Separator), Between(Digit, 4, 6) ]

  /** `^[a-zA-Z\s]{2,50}$` */
  const NamePattern: seq<Piece> := [Between(LetterOrSpace, 2, 50)]

  /** `^[A-Za-z]\d[A-Za-z][ -]?\d[A-Za-z]\d$`: a forward sortation area,
      an optional separator, a local delivery unit. */
  const PostalCodeHead: seq<Piece> := [One(Letter), One(Digit), One(Letter)]
  const PostalCodeTail: seq<Piece> := [One(Digit), One(Letter), One(Digit)]
  const PostalCodePattern: seq<Piece> := PostalCodeHead + [Optional(PostalSeparator)] + PostalCodeTail

  const EmailMessage := "Please enter a valid email address"
  const PhoneMessage := "Please enter a valid phone number"
  const NameMessage := "Name must be 2-50 characters and contain only letters"
  const PostalCodeMessage := "Please enter a valid Canadian postal code"

  /** `validationRules.get(fieldType)`: the rule for the four known field types. */
  function RuleFor(fieldType: string): (r: Option<Rule>)
    ensures r.Some? <==> fieldType in {"email", "phone", "name", "postalCode"}
  {
    if fieldType == "email" then Some(Rule(EmailPattern, EmailMessage))
    else if fieldType == "phone" then Some(Rule(PhonePattern, PhoneMessage))
    else if fieldType == "name" then Some(Rule(NamePattern, NameMessage))
    else if fieldType == "postalCode" then Some(Rule(PostalCodePattern, PostalCodeMessage))
    else None
  }

  /** `isValidEmail`: the same expression as the e-mail rule, so it holds
      exactly for addresses of the shape `local@domain.tld`. */
  function IsValidEmail(s: string): (r: bool)
    ensures r <==> EmailShape(s)
  {
    EmailRuleShape(s);
    Matches(EmailPattern, s)
  }

  /** A Canadian postal code: letter, digit, letter, an optional space or
      hyphen, digit, letter, digit. */
  ghost predicate PostalCodeShape(s: string) {
    && (|s| == 6 || (|s| == 7 && (s[3] == ' ' || s[3] == '-')))
    && IsLetter(s[0]) && IsDigit(s[1]) && IsLetter(s[2])
    && IsDigit(s[|s| - 3]) && IsLetter(s[|s| - 2]) && IsDigit(s[|s| - 1])
  }

  /** 2 to 50 characters, each an ASCII letter or white space. */
  ghost predicate NameShape(s: string) {
    2 <= |s| <= 50 && forall i :: 0 <= i < |s| ==> IsLetter(s[i]) || IsSpace(s[i])
  }

  /** `s` has no white space, its only '@' is at `at` with something before
      it, and a '.' at `dot` has something on both sides within the domain. */
  ghost predicate EmailSplit(s: string, at: int, dot: int) {
    && 0 < at && at + 1 < dot < |s| - 1
    && s[at] == '@' && s[dot] == '.'
    && forall k :: 0 <= k < |s| ==> !IsSpace(s[k]) && (s[k] == '@' ==> k == at)
  }

  ghost predicate EmailShape(s: string) {
    exists at, dot :: EmailSplit(s, at, dot)
  }

  lemma PostalCodeTailShape(u: string)
    ensures Matches(PostalCodeTail, u) <==> |u| == 3 && IsDigit(u[0]) && IsLetter(u[1]) && IsDigit(u[2])
  {
    assert PostalCodeTail + [] == PostalCodeTail;
    MatchesFixedPrefix(PostalCodeTail, [], u);
    if |u| >= 3 {
      assert Matches([], u[3..]) <==> |u| == 3;
    }
  }

  lemma PostalCodeHeadShape(s: string, rest: seq<Piece>)
    ensures Matches(PostalCodeHead + rest, s) <==>
      |s| >= 3 && IsLetter(s[0]) && IsDigit(s[1]) && IsLetter(s[2]) && Matches(rest, s[3..])
  {
    MatchesFixedPrefix(PostalCodeHead, rest, s);
    assert PostalCodeHead[0].cls == Letter && PostalCodeHead[1].cls == Digit && PostalCodeHead[2].cls == Letter;
  }

  lemma PostalCodeRuleShape(s: string)
    ensures Matches(PostalCodePattern, s) <==> PostalCodeShape(s)
  {
    var rest := [Optional(PostalSeparator)] + PostalCodeTail;
    assert PostalCodePattern == PostalCodeHead + rest;
    assert rest[1..] == PostalCodeTail;
    PostalCodeHeadShape(s, rest);
    if |s| >= 3 {
      var t := s[3..];
      MatchesOptional(rest, t);
      PostalCodeTailShape(t);
      if |t| >= 1 {
        PostalCodeTailShape(t[1..]);
        assert Matches(PostalCodeTail, t[1..]) <==> |s| == 7 && IsDigit(s[4]) && IsLetter(s[5]) && IsDigit(s[6]);
      }
      assert Matches(PostalCodeTail, t) <==> |s| == 6 && IsDigit(s[3]) && IsLetter(s[4]) && IsDigit(s[5]);
    }
  }

  lemma NameRuleShape(s: string)
    ensures Matches(NamePattern, s) <==> NameShape(s)
  {
    MatchesSingle(Between(LetterOrSpace, 2, 50), s);
  }

  lemma EmailRuleShape(s: string)
    ensures Matches(EmailPattern, s) <==> EmailShape(s)
  {
    if Matches(EmailPattern, s) {
      EmailMatchHasShape(s);
    }
    if EmailShape(s) {
      var at, dot :| EmailSplit(s, at, dot);
      EmailShapeMatches(EmailPattern, s, at, dot);
    }
  }

  /** Runs of `[^\s@]` around one '@' and one '.' form an address. */
  lemma EmailSplitFromRuns(s: string, at: int, dot: int)
    requires 0 < at && at + 1 < dot < |s| - 1
    requires s[at] == '@' && s[dot] == '.'
    requires AllIn(s[..at], NotSpaceOrAt)
    requires AllIn(s[at + 1..dot], NotSpaceOrAt)
    requires AllIn(s[dot + 1..], NotSpaceOrAt)
    ensures EmailSplit(s, at, dot)
  {
    forall k | 0 <= k < |s|
      ensures !IsSpace(s[k]) && (s[k] == '@' ==> k == at)
    {
      if k < at {
        assert s[k] == s[..at][k];
      } else if at < k < dot {
        assert s[k] == s[at + 1..dot][k - at - 1];
      } else if dot < k {
        assert s[k] == s[dot + 1..][k - dot - 1];
      }
    }
  }

  /** `ps` is the e-mail pattern, seen only through its pieces. */
  predicate EmailPieces(ps: seq<Piece>) {
    && |ps| == 5
    && ps[0] == OneOrMore(NotSpaceOrAt) && ps[1] == One(Exactly('@'))
    && ps[2] == OneOrMore(NotSpaceOrAt) && ps[3] == One(Exactly('.'))
    && ps[4] == OneOrMore(NotSpaceOrAt)
  }

  /** The runs a successful e-mail match consumes, as nested suffixes. */
  lemma EmailMatchRuns(ps: seq<Piece>, s: string) returns (k1: nat, k3: nat)
    requires EmailPieces(ps) && Matches(ps, s)
    ensures 1 <= k1 < |s| && AllIn(s[..k1], NotSpaceOrAt) && s[k1..][0] == '@'
    ensures 1 <= k3 < |s[k1..][1..]| && AllIn(s[k1..][1..][..k3], NotSpaceOrAt) && s[k1..][1..][k3..][0] == '.'
    ensures |s[k1..][1..][k3..][1..]| >= 1 && AllIn(s[k1..][1..][k3..][1..], NotSpaceOrAt)
  {
    var part := OneOrMore(NotSpaceOrAt);
    k1 :| k1 <= |s| && TakesRun(part, s, k1) && Matches(ps[1..], s[k1..]);
    var s1 := s[k1..];
    MatchesOne(ps[1..], s1);
    assert ps[1..][1..] == ps[2..];
    var s2 := s1[1..];
    k3 :| k3 <= |s2| && TakesRun(part, s2, k3) && Matches(ps[2..][1..], s2[k3..]);
    assert ps[2..][1..] == ps[3..];
    var s3 := s2[k3..];
    MatchesOne(ps[3..], s3);
    assert ps[3..][1..] == [part];
    MatchesSingle(part, s3[1..]);
  }

  lemma EmailRunsFlatten(s: string, k1: nat, k3: nat)
    requires 1 <= k1 < |s| && AllIn(s[..k1], NotSpaceOrAt) && s[k1..][0] == '@'
    requires 1 <= k3 < |s[k1..][1..]| && AllIn(s[k1..][1..][..k3], NotSpaceOrAt) && s[k1..][1..][k3..][0] == '.'
    requires |s[k1..][1..][k3..][1..]| >= 1 && AllIn(s[k1..][1..][k3..][1..], NotSpaceOrAt)
    ensures EmailSplit(s, k1, k1 + 1 + k3)
  {
    var at, dot := k1, k1 + 1 + k3;
    SliceOfSlice(s, k1, 1);
    SliceOfSlice(s, at + 1, k3);
    SliceOfSlice(s, dot, 1);
    EmailSplitFromRuns(s, at, dot);
  }

  lemma EmailMatchHasShape(s: string)
    requires Matches(EmailPattern, s)
    ensures EmailShape(s)
  {
    var k1, k3 := EmailMatchRuns(EmailPattern, s);
    EmailRunsFlatten(s, k1, k3);
  }

  /** The domain part after the '@' matches `[^\s@]+\.[^\s@]+`. */
  lemma EmailDomainMatches(ps: seq<Piece>, s: string, at: int, dot: int)
    requires EmailPieces(ps) && EmailSplit(s, at, dot)
    ensures Matches(ps[2..], s[at + 1..])
  {
    var part := OneOrMore(NotSpaceOrAt);
    var t4 := s[dot + 1..];
    MatchesSingle(part, t4);
    var t3 := s[dot..];
    assert t3[1..] == t4;
    MatchesStep(One(Exactly('.')), [part], t3, 1);
    var t2 := s[at + 1..];
    assert t2[dot - at - 1..] == t3;
    var u := t2[..dot - at - 1];
    forall k | 0 <= k < |u|
      ensures InClass(u[k], NotSpaceOrAt)
    {
      assert u[k] == s[at + 1 + k];
    }
    MatchesStep(part, [One(Exactly('.')), part], t2, dot - at - 1);
    assert [part] + [One(Exactly('.')), part] == ps[2..];
  }

  lemma EmailShapeMatches(ps: seq<Piece>, s: string, at: int, dot: int)
    requires EmailPieces(ps) && EmailSplit(s, at, dot)
    ensures Matches(ps, s)
  {
    var t2 := s[at + 1..];
    EmailDomainMatches(ps, s, at, dot);
    var t1 := s[at..];
    assert t1[1..] == t2;
    MatchesStepAt(ps, 1, t1, 1);
    forall k | 0 <= k < at
      ensures InClass(s[..at][k], NotSpaceOrAt)
    {
      assert s[..at][k] == s[k];
    }
    MatchesStepAt(ps, 0, s, at);
    assert ps[0..] == ps;
  }
}
