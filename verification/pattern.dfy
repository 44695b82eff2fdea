/** The anchored regular expressions of the form validation rules
    (js/form-handler.js), as sequences of quantified character classes.
    Each rule has the shape `^c1{m1,n1} c2{m2,n2} ... $`, and a backtracking
    `RegExp.test` of such an expression succeeds exactly when some split of the
    input gives every class a run of allowed length; `Matches` states that. */
module Pattern {
  import opened Wrappers
  import opened Text

  /** The character classes the rules use. */
  datatype CharClass =
    | Digit              // \d
    | Letter             // [A-Za-z]
    | Exactly(c: char)   // one literal character
    | Separator          // [-\s\.]
    | PostalSeparator    // [ -]
    | LetterOrSpace      // [a-zA-Z\s]
    | NotSpaceOrAt       // [^\s@]

  predicate InClass(c: char, cls: CharClass) {
    match cls
    case Digit => IsDigit(c)
    case Letter => IsLetter(c)
    case Exactly(d) => c == d
    case Separator => c == '-' || IsSpace(c) || c == '.'
    case PostalSeparator => c == ' ' || c == '-'
    case LetterOrSpace => IsLetter(c) || IsSpace(c)
    case NotSpaceOrAt => !IsSpace(c) && c != '@'
  }

  /** `cls{min,max}`; a `max` of `None` is unbounded, as in `+`. */
  datatype Piece = Piece(cls: CharClass, min: nat, max: Option<nat>)

  function One(cls: CharClass): Piece { Piece(cls, 1, Some(1)) }
  function Optional(cls: CharClass): Piece { Piece(cls, 0, Some(1)) }
  function OneOrMore(cls: CharClass): Piece { Piece(cls, 1, None) }
  function Between(cls: CharClass, min: nat, max: nat): Piece { Piece(cls, min, Some(max)) }

  predicate AllIn(s: string, cls: CharClass) {
    forall i :: 0 <= i < |s| ==> InClass(s[i], cls)
  }

  predicate WithinMax(p: Piece, k: nat) {
    p.max.None? || k <= p.max.value
  }

  /** The first `k` characters of `s` belong to `p`'s class, and `k` is a run length `p` allows. */
  predicate TakesRun(p: Piece, s: string, k: nat) {
    p.min <= k <= |s| && WithinMax(p, k) && AllIn(s[..k], p.cls)
  }

  /** The anchored match of `ps` against the whole of `s`. */
  predicate Matches(ps: seq<Piece>, s: string)
    decreases |ps|
  {
    if |ps| == 0 then s == ""
    else exists k: nat :: k <= |s| && TakesRun(ps[0], s, k) && Matches(ps[1..], s[k..])
  }

  /** Consume a run of `k` characters for the first piece. */
  lemma MatchesStep(p: Piece, ps: seq<Piece>, s: string, k: nat)
    requires TakesRun(p, s, k) && Matches(ps, s[k..])
    ensures Matches([p] + ps, s)
  {
    assert ([p] + ps)[1..] == ps;
  }

  /** `MatchesStep` for a suffix of a fixed pattern. */
  lemma MatchesStepAt(ps: seq<Piece>, i: nat, s: string, k: nat)
    requires i < |ps|
    requires TakesRun(ps[i], s, k) && Matches(ps[i + 1..], s[k..])
    ensures Matches(ps[i..], s)
  {
    assert ps[i..] == [ps[i]] + ps[i + 1..];
    MatchesStep(ps[i], ps[i + 1..], s, k);
  }

  /** A piece that may occur zero times can be skipped. */
  lemma MatchesSkip(ps: seq<Piece>, i: nat, s: string)
    requires i < |ps| && ps[i].min == 0 && Matches(ps[i + 1..], s)
    ensures Matches(ps[i..], s)
  {
    assert TakesRun(ps[i], s, 0) && s[0..] == s;
    MatchesStepAt(ps, i, s, 0);
  }

  /** The same, for the first piece. */
  lemma MatchesSkipFirst(ps: seq<Piece>, s: string)
    requires |ps| > 0 && ps[0].min == 0 && Matches(ps[1..], s)
    ensures Matches(ps, s)
  {
    MatchesSkip(ps, 0, s);
    assert ps[0..] == ps;
  }

  /** A piece that must occur exactly once consumes exactly one character. */
  lemma MatchesOne(ps: seq<Piece>, s: string)
    requires |ps| > 0 && ps[0].min == 1 && ps[0].max == Some(1)
    ensures Matches(ps, s) <==> |s| >= 1 && InClass(s[0], ps[0].cls) && Matches(ps[1..], s[1..])
  {
    if |s| >= 1 && InClass(s[0], ps[0].cls) && Matches(ps[1..], s[1..]) {
      assert TakesRun(ps[0], s, 1);
    }
  }

  /** An optional piece consumes nothing or one character of its class. */
  lemma MatchesOptional(ps: seq<Piece>, s: string)
    requires |ps| > 0 && ps[0].min == 0 && ps[0].max == Some(1)
    ensures Matches(ps, s) <==> Matches(ps[1..], s) || (|s| >= 1 && InClass(s[0], ps[0].cls) && Matches(ps[1..], s[1..]))
  {
    if Matches(ps[1..], s) {
      assert TakesRun(ps[0], s, 0) && s[0..] == s;
    }
    if |s| >= 1 && InClass(s[0], ps[0].cls) && Matches(ps[1..], s[1..]) {
      assert TakesRun(ps[0], s, 1);
    }
    if Matches(ps, s) {
      var k: nat :| k <= |s| && TakesRun(ps[0], s, k) && Matches(ps[1..], s[k..]);
      assert k == 0 ==> s[k..] == s;
    }
  }

  /** A single piece matches exactly the runs of its class of allowed length. */
  lemma MatchesSingle(p: Piece, s: string)
    ensures Matches([p], s) <==> p.min <= |s| && WithinMax(p, |s|) && AllIn(s, p.cls)
  {
    assert [p][1..] == [];
    if p.min <= |s| && WithinMax(p, |s|) && AllIn(s, p.cls) {
      assert s[..|s|] == s;
      assert TakesRun(p, s, |s|) && Matches([p][1..], s[|s|..]);
    }
    if Matches([p], s) {
      var k: nat :| k <= |s| && TakesRun(p, s, k) && Matches([p][1..], s[k..]);
      assert Matches([], s[k..]);
      assert |s[k..]| == 0;
      assert s[..k] == s;
    }
  }

  /** A prefix of exactly-once pieces fixes the first characters one by one. */
  lemma {:induction false} MatchesFixedPrefix(pre: seq<Piece>, rest: seq<Piece>, s: string)
    requires forall i :: 0 <= i < |pre| ==> pre[i].min == 1 && pre[i].max == Some(1)
    ensures Matches(pre + rest, s) <==>
      && |pre| <= |s|
      && (forall i :: 0 <= i < |pre| ==> InClass(s[i], pre[i].cls))
      && Matches(rest, s[|pre|..])
    decreases |pre|
  {
    if |pre| == 0 {
      assert pre + rest == rest;
      assert s[0..] == s;
    } else {
      MatchesOne(pre + rest, s);
      assert (pre + rest)[1..] == pre[1..] + rest;
      if |s| >= 1 {
        MatchesFixedPrefix(pre[1..], rest, s[1..]);
        if |pre| <= |s| {
          assert s[1..][|pre| - 1..] == s[|pre|..];
        }
      }
    }
  }
}
