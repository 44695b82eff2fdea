/** String primitives the form code relies on: JavaScript's `\d`, `\s` and
    `[A-Za-z0-9]` classes, `trim`, `includes` and ASCII case mapping. */
module Text {

  predicate IsDigit(c: char) {
    '0' <= c <= '9'
  }

  predicate IsUpper(c: char) {
    'A' <= c <= 'Z'
  }

  predicate IsLower(c: char) {
    'a' <= c <= 'z'
  }

  predicate IsLetter(c: char) {
    IsUpper(c) || IsLower(c)
  }

  predicate IsAlnum(c: char) {
    IsLetter(c) || IsDigit(c)
  }

  /** JavaScript's `\s`, which is also exactly what `String.prototype.trim`
      strips: white space and line terminators. */
  predicate IsSpace(c: char) {
    || c == '\t' || c == '\n' || c == '\U{000B}' || c == '\U{000C}' || c == '\r' || c == ' '
    || c == '\U{00A0}' || c == '\U{1680}' || ('\U{2000}' <= c <= '\U{200A}')
    || c == '\U{2028}' || c == '\U{2029}' || c == '\U{202F}' || c == '\U{205F}'
    || c == '\U{3000}' || c == '\U{FEFF}'
  }

  /** ASCII upper-casing of one character; every other character is kept. */
  function UpperChar(c: char): (r: char)
    ensures IsLower(c) ==> IsUpper(r) && r as int == c as int - 32
    ensures !IsLower(c) ==> r == c
  {
    if IsLower(c) then (c as int - 32) as char else c
  }

  /** ASCII lower-casing of one character; every other character is kept. */
  function LowerChar(c: char): (r: char)
    ensures IsUpper(c) ==> IsLower(r) && r as int == c as int + 32
    ensures !IsUpper(c) ==> r == c
  {
    if IsUpper(c) then (c as int + 32) as char else c
  }

  function ToUpper(s: string): (r: string)
    ensures |r| == |s|
    ensures forall i :: 0 <= i < |s| ==> r[i] == UpperChar(s[i])
  {
    seq(|s|, i requires 0 <= i < |s| => UpperChar(s[i]))
  }

  function ToLower(s: string): (r: string)
    ensures |r| == |s|
    ensures forall i :: 0 <= i < |s| ==> r[i] == LowerChar(s[i])
  {
    seq(|s|, i requires 0 <= i < |s| => LowerChar(s[i]))
  }

  /** Every character of `s` is an ASCII digit, JavaScript's `\d`. */
  predicate AllDigits(s: string) {
    forall i :: 0 <= i < |s| ==> IsDigit(s[i])
  }

  /** `s.replace(/\D/g, '')`: the digits of `s`, in order. */
  function Digits(s: string): (r: string)
    ensures AllDigits(r)
    ensures |r| <= |s|
  {
    if |s| == 0 then ""
    else (if IsDigit(s[0]) then [s[0]] else "") + Digits(s[1..])
  }

  /** `s.replace(/[^A-Za-z0-9]/g, '')`: the ASCII letters and digits of `s`, in order. */
  function Alnums(s: string): (r: string)
    ensures forall i :: 0 <= i < |r| ==> IsAlnum(r[i])
    ensures |r| <= |s|
  {
    if |s| == 0 then ""
    else (if IsAlnum(s[0]) then [s[0]] else "") + Alnums(s[1..])
  }

  lemma {:induction false} DigitsAppend(a: string, b: string)
    ensures Digits(a + b) == Digits(a) + Digits(b)
  {
    if |a| == 0 {
      assert a + b == b;
    } else {
      assert (a + b)[1..] == a[1..] + b;
      DigitsAppend(a[1..], b);
    }
  }

  lemma {:induction false} AlnumsAppend(a: string, b: string)
    ensures Alnums(a + b) == Alnums(a) + Alnums(b)
  {
    if |a| == 0 {
      assert a + b == b;
    } else {
      assert (a + b)[1..] == a[1..] + b;
      AlnumsAppend(a[1..], b);
    }
  }

  /** A string of digits is its own digit string. */
  lemma {:induction false} DigitsOfDigits(s: string)
    requires AllDigits(s)
    ensures Digits(s) == s
  {
    if |s| > 0 {
      DigitsOfDigits(s[1..]);
    }
  }

  /** Filtering letters and digits commutes with ASCII upper-casing. */
  lemma {:induction false} AlnumsToUpper(s: string)
    ensures Alnums(ToUpper(s)) == ToUpper(Alnums(s))
  {
    if |s| > 0 {
      assert ToUpper(s)[1..] == ToUpper(s[1..]);
      AlnumsToUpper(s[1..]);
      if IsAlnum(s[0]) {
        assert ToUpper(Alnums(s)) == [UpperChar(s[0])] + ToUpper(Alnums(s[1..]));
      }
    }
  }

  /** A string of letters and digits is its own filter. */
  lemma {:induction false} AlnumsOfAlnums(s: string)
    requires forall i :: 0 <= i < |s| ==> IsAlnum(s[i])
    ensures Alnums(s) == s
  {
    if |s| > 0 {
      AlnumsOfAlnums(s[1..]);
    }
  }

  /** Two runs of letters and digits around one other character: the filter
      drops exactly that character. */
  lemma AlnumsAround(a: string, sep: char, b: string, whole: string)
    requires forall i :: 0 <= i < |a| ==> IsAlnum(a[i])
    requires forall i :: 0 <= i < |b| ==> IsAlnum(b[i])
    requires !IsAlnum(sep) && whole == a + [sep] + b
    ensures Alnums(whole) == a + b
  {
    AlnumsAppend(a + [sep], b);
    AlnumsDropOne(a, sep);
    AlnumsOfAlnums(a);
    AlnumsOfAlnums(b);
  }

  /** Two runs of letters and digits pass the filter unchanged. */
  lemma AlnumsJoin(a: string, b: string, whole: string)
    requires forall i :: 0 <= i < |a| ==> IsAlnum(a[i])
    requires forall i :: 0 <= i < |b| ==> IsAlnum(b[i])
    requires whole == a + b
    ensures Alnums(whole) == a + b
  {
    AlnumsAppend(a, b);
    AlnumsOfAlnums(a);
    AlnumsOfAlnums(b);
  }

  /** A character that is neither letter nor digit is filtered out. */
  lemma AlnumsDropOne(a: string, sep: char)
    requires !IsAlnum(sep)
    ensures Alnums(a + [sep]) == Alnums(a)
  {
    AlnumsAppend(a, [sep]);
    assert [sep][1..] == "";
    assert Alnums([sep]) == "";
    assert Alnums(a) + "" == Alnums(a);
  }

  /** A character that is not a digit is filtered out. */
  lemma DigitsDropOne(a: string, c: char)
    requires !IsDigit(c)
    ensures Digits(a + [c]) == Digits(a)
  {
    DigitsAppend(a, [c]);
    assert [c][1..] == "";
    assert Digits([c]) == "";
    assert Digits(a) + "" == Digits(a);
  }

  /** Upper-casing is idempotent, and lower-casing ignores a prior upper-casing. */
  lemma CaseMappingFacts(s: string)
    ensures ToUpper(ToUpper(s)) == ToUpper(s)
    ensures ToLower(ToUpper(s)) == ToLower(s)
  {
  }

  /** Slices of slices are slices. */
  lemma SliceOfSlice(s: string, a: nat, b: nat)
    requires a + b <= |s|
    ensures s[a..][b..] == s[a + b..]
    ensures s[a..][..b] == s[a..a + b]
  {
  }

  /** `sub` occurs in `s` starting at index `i`. */
  predicate OccursAt(s: string, sub: string, i: int) {
    0 <= i <= |s| - |sub| && s[i..i + |sub|] == sub
  }

  /** `s.includes(sub)`. */
  predicate Contains(s: string, sub: string) {
    exists i :: 0 <= i <= |s| - |sub| && OccursAt(s, sub, i)
  }

  /** Index of the first character at or after `i` that is not white space
      (`|s|` when there is none). */
  function SkipSpaceFrom(s: string, i: nat): (n: nat)
    requires i <= |s|
    ensures i <= n <= |s|
    ensures forall k :: i <= k < n ==> IsSpace(s[k])
    ensures n < |s| ==> !IsSpace(s[n])
    decreases |s| - i
  {
    if i < |s| && IsSpace(s[i]) then SkipSpaceFrom(s, i + 1) else i
  }

  /** One past the last character before `j`, and at or after `lo`, that is
      not white space (`lo` when there is none). */
  function SkipSpaceBack(s: string, lo: nat, j: nat): (m: nat)
    requires lo <= j <= |s|
    ensures lo <= m <= j
    ensures forall k :: m <= k < j ==> IsSpace(s[k])
    ensures m > lo ==> !IsSpace(s[m - 1])
    decreases j
  {
    if j > lo && IsSpace(s[j - 1]) then SkipSpaceBack(s, lo, j - 1) else j
  }

  /** Where the trimmed text starts: after the leading white space. */
  function TrimFrom(s: string): (n: nat)
    ensures n <= |s|
  {
    SkipSpaceFrom(s, 0)
  }

  /** Where the trimmed text ends: before the trailing white space. */
  function TrimTo(s: string): (n: nat)
    ensures TrimFrom(s) <= n <= |s|
  {
    SkipSpaceBack(s, TrimFrom(s), |s|)
  }

  /** `s.trim()`: `s` without its leading and trailing white space. */
  function Trim(s: string): string {
    s[TrimFrom(s)..TrimTo(s)]
  }

  /** `Trim` drops only white space, around a slice that neither starts nor
      ends with white space. */
  lemma TrimSlice(s: string)
    ensures forall k :: 0 <= k < TrimFrom(s) ==> IsSpace(s[k])
    ensures forall k :: TrimTo(s) <= k < |s| ==> IsSpace(s[k])
    ensures |Trim(s)| > 0 ==> !IsSpace(Trim(s)[0]) && !IsSpace(Trim(s)[|Trim(s)| - 1])
  {
  }

  /** A string that neither starts nor ends with white space is already trimmed. */
  lemma TrimUnpadded(s: string)
    requires |s| > 0 && !IsSpace(s[0]) && !IsSpace(s[|s| - 1])
    ensures Trim(s) == s
  {
    assert TrimFrom(s) == 0;
    assert TrimTo(s) == |s|;
  }

  /** A string is blank after trimming exactly when it is all white space. */
  lemma TrimBlank(s: string)
    ensures Trim(s) == "" <==> forall k :: 0 <= k < |s| ==> IsSpace(s[k])
  {
    TrimSlice(s);
    if Trim(s) == "" {
      assert TrimFrom(s) == TrimTo(s);
    } else {
      assert Trim(s)[0] == s[TrimFrom(s)];
    }
  }

  /** Trimming twice is trimming once. */
  lemma TrimIdempotent(s: string)
    ensures Trim(Trim(s)) == Trim(s)
  {
    var t := Trim(s);
    TrimSlice(s);
    if |t| > 0 {
      TrimUnpadded(t);
    } else {
      assert t == "";
    }
  }
}
