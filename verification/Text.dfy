/** The handful of Go string operations the modelled code relies on.
    Strings are sequences of characters; case mapping is the ASCII one. */
module Text {

  /** unicode.IsSpace: the characters strings.TrimSpace removes. */
  predicate IsSpace(c: char) {
    '\t' <= c <= '\r' || c == ' ' || c == '\U{85}' || c == '\U{a0}' || c == '\U{1680}' ||
    '\U{2000}' <= c <= '\U{200a}' ||
    c == '\U{2028}' || c == '\U{2029}' || c == '\U{202f}' || c == '\U{205f}' || c == '\U{3000}'
  }

  function TrimLeft(s: string): string {
    if |s| > 0 && IsSpace(s[0]) then TrimLeft(s[1..]) else s
  }

  function TrimRight(s: string): string {
    if |s| > 0 && IsSpace(s[|s| - 1]) then TrimRight(s[..|s| - 1]) else s
  }

  function TrimSpace(s: string): string {
    TrimRight(TrimLeft(s))
  }

  /** strings.TrimRight(s, "."). */
  function TrimDots(s: string): string {
    if |s| > 0 && s[|s| - 1] == '.' then TrimDots(s[..|s| - 1]) else s
  }

  function LowerChar(c: char): char {
    if 'A' <= c <= 'Z' then (c as int + 32) as char else c
  }

  function UpperChar(c: char): char {
    if 'a' <= c <= 'z' then (c as int - 32) as char else c
  }

  function Lower(s: string): string {
    seq(|s|, i requires 0 <= i < |s| => LowerChar(s[i]))
  }

  function Upper(s: string): string {
    seq(|s|, i requires 0 <= i < |s| => UpperChar(s[i]))
  }

  /** strings.Split for a separator of one character. */
  function Split(s: string, sep: char): (ls: seq<string>)
    ensures |ls| > 0
  {
    if s == "" then [""]
    else
      var ls := Split(s[1..], sep);
      if s[0] == sep then [""] + ls else [[s[0]] + ls[0]] + ls[1..]
  }

  predicate HasPrefix(s: string, p: string) {
    |p| <= |s| && s[..|p|] == p
  }

  predicate HasSuffix(s: string, p: string) {
    |p| <= |s| && s[|s| - |p|..] == p
  }

  /** Go's `<` on strings. Byte order of UTF-8 text is the order of its code points. */
  predicate Less(a: string, b: string) {
    |b| > 0 && (|a| == 0 || a[0] < b[0] || (a[0] == b[0] && Less(a[1..], b[1..])))
  }

  function DigitChar(d: nat): char
    requires d < 10
  {
    ('0' as int + d) as char
  }

  /** fmt's %d for a non-negative number. */
  function Decimal(n: nat): string {
    if n < 10 then [DigitChar(n)] else Decimal(n / 10) + [DigitChar(n % 10)]
  }

  // ---- The order on strings is a strict total order ----

  lemma LessIrreflexive(a: string)
    ensures !Less(a, a)
  {
  }

  lemma {:induction false} LessTransitive(a: string, b: string, c: string)
    requires Less(a, b) && Less(b, c)
    ensures Less(a, c)
  {
    if |a| > 0 && a[0] == b[0] && b[0] == c[0] {
      LessTransitive(a[1..], b[1..], c[1..]);
    }
  }

  lemma {:induction false} LessTotal(a: string, b: string)
    ensures Less(a, b) || a == b || Less(b, a)
  {
    if |a| > 0 && |b| > 0 && a[0] == b[0] {
      LessTotal(a[1..], b[1..]);
      assert a == [a[0]] + a[1..] && b == [b[0]] + b[1..];
    }
  }

  /** `a` and `b` agree up to position `k`, where `a` has ended or has the smaller character. */
  predicate PartsAt(a: string, b: string, k: nat) {
    k < |b| && k <= |a| && a[..k] == b[..k] && (k == |a| || a[k] < b[k])
  }

  /** The order is the dictionary's: what counts is the first position where two strings part. */
  lemma {:induction false} LessIff(a: string, b: string)
    ensures Less(a, b) <==> exists k: nat :: PartsAt(a, b, k)
  {
    if a != "" && b != "" && a[0] == b[0] {
      LessIff(a[1..], b[1..]);
      assert a == [a[0]] + a[1..] && b == [b[0]] + b[1..];
      if k: nat :| PartsAt(a[1..], b[1..], k) {
        assert a[..k + 1] == [a[0]] + a[1..][..k] && b[..k + 1] == [b[0]] + b[1..][..k];
        assert PartsAt(a, b, k + 1);
      }
      if k: nat :| PartsAt(a, b, k) {
        assert k > 0 && a[1..][..k - 1] == a[..k][1..] && b[1..][..k - 1] == b[..k][1..];
        assert PartsAt(a[1..], b[1..], k - 1);
      }
    } else if b != "" && (a == "" || a[0] < b[0]) {
      assert PartsAt(a, b, 0);
    } else {
      forall k: nat ensures !PartsAt(a, b, k) {
        assert k > 0 && k < |b| && k <= |a| ==> a[..k][0] == a[0] && b[..k][0] == b[0];
      }
    }
  }

  // ---- Trimming and case ----

  lemma {:induction false} TrimLeftShape(s: string)
    ensures |TrimLeft(s)| <= |s| && TrimLeft(s) == s[|s| - |TrimLeft(s)|..]
    ensures TrimLeft(s) != "" ==> !IsSpace(TrimLeft(s)[0])
    ensures forall i :: 0 <= i < |s| - |TrimLeft(s)| ==> IsSpace(s[i])
  {
    if |s| > 0 && IsSpace(s[0]) {
      TrimLeftShape(s[1..]);
      forall i | 0 <= i < |s| - |TrimLeft(s)| ensures IsSpace(s[i]) {
        if i > 0 { assert s[i] == s[1..][i - 1]; }
      }
    }
  }

  lemma {:induction false} TrimRightShape(s: string)
    ensures |TrimRight(s)| <= |s| && TrimRight(s) == s[..|TrimRight(s)|]
    ensures TrimRight(s) != "" ==> !IsSpace(TrimRight(s)[|TrimRight(s)| - 1])
    ensures forall i :: |TrimRight(s)| <= i < |s| ==> IsSpace(s[i])
  {
    if |s| > 0 && IsSpace(s[|s| - 1]) {
      TrimRightShape(s[..|s| - 1]);
    }
  }

  /** What TrimSpace leaves is a contiguous piece of its input that neither starts nor ends in space. */
  lemma TrimSpaceShape(s: string) returns (lo: nat, hi: nat)
    ensures lo <= hi <= |s| && TrimSpace(s) == s[lo..hi]
    ensures lo < hi ==> !IsSpace(s[lo]) && !IsSpace(s[hi - 1])
    ensures forall i :: 0 <= i < lo || hi <= i < |s| ==> IsSpace(s[i])
  {
    var left := TrimLeft(s);
    TrimLeftShape(s);
    TrimRightShape(left);
    lo := |s| - |left|;
    hi := lo + |TrimRight(left)|;
    forall i | hi <= i < |s| ensures IsSpace(s[i]) {
      assert s[i] == left[i - lo];
    }
  }

  /** A string with no space at either end is left alone. */
  lemma TrimSpaceFixed(s: string)
    requires s == "" || (!IsSpace(s[0]) && !IsSpace(s[|s| - 1]))
    ensures TrimSpace(s) == s
  {
  }

  lemma CaseKeepsSpaces(c: char)
    ensures IsSpace(UpperChar(c)) == IsSpace(c) && IsSpace(LowerChar(c)) == IsSpace(c)
  {
  }

  /** Trimming then upper-casing a second time changes nothing. */
  lemma NormTypeIdempotent(t: string)
    ensures Upper(TrimSpace(Upper(TrimSpace(t)))) == Upper(TrimSpace(t))
  {
    var lo, hi := TrimSpaceShape(t);
    var u := Upper(TrimSpace(t));
    if u != "" {
      CaseKeepsSpaces(t[lo]);
      CaseKeepsSpaces(t[hi - 1]);
    }
    TrimSpaceFixed(u);
  }

  lemma TrimSpaceTwice(s: string)
    ensures TrimSpace(TrimSpace(s)) == TrimSpace(s)
  {
    var lo, hi := TrimSpaceShape(s);
    TrimSpaceFixed(TrimSpace(s));
  }

  lemma {:induction false} TrimDotsShape(s: string)
    ensures |TrimDots(s)| <= |s| && TrimDots(s) == s[..|TrimDots(s)|]
    ensures TrimDots(s) != "" ==> TrimDots(s)[|TrimDots(s)| - 1] != '.'
    ensures forall i :: |TrimDots(s)| <= i < |s| ==> s[i] == '.'
  {
    if |s| > 0 && s[|s| - 1] == '.' {
      TrimDotsShape(s[..|s| - 1]);
    }
  }

  // ---- What folding case identifies ----

  /** The same character, or the two cases of one letter of the English alphabet. */
  predicate SameLetter(a: char, b: char) {
    a == b || exists k :: 0 <= k < 26 && CasesOf(a, b, k)
  }

  predicate CasesOf(a: char, b: char, k: nat) {
    (a as int == 65 + k && b as int == 97 + k) || (a as int == 97 + k && b as int == 65 + k)
  }

  /** Equal but for the case of letters. */
  predicate SameText(a: string, b: string) {
    |a| == |b| && forall i :: 0 <= i < |a| ==> SameLetter(a[i], b[i])
  }

  lemma SameLetterIff(a: char, b: char)
    ensures LowerChar(a) == LowerChar(b) <==> SameLetter(a, b)
    ensures UpperChar(a) == UpperChar(b) <==> SameLetter(a, b)
  {
    if 'A' <= a <= 'Z' && b as int == a as int + 32 {
      assert CasesOf(a, b, a as int - 65);
    }
    if 'A' <= b <= 'Z' && a as int == b as int + 32 {
      assert CasesOf(a, b, b as int - 65);
    }
  }

  /** Lower-casing identifies exactly the texts that differ in case only, and leaves no capital. */
  lemma LowerIff(a: string, b: string)
    ensures Lower(a) == Lower(b) <==> SameText(a, b)
    ensures SameText(Lower(a), a) && forall i :: 0 <= i < |a| ==> !('A' <= Lower(a)[i] <= 'Z')
  {
    forall i | 0 <= i < |a| && i < |b| ensures LowerChar(a[i]) == LowerChar(b[i]) <==> SameLetter(a[i], b[i]) {
      SameLetterIff(a[i], b[i]);
    }
    if Lower(a) == Lower(b) {
      assert |a| == |b|;
      assert forall i :: 0 <= i < |a| ==> Lower(a)[i] == LowerChar(a[i]) && Lower(b)[i] == LowerChar(b[i]);
    }
    forall i | 0 <= i < |a| ensures SameLetter(Lower(a)[i], a[i]) {
      SameLetterIff(LowerChar(a[i]), a[i]);
    }
  }

  /** Upper-casing likewise, and leaves no small letter. */
  lemma UpperIff(a: string, b: string)
    ensures Upper(a) == Upper(b) <==> SameText(a, b)
    ensures SameText(Upper(a), a) && forall i :: 0 <= i < |a| ==> !('a' <= Upper(a)[i] <= 'z')
  {
    forall i | 0 <= i < |a| && i < |b| ensures UpperChar(a[i]) == UpperChar(b[i]) <==> SameLetter(a[i], b[i]) {
      SameLetterIff(a[i], b[i]);
    }
    if Upper(a) == Upper(b) {
      assert |a| == |b|;
      assert forall i :: 0 <= i < |a| ==> Upper(a)[i] == UpperChar(a[i]) && Upper(b)[i] == UpperChar(b[i]);
    }
    forall i | 0 <= i < |a| ensures SameLetter(Upper(a)[i], a[i]) {
      SameLetterIff(UpperChar(a[i]), a[i]);
    }
  }

  // ---- Decimal text ----

  /** The number that a string of decimal digits denotes. */
  function Denotes(d: string): int {
    if d == "" then 0 else Denotes(d[..|d| - 1]) * 10 + (d[|d| - 1] as int - 48)
  }

  /** Decimal digits without a superfluous leading zero. */
  predicate IsNumeral(d: string) {
    d != "" && (d[0] == '0' ==> |d| == 1) && forall i :: 0 <= i < |d| ==> '0' <= d[i] <= '9'
  }

  /** `d` is how the number `n` is written. */
  predicate Writes(d: string, n: nat) {
    IsNumeral(d) && Denotes(d) == n
  }

  lemma {:induction false} DecimalWrites(n: nat)
    ensures Writes(Decimal(n), n)
    ensures n > 0 ==> Decimal(n)[0] != '0'
  {
    if n >= 10 {
      var q, c := Decimal(n / 10), DigitChar(n % 10);
      DecimalWrites(n / 10);
      assert Decimal(n)[..|q|] == q && Decimal(n)[|q|] == c;
      assert Decimal(n)[0] == q[0];
    } else {
      assert Decimal(n)[..0] == "";
    }
  }
}
