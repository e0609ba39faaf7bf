/**
 Versions and release tags (`_version`, scripts/publish_verified_release.py, lines
 128-131): three decimal numbers, compared as Python compares tuples.
 */
module Versions {
  import opened Common

  type Version = (nat, nat, nat)

  predicate Newer(a: Version, b: Version) {
    a.0 > b.0 || (a.0 == b.0 && (a.1 > b.1 || (a.1 == b.1 && a.2 > b.2)))
  }

  predicate IsDigit(c: char) {
    '0' <= c <= '9'
  }

  function ParseNat(s: string): Option<nat> {
    if s == "" || !IsDigit(s[|s| - 1]) then None
    else
      var digit := s[|s| - 1] as int - '0' as int;
      if |s| == 1 then Some(digit)
      else match ParseNat(s[..|s| - 1])
        case None => None
        case Some(high) => Some(10 * high + digit)
  }

  /** The text before the first dot, and the text after it, if there is one. */
  function SplitDot(s: string): (string, Option<string>) {
    if s == "" then ("", None)
    else if s[0] == '.' then ("", Some(s[1..]))
    else var (head, tail) := SplitDot(s[1..]); ([s[0]] + head, tail)
  }

  function ParseSemver(s: string): Option<Version> {
    var (major, rest) := SplitDot(s);
    if rest.None? then None
    else
      var (minor, last) := SplitDot(rest.value);
      if last.None? then None
      else match (ParseNat(major), ParseNat(minor), ParseNat(last.value))
        case (Some(a), Some(b), Some(c)) => Some((a, b, c))
        case _ => None
  }

  /** `_version`. */
  function TagVersion(tag: string): Option<Version> {
    if tag == "" || tag[0] != 'v' then None else ParseSemver(tag[1..])
  }

  /** Both tags carry versions, and the first is not newer. */
  predicate NotNewer(tag: string, other: string) {
    TagVersion(tag).Some? && TagVersion(other).Some? && !Newer(TagVersion(tag).value, TagVersion(other).value)
  }

  // ---------- the order ----------

  /** A strict total order. */
  lemma NewerIsTotalOrder(a: Version, b: Version, c: Version)
    ensures !Newer(a, a)
    ensures Newer(a, b) && Newer(b, c) ==> Newer(a, c)
    ensures a != b ==> (Newer(a, b) <==> !Newer(b, a))
  {}

  /** A larger number outranks any change of the later ones. */
  lemma EarlierNumberDecides(a: nat, b: nat, c: nat, d: nat, e: nat)
    ensures Newer((a + 1, b, c), (a, d, e))
    ensures Newer((a, b + 1, c), (a, b, d))
    ensures Newer((a, b, c + 1), (a, b, c))
  {}

  // ---------- reading and printing ----------

  function Digit(n: nat): char
    requires n < 10
  {
    (n + '0' as int) as char
  }

  /** Decimal notation. */
  function Dec(n: nat): (s: string)
    ensures s != "" && forall i :: 0 <= i < |s| ==> IsDigit(s[i])
  {
    if n < 10 then [Digit(n)] else Dec(n / 10) + [Digit(n % 10)]
  }

  function PrintVersion(v: Version): string {
    Dec(v.0) + "." + Dec(v.1) + "." + Dec(v.2)
  }

  lemma {:induction false} ParseNatUndoesDec(n: nat)
    ensures ParseNat(Dec(n)) == Some(n)
  {
    if n >= 10 {
      ParseNatUndoesDec(n / 10);
      assert Dec(n)[..|Dec(n)| - 1] == Dec(n / 10);
    }
  }

  /** Exactly the non-empty strings of digits are numbers. */
  lemma {:induction false} NumbersAreDigits(s: string)
    ensures ParseNat(s).Some? <==> s != "" && forall i :: 0 <= i < |s| ==> IsDigit(s[i])
  {
    if |s| > 1 {
      var init := s[..|s| - 1];
      NumbersAreDigits(init);
      assert forall i :: 0 <= i < |init| ==> init[i] == s[i];
    }
  }

  lemma {:induction false} SplitAtDot(head: string, tail: string)
    requires '.' !in head
    ensures SplitDot(head) == (head, None)
    ensures SplitDot(head + "." + tail) == (head, Some(tail))
  {
    if head == "" {
      assert head + "." + tail == "." + tail;
      assert ("." + tail)[1..] == tail;
    } else {
      SplitAtDot(head[1..], tail);
      assert (head + "." + tail)[1..] == head[1..] + "." + tail;
      assert [head[0]] + head[1..] == head;
    }
  }

  lemma {:induction false} DotSplits(s: string)
    ensures '.' !in SplitDot(s).0
    ensures s == SplitDot(s).0 + (if SplitDot(s).1.Some? then "." + SplitDot(s).1.value else "")
  {
    if s != "" && s[0] != '.' {
      DotSplits(s[1..]);
      assert s == [s[0]] + s[1..];
    }
  }

  predicate IsNumber(s: string) {
    s != "" && forall i :: 0 <= i < |s| ==> IsDigit(s[i])
  }

  /** A text is a version exactly when it is three numbers with dots between them, and then the version is those numbers. */
  lemma SemverIsThreeNumbers(s: string, v: Version)
    ensures ParseSemver(s) == Some(v) <==>
      exists a, b, c :: IsNumber(a) && IsNumber(b) && IsNumber(c) && s == a + "." + b + "." + c
                        && ParseNat(a) == Some(v.0) && ParseNat(b) == Some(v.1) && ParseNat(c) == Some(v.2)
  {
    if ParseSemver(s) == Some(v) {
      var (a, rest) := SplitDot(s);
      var (b, last) := SplitDot(rest.value);
      DotSplits(s);
      DotSplits(rest.value);
      NumbersAreDigits(a);
      NumbersAreDigits(b);
      NumbersAreDigits(last.value);
      assert a + ("." + (b + ("." + last.value))) == a + "." + b + "." + last.value;
    }
    forall a, b, c | IsNumber(a) && IsNumber(b) && IsNumber(c) && s == a + "." + b + "." + c
                     && ParseNat(a) == Some(v.0) && ParseNat(b) == Some(v.1) && ParseNat(c) == Some(v.2)
      ensures ParseSemver(s) == Some(v)
    {
      assert a + "." + b + "." + c == a + "." + (b + "." + c);
      SplitAtDot(a, b + "." + c);
      SplitAtDot(b, c);
    }
  }

  /** Reading a tag undoes printing it. */
  lemma TagVersionUndoesPrinting(v: Version)
    ensures TagVersion("v" + PrintVersion(v)) == Some(v)
  {
    ParseNatUndoesDec(v.0);
    ParseNatUndoesDec(v.1);
    ParseNatUndoesDec(v.2);
    var s := PrintVersion(v);
    assert IsNumber(Dec(v.0)) && IsNumber(Dec(v.1)) && IsNumber(Dec(v.2));
    SemverIsThreeNumbers(s, v);
    assert ("v" + s)[1..] == s;
  }

  /** Two printed tags compare as their numbers do. */
  lemma TagsCompareByNumbers(v: Version, w: Version)
    ensures NotNewer("v" + PrintVersion(v), "v" + PrintVersion(w)) <==>
      v.0 < w.0 || (v.0 == w.0 && (v.1 < w.1 || (v.1 == w.1 && v.2 <= w.2)))
  {
    TagVersionUndoesPrinting(v);
    TagVersionUndoesPrinting(w);
  }

  /** Any two tags. */
  lemma NotNewerByNumbers(tag: string, other: string)
    ensures NotNewer(tag, other) <==>
      && TagVersion(tag).Some? && TagVersion(other).Some?
      && var v, w := TagVersion(tag).value, TagVersion(other).value;
         v.0 < w.0 || (v.0 == w.0 && (v.1 < w.1 || (v.1 == w.1 && v.2 <= w.2)))
  {}
}
