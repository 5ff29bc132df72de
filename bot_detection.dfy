/**
 * The bot-protection test applied to the body of an ok health-check response
 * (utils/health.ts:38-42): the first 2048 characters of the body are searched,
 * ignoring case, for four fixed phrases that anti-automation layers and rate
 * limiters put on their challenge pages.
 *
 * JavaScript strings are sequences of UTF-16 code units and `slice(0, 2048)`
 * keeps the first 2048 of them.  A Dafny `char` is a Unicode scalar value, so
 * a surrogate code unit cannot itself be a `char`; a body is modelled with
 * one `char` per code unit, each surrogate unit standing as some other
 * non-ASCII character.  That keeps the 2048-unit window and changes no
 * match, since no phrase contains a non-ASCII character.  The regular expression is an
 * alternation of four literals with the `i` flag; JavaScript canonicalises
 * characters for that flag with upper-casing but never lets a non-ASCII
 * character canonicalise to an ASCII one, and every phrase is ASCII, so ASCII
 * case folding decides exactly the same matches.
 */
module BotDetection {

  /** Number of leading characters of the body that are examined. */
  const SampleLength: nat := 2048

  /** The four challenge-page signatures of the regular expression. */
  const BotPhrases: seq<string> := [
    "Instance has been rate limited",
    "Just a moment",
    "Enable JavaScript and cookies",
    "Checking your browser"
  ]

  /** ASCII lower-casing; every other character is left as it is. */
  function LowerAscii(c: char): (d: char)
    ensures 'A' <= c <= 'Z' ==> 'a' <= d <= 'z'
    ensures !('A' <= c <= 'Z') ==> d == c
  {
    if 'A' <= c <= 'Z' then (c as int + 32) as char else c
  }

  /** Case-insensitive equality of two characters. */
  predicate SameIgnoringCase(c: char, d: char) {
    LowerAscii(c) == LowerAscii(d)
  }

  /** The whole text, lower-cased character by character. */
  function LowerAll(s: string): (t: string)
    ensures |t| == |s|
    ensures forall i :: 0 <= i < |s| ==> t[i] == LowerAscii(s[i])
  {
    seq(|s|, i requires 0 <= i < |s| => LowerAscii(s[i]))
  }

  /** `pat` occurs in `text` at position `k`, ignoring case. */
  predicate MatchesAt(text: string, pat: string, k: nat) {
    k + |pat| <= |text| &&
    forall j :: 0 <= j < |pat| ==> SameIgnoringCase(text[k + j], pat[j])
  }

  /** Left-to-right search for `pat` from position `i` onwards. */
  function SearchFrom(text: string, pat: string, i: nat): (found: bool)
    decreases |text| - i
    ensures found <==> exists k: nat :: i <= k && MatchesAt(text, pat, k)
  {
    if i + |pat| > |text| then false
    else MatchesAt(text, pat, i) || SearchFrom(text, pat, i + 1)
  }

  /** `pat` occurs somewhere in `text`, ignoring case. */
  predicate Contains(text: string, pat: string) {
    SearchFrom(text, pat, 0)
  }

  /** Some phrase of `phrases` occurs in `text` (an alternation of literals). */
  function ContainsAny(text: string, phrases: seq<string>): (found: bool)
    ensures found <==> exists n :: 0 <= n < |phrases| && Contains(text, phrases[n])
  {
    if |phrases| == 0 then false
    else ContainsAny(text, phrases[..|phrases| - 1]) || Contains(text, phrases[|phrases| - 1])
  }

  /** The characters actually examined: `body.slice(0, 2048)`. */
  function Sample(body: string): (s: string)
    ensures |s| == if |body| < SampleLength then |body| else SampleLength
    ensures s <= body
  {
    if |body| <= SampleLength then body else body[..SampleLength]
  }

  /** `pat` occurs in `body` at a position where it ends inside the window. */
  ghost predicate OccursInWindow(body: string, pat: string) {
    exists k: nat :: k + |pat| <= SampleLength && MatchesAt(body, pat, k)
  }

  /** An occurrence in the sample is exactly an occurrence in the body that
      lies wholly within the first 2048 characters. */
  lemma SampleMatch(body: string, pat: string, k: nat)
    ensures MatchesAt(Sample(body), pat, k) <==> k + |pat| <= SampleLength && MatchesAt(body, pat, k)
  {
  }

  /** The verdict of the pattern test on an ok response body: true when no
      signature occurs, ignoring case, wholly within the first 2048
      characters.  A phrase that starts at or after index 2048, or that runs
      past it, plays no part. */
  function BodyLooksHealthy(body: string): (healthy: bool)
    ensures healthy <==> forall n :: 0 <= n < |BotPhrases| ==> !OccursInWindow(body, BotPhrases[n])
  {
    SampleWindow(body);
    !ContainsAny(Sample(body), BotPhrases)
  }

  /** Searching the sample is searching the window of the body. */
  lemma SampleWindow(body: string)
    ensures forall pat :: Contains(Sample(body), pat) <==> OccursInWindow(body, pat)
  {
    forall pat, k: nat
      ensures MatchesAt(Sample(body), pat, k) <==> k + |pat| <= SampleLength && MatchesAt(body, pat, k)
    {
      SampleMatch(body, pat, k);
    }
  }

  /** Case blindness: two bodies that agree up to ASCII case get the same
      verdict. */
  lemma CaseBlind(body1: string, body2: string)
    requires LowerAll(body1) == LowerAll(body2)
    ensures BodyLooksHealthy(body1) == BodyLooksHealthy(body2)
  {
  }

  /** Text after the first 2048 characters never changes the verdict. */
  lemma TailIgnored(body: string, tail: string)
    requires |body| >= SampleLength
    ensures BodyLooksHealthy(body + tail) == BodyLooksHealthy(body)
  {
  }

  /** Any body that begins with "JUST A MOMENT", in capitals, is rejected. */
  lemma ChallengePageRejected(rest: string)
    ensures !BodyLooksHealthy("JUST A MOMENT" + rest)
  {
    var page, pat := "JUST A MOMENT" + rest, BotPhrases[1];
    assert MatchesAt(page, pat, 0) by {
      forall j | 0 <= j < |pat| ensures SameIgnoringCase(page[j], pat[j]) {
      }
    }
    assert OccursInWindow(page, pat);
  }

  /** A signature that begins at index 2048, after a clean window, is not
      seen, whatever follows it. */
  lemma LateSignatureIgnored(prefix: string, n: nat, tail: string)
    requires |prefix| == SampleLength && n < |BotPhrases|
    requires forall m :: 0 <= m < |BotPhrases| ==> !Contains(prefix, BotPhrases[m])
    ensures BodyLooksHealthy(prefix + BotPhrases[n] + tail)
  {
    assert Sample(prefix + BotPhrases[n] + tail) == prefix;
  }

  /** An application-level error page is not mistaken for a challenge. */
  lemma NotFoundPageAccepted()
    ensures BodyLooksHealthy("Tweet not found")
  {
    var page := "Tweet not found";
    assert Sample(page) == page;
    forall n, k: nat | 0 <= n < |BotPhrases| ensures !MatchesAt(page, BotPhrases[n], k) {
      if k + |BotPhrases[n]| <= |page| {
        // only "Just a moment" is short enough, and no early letter is a 'j'
        assert n == 1 && k <= 2;
        assert !SameIgnoringCase(page[k], BotPhrases[n][0]);
      }
    }
  }
}
