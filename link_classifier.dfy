/**
 * The link classifier: a URL is a media link when the case-insensitive pattern
 * v\.redd\.it|i\.redd\.it|redgifs\.com|imgur\.com|gfycat\.com|\.mp4|\.mkv|\.gif|\.jpg|\.jpeg|\.png
 * matches anywhere in it.
 *
 * The classifier is written as the regular-expression test runs it (every start
 * position, every alternative, characters compared without regard to case) and
 * is proved equal to "the lower-cased URL contains one of the signatures".
 */
module LinkClassifier {

  /** The alternatives of the pattern, in the pattern's order. */
  const SIGNATURES: seq<string> :=
    ["v.redd.it", "i.redd.it", "redgifs.com", "imgur.com", "gfycat.com",
     ".mp4", ".mkv", ".gif", ".jpg", ".jpeg", ".png"]

  /** ASCII lower case. Every letter of the pattern is ASCII, and a case-insensitive
      JavaScript pattern without the u flag never matches a non-ASCII character
      against an ASCII one, so lowering ASCII letters is the whole of the /i flag here. */
  function LowerChar(c: char): char
  {
    if 'A' <= c <= 'Z' then (c as int + 32) as char else c
  }

  function Lower(s: string): (r: string)
    ensures |r| == |s|
    ensures forall k :: 0 <= k < |s| ==> r[k] == LowerChar(s[k])
  {
    seq(|s|, k requires 0 <= k < |s| => LowerChar(s[k]))
  }

  /** Lower-casing leaves no upper-case ASCII letter, moves each one to its
      lower-case partner, and keeps every other character as it is. */
  lemma LowerSpec(s: string)
    ensures |Lower(s)| == |s|
    ensures forall k :: 0 <= k < |s| ==> !('A' <= Lower(s)[k] <= 'Z')
    ensures forall k :: 0 <= k < |s| && !('A' <= s[k] <= 'Z') ==> Lower(s)[k] == s[k]
    ensures forall k :: 0 <= k < |s| && 'A' <= s[k] <= 'Z' ==> Lower(s)[k] as int == s[k] as int + 32
  {
  }

  /** sig occurs in s at position k. */
  predicate OccursAt(sig: string, s: string, k: nat)
  {
    k + |sig| <= |s| && s[k..k + |sig|] == sig
  }

  ghost predicate Occurs(sig: string, s: string)
  {
    exists k: nat :: OccursAt(sig, s, k)
  }

  /** s contains one of the signatures somewhere. */
  ghost predicate ContainsSignature(s: string)
  {
    exists j :: 0 <= j < |SIGNATURES| && Occurs(SIGNATURES[j], s)
  }

  /** The alternative alt matches url at position k from its m-th character on, ignoring case. */
  function MatchesFrom(url: string, k: nat, alt: string, m: nat): bool
    requires m <= |alt|
    decreases |alt| - m
  {
    if m == |alt| then true
    else k + m < |url| && LowerChar(url[k + m]) == alt[m] && MatchesFrom(url, k, alt, m + 1)
  }

  /** One of the alternatives SIGNATURES[j..] matches url at position k. */
  function AnyMatchesAt(url: string, k: nat, j: nat): bool
    requires j <= |SIGNATURES|
    decreases |SIGNATURES| - j
  {
    if j == |SIGNATURES| then false
    else MatchesFrom(url, k, SIGNATURES[j], 0) || AnyMatchesAt(url, k, j + 1)
  }

  /** The pattern matches url at some position at or after k. */
  function SearchFrom(url: string, k: nat): bool
    requires k <= |url|
    decreases |url| - k
  {
    AnyMatchesAt(url, k, 0) || (k < |url| && SearchFrom(url, k + 1))
  }

  /** isMediaLink: the pattern matches somewhere in the URL. */
  function IsMediaLink(url: string): bool
  {
    SearchFrom(url, 0)
  }

  /** A URL is a media link exactly when its lower-cased form contains one of
      the signatures, at any position. */
  lemma MediaLinkMeaning(url: string)
    ensures IsMediaLink(url) <==> ContainsSignature(Lower(url))
  {
    var L := Lower(url);
    SearchFromSpec(url, 0);
    if ContainsSignature(L) {
      var j :| 0 <= j < |SIGNATURES| && Occurs(SIGNATURES[j], L);
      var m: nat :| OccursAt(SIGNATURES[j], L, m);
      assert SignatureAt(L, m);
    }
    if exists m: nat :: SignatureAt(L, m) {
      var m: nat :| SignatureAt(L, m);
      var j :| 0 <= j < |SIGNATURES| && OccursAt(SIGNATURES[j], L, m);
      assert Occurs(SIGNATURES[j], L);
    }
  }

  /** The i-th character of alt is the character of s at position k + i. */
  predicate CharMatches(s: string, k: nat, alt: string, i: nat)
    requires i < |alt|
  {
    k + i < |s| && s[k + i] == alt[i]
  }

  lemma {:induction false} MatchesFromSpec(url: string, k: nat, alt: string, m: nat)
    requires m <= |alt|
    ensures MatchesFrom(url, k, alt, m) <==>
      forall i :: m <= i < |alt| ==> CharMatches(Lower(url), k, alt, i)
    decreases |alt| - m
  {
    if m < |alt| {
      MatchesFromSpec(url, k, alt, m + 1);
      assert MatchesFrom(url, k, alt, m) <==>
        CharMatches(Lower(url), k, alt, m) && MatchesFrom(url, k, alt, m + 1);
    }
  }

  lemma MatchesAtSpec(url: string, k: nat, alt: string)
    requires k <= |url|
    ensures MatchesFrom(url, k, alt, 0) <==> OccursAt(alt, Lower(url), k)
  {
    MatchesFromSpec(url, k, alt, 0);
    var L := Lower(url);
    if k + |alt| <= |url| {
      var w := L[k..k + |alt|];
      assert forall i :: 0 <= i < |alt| ==> w[i] == L[k + i];
      if forall i :: 0 <= i < |alt| ==> CharMatches(L, k, alt, i) {
        forall i | 0 <= i < |alt| ensures w[i] == alt[i] {
          assert CharMatches(L, k, alt, i);
        }
      }
      if w == alt {
        forall i | 0 <= i < |alt| ensures CharMatches(L, k, alt, i) {
          assert w[i] == L[k + i];
        }
      }
    } else if |alt| > 0 {
      assert !CharMatches(L, k, alt, |alt| - 1);
    }
  }

  lemma {:induction false} AnyMatchesAtSpec(url: string, k: nat, j: nat)
    requires k <= |url| && j <= |SIGNATURES|
    ensures AnyMatchesAt(url, k, j) <==>
      exists j' :: j <= j' < |SIGNATURES| && OccursAt(SIGNATURES[j'], Lower(url), k)
    decreases |SIGNATURES| - j
  {
    if j < |SIGNATURES| {
      MatchesAtSpec(url, k, SIGNATURES[j]);
      AnyMatchesAtSpec(url, k, j + 1);
    }
  }

  /** One of the signatures occurs in s at position m. */
  ghost predicate SignatureAt(s: string, m: nat)
  {
    exists j :: 0 <= j < |SIGNATURES| && OccursAt(SIGNATURES[j], s, m)
  }

  lemma {:induction false} SearchFromSpec(url: string, k: nat)
    requires k <= |url|
    ensures SearchFrom(url, k) <==> exists m: nat :: k <= m && SignatureAt(Lower(url), m)
    decreases |url| - k
  {
    var L := Lower(url);
    AnyMatchesAtSpec(url, k, 0);
    assert AnyMatchesAt(url, k, 0) <==> SignatureAt(L, k);
    if k < |url| {
      SearchFromSpec(url, k + 1);
      if exists m: nat :: k <= m && SignatureAt(L, m) {
        var m: nat :| k <= m && SignatureAt(L, m);
        if m > k {
          assert k + 1 <= m;
        }
      }
    } else {
      forall m: nat | k < m ensures !SignatureAt(L, m) {
      }
    }
  }

  lemma LowerIdempotent(s: string)
    ensures Lower(Lower(s)) == Lower(s)
  {
    assert forall k :: 0 <= k < |s| ==> Lower(Lower(s))[k] == Lower(s)[k];
  }

  /** The classifier ignores case: a URL and its lower-cased form are classified alike. */
  lemma CaseInsensitive(url: string)
    ensures IsMediaLink(url) == IsMediaLink(Lower(url))
  {
    MediaLinkMeaning(url);
    MediaLinkMeaning(Lower(url));
    LowerIdempotent(url);
  }

  /** A signature in any letter case, anywhere in a URL (host, path, query),
      makes it a media link: the test is a substring search, not a suffix test. */
  lemma SignatureAnywhere(prefix: string, x: string, suffix: string, j: nat)
    requires j < |SIGNATURES| && Lower(x) == SIGNATURES[j]
    ensures IsMediaLink(prefix + x + suffix)
  {
    var url := prefix + x + suffix;
    var k := |prefix|;
    assert Lower(url)[k..k + |x|] == Lower(x) by {
      assert forall m :: 0 <= m < |x| ==> url[k + m] == x[m];
    }
    assert OccursAt(SIGNATURES[j], Lower(url), k);
    MediaLinkMeaning(url);
  }

  /** An occurrence of sig in a string whose only '.' is at q places the
      d-th character of sig, a '.', at q, and its neighbours beside q. */
  lemma DotContext(s: string, sig: string, k: nat, d: nat, q: nat)
    requires OccursAt(sig, s, k) && d < |sig| && sig[d] == '.'
    requires forall i :: 0 <= i < |s| && s[i] == '.' ==> i == q
    ensures k + d == q
    ensures d > 0 ==> s[q - 1] == sig[d - 1]
    ensures d + 1 < |sig| ==> s[q + 1] == sig[d + 1]
  {
    var w := s[k..k + |sig|];
    assert forall m :: 0 <= m < |sig| ==> w[m] == s[k + m];
  }

  lemma PageIsLowerCase(url: string)
    requires url == "https://example.com/page"
    ensures Lower(url) == url
  {
    forall k | 0 <= k < |url| ensures Lower(url)[k] == url[k] {
      assert !('A' <= url[k] <= 'Z');
    }
  }

  /** The page URL of the example below contains no signature: its only '.'
      stands between 'e' and 'c', where no signature can place its first '.'. */
  lemma PageHasNoSignature(url: string)
    requires url == "https://example.com/page"
    ensures !ContainsSignature(url)
  {
    assert forall i :: 0 <= i < |url| && url[i] == '.' ==> i == 15;
    forall j, k: nat | 0 <= j < |SIGNATURES| && OccursAt(SIGNATURES[j], url, k)
      ensures false
    {
      var d := if j < 2 then 1 else if j == 2 then 7 else if j == 3 then 5 else if j == 4 then 6 else 0;
      DotContext(url, SIGNATURES[j], k, d, 15);
    }
  }

  /** A page URL with no signature in it is not a media link. */
  lemma PageIsNotMedia()
    ensures !IsMediaLink("https://example.com/page")
  {
    var url := "https://example.com/page";
    PageIsLowerCase(url);
    PageHasNoSignature(url);
    MediaLinkMeaning(url);
  }

  /** A media host in the URL, or an extension in any letter case anywhere in it,
      makes the URL a media link. */
  lemma MediaLinkExamples()
    ensures IsMediaLink("https://v.redd.it/abc123")
    ensures IsMediaLink("https://example.com/clip.MP4?x=1")
  {
    assert Lower("v.redd.it") == SIGNATURES[0];
    SignatureAnywhere("https://", "v.redd.it", "/abc123", 0);
    assert "https://" + "v.redd.it" + "/abc123" == "https://v.redd.it/abc123";
    assert Lower(".MP4") == SIGNATURES[5];
    SignatureAnywhere("https://example.com/clip", ".MP4", "?x=1", 5);
    assert "https://example.com/clip" + ".MP4" + "?x=1" == "https://example.com/clip.MP4?x=1";
  }
}
