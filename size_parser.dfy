/**
 * The progress-size parser of the downloader adapter: the first match of the
 * pattern (\d+(?:\.\d+)?)([KMG]i?B) in a chunk of the downloader's standard
 * output, converted to a byte count.
 *
 * The pattern is specified declaratively (IsTokenAt, IsLeftmostToken) and the
 * parser is a left-to-right scanner proved to find exactly the leftmost match.
 * Amounts are exact decimals (`real`), not IEEE doubles.
 */
module SizeParser {
  import opened Wrappers

  /** A match of the pattern in some chunk s:
      s[start..intEnd] are the integer digits,
      s[intEnd..numEnd] is empty or a '.' followed by the fraction digits,
      s[numEnd..end] is the unit. */
  datatype Token = Token(start: nat, intEnd: nat, numEnd: nat, end: nat)

  /** The units the pattern [KMG]i?B admits (the match is case-sensitive). */
  const UNITS: set<string> := {"KB", "KiB", "MB", "MiB", "GB", "GiB"}

  /** \d in a JavaScript regular expression: an ASCII decimal digit. */
  predicate IsDigit(c: char) { '0' <= c <= '9' }

  predicate IsUnitLetter(c: char) { c == 'K' || c == 'M' || c == 'G' }

  ghost predicate AllDigits(s: string, i: nat, j: nat)
    requires i <= j <= |s|
  {
    forall k :: i <= k < j ==> IsDigit(s[k])
  }

  /** t is a match of (\d+(?:\.\d+)?)([KMG]i?B) in s. */
  ghost predicate IsTokenAt(s: string, t: Token)
  {
    && t.start < t.intEnd <= t.numEnd < t.end <= |s|
    && AllDigits(s, t.start, t.intEnd)
    && (|| t.numEnd == t.intEnd
        || (s[t.intEnd] == '.' && t.intEnd + 1 < t.numEnd && AllDigits(s, t.intEnd + 1, t.numEnd)))
    && s[t.numEnd..t.end] in UNITS
  }

  /** t is the match a non-global regular-expression search returns: no match starts earlier. */
  ghost predicate IsLeftmostToken(s: string, t: Token)
  {
    IsTokenAt(s, t) && forall t' :: IsTokenAt(s, t') ==> t.start <= t'.start
  }

  /** The shape of a unit, character by character. */
  lemma UnitShape(u: string)
    ensures u in UNITS <==>
      || (|u| == 2 && IsUnitLetter(u[0]) && u[1] == 'B')
      || (|u| == 3 && IsUnitLetter(u[0]) && u[1] == 'i' && u[2] == 'B')
  {
    if |u| == 2 && IsUnitLetter(u[0]) && u[1] == 'B' {
      assert u == [u[0], 'B'];
    }
    if |u| == 3 && IsUnitLetter(u[0]) && u[1] == 'i' && u[2] == 'B' {
      assert u == [u[0], 'i', 'B'];
    }
  }

  /** The positions of t lie in order inside a string of length n. */
  predicate WithinLength(t: Token, n: nat)
  {
    t.start <= t.intEnd <= t.numEnd <= t.end <= n
  }

  /** The end of the longest run of digits starting at i. */
  function DigitRunEnd(s: string, i: nat): (j: nat)
    requires i <= |s|
    ensures i <= j <= |s|
    decreases |s| - i
  {
    if i < |s| && IsDigit(s[i]) then DigitRunEnd(s, i + 1) else i
  }

  /** The run is all digits and cannot be extended. */
  lemma {:induction false} DigitRunEndSpec(s: string, i: nat)
    requires i <= |s|
    ensures var j := DigitRunEnd(s, i); AllDigits(s, i, j) && (j < |s| ==> !IsDigit(s[j]))
    decreases |s| - i
  {
    if i < |s| && IsDigit(s[i]) {
      DigitRunEndSpec(s, i + 1);
    }
  }

  /** The end of the unit [KMG]i?B that starts at j, if one does. */
  function UnitEnd(s: string, j: nat): (r: Option<nat>)
    requires j <= |s|
    ensures r.Some? ==> j < r.value <= |s|
  {
    if j + 1 < |s| && IsUnitLetter(s[j]) && s[j + 1] == 'B' then Some(j + 2)
    else if j + 2 < |s| && IsUnitLetter(s[j]) && s[j + 1] == 'i' && s[j + 2] == 'B' then Some(j + 3)
    else None
  }

  /** UnitEnd finds the unit at j exactly when there is one, and its end. */
  lemma UnitEndSpec(s: string, j: nat)
    requires j <= |s|
    ensures var r := UnitEnd(s, j);
      && (r.Some? ==> s[j..r.value] in UNITS)
      && forall e :: j < e <= |s| && s[j..e] in UNITS ==> r == Some(e)
  {
    if j + 1 < |s| && IsUnitLetter(s[j]) && s[j + 1] == 'B' {
      UnitShape(s[j..j + 2]);
    } else if j + 2 < |s| && IsUnitLetter(s[j]) && s[j + 1] == 'i' && s[j + 2] == 'B' {
      UnitShape(s[j..j + 3]);
    }
    forall e | j < e <= |s| && s[j..e] in UNITS ensures UnitEnd(s, j) == Some(e) {
      UnitShape(s[j..e]);
    }
  }

  /** The end of the optional fraction (?:\.\d+)? that starts at i: past the
      digits when a '.' and at least one digit follow, else i itself. */
  function FractionEnd(s: string, i: nat): (j: nat)
    requires i <= |s|
    ensures i <= j <= |s|
  {
    if i < |s| && s[i] == '.' && DigitRunEnd(s, i + 1) > i + 1 then DigitRunEnd(s, i + 1) else i
  }

  /** The match of the pattern that starts at p, if any. */
  function MatchAt(s: string, p: nat): (r: Option<Token>)
    requires p <= |s|
    ensures r.Some? ==> r.value.start == p && WithinLength(r.value, |s|)
  {
    var i := DigitRunEnd(s, p);
    var j := FractionEnd(s, i);
    if i == p then None
    else
      match UnitEnd(s, j)
      case None => None
      case Some(e) => Some(Token(p, i, j, e))
  }

  /** In a match, the integer digits and the fraction are as long as they can
      be: the unit cannot begin with a digit or a '.'. */
  lemma TokenPositions(s: string, t: Token)
    requires IsTokenAt(s, t)
    ensures t.intEnd == DigitRunEnd(s, t.start)
    ensures t.numEnd == FractionEnd(s, t.intEnd)
  {
    DigitRunEndSpec(s, t.start);
    UnitShape(s[t.numEnd..t.end]);
    assert s[t.numEnd..t.end][0] == s[t.numEnd];
    if t.intEnd < |s| && s[t.intEnd] == '.' {
      DigitRunEndSpec(s, t.intEnd + 1);
    }
    if t.numEnd > t.intEnd {
      assert s[t.numEnd] != '.' && !IsDigit(s[t.numEnd]);
    }
  }

  /** MatchAt finds a match at p exactly when there is one, and finds that one. */
  lemma MatchAtSpec(s: string, p: nat)
    requires p <= |s|
    ensures var r := MatchAt(s, p);
      && (r.Some? ==> IsTokenAt(s, r.value))
      && forall t: Token :: t.start == p && IsTokenAt(s, t) ==> r == Some(t)
  {
    var i := DigitRunEnd(s, p);
    DigitRunEndSpec(s, p);
    if i < |s| && s[i] == '.' {
      DigitRunEndSpec(s, i + 1);
    }
    UnitEndSpec(s, FractionEnd(s, i));
    forall t: Token | t.start == p && IsTokenAt(s, t) ensures MatchAt(s, p) == Some(t) {
      TokenPositions(s, t);
    }
  }

  /** The leftmost match at or after position p. */
  function ScanFrom(s: string, p: nat): (r: Option<Token>)
    requires p <= |s|
    ensures r.Some? ==> p <= r.value.start && WithinLength(r.value, |s|)
    decreases |s| - p
  {
    if p == |s| then None
    else
      match MatchAt(s, p)
      case Some(t) => Some(t)
      case None => ScanFrom(s, p + 1)
  }

  /** ScanFrom finds a match, and one that starts no later than any match at or after p. */
  lemma {:induction false} ScanFromSpec(s: string, p: nat)
    requires p <= |s|
    ensures var r := ScanFrom(s, p);
      && (r.Some? ==> IsTokenAt(s, r.value))
      && forall t :: IsTokenAt(s, t) && p <= t.start ==> r.Some? && r.value.start <= t.start
    decreases |s| - p
  {
    if p < |s| {
      MatchAtSpec(s, p);
      if MatchAt(s, p).None? {
        ScanFromSpec(s, p + 1);
      }
    }
  }

  /** What `data.match(...)` finds: the leftmost match, or none at all. */
  function LeftmostToken(s: string): (r: Option<Token>)
    ensures r.Some? ==> WithinLength(r.value, |s|)
  {
    ScanFrom(s, 0)
  }

  /** The search fails exactly when there is no match, and otherwise returns the leftmost one. */
  lemma LeftmostTokenSpec(s: string)
    ensures LeftmostToken(s).None? <==> forall t :: !IsTokenAt(s, t)
    ensures LeftmostToken(s).Some? ==> IsLeftmostToken(s, LeftmostToken(s).value)
  {
    ScanFromSpec(s, 0);
  }

  /** Two matches that start at the same position are the same match. */
  lemma TokenDeterminedByStart(s: string, t1: Token, t2: Token)
    requires IsTokenAt(s, t1) && IsTokenAt(s, t2) && t1.start == t2.start
    ensures t1 == t2
  {
    MatchAtSpec(s, t1.start);
  }

  function DigitValue(c: char): nat
  {
    if IsDigit(c) then c as int - '0' as int else 0
  }

  /** The value of a string of decimal digits. */
  function DigitsValue(ds: string): nat
  {
    if ds == [] then 0 else DigitsValue(ds[..|ds| - 1]) * 10 + DigitValue(ds[|ds| - 1])
  }

  /** The value of the digits after a decimal point, 0.d1d2...dn, read from the right. */
  function Fraction(ds: string): (r: real)
    ensures 0.0 <= r < 1.0
  {
    if ds == [] then 0.0
    else (DigitValue(ds[0]) as real + Fraction(ds[1..])) / 10.0
  }

  /** parseFloat of the matched amount, as an exact decimal. */
  function Amount(s: string, t: Token): (r: real)
    requires t.start <= t.intEnd <= t.numEnd <= |s|
    ensures r >= 0.0
  {
    var whole := DigitsValue(s[t.start..t.intEnd]) as real;
    if t.numEnd == t.intEnd then whole
    else whole + Fraction(s[t.intEnd + 1..t.numEnd])
  }

  /** The bytes a matched token stands for: parseFloat of its amount, scaled by
      1024, 1024 ** 2 or 1024 ** 3 when the unit includes "KiB", "MiB" or "GiB"
      (for a unit the pattern admits, that is equality); KB, MB and GB are not scaled. */
  function TokenBytes(s: string, t: Token): (r: real)
    requires WithinLength(t, |s|)
    ensures r >= 0.0
  {
    var bytes, unit := Amount(s, t), s[t.numEnd..t.end];
    if unit == "KiB" then bytes * 1024.0
    else if unit == "MiB" then bytes * 1048576.0
    else if unit == "GiB" then bytes * 1073741824.0
    else bytes
  }

  /** The number of bytes a progress chunk reports, or None when it has no size token. */
  function ParseSize(chunk: string): (r: Option<real>)
    ensures r.Some? ==> r.value >= 0.0
  {
    match LeftmostToken(chunk)
    case None => None
    case Some(t) => Some(TokenBytes(chunk, t))
  }

  /** A chunk reports a size exactly when it contains a match of the pattern. */
  lemma ParseSizeFinds(chunk: string)
    ensures ParseSize(chunk).None? <==> forall t :: !IsTokenAt(chunk, t)
  {
    LeftmostTokenSpec(chunk);
  }

  /** The chunk's size is the bytes of its leftmost token. */
  lemma LeftmostTokenBytes(s: string, t: Token)
    requires IsLeftmostToken(s, t)
    ensures ParseSize(s) == Some(TokenBytes(s, t))
  {
    LeftmostTokenSpec(s);
    var r := LeftmostToken(s);
    TokenDeterminedByStart(s, r.value, t);
  }

  /** The contribution of a chunk is set by its leftmost token: the amount times
      1024, 1024^2 or 1024^3 for KiB, MiB, GiB, and the bare amount for KB, MB, GB. */
  lemma TokenContribution(s: string, t: Token)
    requires IsLeftmostToken(s, t)
    ensures var u := s[t.numEnd..t.end]; var a := Amount(s, t);
      && (u == "KiB" ==> ParseSize(s) == Some(a * 1024.0))
      && (u == "MiB" ==> ParseSize(s) == Some(a * 1048576.0))
      && (u == "GiB" ==> ParseSize(s) == Some(a * 1073741824.0))
      && (u == "KB" || u == "MB" || u == "GB" ==> ParseSize(s) == Some(a))
  {
    LeftmostTokenBytes(s, t);
  }

  /** The only 'B' in a token is its last character. */
  lemma TokenCharacters(s: string, t: Token, k: nat)
    requires IsTokenAt(s, t) && t.start <= k < t.end
    ensures s[k] == 'B' <==> k == t.end - 1
  {
    UnitShape(s[t.numEnd..t.end]);
    if k >= t.numEnd {
      assert s[k] == s[t.numEnd..t.end][k - t.numEnd];
    }
  }

  /** A chunk without an upper-case 'B' reports nothing; in particular lower-case
      units such as "mib" are never matched. */
  lemma NoSizeWithoutB(s: string)
    requires forall k :: 0 <= k < |s| ==> s[k] != 'B'
    ensures ParseSize(s) == None
  {
    ParseSizeFinds(s);
    forall t | IsTokenAt(s, t) ensures false {
      TokenCharacters(s, t, t.end - 1);
    }
  }

  /** A match that ends inside s is a match in s followed by anything. */
  lemma TokenInPrefix(s: string, u: string, t: Token)
    requires t.end <= |s|
    ensures IsTokenAt(s + u, t) <==> IsTokenAt(s, t)
  {
    var su := s + u;
    if t.start < t.intEnd <= t.numEnd < t.end {
      assert su[t.numEnd..t.end] == s[t.numEnd..t.end];
      assert forall k :: 0 <= k < |s| ==> su[k] == s[k];
      assert AllDigits(su, t.start, t.intEnd) <==> AllDigits(s, t.start, t.intEnd);
      assert t.intEnd + 1 <= t.numEnd ==>
        (AllDigits(su, t.intEnd + 1, t.numEnd) <==> AllDigits(s, t.intEnd + 1, t.numEnd));
    }
  }

  /** The matched text of a token that ends inside s is the same in s and in s + u. */
  lemma AmountInPrefix(s: string, u: string, t: Token)
    requires WithinLength(t, |s|)
    ensures TokenBytes(s + u, t) == TokenBytes(s, t)
  {
    var su := s + u;
    assert su[t.start..t.intEnd] == s[t.start..t.intEnd];
    if t.numEnd > t.intEnd {
      assert su[t.intEnd + 1..t.numEnd] == s[t.intEnd + 1..t.numEnd];
    }
    assert Amount(su, t) == Amount(s, t);
    assert su[t.numEnd..t.end] == s[t.numEnd..t.end];
  }

  /** The leftmost token of s is the leftmost token of s followed by anything. */
  lemma {:induction false} LeftmostInPrefix(s: string, u: string)
    requires LeftmostToken(s).Some?
    ensures LeftmostToken(s + u) == LeftmostToken(s)
  {
    LeftmostTokenSpec(s);
    LeftmostTokenSpec(s + u);
    var t := LeftmostToken(s).value;
    TokenInPrefix(s, u, t);
    var t2 := LeftmostToken(s + u).value;
    assert t2.end <= |s| by {
      if t2.end > |s| {
        TokenCharacters(s, t, t.end - 1);
        assert (s + u)[t.end - 1] == s[t.end - 1];
        TokenCharacters(s + u, t2, t.end - 1);
      }
    }
    TokenInPrefix(s, u, t2);
    TokenDeterminedByStart(s, t, t2);
  }

  /** Only the leftmost token counts: text after it never changes what a chunk reports. */
  lemma LeftmostOnly(s: string, u: string)
    requires ParseSize(s).Some?
    ensures ParseSize(s + u) == ParseSize(s)
  {
    LeftmostInPrefix(s, u);
    var t := LeftmostToken(s).value;
    AmountInPrefix(s, u, t);
  }

  /** A chunk that is just a size in MiB reports the amount times 1024 ** 2. */
  lemma MiBExample(s: string, d: char)
    requires s == ['4', '.', d, 'M', 'i', 'B'] && (d == '0' || d == '5')
    ensures d == '0' ==> ParseSize(s) == Some(4194304.0)
    ensures d == '5' ==> ParseSize(s) == Some(4718592.0)
  {
    var t := Token(0, 1, 3, 6);
    assert s[3..6] == "MiB";
    assert IsTokenAt(s, t);
    assert s[0..1] == "4" && s[2..3] == [d];
    assert DigitsValue("4") == 4 by { assert "4"[..0] == ""; }
    assert Fraction([d]) == DigitValue(d) as real / 10.0 by { assert [d][1..] == ""; }
    assert Amount(s, t) == 4.0 + DigitValue(d) as real / 10.0;
    TokenContribution(s, t);
  }

  /** A decimal unit is not scaled: "750KB" reports 750 bytes. */
  lemma KBExample()
    ensures ParseSize("750KB") == Some(750.0)
  {
    var s := "750KB";
    var t := Token(0, 3, 3, 5);
    assert s[3..5] == "KB";
    assert IsTokenAt(s, t);
    assert s[0..3] == "750";
    assert DigitsValue("750") == 750 by {
      assert "750"[..2] == "75" && "75"[..1] == "7" && "7"[..0] == "";
    }
    TokenContribution(s, t);
  }

  /** A lower-case unit reports nothing. */
  lemma LowerCaseExample()
    ensures ParseSize("12.0mib") == None
  {
    var s := "12.0mib";
    assert forall k :: 0 <= k < |s| ==> s[k] != 'B';
    NoSizeWithoutB(s);
  }
}
