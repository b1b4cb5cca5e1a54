/** The pattern that decides which strings a decoded document turns into datetimes:
    an ISO 8601 extended date and time, `YYYY-MM-DDTHH:MM:SS`, then an optional fraction
    of a second, then an optional `Z` or `+HH:MM` / `-HH:MM` offset, and nothing else.
    Digits are ASCII digits. */
module TimestampPattern {

  predicate IsDigit(c: char)
  {
    '0' <= c <= '9'
  }

  predicate AllDigits(s: string)
  {
    forall i :: 0 <= i < |s| ==> IsDigit(s[i])
  }

  /** `\d{4}-\d{2}-\d{2}T\d{2}:\d{2}:\d{2}`, the whole of `s` */
  predicate IsDateTime(s: string)
  {
    && |s| == 19
    && IsDigit(s[0]) && IsDigit(s[1]) && IsDigit(s[2]) && IsDigit(s[3]) && s[4] == '-'
    && IsDigit(s[5]) && IsDigit(s[6]) && s[7] == '-' && IsDigit(s[8]) && IsDigit(s[9])
    && s[10] == 'T'
    && IsDigit(s[11]) && IsDigit(s[12]) && s[13] == ':' && IsDigit(s[14]) && IsDigit(s[15])
    && s[16] == ':' && IsDigit(s[17]) && IsDigit(s[18])
  }

  /** `(?:\.\d+)?`, the whole of `s` */
  predicate IsFraction(s: string)
  {
    s == [] || (|s| >= 2 && s[0] == '.' && AllDigits(s[1..]))
  }

  /** `(?:Z|[\+\-]\d{2}:\d{2})?`, the whole of `s` */
  predicate IsOffset(s: string)
  {
    || s == []
    || s == "Z"
    || (|s| == 6 && (s[0] == '+' || s[0] == '-') && IsDigit(s[1]) && IsDigit(s[2]) && s[3] == ':'
        && IsDigit(s[4]) && IsDigit(s[5]))
  }

  /** The regular expression read declaratively: a date-time, then some fraction, then an
      offset, with the split point between fraction and offset anywhere. */
  predicate MatchesPattern(s: string)
  {
    && |s| >= 19
    && IsDateTime(s[..19])
    && exists k :: 19 <= k <= |s| && IsFraction(s[19..k]) && IsOffset(s[k..])
  }

  /** The number of digits `s` starts with. */
  function DigitRun(s: string): (n: nat)
    ensures n <= |s| && AllDigits(s[..n])
    ensures n < |s| ==> !IsDigit(s[n])
  {
    if s == [] || !IsDigit(s[0]) then 0
    else
      var n := DigitRun(s[1..]);
      assert forall i :: 1 <= i < n + 1 ==> s[i] == s[1..][..n][i - 1];
      n + 1
  }

  /** The matcher `timestamp_pattern.match` runs, as one left-to-right scan: the fraction
      takes every digit after the point, and what follows must be an offset. */
  predicate IsTimestampText(s: string)
  {
    && |s| >= 19
    && IsDateTime(s[..19])
    && if |s| > 19 && s[19] == '.' then
         var n := DigitRun(s[20..]);
         n > 0 && IsOffset(s[20 + n..])
       else
         IsOffset(s[19..])
  }

  /** The scan accepts exactly the strings the pattern describes. */
  lemma {:induction false} MatcherAgreesWithPattern(s: string)
    ensures IsTimestampText(s) <==> MatchesPattern(s)
  {
    if IsTimestampText(s) {
      if |s| > 19 && s[19] == '.' {
        var n := DigitRun(s[20..]);
        var k := 20 + n;
        assert s[19..k][1..] == s[20..][..n];
        assert IsFraction(s[19..k]) && IsOffset(s[k..]);
      } else {
        assert IsFraction(s[19..19]) && IsOffset(s[19..]);
      }
    }
    if MatchesPattern(s) {
      var k :| 19 <= k <= |s| && IsFraction(s[19..k]) && IsOffset(s[k..]);
      if k == 19 {
        assert |s| > 19 ==> s[19] == s[19..][0];
      } else {
        assert s[19] == s[19..k][0];
        var n := DigitRun(s[20..]);
        forall i | 0 <= i < k - 20 ensures IsDigit(s[20..][i]) {
          assert s[20..][i] == s[19..k][1..][i];
        }
        assert n > k - 20 ==> IsDigit(s[20..][..n][k - 20]);
        assert k < |s| ==> s[k..][0] == s[k];
        assert n == k - 20;
      }
    }
  }

  /** A UTC timestamp with a `Z` matches. */
  lemma UtcExampleMatches()
    ensures IsTimestampText("2024-01-01T10:00:00Z")
  {
    var s := "2024-01-01T10:00:00Z";
    assert s[..19] == "2024-01-01T10:00:00" && s[19..] == "Z";
  }

  /** A bare point before the offset does not match: the fraction needs a digit. */
  lemma BarePointDoesNotMatch()
    ensures !IsTimestampText("2024-01-01T10:00:00.Z")
  {
    var s := "2024-01-01T10:00:00.Z";
    assert s[20..] == "Z";
  }
}
