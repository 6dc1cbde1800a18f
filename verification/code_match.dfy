/** The catalogue-code pattern `(RJ|BJ)\d{6,8}` of the scanner, matched by
    hand with the semantics of a leftmost, greedy regular-expression search:
    the match starts at the first position where the pattern can match, and
    takes as many digits as it may, up to eight. */
module CodeMatch {
  import opened Common

  const MinDigits := 6
  const MaxDigits := 8

  predicate IsDigit(c: char) {
    '0' <= c <= '9'
  }

  /** Length of the run of digits that starts at index `i` of `s`. */
  function DigitRun(s: string, i: nat): (n: nat)
    requires i <= |s|
    ensures i + n <= |s|
    ensures forall k :: i <= k < i + n ==> IsDigit(s[k])
    ensures i + n < |s| ==> !IsDigit(s[i + n])
    decreases |s| - i
  {
    if i < |s| && IsDigit(s[i]) then 1 + DigitRun(s, i + 1) else 0
  }

  /** "RJ" or "BJ" starts at `i`, followed by at least six digits. */
  predicate MatchesAt(s: string, i: nat) {
    i + 2 <= |s| && (s[i] == 'R' || s[i] == 'B') && s[i + 1] == 'J' && DigitRun(s, i + 2) >= MinDigits
  }

  /** The greedy length of the match at `i`: the prefix and at most eight digits. */
  function MatchLength(s: string, i: nat): (n: nat)
    requires MatchesAt(s, i)
    ensures 2 + MinDigits <= n <= 2 + MaxDigits && i + n <= |s|
    ensures forall k :: i + 2 <= k < i + n ==> IsDigit(s[k])
    ensures n < 2 + MaxDigits ==> i + n == |s| || !IsDigit(s[i + n])
  {
    var d := DigitRun(s, i + 2);
    2 + (if d > MaxDigits then MaxDigits else d)
  }

  /** `i` is the first position where the pattern matches. */
  ghost predicate IsLeftmost(s: string, i: nat) {
    MatchesAt(s, i) && forall j :: 0 <= j < i ==> !MatchesAt(s, j)
  }

  /** The first position at or after `i` where the pattern matches. */
  function LeftmostFrom(s: string, i: nat): (r: Option<nat>)
    requires i <= |s|
    ensures r.Some? ==> i <= r.value && MatchesAt(s, r.value)
    ensures r.Some? ==> forall j :: i <= j < r.value ==> !MatchesAt(s, j)
    ensures r.None? ==> forall j :: i <= j ==> !MatchesAt(s, j)
    decreases |s| - i
  {
    if i == |s| then None
    else if MatchesAt(s, i) then Some(i)
    else LeftmostFrom(s, i + 1)
  }

  /** `rj_regex.captures(name)`, group 0: the leftmost match, greedy in its
      digits, or nothing when no position matches. */
  function FindCode(name: string): (r: Option<string>)
    ensures r.None? <==> forall i :: 0 <= i ==> !MatchesAt(name, i)
    ensures r.Some? ==> exists i: nat :: IsLeftmost(name, i) && r.value == name[i..i + MatchLength(name, i)]
  {
    match LeftmostFrom(name, 0)
    case None => None
    case Some(i) => Some(name[i..i + MatchLength(name, i)])
  }

  /** A code found is "RJ" or "BJ" followed by six to eight digits. */
  lemma FoundCodeShape(name: string)
    requires FindCode(name).Some?
    ensures var c := FindCode(name).value;
      2 + MinDigits <= |c| <= 2 + MaxDigits && (c[0] == 'R' || c[0] == 'B') && c[1] == 'J' &&
      forall k :: 2 <= k < |c| ==> IsDigit(c[k])
  {
    var i := LeftmostFrom(name, 0).value;
    var c := FindCode(name).value;
    assert c == name[i..i + MatchLength(name, i)];
    forall k | 2 <= k < |c| ensures IsDigit(c[k]) {
      assert c[k] == name[i + k];
    }
  }

  /** Matching the extracted code again yields the code itself. */
  lemma FindCodeIdempotent(name: string)
    requires FindCode(name).Some?
    ensures FindCode(FindCode(name).value) == FindCode(name)
  {
    var c := FindCode(name).value;
    FoundCodeShape(name);
    DigitRunToEnd(c, 2);
    assert MatchesAt(c, 0);
    assert LeftmostFrom(c, 0) == Some(0);
    assert c[0..0 + MatchLength(c, 0)] == c;
  }

  /** In a string whose characters from `i` on are all digits, the run from `i` reaches the end. */
  lemma {:induction false} DigitRunToEnd(s: string, i: nat)
    requires i <= |s|
    requires forall k :: i <= k < |s| ==> IsDigit(s[k])
    ensures DigitRun(s, i) == |s| - i
    decreases |s| - i
  {
    if i < |s| {
      DigitRunToEnd(s, i + 1);
    }
  }

  /** More than eight digits: the match stops after the eighth. */
  lemma NineDigitsExample()
    ensures FindCode("RJ123456789") == Some("RJ12345678")
  {
    var s := "RJ123456789";
    DigitRunToEnd(s, 2);
    assert MatchesAt(s, 0);
    assert LeftmostFrom(s, 0) == Some(0);
    assert MatchLength(s, 0) == 10;
    assert s[0..10] == "RJ12345678";
  }

  /** In "RJ1 BJ123456" the first position that starts a code is 4. */
  lemma ShortRunLeftmost()
    ensures LeftmostFrom("RJ1 BJ123456", 0) == Some(4)
  {
    var s := "RJ1 BJ123456";
    assert DigitRun(s, 2) == 1 by {
      assert !IsDigit(s[3]);
    }
    DigitRunToEnd(s, 6);
    forall j | 0 <= j < 4 ensures !MatchesAt(s, j) {
    }
    assert MatchesAt(s, 4);
  }

  /** Fewer than six digits at the first "RJ" moves the match to a later position. */
  lemma ShortRunExample()
    ensures FindCode("RJ1 BJ123456") == Some("BJ123456")
  {
    var s := "RJ1 BJ123456";
    ShortRunLeftmost();
    DigitRunToEnd(s, 6);
    assert MatchLength(s, 4) == 8;
    assert s[4..12] == "BJ123456";
  }
}
