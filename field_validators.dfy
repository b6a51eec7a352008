/**
 * The validators the account models share: the email pattern `^\S+@\S+\.\S+$`
 * and the phone pattern `^\d{10}$`, both checked against the value the
 * `trim: true` setter stores, and the default profile image.
 */
module FieldValidators {
  import opened Common

  const DefaultProfileImage := "https://cdn-icons-png.flaticon.com/512/9131/9131529.png"

  /**
   * The meaning of `^\S+@\S+\.\S+$`: no white space anywhere, an '@' with at
   * least one character before it, and a later '.' with at least one
   * character between the two and at least one after the '.'.
   */
  ghost predicate EmailPattern(s: string) {
    NoSpace(s)
    && exists i, j :: 1 <= i && i + 2 <= j && j + 2 <= |s| && s[i] == '@' && s[j] == '.'
  }

  /** The first index at or after `from` holding `c`, or `|s|` when there is none. */
  function FirstFrom(s: string, c: char, from: nat): (k: nat)
    requires from <= |s|
    ensures from <= k <= |s|
    ensures k < |s| ==> s[k] == c
    ensures forall m :: from <= m < k ==> s[m] != c
    decreases |s| - from
  {
    if from == |s| then |s| else if s[from] == c then from else FirstFrom(s, c, from + 1)
  }

  /** Whether some index in `[lo, hi)` holds `c`. */
  function HasCharIn(s: string, c: char, lo: nat, hi: nat): (b: bool)
    requires hi <= |s|
    ensures b <==> exists k :: lo <= k < hi && s[k] == c
    decreases hi - lo
  {
    if lo >= hi then false else s[lo] == c || HasCharIn(s, c, lo + 1, hi)
  }

  /**
   * The email check as a scan: the first '@' that has a character before it,
   * then a '.' somewhere after the character that follows it and before the
   * last character.
   */
  predicate IsEmail(s: string) {
    NoSpace(s) && |s| >= 1 &&
    var at := FirstFrom(s, '@', 1);
    at < |s| && at + 2 <= |s| - 1 && HasCharIn(s, '.', at + 2, |s| - 1)
  }

  /** The scan accepts exactly the strings the regular expression matches. */
  lemma EmailScanMatchesPattern(s: string)
    ensures IsEmail(s) <==> EmailPattern(s)
  {
    if IsEmail(s) {
      var i := FirstFrom(s, '@', 1);
      var j :| i + 2 <= j < |s| - 1 && s[j] == '.';
      assert 1 <= i && i + 2 <= j && j + 2 <= |s| && s[i] == '@' && s[j] == '.';
    }
    if EmailPattern(s) {
      var i, j :| 1 <= i && i + 2 <= j && j + 2 <= |s| && s[i] == '@' && s[j] == '.';
      var at := FirstFrom(s, '@', 1);
      assert at <= i;
      assert at + 2 <= j < |s| - 1 && s[j] == '.';
    }
  }

  /** `^\d{10}$`: exactly ten ASCII digits. */
  predicate IsPhone(s: string) {
    |s| == 10 && forall k :: 0 <= k < |s| ==> IsDigit(s[k])
  }

  /** The `required` validator of a string path, on the stored (trimmed) value. */
  predicate RequiredString(s: string) {
    s != ""
  }

  /** A valid stored email is never empty, and never has white space around or inside it. */
  lemma ValidEmailShape(s: string)
    requires IsEmail(s)
    ensures RequiredString(s) && NoSpace(s) && |s| >= 5
    ensures Trim(s) == s
  {
    EmailScanMatchesPattern(s);
    assert !IsSpace(s[0]) && !IsSpace(s[|s| - 1]);
  }
}
