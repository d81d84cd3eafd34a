/**
 * The password-strength meter of the reset-password form: five criteria,
 * each worth a point, mapped to a score from 1 to 5 with a label.
 */
module PasswordStrength {
  import opened Common

  /** The `[A-Z]` character class. */
  predicate IsUpper(c: char) { 'A' <= c <= 'Z' }

  /** The `[0-9]` character class. */
  predicate IsDigit(c: char) { '0' <= c <= '9' }

  /** The `[^A-Za-z0-9]` character class. */
  predicate IsSymbol(c: char) { !(IsUpper(c) || 'a' <= c <= 'z' || IsDigit(c)) }

  predicate HasUpper(p: string) { exists i :: 0 <= i < |p| && IsUpper(p[i]) }
  predicate HasDigit(p: string) { exists i :: 0 <= i < |p| && IsDigit(p[i]) }
  predicate HasSymbol(p: string) { exists i :: 0 <= i < |p| && IsSymbol(p[i]) }

  function Point(b: bool): nat { if b then 1 else 0 }

  /** One point per criterion met: length 6, length 8, an upper-case letter, a digit, a symbol. */
  function RawScore(p: string): nat {
    Point(|p| >= 6) + Point(|p| >= 8) + Point(HasUpper(p)) + Point(HasDigit(p)) + Point(HasSymbol(p))
  }

  const Labels: seq<string> := ["", "Fraca", "Razoável", "Boa", "Forte", "Muito forte"]

  datatype Strength = Strength(score: nat, title: string)

  /**
   * getPasswordStrength: nothing for an empty password; otherwise the
   * criteria count, raised to at least 1, with the label of that score.
   */
  function GetPasswordStrength(p: string): (r: Strength)
    ensures |p| == 0 ==> r == Strength(0, "")
    ensures |p| > 0 ==> 1 <= r.score <= 5 && r.score == Max(1, RawScore(p))
    ensures r.score < |Labels| && r.title == Labels[r.score]
  {
    if |p| == 0 then Strength(0, "")
    else
      var score := RawScore(p);
      if score <= 1 then Strength(1, "Fraca")
      else if score <= 2 then Strength(2, "Razoável")
      else if score <= 3 then Strength(3, "Boa")
      else if score <= 4 then Strength(4, "Forte")
      else Strength(5, "Muito forte")
  }

  /** A password meeting every criterion rates "Muito forte". */
  lemma AllCriteriaIsVeryStrong(p: string)
    requires |p| >= 8 && HasUpper(p) && HasDigit(p) && HasSymbol(p)
    ensures GetPasswordStrength(p) == Strength(5, "Muito forte")
  {
  }

  /** A non-empty password of fewer than six lower-case letters rates "Fraca". */
  lemma ShortLowercaseIsWeak(p: string)
    requires 0 < |p| < 6 && forall i :: 0 <= i < |p| ==> 'a' <= p[i] <= 'z'
    ensures GetPasswordStrength(p) == Strength(1, "Fraca")
  {
  }

  /** Typing one more character never lowers the score. */
  lemma AppendNeverWeakens(p: string, c: char)
    ensures GetPasswordStrength(p).score <= GetPasswordStrength(p + [c]).score
  {
    var q := p + [c];
    if HasUpper(p) {
      var i :| 0 <= i < |p| && IsUpper(p[i]);
      assert IsUpper(q[i]);
    }
    if HasDigit(p) {
      var i :| 0 <= i < |p| && IsDigit(p[i]);
      assert IsDigit(q[i]);
    }
    if HasSymbol(p) {
      var i :| 0 <= i < |p| && IsSymbol(p[i]);
      assert IsSymbol(q[i]);
    }
  }

  /** Examples: "abc" is weak, "abcdefgh" fair, "Abcdef1!" very strong. */
  lemma StrengthExamples()
    ensures GetPasswordStrength("abc").title == "Fraca"
    ensures GetPasswordStrength("abcdefgh").title == "Razoável"
    ensures GetPasswordStrength("Abcdef1!").title == "Muito forte"
  {
    assert IsUpper("Abcdef1!"[0]) && IsDigit("Abcdef1!"[6]) && IsSymbol("Abcdef1!"[7]);
    var s := "abcdefgh";
    assert !HasUpper(s) && !HasDigit(s) && !HasSymbol(s);
  }
}
