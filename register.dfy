/** The sign-up page of src/pages/RegisterPage.jsx: the password strength score, its level, and the
    checks `handleSubmit` makes before calling the sign-up service. */
module Register {
  import opened Wrappers
  import Text
  import Listing

  predicate IsAsciiLower(c: char) { 'a' <= c <= 'z' }
  predicate IsAsciiUpper(c: char) { 'A' <= c <= 'Z' }
  predicate IsAsciiDigit(c: char) { '0' <= c <= '9' }

  /** The class `[!,%,&,@,#,$,^,*,?,_,~]`: the comma written between the symbols is itself a member. */
  predicate IsSpecial(c: char)
  {
    c in {'!', ',', '%', '&', '@', '#', '$', '^', '*', '?', '_', '~'}
  }

  /** `pass.length > 7`. */
  predicate LongEnough(pass: string) { |pass| > 7 }

  /** `/([a-z].*[A-Z])|([A-Z].*[a-z])/` matches: a lower-case and an upper-case ASCII letter, in either
      order, with no line terminator between them (`.` does not match one). */
  predicate MixedCase(pass: string)
  {
    exists i, j :: 0 <= i < j < |pass| &&
      ((IsAsciiLower(pass[i]) && IsAsciiUpper(pass[j])) || (IsAsciiUpper(pass[i]) && IsAsciiLower(pass[j]))) &&
      (forall k :: i < k < j ==> !Text.IsLineTerminator(pass[k]))
  }

  /** `/([0-9])/` matches. */
  predicate HasDigit(pass: string) { exists i :: 0 <= i < |pass| && IsAsciiDigit(pass[i]) }

  /** The special-character class matches. */
  predicate HasSpecial(pass: string) { exists i :: 0 <= i < |pass| && IsSpecial(pass[i]) }

  function Point(b: bool): nat { if b then 1 else 0 }

  /** `checkPasswordStrength`: one point per test passed. */
  function Strength(pass: string): (r: nat)
    ensures r <= 4
    ensures r == 0 <==> !LongEnough(pass) && !MixedCase(pass) && !HasDigit(pass) && !HasSpecial(pass)
    ensures r == 4 <==> LongEnough(pass) && MixedCase(pass) && HasDigit(pass) && HasSpecial(pass)
  {
    Point(LongEnough(pass)) + Point(MixedCase(pass)) + Point(HasDigit(pass)) + Point(HasSpecial(pass))
  }

  /** On a single-line password the case test passes exactly when both cases occur somewhere. */
  lemma MixedCaseOnOneLine(pass: string)
    requires forall k :: 0 <= k < |pass| ==> !Text.IsLineTerminator(pass[k])
    ensures MixedCase(pass) <==>
      (exists i :: 0 <= i < |pass| && IsAsciiLower(pass[i])) && (exists j :: 0 <= j < |pass| && IsAsciiUpper(pass[j]))
  {
    if (exists i :: 0 <= i < |pass| && IsAsciiLower(pass[i])) && (exists j :: 0 <= j < |pass| && IsAsciiUpper(pass[j])) {
      var i :| 0 <= i < |pass| && IsAsciiLower(pass[i]);
      var j :| 0 <= j < |pass| && IsAsciiUpper(pass[j]);
      if i < j {
        assert (IsAsciiLower(pass[i]) && IsAsciiUpper(pass[j])) && (forall k :: i < k < j ==> !Text.IsLineTerminator(pass[k]));
      } else {
        assert (IsAsciiUpper(pass[j]) && IsAsciiLower(pass[i])) && (forall k :: j < k < i ==> !Text.IsLineTerminator(pass[k]));
      }
    }
  }

  /** Typing more characters never lowers the score: each of the four tests, once passed, stays passed. */
  lemma StrengthGrows(pass: string, more: string)
    ensures Strength(pass) <= Strength(pass + more)
  {
    var s := pass + more;
    MixedCaseGrows(pass, more);
    if HasDigit(pass) {
      var i :| 0 <= i < |pass| && IsAsciiDigit(pass[i]);
      assert s[i] == pass[i];
    }
    if HasSpecial(pass) {
      var i :| 0 <= i < |pass| && IsSpecial(pass[i]);
      assert s[i] == pass[i];
    }
  }

  /** The case test, once passed, stays passed. */
  lemma MixedCaseGrows(pass: string, more: string)
    ensures MixedCase(pass) ==> MixedCase(pass + more)
  {
    if MixedCase(pass) {
      var s := pass + more;
      var i, j :| 0 <= i < j < |pass| &&
        ((IsAsciiLower(pass[i]) && IsAsciiUpper(pass[j])) || (IsAsciiUpper(pass[i]) && IsAsciiLower(pass[j]))) &&
        (forall k :: i < k < j ==> !Text.IsLineTerminator(pass[k]));
      assert s[i] == pass[i] && s[j] == pass[j];
      assert forall k :: i < k < j ==> s[k] == pass[k];
    }
  }

  /** The entries of `PASSWORD_STRENGTH`, and the blank indicator of the switch's default case. */
  datatype Level = Weak | Medium | Strong | VeryStrong | Blank

  function LevelNumber(l: Level): nat
  {
    match l
    case Weak => 1
    case Medium => 2
    case Strong => 3
    case VeryStrong => 4
    case Blank => 0
  }

  function Label(l: Level): string
  {
    match l
    case Weak => "Faible"
    case Medium => "Moyen"
    case Strong => "Fort"
    case VeryStrong => "Tr\U{E8}s fort"
    case Blank => ""
  }

  /** `strengthIndicator`: scores 0 and 1 are weak, 2 to 4 map to the level of that number, anything
      else falls to the blank default. */
  function Indicator(score: int): (r: Level)
    ensures 2 <= score <= 4 ==> LevelNumber(r) == score
    ensures score == 0 || score == 1 ==> r == Weak
    ensures r == Blank <==> !(0 <= score <= 4)
  {
    if score == 0 || score == 1 then Weak
    else if score == 2 then Medium
    else if score == 3 then Strong
    else if score == 4 then VeryStrong
    else Blank
  }

  /** A score the scorer produces never reaches the blank default, and the level never decreases as the
      score grows. */
  lemma IndicatorOfStrength(pass: string, more: string)
    ensures Indicator(Strength(pass)) != Blank
    ensures LevelNumber(Indicator(Strength(pass))) <= LevelNumber(Indicator(Strength(pass + more)))
  {
    StrengthGrows(pass, more);
  }

  /** The named fields of the sign-up form. */
  datatype SignUpForm = SignUpForm(
    email: string, password: string, confirmPassword: string,
    firstName: string, lastName: string, phone: string)

  /** What submitting the form leads to. */
  datatype SubmitOutcome =
    | PasswordMismatch
    | MissingLocation
    | SignUp(email: string, password: string, fullName: string, phone: string, location: Listing.Location)

  /** `handleSubmit`: passwords must agree, then a city must be selected; only then is the account
      requested, with the full name made of the first and last names. */
  function Submit(form: SignUpForm, location: Option<Listing.Location>): (r: SubmitOutcome)
    ensures form.password != form.confirmPassword ==> r == PasswordMismatch
    ensures r.MissingLocation? <==> form.password == form.confirmPassword && location.None?
    ensures r.SignUp? <==> form.password == form.confirmPassword && location.Some?
    ensures r.SignUp? ==>
              r.email == form.email && r.password == form.password && r.phone == form.phone &&
              r.fullName == form.firstName + " " + form.lastName && Some(r.location) == location
  {
    if form.password != form.confirmPassword then PasswordMismatch
    else if location.None? then MissingLocation
    else SignUp(form.email, form.password, form.firstName + " " + form.lastName, form.phone, location.value)
  }

  /** The first name is recovered from the full name sent, up to its first space, when it has none. */
  lemma FullNameSplits(form: SignUpForm, location: Listing.Location)
    requires form.password == form.confirmPassword
    requires ' ' !in form.firstName
    ensures Text.Split(Submit(form, Some(location)).fullName, ' ')[0] == form.firstName
  {
    Text.SplitSplice(form.firstName, ' ', form.lastName);
  }
}
