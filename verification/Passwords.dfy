/** The password rules, written twice in the code: once for the request validator and once for patches. */
module Passwords {
  import opened Wrappers

  /** The character classes of Rust's standard library. */
  datatype CharClasses = CharClasses(
    uppercase: char -> bool, lowercase: char -> bool, alphanumeric: char -> bool, whitespace: char -> bool)
  {
    predicate Special(c: char) {
      !alphanumeric(c) && !whitespace(c)
    }
  }

  predicate AsciiDigit(c: char) {
    '0' <= c <= '9'
  }

  predicate Any(password: string, p: char -> bool) {
    exists i | 0 <= i < |password| :: p(password[i])
  }

  /** What the README and the error texts ask for: all five rules. */
  predicate MeetsAllRules(classes: CharClasses, password: string) {
    && |password| >= 8
    && (exists c | c in password :: classes.uppercase(c))
    && (exists c | c in password :: classes.lowercase(c))
    && (exists c | c in password :: AsciiDigit(c))
    && (exists c | c in password :: classes.Special(c))
  }

  predicate StrongPassword(classes: CharClasses, password: string) {
    var hasMinLen := |password| >= 8;
    var hasUpper := Any(password, classes.uppercase);
    var hasLower := Any(password, classes.lowercase);
    var hasNumber := Any(password, AsciiDigit);
    var hasSpecial := Any(password, c => classes.Special(c));
    hasMinLen && hasUpper && hasLower && hasNumber && hasSpecial
  }

  datatype Complaint = TooShort | NoUppercase | NoLowercase | NoDigit | NoSpecial

  function PasswordChecker(classes: CharClasses, password: string): Result<(), Complaint> {
    if |password| < 8 then Failure(TooShort)
    else if !Any(password, classes.uppercase) then Failure(NoUppercase)
    else if !Any(password, classes.lowercase) then Failure(NoLowercase)
    else if !Any(password, AsciiDigit) then Failure(NoDigit)
    else if !Any(password, c => classes.Special(c)) then Failure(NoSpecial)
    else Success(())
  }

  lemma {:induction false} AnyIsExists(password: string, p: char -> bool)
    ensures Any(password, p) <==> exists c | c in password :: p(c)
  {
    if Any(password, p) {
      var i :| 0 <= i < |password| && p(password[i]);
      assert password[i] in password;
    }
  }

  /** Both accept exactly the passwords that meet all five rules. */
  lemma {:induction false} BothCheckersAcceptTheRules(classes: CharClasses, password: string)
    ensures StrongPassword(classes, password) <==> MeetsAllRules(classes, password)
    ensures PasswordChecker(classes, password).Success? <==> MeetsAllRules(classes, password)
  {
    AnyIsExists(password, classes.uppercase);
    AnyIsExists(password, classes.lowercase);
    AnyIsExists(password, AsciiDigit);
    AnyIsExists(password, c => classes.Special(c));
  }

  /** The rule a complaint is about is broken. */
  predicate Broken(classes: CharClasses, password: string, rule: Complaint) {
    match rule
    case TooShort => |password| < 8
    case NoUppercase => forall c | c in password :: !classes.uppercase(c)
    case NoLowercase => forall c | c in password :: !classes.lowercase(c)
    case NoDigit => forall c | c in password :: c < '0' || '9' < c
    case NoSpecial => forall c | c in password :: classes.alphanumeric(c) || classes.whitespace(c)
  }

  /** The order in which the rules are named to the user. */
  function Rank(rule: Complaint): nat {
    match rule case TooShort => 1 case NoUppercase => 2 case NoLowercase => 3 case NoDigit => 4 case NoSpecial => 5
  }

  /** The complaint about a password is the first broken rule. */
  lemma {:induction false} ComplaintIsFirstBroken(classes: CharClasses, password: string, rule: Complaint)
    ensures PasswordChecker(classes, password) == Failure(rule)
            <==> Broken(classes, password, rule)
                 && forall earlier | Rank(earlier) < Rank(rule) :: !Broken(classes, password, earlier)
  {
    AnyIsExists(password, classes.uppercase);
    AnyIsExists(password, classes.lowercase);
    AnyIsExists(password, AsciiDigit);
    AnyIsExists(password, c => classes.Special(c));
    forall other ensures Broken(classes, password, other) <==>
        match other
        case TooShort => |password| < 8
        case NoUppercase => !Any(password, classes.uppercase)
        case NoLowercase => !Any(password, classes.lowercase)
        case NoDigit => !Any(password, AsciiDigit)
        case NoSpecial => !Any(password, c => classes.Special(c))
    {
    }
    assert Rank(TooShort) == 1 && Rank(NoUppercase) == 2 && Rank(NoLowercase) == 3 && Rank(NoDigit) == 4;
  }
}
