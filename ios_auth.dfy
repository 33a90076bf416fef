/**
 * The networked client's sign-in form: email, password and confirmation, the checks that
 * enable the two buttons, and the state the buttons and the mode switch change. The request
 * itself is left to the caller; its completion is a method of its own.
 */
module IosAuth {
  import opened Wrappers
  import opened Text

  /** `[A-Z0-9a-z._%+-]`, the characters of the part before the at sign. */
  predicate LocalChar(c: char) {
    IsAsciiLetter(c) || IsDigit(c) || c == '.' || c == '_' || c == '%' || c == '+' || c == '-'
  }

  /** `[A-Za-z0-9.-]`, the characters of the domain. */
  predicate DomainChar(c: char) {
    IsAsciiLetter(c) || IsDigit(c) || c == '.' || c == '-'
  }

  /** The whole string reads local@domain.tld with the at sign at `at` and the dot before the
    * top-level domain at `dot`: a non-empty local part, a non-empty domain and a top-level
    * domain of two to sixty-four letters. */
  predicate SplitAt(s: string, at: int, dot: int) {
    0 < at && at + 1 < dot && dot < |s| && s[at] == '@' && s[dot] == '.'
    && 2 <= |s| - dot - 1 <= 64
    && (forall k | 0 <= k < at :: LocalChar(s[k]))
    && (forall k | at < k < dot :: DomainChar(s[k]))
    && (forall k | dot < k < |s| :: IsAsciiLetter(s[k]))
  }

  /** `SELF MATCHES` the email pattern: some split of the whole string fits it. */
  ghost predicate EmailShape(s: string) {
    exists at, dot :: SplitAt(s, at, dot)
  }

  /** The first position holding `c`. */
  function FirstIndex(s: string, c: char): (r: Option<nat>)
    ensures r.Some? ==> r.value < |s| && s[r.value] == c && forall k | 0 <= k < r.value :: s[k] != c
    ensures r.None? ==> forall k | 0 <= k < |s| :: s[k] != c
  {
    if s == [] then None
    else if s[0] == c then Some(0)
    else match FirstIndex(s[1..], c)
      case Some(i) => Some(i + 1)
      case None => None
  }

  /** The last position holding `c`. */
  function LastIndex(s: string, c: char): (r: Option<nat>)
    ensures r.Some? ==> r.value < |s| && s[r.value] == c && forall k | r.value < k < |s| :: s[k] != c
    ensures r.None? ==> forall k | 0 <= k < |s| :: s[k] != c
  {
    if s == [] then None
    else if s[|s| - 1] == c then Some(|s| - 1)
    else LastIndex(s[..|s| - 1], c)
  }

  /** `isValidEmail`, decided by one split: no local character is an at sign and no letter is
    * a dot, so a fitting split can only be at the first at sign and the last dot. */
  function ValidEmail(s: string): (b: bool)
    ensures b <==> EmailShape(s)
  {
    match FirstIndex(s, '@')
    case None => false
    case Some(at) =>
      match LastIndex(s, '.')
      case None => false
      case Some(dot) =>
        OnlySplit(s, at, dot);
        SplitAt(s, at, dot)
  }

  /** A fitting split is at the first at sign and at the last dot. */
  lemma OnlySplit(s: string, at: nat, dot: nat)
    requires FirstIndex(s, '@') == Some(at) && LastIndex(s, '.') == Some(dot)
    ensures forall a, d :: SplitAt(s, a, d) ==> a == at && d == dot
  {
    forall a, d | SplitAt(s, a, d) ensures a == at && d == dot {
      assert !(at < a) && !(a < at);
      assert !(dot < d) && !(d < dot);
    }
  }

  /** A password is long enough from six characters on. */
  const MinPasswordLength: nat := 6

  class AuthViewModel {
    var email: string
    var password: string
    var passwordConfirmation: string
    var isLoading: bool
    var errorMessage: Option<string>
    var isShowingRegistration: bool

    constructor()
      ensures email == [] && password == [] && passwordConfirmation == []
      ensures !isLoading && errorMessage.None? && !isShowingRegistration
    {
      email, password, passwordConfirmation := [], [], [];
      isLoading, errorMessage, isShowingRegistration := false, None, false;
    }

    predicate IsValidEmail()
      reads this
    {
      ValidEmail(email)
    }

    predicate IsValidPassword()
      reads this
    {
      |password| >= MinPasswordLength
    }

    /** The confirmation repeats a non-empty password. */
    predicate IsValidPasswordConfirmation()
      reads this
    {
      password == passwordConfirmation && password != []
    }

    /** `canLogin`: a well-formed email, a long enough password, and no request running. */
    predicate CanLogin()
      reads this
      ensures CanLogin() ==> EmailShape(email) && |password| >= MinPasswordLength && !isLoading
      ensures isLoading ==> !CanLogin()
    {
      IsValidEmail() && IsValidPassword() && !isLoading
    }

    /** `canRegister`: what login needs, and a confirmation equal to the password; a long
      * enough password is never empty, so that part of the confirmation check adds nothing. */
    predicate CanRegister()
      reads this
      ensures CanRegister() <==> CanLogin() && password == passwordConfirmation
      ensures isLoading ==> !CanRegister()
    {
      IsValidEmail() && IsValidPassword() && IsValidPasswordConfirmation() && !isLoading
    }

    /** `login()`: nothing unless `canLogin`; otherwise a request starts, with the previous
      * error cleared. */
    method Login()
      modifies this
      ensures !old(CanLogin()) ==> unchanged(this)
      ensures old(CanLogin()) ==> isLoading && errorMessage.None?
      ensures email == old(email) && password == old(password)
      ensures passwordConfirmation == old(passwordConfirmation)
      ensures isShowingRegistration == old(isShowingRegistration)
    {
      if !CanLogin() {
        return;
      }
      isLoading := true;
      errorMessage := None;
    }

    /** `register()`: nothing unless `canRegister`; otherwise a request starts, with the
      * previous error cleared. */
    method Register()
      modifies this
      ensures !old(CanRegister()) ==> unchanged(this)
      ensures old(CanRegister()) ==> isLoading && errorMessage.None?
      ensures email == old(email) && password == old(password)
      ensures passwordConfirmation == old(passwordConfirmation)
      ensures isShowingRegistration == old(isShowingRegistration)
    {
      if !CanRegister() {
        return;
      }
      isLoading := true;
      errorMessage := None;
    }

    /** The completion of a login or register request: the form is ready again, and a failure
      * shows its description. */
    method ReceiveCompletion(failure: Option<string>)
      modifies this
      ensures !isLoading
      ensures errorMessage == if failure.Some? then failure else old(errorMessage)
      ensures email == old(email) && password == old(password)
      ensures passwordConfirmation == old(passwordConfirmation)
      ensures isShowingRegistration == old(isShowingRegistration)
    {
      isLoading := false;
      if failure.Some? {
        errorMessage := failure;
      }
    }

    /** `toggleAuthMode()`: the other form, no error, and an empty confirmation; the email and
      * the password stay. */
    method ToggleAuthMode()
      modifies this
      ensures isShowingRegistration == !old(isShowingRegistration)
      ensures errorMessage.None? && passwordConfirmation == []
      ensures email == old(email) && password == old(password) && isLoading == old(isLoading)
    {
      isShowingRegistration := !isShowingRegistration;
      errorMessage := None;
      passwordConfirmation := [];
    }
  }
}
