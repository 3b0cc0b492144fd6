/** The registration form component: its state (the two input fields, the
    stored error record and the parent's "user was created" flag), the
    submit handler and the error list it renders. */
module CreateUserForm {
  import opened PasswordRules

  /** The first half of handleSubmit: start from an all-empty record and let
      each rule overwrite its own slot when it fails. Both length rules write
      the `length` slot, the "at most" rule last; since no password is both
      shorter than 10 and longer than 24, the overwrite never hides a message,
      and the record is exactly the one Validate describes. */
  method CheckPassword(password: string) returns (errors: PasswordErrors)
    ensures errors == Validate(password)
  {
    errors := NoErrors;
    if |password| < MinLength {
      errors := errors.(length := TooShort);
    }
    if |password| > MaxLength {
      errors := errors.(length := TooLong);
    }
    if !Contains(password, Digit) {
      errors := errors.(number := NoNumber);
    }
    if !Contains(password, Upper) {
      errors := errors.(uppercase := NoUppercase);
    }
    if !Contains(password, Lower) {
      errors := errors.(lowercase := NoLowercase);
    }
    if Contains(password, Space) {
      errors := errors.(spaces := HasSpaces);
    }
  }

  class Form {
    var username: string
    var password: string
    var passwordErrors: PasswordErrors
    /** The parent's flag, which the form can only set through its setter. */
    var userWasCreated: bool

    /** The stored record is always one that validation can produce. */
    ghost predicate Valid()
      reads this
    {
      WellFormed(passwordErrors)
    }

    /** A freshly mounted form: empty inputs, no errors shown, and the
        parent's flag as the parent holds it. */
    constructor (created: bool)
      ensures Valid()
      ensures username == "" && password == ""
      ensures passwordErrors == NoErrors && userWasCreated == created
    {
      username := "";
      password := "";
      passwordErrors := NoErrors;
      userWasCreated := created;
    }

    /** The username input's onChange handler. */
    method SetUsername(value: string)
      requires Valid()
      modifies this`username
      ensures Valid()
      ensures username == value
    {
      username := value;
    }

    /** The password input's onChange handler. */
    method SetPassword(value: string)
      requires Valid()
      modifies this`password
      ensures Valid()
      ensures password == value
    {
      password := value;
    }

    /** The submit handler. A failing password stores its error record and
        returns early with the flag untouched; a passing one clears the
        record and sets the parent's flag. The inputs are never changed, and
        the username plays no part in the decision. */
    method HandleSubmit()
      requires Valid()
      modifies this`passwordErrors, this`userWasCreated
      ensures Valid()
      ensures AnyError(Validate(password)) ==>
        passwordErrors == Validate(password) && userWasCreated == old(userWasCreated)
      ensures !AnyError(Validate(password)) ==> passwordErrors == NoErrors && userWasCreated
      ensures passwordErrors == Validate(password)
      ensures userWasCreated == (old(userWasCreated) || Acceptable(password))
      ensures DisplayedErrors() == Messages(Validate(password))
    {
      var errors := CheckPassword(password);
      if AnyError(errors) {
        passwordErrors := errors;
        AcceptedIff(password);
        return;
      }
      passwordErrors := NoErrors;
      AcceptedIff(password);
      userWasCreated := true;
    }

    /** The rendered list: nothing unless some slot is non-empty, and then
        one entry per non-empty slot. The guard removes nothing the list
        would show, so the result is just the non-empty messages, and since
        the stored record is well-formed each message names its rule. */
    function DisplayedErrors(): (r: seq<string>)
      requires Valid()
      reads this
      ensures r == Messages(passwordErrors)
      ensures r == [] <==> passwordErrors == NoErrors
      ensures TooShort in r <==> passwordErrors.length == TooShort
      ensures TooLong in r <==> passwordErrors.length == TooLong
      ensures NoNumber in r <==> passwordErrors.number != ""
      ensures NoUppercase in r <==> passwordErrors.uppercase != ""
      ensures NoLowercase in r <==> passwordErrors.lowercase != ""
      ensures HasSpaces in r <==> passwordErrors.spaces != ""
    {
      ShownIff(passwordErrors);
      if AnyError(passwordErrors) then Messages(passwordErrors) else []
    }
  }

  /** A client: an empty password is refused with four messages and leaves
      the flag alone; "Abcdefg123" is then accepted, clears the list and
      sets the flag. */
  method SubmitTwice()
  {
    var form := new Form(false);
    form.SetPassword("");
    form.HandleSubmit();
    EmptyPasswordExample();
    assert !form.userWasCreated;
    assert form.DisplayedErrors() == [TooShort, NoNumber, NoUppercase, NoLowercase];
    form.SetPassword("Abcdefg123");
    form.HandleSubmit();
    AcceptedExample();
    assert form.userWasCreated;
    assert form.DisplayedErrors() == [];
  }
}
