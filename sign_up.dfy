/** The sign-up form: four text fields, the error messages shown under them, and the checks
    run before the entered data is handed on. */
module SignUp {
  import opened Wrappers
  import Text

  datatype Field = UserNameField | EmailField | PasswordField | ConfirmPasswordField

  const UserNameRequired: string := "Username is required"
  const UserNameTooShort: string := "Username must be at least 3 characters"
  const EmailRequired: string := "Email is required"
  const EmailInvalid: string := "Email is invalid"
  const PasswordRequired: string := "Password is required"
  const PasswordTooShort: string := "Password must be at least 6 characters"
  const PasswordsDiffer: string := "Passwords do not match"

  /** What `onSignUp` receives. */
  datatype SignUpData = SignUpData(userName: string, email: string, password: string)

  /** The entries the form lets through: a name that is not blank and has at least three
      characters, an address the email pattern accepts, a password of at least six
      characters, and a matching confirmation. */
  predicate Acceptable(userName: string, email: string, password: string, confirmPassword: string) {
    && Text.Trim(userName) != [] && |userName| >= 3
    && Text.LooksLikeEmail(email)
    && |password| >= 6
    && password == confirmPassword
  }

  class SignUpForm {
    var userName: string
    var email: string
    var password: string
    var confirmPassword: string
    var errors: map<Field, string>

    constructor ()
      ensures userName == "" && email == "" && password == "" && confirmPassword == ""
      ensures errors == map[]
    {
      userName, email, password, confirmPassword := "", "", "", "";
      errors := map[];
    }

    /** `validateForm()`: records one message per failing field, replacing the previous
        errors, and reports whether none was recorded. */
    method ValidateForm() returns (valid: bool)
      modifies this
      ensures userName == old(userName) && email == old(email)
      ensures password == old(password) && confirmPassword == old(confirmPassword)
      ensures UserNameField in errors <==> Text.Trim(userName) == [] || |userName| < 3
      ensures UserNameField in errors ==>
        errors[UserNameField] == if Text.Trim(userName) == [] then UserNameRequired else UserNameTooShort
      ensures EmailField in errors <==> !Text.LooksLikeEmail(email)
      ensures EmailField in errors ==>
        errors[EmailField] == if Text.Trim(email) == [] then EmailRequired else EmailInvalid
      ensures PasswordField in errors <==> |password| < 6
      ensures PasswordField in errors ==>
        errors[PasswordField] == if password == "" then PasswordRequired else PasswordTooShort
      ensures ConfirmPasswordField in errors <==> password != confirmPassword
      ensures ConfirmPasswordField in errors ==> errors[ConfirmPasswordField] == PasswordsDiffer
      ensures valid <==> errors == map[]
      ensures valid <==> Acceptable(userName, email, password, confirmPassword)
    {
      Text.LooksLikeEmailNotBlank(email);
      var newErrors: map<Field, string> := map[];
      if Text.Trim(userName) == [] {
        newErrors := newErrors[UserNameField := UserNameRequired];
      } else if |userName| < 3 {
        newErrors := newErrors[UserNameField := UserNameTooShort];
      }
      if Text.Trim(email) == [] {
        newErrors := newErrors[EmailField := EmailRequired];
      } else if !Text.LooksLikeEmail(email) {
        newErrors := newErrors[EmailField := EmailInvalid];
      }
      if password == "" {
        newErrors := newErrors[PasswordField := PasswordRequired];
      } else if |password| < 6 {
        newErrors := newErrors[PasswordField := PasswordTooShort];
      }
      if password != confirmPassword {
        newErrors := newErrors[ConfirmPasswordField := PasswordsDiffer];
      }
      errors := newErrors;
      valid := errors == map[];
    }

    /** `handleSubmit(e)`: the data handed to `onSignUp`, exactly as entered, when the
        form validates. */
    method HandleSubmit() returns (submitted: Option<SignUpData>)
      modifies this
      ensures userName == old(userName) && email == old(email)
      ensures password == old(password) && confirmPassword == old(confirmPassword)
      ensures submitted.Some? <==> Acceptable(userName, email, password, confirmPassword)
      ensures submitted.Some? ==> submitted.value == SignUpData(userName, email, password)
    {
      var valid := ValidateForm();
      submitted := if valid then Some(SignUpData(userName, email, password)) else None;
    }

    /** `handleInputChange(field, value)`: stores the value in that field and, when the
        field shows an error, blanks the message. */
    method HandleInputChange(field: Field, value: string)
      modifies this
      ensures userName == (if field == UserNameField then value else old(userName))
      ensures email == (if field == EmailField then value else old(email))
      ensures password == (if field == PasswordField then value else old(password))
      ensures confirmPassword == (if field == ConfirmPasswordField then value else old(confirmPassword))
      ensures errors ==
        if field in old(errors) && old(errors)[field] != "" then old(errors)[field := ""] else old(errors)
    {
      match field {
        case UserNameField => userName := value;
        case EmailField => email := value;
        case PasswordField => password := value;
        case ConfirmPasswordField => confirmPassword := value;
      }
      if field in errors && errors[field] != "" {
        errors := errors[field := ""];
      }
    }
  }
}
