/** The login form: email and password, their error messages, and the checks run before
    the entered credentials are handed on. */
module Login {
  import opened Wrappers
  import Text

  datatype Field = EmailField | PasswordField

  const EmailRequired: string := "Email is required"
  const EmailInvalid: string := "Email is invalid"
  const PasswordRequired: string := "Password is required"

  /** What `onLogin` receives. */
  datatype Credentials = Credentials(email: string, password: string)

  /** The entries the form lets through: an address the email pattern accepts and any
      non-empty password (there is no minimum length here). */
  predicate Acceptable(email: string, password: string) {
    Text.LooksLikeEmail(email) && password != ""
  }

  class LoginForm {
    var email: string
    var password: string
    var errors: map<Field, string>

    constructor ()
      ensures email == "" && password == "" && errors == map[]
    {
      email, password := "", "";
      errors := map[];
    }

    /** `validateForm()`: records one message per failing field, replacing the previous
        errors, and reports whether none was recorded. */
    method ValidateForm() returns (valid: bool)
      modifies this
      ensures email == old(email) && password == old(password)
      ensures EmailField in errors <==> !Text.LooksLikeEmail(email)
      ensures EmailField in errors ==>
        errors[EmailField] == if Text.Trim(email) == [] then EmailRequired else EmailInvalid
      ensures PasswordField in errors <==> password == ""
      ensures PasswordField in errors ==> errors[PasswordField] == PasswordRequired
      ensures valid <==> errors == map[]
      ensures valid <==> Acceptable(email, password)
    {
      Text.LooksLikeEmailNotBlank(email);
      var newErrors: map<Field, string> := map[];
      if Text.Trim(email) == [] {
        newErrors := newErrors[EmailField := EmailRequired];
      } else if !Text.LooksLikeEmail(email) {
        newErrors := newErrors[EmailField := EmailInvalid];
      }
      if password == "" {
        newErrors := newErrors[PasswordField := PasswordRequired];
      }
      errors := newErrors;
      valid := errors == map[];
    }

    /** `handleSubmit(e)`: the credentials handed to `onLogin`, exactly as entered, when the
        form validates. */
    method HandleSubmit() returns (submitted: Option<Credentials>)
      modifies this
      ensures email == old(email) && password == old(password)
      ensures submitted.Some? <==> Acceptable(email, password)
      ensures submitted.Some? ==> submitted.value == Credentials(email, password)
    {
      var valid := ValidateForm();
      submitted := if valid then Some(Credentials(email, password)) else None;
    }

    /** `handleInputChange(field, value)`: stores the value in that field and, when the
        field shows an error, blanks the message. */
    method HandleInputChange(field: Field, value: string)
      modifies this
      ensures email == (if field == EmailField then value else old(email))
      ensures password == (if field == PasswordField then value else old(password))
      ensures errors ==
        if field in old(errors) && old(errors)[field] != "" then old(errors)[field := ""] else old(errors)
    {
      match field {
        case EmailField => email := value;
        case PasswordField => password := value;
      }
      if field in errors && errors[field] != "" {
        errors := errors[field := ""];
      }
    }
  }
}
