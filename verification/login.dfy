/**
 * The login form: the field errors of `validate` (with the unanchored e-mail pattern
 * `\S+@\S+\.\S+`), the destination after a login, and the mapping of a rejected login onto
 * the password field.
 */
module Login {

  import opened Wrappers
  import opened Strings

  datatype Field = Email | Password

  type Errors = map<Field, string>

  /**
   * `/\S+@\S+\.\S+/.test(s)`: some '@' at `at` and '.' at `dot` with at least one character
   * before the '@', between the two and after the '.', all of that stretch free of white space.
   */
  predicate EmailPattern(s: string) {
    exists at, dot | 1 <= at && at + 2 <= dot && dot + 2 <= |s| :: MatchAt(s, at, dot)
  }

  predicate MatchAt(s: string, at: int, dot: int)
    requires 1 <= at && at + 2 <= dot && dot + 2 <= |s|
  {
    s[at] == '@' && s[dot] == '.' && forall k | at - 1 <= k <= dot + 1 :: !IsJsSpace(s[k])
  }

  const EmailRequired := "El email es requerido"
  const EmailInvalid := "El email no es válido"
  const PasswordRequired := "La contraseña es requerida"

  /** `validate`: a required, pattern-matching e-mail and a required password. */
  function Validate(email: string, password: string): (e: Errors)
    ensures Email in e <==> email == [] || !EmailPattern(email)
    ensures Email in e ==> e[Email] == if email == [] then EmailRequired else EmailInvalid
    ensures Password in e <==> password == []
    ensures Password in e ==> e[Password] == PasswordRequired
  {
    var e0: Errors := if email == [] then map[Email := EmailRequired]
                      else if !EmailPattern(email) then map[Email := EmailInvalid]
                      else map[];
    if password == [] then e0[Password := PasswordRequired] else e0
  }

  /** An accepted e-mail has an '@' with a '.' somewhere after it. */
  lemma AcceptedEmailHasAtAndDot(email: string, password: string)
    requires Email !in Validate(email, password)
    ensures exists i, j | 0 <= i < j < |email| :: email[i] == '@' && email[j] == '.'
  {
    var at, dot :| 1 <= at && at + 2 <= dot && dot + 2 <= |email| && MatchAt(email, at, dot);
    assert email[at] == '@' && email[dot] == '.';
  }

  /** The pattern is not anchored: text around a matching address does not matter. */
  lemma PatternUnanchored(prefix: string, address: string, suffix: string)
    requires EmailPattern(address)
    ensures EmailPattern(prefix + address + suffix)
  {
    var at, dot :| 1 <= at && at + 2 <= dot && dot + 2 <= |address| && MatchAt(address, at, dot);
    var s := prefix + address + suffix;
    var n := |prefix|;
    forall k | n + at - 1 <= k <= n + dot + 1 ensures s[k] == address[k - n] {
    }
    assert MatchAt(s, n + at, n + dot);
  }

  /**
   * `\S+` must reach the '@' from the left: a text whose every '@' opens it or follows
   * white space never matches.
   */
  lemma SpaceBeforeEveryAtRefused(s: string)
    requires forall i | 0 <= i < |s| && s[i] == '@' :: i == 0 || IsJsSpace(s[i - 1])
    ensures !EmailPattern(s)
  {
    forall at, dot | 1 <= at && at + 2 <= dot && dot + 2 <= |s| ensures !MatchAt(s, at, dot) {
      if s[at] == '@' {
        assert IsJsSpace(s[at - 1]);
      }
    }
  }

  /** White space right before the only '@' breaks the pattern: "a @b.c" is refused. */
  lemma SpaceBeforeAtRefused()
    ensures !EmailPattern("a @b.c")
  {
    var s := "a @b.c";
    assert forall i | 0 <= i < |s| && s[i] == '@' :: i == 2;
    SpaceBeforeEveryAtRefused(s);
  }

  /** The shortest accepted shape. */
  lemma ShortestAccepted()
    ensures EmailPattern("a@b.c")
  {
    assert MatchAt("a@b.c", 1, 3);
  }

  /** `validate()`'s answer: no error key at all. */
  function IsValid(email: string, password: string): (ok: bool)
    ensures ok <==> email != [] && EmailPattern(email) && password != []
  {
    var e := Validate(email, password);
    assert email == [] || !EmailPattern(email) ==> Email in e;
    assert password == [] ==> Password in e;
    e == map[]
  }

  datatype Outcome = NotSent(errors: Errors) | CallLogin(username: string, password: string)

  /** `handleSubmit`: an invalid form never reaches `login`; a valid one sends the e-mail as the username. */
  function HandleSubmit(email: string, password: string): (o: Outcome)
    ensures o.CallLogin? <==> IsValid(email, password)
    ensures o.CallLogin? ==> o.username == email && o.password == password
    ensures o.NotSent? ==> o.errors == Validate(email, password) && o.errors != map[]
  {
    if IsValid(email, password) then CallLogin(email, password) else NotSent(Validate(email, password))
  }

  const ChangePasswordPath := "/change-password"

  /** `location.state?.from?.pathname || '/'`. */
  function ReturnPath(from: Option<string>): (p: string)
    ensures p != []
    ensures from.Some? && from.value != [] ==> p == from.value
  {
    if from.Some? && from.value != [] then from.value else "/"
  }

  /**
   * Where a successful login goes: the password-change page when the user must change the
   * password, otherwise back to the page that sent them to login, or the home page.
   */
  function AfterLogin(mustChangePassword: bool, from: Option<string>): (p: string)
    ensures mustChangePassword ==> p == ChangePasswordPath
    ensures !mustChangePassword ==> p == ReturnPath(from)
    ensures !mustChangePassword && (from.None? || from.value == []) ==> p == "/"
  {
    if mustChangePassword then ChangePasswordPath else ReturnPath(from)
  }

  const WrongCredentials := "Email o contraseña incorrectos"

  /** The text of a rejected login: the backend's `detail`, the error's message, or a default. */
  function FailureMessage(detail: Option<string>, message: Option<string>): (m: string)
    ensures m != []
    ensures detail.Some? && detail.value != [] ==> m == detail.value
    ensures !(detail.Some? && detail.value != []) && message.Some? && message.value != [] ==> m == message.value
  {
    if detail.Some? && detail.value != [] then detail.value
    else if message.Some? && message.value != [] then message.value
    else "Error al iniciar sesión"
  }

  /**
   * A rejected login: a message that mentions 'Incorrect email or password' or 'incorrect'
   * replaces the errors by a single password error, which never names the e-mail field;
   * other messages leave the errors as they were.
   */
  function OnFailure(message: string, errors: Errors): (e: Errors)
    ensures Contains(message, "Incorrect email or password") || Contains(message, "incorrect") ==>
      e == map[Password := WrongCredentials] && Email !in e
    ensures !(Contains(message, "Incorrect email or password") || Contains(message, "incorrect")) ==> e == errors
  {
    if Contains(message, "Incorrect email or password") || Contains(message, "incorrect") then
      map[Password := WrongCredentials]
    else errors
  }
}
