/**
 * The password-change form: the field errors of `validate`, the request it guards, and the
 * mapping of the backend's rejection of the current password onto that field.
 */
module ChangePassword {

  import opened Wrappers
  import opened Strings

  datatype Field = CurrentPassword | NewPassword | ConfirmPassword

  /** The error object: at most one message per field. */
  type Errors = map<Field, string>

  const CurrentRequired := "La contraseña actual es requerida"
  const NewRequired := "La nueva contraseña es requerida"
  const TooShort := "La contraseña debe tener al menos 6 caracteres"
  const ConfirmRequired := "Confirma tu nueva contraseña"
  const Mismatch := "Las contraseñas no coinciden"
  const MustDiffer := "La nueva contraseña debe ser diferente a la actual"
  const MinLength := 6

  /**
   * `validate`: each field's error, where a new password equal to the current one replaces
   * any other error on the new-password field (two empty passwords included).
   */
  function Validate(current: string, next: string, confirm: string): (e: Errors)
    ensures CurrentPassword in e <==> current == []
    ensures CurrentPassword in e ==> e[CurrentPassword] == CurrentRequired
    ensures NewPassword in e <==> |next| < MinLength || next == current
    ensures NewPassword in e ==>
      e[NewPassword] == (if next == current then MustDiffer else if next == [] then NewRequired else TooShort)
    ensures ConfirmPassword in e <==> confirm == [] || confirm != next
    ensures ConfirmPassword in e ==> e[ConfirmPassword] == (if confirm == [] then ConfirmRequired else Mismatch)
  {
    var e0: Errors := if current == [] then map[CurrentPassword := CurrentRequired] else map[];
    var e1 := if next == [] then e0[NewPassword := NewRequired]
              else if |next| < MinLength then e0[NewPassword := TooShort]
              else e0;
    var e2 := if confirm == [] then e1[ConfirmPassword := ConfirmRequired]
              else if next != confirm then e1[ConfirmPassword := Mismatch]
              else e1;
    if current == next then e2[NewPassword := MustDiffer] else e2
  }

  /** `validate()`'s answer: no error key at all. */
  function IsValid(current: string, next: string, confirm: string): (ok: bool)
    ensures ok <==> Validate(current, next, confirm) == map[]
  {
    Validate(current, next, confirm) == map[]
  }

  /**
   * The form is accepted exactly when the current password is given, the next one has at
   * least six characters and differs from it, and the confirmation repeats it.
   */
  lemma ValidIff(current: string, next: string, confirm: string)
    ensures IsValid(current, next, confirm) <==>
      current != [] && |next| >= MinLength && next != current && confirm == next
  {
    var e := Validate(current, next, confirm);
    if current == [] {
      assert CurrentPassword in e;
    } else if |next| < MinLength || next == current {
      assert NewPassword in e;
    } else if confirm != next {
      assert ConfirmPassword in e;
    }
  }

  /** Reusing the current password is refused with the 'debe ser diferente' message, whatever else holds. */
  lemma SamePasswordRefused(p: string, confirm: string)
    ensures !IsValid(p, p, confirm)
    ensures Validate(p, p, confirm)[NewPassword] == MustDiffer
  {
    assert NewPassword in Validate(p, p, confirm);
  }

  datatype Outcome =
    | NotSent(errors: Errors)
    | Sent(current: string, next: string)

  /** `handleSubmit`: the request is sent only when the form is valid. */
  function HandleSubmit(current: string, next: string, confirm: string): (o: Outcome)
    ensures o.Sent? <==> IsValid(current, next, confirm)
    ensures o.Sent? ==> o.current == current && o.next == next
    ensures o.NotSent? ==> o.errors == Validate(current, next, confirm) && o.errors != map[]
  {
    if IsValid(current, next, confirm) then Sent(current, next) else NotSent(Validate(current, next, confirm))
  }

  const IncorrectCurrent := "La contraseña actual es incorrecta"

  /**
   * A rejected request: the toast shows the backend's `detail`, or a generic message; the
   * errors become a single current-password error when the message reports a wrong current
   * password, and are kept otherwise.
   */
  function OnFailure(detail: Option<string>, errors: Errors): (r: (string, Errors))
    ensures detail.Some? && detail.value != [] ==> r.0 == detail.value
    ensures Contains(r.0, "Current password is incorrect") ==> r.1 == map[CurrentPassword := IncorrectCurrent]
    ensures !Contains(r.0, "Current password is incorrect") ==> r.1 == errors
    ensures detail.None? || detail.value == [] ==> r.1 == errors
  {
    var message := if detail.Some? && detail.value != [] then detail.value else "Error al cambiar la contraseña";
    assert detail.None? || detail.value == [] ==> !Contains(message, "Current password is incorrect") by {
      if detail.None? || detail.value == [] {
        DefaultMessageHasNoPhrase();
      }
    }
    (message, if Contains(message, "Current password is incorrect") then map[CurrentPassword := IncorrectCurrent] else errors)
  }

  lemma DefaultMessageHasNoPhrase()
    ensures !Contains("Error al cambiar la contraseña", "Current password is incorrect")
  {
    var m := "Error al cambiar la contraseña";
    var phrase := "Current password is incorrect";
    forall i | 0 <= i <= |m| - |phrase| ensures !OccursAt(m, phrase, i) {
      assert m[i..i + |phrase|][0] == m[i] != phrase[0];
    }
  }
}
