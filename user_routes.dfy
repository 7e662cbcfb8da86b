/**
 * The user routes that change the `user` table: profile update, password change and delete.
 * The caller's id is the `idUser` of the verified token (`req.data.user.idUser`).
 */
module UserRoutes {
  import opened Common
  import opened Users

  datatype UserError =
    | InvalidEmail           // "Correo no valido"
    | ProfileUpdateFailed    // "Error al modificar usuario, correo ya existe."
    | InvalidPassword        // "Clave no valida"
    | BcryptError            // "Error bcryptjs"
    | PasswordUpdateFailed   // "Error al modificar clave"
    | DeleteFailed           // "Error al eliminar usuario"

  /**
   * `PUT /`: an invalid email is rejected before any write; otherwise the caller's row gets
   * the normalised email and the new names. A failing update (a duplicate email) writes nothing.
   */
  method PutProfile(users: UserTable, caller: int, email: string, names: string, surnames: string,
                    validEmail: string -> bool, updateFails: bool)
    returns (r: Result<(), UserError>)
    requires users.Valid()
    modifies users`rows
    ensures users.Valid()
    ensures !validEmail(email) ==> r == Err(InvalidEmail) && users.rows == old(users.rows)
    ensures validEmail(email) && updateFails ==> r == Err(ProfileUpdateFailed) && users.rows == old(users.rows)
    ensures validEmail(email) && !updateFails ==>
      r == Ok(()) && users.rows == SetProfile(old(users.rows), caller, NormalizeEmail(email), names, surnames)
  {
    if !validEmail(email) {
      return Err(InvalidEmail);
    }
    if updateFails {
      return Err(ProfileUpdateFailed);
    }
    users.UpdateProfile(caller, NormalizeEmail(email), names, surnames);
    r := Ok(());
  }

  /**
   * `PUT /pw`: an invalid password is rejected before hashing; otherwise only the password
   * column of the caller's row changes, to the hash.
   */
  method PutPassword(users: UserTable, caller: int, password: string, validPassword: string -> bool,
                     hash: string -> Option<string>, updateFails: bool)
    returns (r: Result<(), UserError>)
    requires users.Valid()
    modifies users`rows
    ensures users.Valid()
    ensures !validPassword(password) ==> r == Err(InvalidPassword) && users.rows == old(users.rows)
    ensures validPassword(password) && hash(password).None? ==> r == Err(BcryptError) && users.rows == old(users.rows)
    ensures validPassword(password) && hash(password).Some? && updateFails ==>
      r == Err(PasswordUpdateFailed) && users.rows == old(users.rows)
    ensures validPassword(password) && hash(password).Some? && !updateFails ==>
      r == Ok(()) && users.rows == SetPassword(old(users.rows), caller, hash(password).value)
  {
    if !validPassword(password) {
      return Err(InvalidPassword);
    }
    var h := hash(password);
    if h.None? {
      return Err(BcryptError);
    }
    if updateFails {
      return Err(PasswordUpdateFailed);
    }
    users.UpdatePassword(caller, h.value);
    r := Ok(());
  }

  /** `DELETE /:idUser`: removes the requested row unless it is user 1. */
  method DeleteRoute(users: UserTable, target: int, deleteFails: bool) returns (r: Result<(), UserError>)
    requires users.Valid()
    modifies users`rows
    ensures users.Valid()
    ensures deleteFails ==> r == Err(DeleteFailed) && users.rows == old(users.rows)
    ensures !deleteFails ==> r == Ok(()) && users.rows == DeleteUser(old(users.rows), target)
  {
    if deleteFails {
      return Err(DeleteFailed);
    }
    users.Delete(target);
    r := Ok(());
  }

  /** A profile update changes no row but the caller's, and there only email, names and surnames. */
  lemma ProfileTouchesOnlyCaller(rows: seq<UserRow>, caller: int, email: string, names: string, surnames: string, i: int)
    requires 0 <= i < |rows|
    ensures var after := SetProfile(rows, caller, email, names, surnames);
      && after[i].id == rows[i].id && after[i].password == rows[i].password
      && after[i].idUserType == rows[i].idUserType && after[i].accountNumber == rows[i].accountNumber
      && (rows[i].id != caller ==> after[i] == rows[i])
  {
  }

  /** A password change alters nothing but the caller's password column. */
  lemma PasswordTouchesOnlyCaller(rows: seq<UserRow>, caller: int, hash: string, i: int)
    requires 0 <= i < |rows|
    ensures var after := SetPassword(rows, caller, hash);
      && after[i].(password := rows[i].password) == rows[i]
      && (rows[i].id != caller ==> after[i] == rows[i])
  {
  }

  /** The delete never removes user 1 and removes only rows with the requested id. */
  lemma DeleteSparesUserOne(rows: seq<UserRow>, target: int)
    ensures forall x :: x in rows && x.id == 1 ==> x in DeleteUser(rows, target)
    ensures forall x :: x in rows && x !in DeleteUser(rows, target) ==> x.id == target
  {
  }
}
