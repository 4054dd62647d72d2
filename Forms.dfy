/** The account forms: registration (a username and an email no account
    holds yet, and matching passwords) and the profile update (a username
    no other account holds; the email cannot be changed). Field-level
    cleaning is done before these checks and is not part of the model;
    the password hash is a parameter. */
module Forms {
  import opened Wrappers
  import opened Models

  datatype FormError = UsernameTaken | EmailTaken | PasswordMismatch

  /** The cleaned registration fields. An empty password means the field
      is missing from the cleaned data. */
  datatype Registration = Registration(firstName: string, lastName: string, username: string, email: string,
                                       password: string, confirmPassword: string)

  predicate UsernameHeld(users: map<nat, Account>, username: string) {
    exists u :: u in users && users[u].username == username
  }

  predicate EmailHeld(users: map<nat, Account>, email: string) {
    exists u :: u in users && users[u].email == email
  }

  /** The errors `clean_username`, `clean_email` and `clean` raise. */
  function RegistrationErrors(users: map<nat, Account>, data: Registration): (errs: set<FormError>)
    ensures UsernameTaken in errs <==> UsernameHeld(users, data.username)
    ensures EmailTaken in errs <==> EmailHeld(users, data.email)
    ensures PasswordMismatch in errs <==> data.password != [] && data.confirmPassword != [] && data.password != data.confirmPassword
    ensures errs <= {UsernameTaken, EmailTaken, PasswordMismatch}
  {
    (if UsernameHeld(users, data.username) then {UsernameTaken} else {})
    + (if EmailHeld(users, data.email) then {EmailTaken} else {})
    + (if data.password != [] && data.confirmPassword != [] && data.password != data.confirmPassword
       then {PasswordMismatch} else {})
  }

  /** Each username belongs to at most one account. */
  ghost predicate UniqueUsernames(users: map<nat, Account>) {
    forall u, v :: u in users && v in users && u != v ==> users[u].username != users[v].username
  }

  ghost predicate UniqueEmails(users: map<nat, Account>) {
    forall u, v :: u in users && v in users && u != v ==> users[u].email != users[v].email
  }

  /** The account `save` builds: the form's fields, and the password as
      `set_password` stores it. */
  function NewAccount(data: Registration, hash: string -> string): Account {
    Account(data.username, data.email, data.firstName, data.lastName, hash(data.password))
  }

  /** Adding an account that passed validation keeps usernames and
      emails unique. */
  lemma RegistrationKeepsUnique(users: map<nat, Account>, data: Registration, hash: string -> string, id: nat)
    requires RegistrationErrors(users, data) == {} && id !in users
    ensures UniqueUsernames(users) ==> UniqueUsernames(users[id := NewAccount(data, hash)])
    ensures UniqueEmails(users) ==> UniqueEmails(users[id := NewAccount(data, hash)])
  {
    assert UsernameTaken !in RegistrationErrors(users, data);
    assert EmailTaken !in RegistrationErrors(users, data);
  }

  /** A held username or email always fails registration. */
  lemma RegistrationRejectsHeld(users: map<nat, Account>, u: nat, data: Registration)
    requires u in users
    requires data.username == users[u].username || data.email == users[u].email
    ensures RegistrationErrors(users, data) != {}
  {
    if data.username == users[u].username {
      assert UsernameTaken in RegistrationErrors(users, data);
    } else {
      assert EmailTaken in RegistrationErrors(users, data);
    }
  }

  datatype Saved = NotValid | SavedAccount(account: Account, id: Option<nat>)

  /** `UserRegistrationForm.save(commit)`: a form with errors cannot be
      saved; otherwise the account is built and stored only when
      `commit` holds. */
  method Register(db: Store, data: Registration, commit: bool, hash: string -> string) returns (r: Saved)
    requires db.Valid()
    modifies db
    ensures db.Valid()
    ensures RegistrationErrors(old(db.users), data) != {} ==> r == NotValid && db.users == old(db.users)
    ensures RegistrationErrors(old(db.users), data) == {} ==>
      && r.SavedAccount? && r.account == NewAccount(data, hash)
      && (commit <==> r.id.Some?)
      && (commit ==> r.id.value !in old(db.users) && db.users == old(db.users)[r.id.value := r.account])
      && (!commit ==> db.users == old(db.users))
    ensures db.challenges == old(db.challenges) && db.completions == old(db.completions)
    ensures db.credits == old(db.credits) && db.devices == old(db.devices)
  {
    if RegistrationErrors(db.users, data) != {} {
      return NotValid;
    }
    var account := NewAccount(data, hash);
    if commit {
      var id := db.AddUser(account);
      r := SavedAccount(account, Some(id));
    } else {
      r := SavedAccount(account, None);
    }
  }

  // ------------------------------------------------------------ profile

  /** The submitted profile fields. */
  datatype ProfileData = ProfileData(firstName: string, lastName: string, username: string, email: string)

  /** The profile form for the account `instance`. */
  class ProfileForm {
    var instance: nat
    var emailDisabled: bool

    /** The form starts with its email field disabled. */
    constructor (instance: nat)
      ensures this.instance == instance && emailDisabled
    {
      this.instance := instance;
      emailDisabled := true;
    }

    /** `clean_username`: the username fails when an account other than
        the one edited holds it. */
    predicate UsernameTaken(users: map<nat, Account>, username: string)
      reads this
    {
      exists v :: v in users && v != instance && users[v].username == username
    }

    /** The email the form cleans to: a disabled field keeps the stored
        value whatever was submitted. */
    function CleanedEmail(users: map<nat, Account>, submitted: string): (e: string)
      reads this
      requires instance in users
      ensures emailDisabled ==> e == users[instance].email
    {
      if emailDisabled then users[instance].email else submitted
    }

    /** Validates and saves the profile. The password is untouched. */
    method Save(db: Store, data: ProfileData) returns (saved: bool)
      requires db.Valid() && instance in db.users
      modifies db
      ensures db.Valid()
      ensures saved <==> !UsernameTaken(old(db.users), data.username)
      ensures saved ==> db.users == old(db.users)[instance := Updated(old(db.users), data)]
      ensures !saved ==> db.users == old(db.users)
      ensures db.challenges == old(db.challenges) && db.completions == old(db.completions)
      ensures db.credits == old(db.credits) && db.devices == old(db.devices)
    {
      if UsernameTaken(db.users, data.username) {
        return false;
      }
      db.UpdateUser(instance, Updated(db.users, data));
      saved := true;
    }

    /** The account after a successful update. */
    function Updated(users: map<nat, Account>, data: ProfileData): (a: Account)
      reads this
      requires instance in users
      ensures emailDisabled ==> a.email == users[instance].email
      ensures a.password == users[instance].password
      ensures a.username == data.username
    {
      Account(data.username, CleanedEmail(users, data.email), data.firstName, data.lastName, users[instance].password)
    }
  }

  /** Keeping one's own username passes the check; usernames stay unique
      after an update that passes it; and an edit to a name another
      account holds fails. */
  lemma ProfileUsernameRule(form: ProfileForm, users: map<nat, Account>, data: ProfileData)
    requires form.instance in users && UniqueUsernames(users)
    ensures data.username == users[form.instance].username ==> !form.UsernameTaken(users, data.username)
    ensures !form.UsernameTaken(users, data.username) ==> UniqueUsernames(users[form.instance := form.Updated(users, data)])
    ensures (exists v :: v in users && v != form.instance && users[v].username == data.username) ==>
      form.UsernameTaken(users, data.username)
  {
  }
}
