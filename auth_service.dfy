/** `AuthService`: the admins table, the default-admin bootstrap, login,
    admin creation and password change. Hashing, hash comparison and token
    signing are supplied as functions. */
module AuthService {
  import opened Wrappers
  import Seqs
  import opened Store

  /** `config.defaultAdminUsername` and `config.defaultAdminPassword`. */
  datatype Settings = Settings(defaultAdminUsername: string, defaultAdminPassword: string)

  /** The values the environment does not override. */
  const DefaultSettings := Settings("admin", "admin123")

  /** The public part of an admin: what login returns as `user`, what
      `createAdmin` returns, and the claims a token is signed over. */
  datatype Principal = Principal(id: string, username: string, isAdmin: bool)

  /** `bcrypt.hash`, `bcrypt.compare` and `jwt.sign` with the configured
      secret and expiry. */
  datatype Crypto = Crypto(
    hash: string -> string,
    compare: (string, string) -> bool,
    sign: Principal -> string)

  /** A comparison that recognises every password against its own hash. */
  ghost predicate Sound(crypto: Crypto) {
    forall p :: crypto.compare(p, crypto.hash(p))
  }

  datatype Session = Session(token: string, user: Principal)

  const InvalidCredentials := "Invalid credentials"
  const AlreadyExists := "Admin already exists"
  const AdminNotFound := "Admin not found"
  const WrongPassword := "Current password is incorrect"

  function PrincipalOf(row: AdminRow): Principal {
    Principal(row.id, row.username, row.isAdmin)
  }

  predicate HasUsername(admins: seq<AdminRow>, username: string) {
    exists k :: 0 <= k < |admins| && admins[k].username == username
  }

  predicate UsernamesDistinct(admins: seq<AdminRow>) {
    forall i, j :: 0 <= i < j < |admins| ==> admins[i].username != admins[j].username
  }

  /** `initializeDefaultAdmin()`, with `freshId` the value of `uuidv4()`. */
  function BootstrapOutcome(admins: seq<AdminRow>, settings: Settings, crypto: Crypto,
                            freshId: string, now: string): seq<AdminRow>
  {
    if |admins| == 0
    then [AdminRow(freshId, settings.defaultAdminUsername, crypto.hash(settings.defaultAdminPassword),
                   true, now, None)]
    else admins
  }

  method InitializeDefaultAdmin(db: Database, settings: Settings, crypto: Crypto, freshId: string, now: string)
    modifies db
    ensures db.admins == BootstrapOutcome(old(db.admins), settings, crypto, freshId, now)
    ensures db.categories == old(db.categories) && db.subcategories == old(db.subcategories)
    ensures db.products == old(db.products)
  {
    var count := |db.admins|;
    if count == 0 {
      var hashed := crypto.hash(settings.defaultAdminPassword);
      db.admins := db.admins + [AdminRow(freshId, settings.defaultAdminUsername, hashed, true, now, None)];
    }
  }

  /** The bootstrap inserts exactly one admin, holding the default username,
      the hash of the default password and the admin flag, exactly when the
      table is empty; otherwise nothing changes. */
  lemma BootstrapOnlyWhenEmpty(admins: seq<AdminRow>, settings: Settings, crypto: Crypto,
                               freshId: string, now: string)
    ensures var r := BootstrapOutcome(admins, settings, crypto, freshId, now);
      && (|admins| > 0 <==> r == admins)
      && (|admins| == 0 ==>
            (|r| == 1 && r[0].username == settings.defaultAdminUsername
             && r[0].password == crypto.hash(settings.defaultAdminPassword) && r[0].isAdmin))
  {
  }

  /** `login(username, password)`: the first admin with that username, if
      the password matches its hash. */
  function Login(admins: seq<AdminRow>, username: string, password: string, crypto: Crypto): Result<Session> {
    match Seqs.FindIndex(admins, (row: AdminRow) => row.username == username)
    case None => Err(InvalidCredentials)
    case Some(k) =>
      if !crypto.compare(password, admins[k].password) then Err(InvalidCredentials)
      else Ok(Session(crypto.sign(PrincipalOf(admins[k])), PrincipalOf(admins[k])))
  }

  /** An unknown username and a wrong password fail alike, so a caller
      cannot tell which one it got wrong. */
  lemma LoginFailuresAlike(admins: seq<AdminRow>, username: string, password: string, crypto: Crypto)
    ensures !HasUsername(admins, username) ==> Login(admins, username, password, crypto) == Err(InvalidCredentials)
    ensures Login(admins, username, password, crypto).Err? ==>
      Login(admins, username, password, crypto) == Err(InvalidCredentials)
  {
  }

  /** A successful login returns the id, username and admin flag of the
      first admin with that username, whose stored hash matches the
      password, and a token signed over those same three fields. */
  lemma LoginReturnsPublicFields(admins: seq<AdminRow>, username: string, password: string, crypto: Crypto)
    requires Login(admins, username, password, crypto).Ok?
    ensures var s := Login(admins, username, password, crypto).value;
      exists k :: 0 <= k < |admins| && admins[k].username == username
        && crypto.compare(password, admins[k].password)
        && s.user == Principal(admins[k].id, admins[k].username, admins[k].isAdmin)
        && (forall j :: 0 <= j < k ==> admins[j].username != username)
    ensures var s := Login(admins, username, password, crypto).value;
      s.token == crypto.sign(s.user) && s.user.username == username
  {
  }

  /** With a sound comparison, the default credentials log in right after
      the bootstrap has filled an empty table. */
  lemma BootstrapThenLogin(settings: Settings, crypto: Crypto, freshId: string, now: string)
    requires Sound(crypto)
    ensures var admins := BootstrapOutcome([], settings, crypto, freshId, now);
      Login(admins, settings.defaultAdminUsername, settings.defaultAdminPassword, crypto)
        == Ok(Session(crypto.sign(Principal(freshId, settings.defaultAdminUsername, true)),
                      Principal(freshId, settings.defaultAdminUsername, true)))
  {
    var admins := BootstrapOutcome([], settings, crypto, freshId, now);
    assert crypto.compare(settings.defaultAdminPassword, crypto.hash(settings.defaultAdminPassword));
    assert admins[0].username == settings.defaultAdminUsername;
  }

  /** `createAdmin(username, password)`. */
  function CreateAdminOutcome(admins: seq<AdminRow>, username: string, password: string,
                              crypto: Crypto, freshId: string, now: string): Change<Principal, AdminRow>
  {
    if HasUsername(admins, username) then Change(Err(AlreadyExists), admins)
    else if exists k :: 0 <= k < |admins| && admins[k].id == freshId then Change(Err(DuplicateKey), admins)
    else
      var row := AdminRow(freshId, username, crypto.hash(password), true, now, None);
      Change(Ok(PrincipalOf(row)), admins + [row])
  }

  method CreateAdmin(db: Database, username: string, password: string, crypto: Crypto,
                     freshId: string, now: string) returns (r: Result<Principal>)
    modifies db
    ensures Change(r, db.admins) == CreateAdminOutcome(old(db.admins), username, password, crypto, freshId, now)
    ensures db.categories == old(db.categories) && db.subcategories == old(db.subcategories)
    ensures db.products == old(db.products)
  {
    if HasUsername(db.admins, username) {
      return Err(AlreadyExists);
    }
    var hashed := crypto.hash(password);
    if exists k :: 0 <= k < |db.admins| && db.admins[k].id == freshId {
      return Err(DuplicateKey);
    }
    var row := AdminRow(freshId, username, hashed, true, now, None);
    db.admins := db.admins + [row];
    r := Ok(PrincipalOf(row));
  }

  /** An existing username is refused and the table is unchanged; otherwise
      one row is appended with the admin flag set and the password stored
      only as its hash, and the result carries id, username and the flag. */
  lemma CreateAdminAppendsAdmin(admins: seq<AdminRow>, username: string, password: string,
                                crypto: Crypto, freshId: string, now: string)
    ensures var o := CreateAdminOutcome(admins, username, password, crypto, freshId, now);
      && (HasUsername(admins, username) ==> o == Change(Err(AlreadyExists), admins))
      && (o.result.Err? ==> o.rows == admins)
      && (o.result.Ok? ==>
            (|o.rows| == |admins| + 1 && o.rows[..|admins|] == admins
             && o.rows[|admins|].isAdmin && o.rows[|admins|].password == crypto.hash(password)
             && o.result.value == Principal(freshId, username, true)))
  {
  }

  /** `createAdmin` keeps usernames distinct. */
  lemma CreateAdminKeepsUsernamesDistinct(admins: seq<AdminRow>, username: string, password: string,
                                          crypto: Crypto, freshId: string, now: string)
    requires UsernamesDistinct(admins)
    ensures UsernamesDistinct(CreateAdminOutcome(admins, username, password, crypto, freshId, now).rows)
  {
    var o := CreateAdminOutcome(admins, username, password, crypto, freshId, now);
    if o.result.Ok? {
      forall i, j | 0 <= i < j < |o.rows| ensures o.rows[i].username != o.rows[j].username {
        if j == |admins| {
          assert o.rows[i] == admins[i];
        } else {
          assert o.rows[i] == admins[i] && o.rows[j] == admins[j];
        }
      }
    }
  }

  /** The UPDATE statement: the password hash and `updated_at` of every row
      with the id. */
  function SetPassword(admins: seq<AdminRow>, adminId: string, hashed: string, now: string): (r: seq<AdminRow>)
    ensures |r| == |admins|
  {
    seq(|admins|, k requires 0 <= k < |admins| =>
      if admins[k].id == adminId then admins[k].(password := hashed, updatedAt := Some(now)) else admins[k])
  }

  /** `changePassword(adminId, oldPassword, newPassword)`. */
  function ChangePasswordOutcome(admins: seq<AdminRow>, adminId: string, oldPassword: string,
                                 newPassword: string, crypto: Crypto, now: string): Change<bool, AdminRow>
  {
    match Seqs.FindIndex(admins, (row: AdminRow) => row.id == adminId)
    case None => Change(Err(AdminNotFound), admins)
    case Some(k) =>
      if !crypto.compare(oldPassword, admins[k].password) then Change(Err(WrongPassword), admins)
      else Change(Ok(true), SetPassword(admins, adminId, crypto.hash(newPassword), now))
  }

  method ChangePassword(db: Database, adminId: string, oldPassword: string, newPassword: string,
                        crypto: Crypto, now: string) returns (r: Result<bool>)
    modifies db
    ensures Change(r, db.admins) == ChangePasswordOutcome(old(db.admins), adminId, oldPassword, newPassword, crypto, now)
    ensures db.categories == old(db.categories) && db.subcategories == old(db.subcategories)
    ensures db.products == old(db.products)
  {
    var found := Seqs.FindIndex(db.admins, (row: AdminRow) => row.id == adminId);
    if found.None? {
      return Err(AdminNotFound);
    }
    var admin := db.admins[found.value];
    if !crypto.compare(oldPassword, admin.password) {
      return Err(WrongPassword);
    }
    var hashed := crypto.hash(newPassword);
    db.admins := SetPassword(db.admins, adminId, hashed, now);
    r := Ok(true);
  }

  /** Both failures leave the table as it was; a success changes only the
      password hash and `updated_at` of the admin with that id. */
  lemma ChangePasswordTouchesOnlyThatAdmin(admins: seq<AdminRow>, adminId: string, oldPassword: string,
                                           newPassword: string, crypto: Crypto, now: string)
    ensures var o := ChangePasswordOutcome(admins, adminId, oldPassword, newPassword, crypto, now);
      && ((forall k :: 0 <= k < |admins| ==> admins[k].id != adminId) ==> o == Change(Err(AdminNotFound), admins))
      && (o.result.Err? ==> o.rows == admins && (o.result == Err(AdminNotFound) || o.result == Err(WrongPassword)))
      && |o.rows| == |admins|
      && (forall k :: 0 <= k < |admins| && admins[k].id != adminId ==> o.rows[k] == admins[k])
      && (o.result.Ok? ==> forall k :: 0 <= k < |admins| && admins[k].id == adminId ==>
            o.rows[k] == admins[k].(password := crypto.hash(newPassword), updatedAt := Some(now)))
  {
  }

  /** With a sound comparison and distinct usernames, the new password logs
      the admin in after a successful change. */
  lemma ChangePasswordThenLogin(admins: seq<AdminRow>, adminId: string, oldPassword: string,
                                newPassword: string, crypto: Crypto, now: string, k: nat)
    requires Sound(crypto) && UsernamesDistinct(admins)
    requires k < |admins| && admins[k].id == adminId
    requires ChangePasswordOutcome(admins, adminId, oldPassword, newPassword, crypto, now).result.Ok?
    ensures var after := ChangePasswordOutcome(admins, adminId, oldPassword, newPassword, crypto, now).rows;
      Login(after, admins[k].username, newPassword, crypto) == Ok(Session(crypto.sign(PrincipalOf(admins[k])), PrincipalOf(admins[k])))
  {
    var after := ChangePasswordOutcome(admins, adminId, oldPassword, newPassword, crypto, now).rows;
    ChangePasswordTouchesOnlyThatAdmin(admins, adminId, oldPassword, newPassword, crypto, now);
    var found := Seqs.FindIndex(after, (row: AdminRow) => row.username == admins[k].username);
    assert after[k].username == admins[k].username;
    assert found.Some?;
    assert found.value == k by {
      var j := found.value;
      assert after[j].username == admins[j].username;
    }
    assert crypto.compare(newPassword, crypto.hash(newPassword));
  }
}
