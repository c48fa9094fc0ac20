/** Accounts: the user table, its lookups and its unique constraints. */
module Accounts {
  import opened Outcomes
  import opened Credentials

  datatype Status = Enabled | Invited | Disabled

  datatype User = User(
    email: string,
    displayName: string,
    status: Status,
    emailVerified: bool,
    password: Option<PasswordHash>,
    googleSub: Option<string>,
    deleted: bool)

  type UserTable = map<Id, User>

  predicate Live(rows: UserTable, id: Id) { id in rows && !rows[id].deleted }

  function WithEmail(rows: UserTable, email: string): set<Id> {
    set i | i in rows && Live(rows, i) && rows[i].email == email
  }

  function WithSub(rows: UserTable, sub: string): set<Id> {
    set i | i in rows && Live(rows, i) && rows[i].googleSub == Some(sub)
  }

  /** The unique constraints on email and google_sub; they cover deleted rows too. */
  predicate Fits(rows: UserTable, id: Id, u: User) {
    forall i :: i in rows && i != id ==>
      rows[i].email != u.email && (u.googleSub.Some? ==> rows[i].googleSub != u.googleSub)
  }

  /** What a flush of row `id` leaves, or the database's refusal. */
  function Put(rows: UserTable, id: Id, u: User): Result<UserTable, AuthError> {
    if Fits(rows, id, u) then Ok(rows[id := u]) else Err(IntegrityError)
  }

  function Insert(rows: UserTable, id: Id, u: User): Result<UserTable, AuthError> {
    if id in rows then Err(IntegrityError) else Put(rows, id, u)
  }

  class UserRepository {
    var rows: UserTable

    constructor ()
      ensures rows == map[]
    {
      rows := map[];
    }

    method Get(id: Id) returns (found: bool)
      ensures found <==> Live(rows, id)
    {
      found := id in rows && !rows[id].deleted;
    }

    method GetByEmail(email: string) returns (r: Result<Option<Id>, AuthError>)
      ensures r == ScalarOneOrNone(WithEmail(rows, email))
    {
      r := Scalar(WithEmail(rows, email));
    }

    method GetByGoogleSub(sub: string) returns (r: Result<Option<Id>, AuthError>)
      ensures r == ScalarOneOrNone(WithSub(rows, sub))
    {
      r := Scalar(WithSub(rows, sub));
    }

    method EmailExists(email: string) returns (r: bool)
      ensures r <==> WithEmail(rows, email) != {}
    {
      r := exists i :: i in rows && !rows[i].deleted && rows[i].email == email;
      if r {
        var i :| i in rows && !rows[i].deleted && rows[i].email == email;
        assert i in WithEmail(rows, email);
      }
    }

    method Create(id: Id, u: User) returns (ok: bool)
      modifies this
      ensures ok <==> Insert(old(rows), id, u).Ok?
      ensures rows == if ok then Insert(old(rows), id, u).value else old(rows)
    {
      ok := id !in rows && Fits(rows, id, u);
      if ok { rows := rows[id := u]; }
    }

    /** Fields assigned on a loaded row, then flushed. */
    method Flush(id: Id, u: User) returns (ok: bool)
      modifies this
      ensures ok <==> Put(old(rows), id, u).Ok?
      ensures rows == if ok then Put(old(rows), id, u).value else old(rows)
    {
      ok := Fits(rows, id, u);
      if ok { rows := rows[id := u]; }
    }
  }

  // ---- What every write keeps --------------------------------------------------------------

  predicate HasCredential(u: User) { u.password.Some? || u.googleSub.Some? }

  /** Emails and Google identities are unique, and every live account can sign in. */
  ghost predicate Sound(rows: UserTable) {
    && (forall i, j :: i in rows && j in rows && rows[i].email == rows[j].email ==> i == j)
    && (forall i, j ::
        i in rows && j in rows && rows[i].googleSub.Some? && rows[i].googleSub == rows[j].googleSub ==> i == j)
    && (forall i :: i in rows ==> rows[i].deleted || HasCredential(rows[i]))
  }

  /** A new row, or a row rewritten under the same address. */
  datatype Change = Unchanged | Write(id: Id, u: User)

  function After(rows: UserTable, c: Change): UserTable {
    match c
    case Unchanged => rows
    case Write(id, u) => rows[id := u]
  }

  /** How AuthService writes users: within the constraints, never leaving a live
      account without a credential, never changing the address, never touching a
      deleted row. */
  predicate Legal(rows: UserTable, c: Change) {
    c.Write? ==>
      && Fits(rows, c.id, c.u)
      && (c.u.deleted || HasCredential(c.u))
      && (c.id in rows ==> rows[c.id].email == c.u.email && !rows[c.id].deleted)
  }

  lemma KeepsSound(rows: UserTable, c: Change)
    requires Sound(rows) && Legal(rows, c)
    ensures Sound(After(rows, c))
  {
    hide HasCredential;
  }

  lemma LookupsAreUnambiguous(rows: UserTable, email: string, sub: string)
    requires Sound(rows)
    ensures ScalarOneOrNone(WithEmail(rows, email)).Ok? && ScalarOneOrNone(WithSub(rows, sub)).Ok?
  {
    OneOrNone(WithEmail(rows, email));
    OneOrNone(WithSub(rows, sub));
    hide ScalarOneOrNone;
  }

  /** Rows stay, keep their address, and never change again once deleted. */
  ghost predicate Evolves(rows: UserTable, rows': UserTable) {
    forall i :: i in rows ==>
      i in rows' && rows'[i].email == rows[i].email && (rows[i].deleted ==> rows'[i] == rows[i])
  }

  lemma ChangeEvolves(rows: UserTable, c: Change)
    requires Legal(rows, c)
    ensures Evolves(rows, After(rows, c))
  {
  }

  /** An address is taken for good: deleting its account does not free it. */
  lemma AddressIsBurnt(rows: UserTable, id: Id, other: Id, u: User)
    requires id in rows && other !in rows && rows[id].email == u.email
    ensures Insert(rows, other, u) == Err(IntegrityError)
  {
  }
}
