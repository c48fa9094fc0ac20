/** Identifiers, hashes and lookups shared by the account tables. */
module Credentials {
  import opened Outcomes

  type Id = nat

  /** hash_token: SHA-256 of a raw token, taken to be injective. */
  datatype Digest = Digest(raw: string)

  /** hash_password; verify_password succeeds exactly for the password hashed. */
  datatype PasswordHash = PasswordHash(password: string)

  datatype AuthError =
    | EmailAlreadyRegistered
    | InvalidCredentials
    | AccountDisabled
    | EmailNotVerified
    | EmailAlreadyVerified
    | InvalidToken
    | GoogleAccountAlreadyLinked
    | LastAuthMethod
    | PasswordAlreadyConfigured
    | NoPersonalWorkspace
    | OwnerOfSharedWorkspace
    | Unauthorized
    | NotFound
    | Conflict
    | IntegrityError
    | MultipleResults
    | RepeatedToken

  function Check(condition: bool, error: AuthError): Verdict<AuthError> {
    if condition then Pass else Fail(error)
  }

  /** scalar_one_or_none: more than one matching row is an error. */
  ghost function ScalarOneOrNone(ids: set<Id>): Result<Option<Id>, AuthError> {
    if ids == {} then Ok(None) else
      var i :| i in ids;
      if ids == {i} then Ok(Some(i)) else Err(MultipleResults)
  }

  lemma OneOrNone(ids: set<Id>)
    ensures ScalarOneOrNone(ids) == Ok(None) <==> ids == {}
    ensures forall i :: ScalarOneOrNone(ids) == Ok(Some(i)) <==> ids == {i}
    ensures (forall i, j :: i in ids && j in ids ==> i == j) ==> ScalarOneOrNone(ids).Ok?
  {
  }

  method Scalar(ids: set<Id>) returns (r: Result<Option<Id>, AuthError>)
    ensures r == ScalarOneOrNone(ids)
  {
    if ids == {} { return Ok(None); }
    var i :| i in ids;
    return if ids == {i} then Ok(Some(i)) else Err(MultipleResults);
  }
}
