/** The account record, the login credentials, and the trimming and
    required-field validation applied to both before they reach the store. */
module Records {
  import opened Text

  datatype Option<T> = None | Some(value: T)

  /** One account; stored under `userId`, password kept in plain text. */
  datatype User = User(userId: string, name: string, email: string, password: string)

  /** The body of a login request (main.go's `LoginUser` struct). */
  datatype Credentials = Credentials(email: string, password: string)

  /** Every field is free of leading and trailing whitespace. */
  predicate IsNormal(u: User)
  {
    IsTrimmed(u.userId) && IsTrimmed(u.name) && IsTrimmed(u.email) && IsTrimmed(u.password)
  }

  /** Every required field is present. */
  predicate Complete(u: User)
  {
    u.userId != "" && u.name != "" && u.email != "" && u.password != ""
  }

  /** The shape of every record the store holds. */
  predicate WellFormed(u: User)
  {
    IsNormal(u) && Complete(u)
  }

  /** Each field trimmed on its own. */
  function TrimUser(u: User): (t: User)
    ensures IsNormal(t)
    ensures t.userId == Trim(u.userId) && t.name == Trim(u.name)
    ensures t.email == Trim(u.email) && t.password == Trim(u.password)
  {
    User(Trim(u.userId), Trim(u.name), Trim(u.email), Trim(u.password))
  }

  /** Trimming a record twice is trimming it once. */
  lemma TrimUserIdempotent(u: User)
    ensures TrimUser(TrimUser(u)) == TrimUser(u)
  {
    TrimIdempotent(u.userId);
    TrimIdempotent(u.name);
    TrimIdempotent(u.email);
    TrimIdempotent(u.password);
  }

  /** Trims all four fields and accepts the record only when none of them
      is left empty. */
  function Normalize(u: User): (r: Option<User>)
    ensures r.Some? ==> WellFormed(r.value) && r.value == TrimUser(u)
    ensures r.None? ==> !Complete(TrimUser(u))
  {
    var t := TrimUser(u);
    if t.userId == "" || t.name == "" || t.email == "" || t.password == "" then None
    else Some(t)
  }

  /** A record is rejected exactly when one of its fields is whitespace only. */
  lemma NormalizeAcceptsIff(u: User)
    ensures Normalize(u).Some? <==> !AllSpace(u.userId) && !AllSpace(u.name) && !AllSpace(u.email) && !AllSpace(u.password)
  {
    TrimEmptyIff(u.userId);
    TrimEmptyIff(u.name);
    TrimEmptyIff(u.email);
    TrimEmptyIff(u.password);
  }

  /** Trims both credentials and accepts them only when neither is left empty. */
  function NormalizeCredentials(c: Credentials): (r: Option<Credentials>)
    ensures r.Some? ==> r.value.email != "" && r.value.password != ""
    ensures r.Some? ==> IsTrimmed(r.value.email) && IsTrimmed(r.value.password)
    ensures r.Some? ==> r.value == Credentials(Trim(c.email), Trim(c.password))
    ensures r.None? ==> Trim(c.email) == "" || Trim(c.password) == ""
  {
    var email := Trim(c.email);
    var password := Trim(c.password);
    if email == "" || password == "" then None
    else Some(Credentials(email, password))
  }

  /** Credentials are rejected exactly when one of them is whitespace only. */
  lemma NormalizeCredentialsAcceptsIff(c: Credentials)
    ensures NormalizeCredentials(c).Some? <==> !AllSpace(c.email) && !AllSpace(c.password)
  {
    TrimEmptyIff(c.email);
    TrimEmptyIff(c.password);
  }

  /** A well-formed record passes validation unchanged. */
  lemma NormalizeWellFormed(u: User)
    requires WellFormed(u)
    ensures Normalize(u) == Some(u)
  {
    TrimFixedIff(u.userId);
    TrimFixedIff(u.name);
    TrimFixedIff(u.email);
    TrimFixedIff(u.password);
  }
}
