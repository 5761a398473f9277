/** Properties that relate several operations: what a created account
    looks like to a later login, what an upsert leaves alone, and how the
    scan's Limit of 1 makes login depend on the table's scan order. */
module Lifecycle {
  import opened Text
  import opened Records
  import opened Json
  import opened Responses
  import opened Table
  import opened Handlers
  import opened Router

  /** A successful create writes the trimmed record under its trimmed id
      and leaves every other entry of the table as it was. */
  lemma CreateLeavesOtherKeys(body: Body, store: Store, backend: Backend, k: string)
    requires CreateUser(body, store, backend).response.statusCode == 201
    requires k != Trim(DecodeUser(body).value.userId)
    ensures var after := CreateUser(body, store, backend).store;
      && (k in after <==> k in store)
      && (k in store ==> after[k] == store[k])
  {
  }

  /** Creating the same account twice leaves the table as creating it once. */
  lemma CreateIdempotent(body: Body, store: Store, backend: Backend)
    ensures var once := CreateUser(body, store, backend);
      CreateUser(body, once.store, backend).store == once.store
  {
  }

  /** Every create, successful or not, keeps the store invariant. */
  lemma CreatePreservesInvariant(body: Body, store: Store, backend: Backend)
    requires Invariant(store)
    ensures Invariant(CreateUser(body, store, backend).store)
  {
    if CreateUser(body, store, backend).response.statusCode == 201 {
      PutPreservesInvariant(store, TrimUser(DecodeUser(body).value));
    }
  }

  /** An account created by one request is returned, password blanked, to
      a later login whose credentials trim to the stored ones, provided the
      new record is the first the scan evaluates. */
  lemma {:induction false} CreateThenLogin(createBody: Body, loginBody: Body, store: Store, b1: Backend, b2: Backend)
    requires CreateUser(createBody, store, b1).response.statusCode == 201
    requires DecodeCredentials(loginBody).Decoded?
    requires var u := TrimUser(DecodeUser(createBody).value);
      var c := DecodeCredentials(loginBody).value;
      Trim(c.email) == u.email && Trim(c.password) == u.password
    requires IsScanOrder(CreateUser(createBody, store, b1).store, b2.scanOrder)
    requires |b2.scanOrder| > 0 && b2.scanOrder[0] == Trim(DecodeUser(createBody).value.userId)
    requires b2.scan == Pass && b2.unmarshal == Pass
    ensures var u := TrimUser(DecodeUser(createBody).value);
      LoginUser(loginBody, CreateUser(createBody, store, b1).store, b2).response
        == Response(200, UserBody(u.(password := "")))
  {
    var u := TrimUser(DecodeUser(createBody).value);
    var after := CreateUser(createBody, store, b1).store;
    assert after[u.userId] == u;
    var c := DecodeCredentials(loginBody).value;
    assert NormalizeCredentials(c) == Some(Credentials(u.email, u.password));
    ScanLimitOne(after, b2.scanOrder, u.email, u.password);
  }

  /** The body that created an account is itself a valid login for it. */
  lemma CreateBodyLogsIn(body: Body, store: Store, b1: Backend, b2: Backend)
    requires CreateUser(body, store, b1).response.statusCode == 201
    requires IsScanOrder(CreateUser(body, store, b1).store, b2.scanOrder)
    requires |b2.scanOrder| > 0 && b2.scanOrder[0] == Trim(DecodeUser(body).value.userId)
    requires b2.scan == Pass && b2.unmarshal == Pass
    ensures LoginUser(body, CreateUser(body, store, b1).store, b2).response.statusCode == 200
  {
    CredentialsOfUserBody(body);
    CreateThenLogin(body, body, store, b1, b2);
  }

  /** Login looks at one record only: when the first record in scan order
      does not match, the answer is 401 whatever the rest of the table holds. */
  lemma LoginRejectsWhenFirstDiffers(body: Body, store: Store, backend: Backend)
    requires IsScanOrder(store, backend.scanOrder)
    requires DecodeCredentials(body).Decoded?
    requires NormalizeCredentials(DecodeCredentials(body).value).Some?
    requires backend.scan == Pass
    requires var c := NormalizeCredentials(DecodeCredentials(body).value).value;
      |backend.scanOrder| > 0 && !Matches(store[backend.scanOrder[0]], c.email, c.password)
    ensures LoginUser(body, store, backend).response == Response(401, Error("invalid email or password"))
  {
    var c := NormalizeCredentials(DecodeCredentials(body).value).value;
    ScanLimitOne(store, backend.scanOrder, c.email, c.password);
  }

  /** The two client errors of login are decided from the body alone: the
      table and the backend are never consulted. */
  lemma LoginClientErrorsIgnoreTable(body: Body, s1: Store, b1: Backend, s2: Store, b2: Backend)
    requires IsScanOrder(s1, b1.scanOrder) && IsScanOrder(s2, b2.scanOrder)
    requires DecodeCredentials(body).Malformed? || NormalizeCredentials(DecodeCredentials(body).value).None?
    ensures LoginUser(body, s1, b1).response == LoginUser(body, s2, b2).response
    ensures LoginUser(body, s1, b1).response.statusCode == 400
  {
  }

  const Ann := User("u1", "Ann", "ann@x.com", "p1")
  const Bob := User("u2", "Bob", "bob@x.com", "p2")
  const TwoAccounts: Store := map["u1" := Ann, "u2" := Bob]
  const AnnFirst := Backend(Pass, Pass, Pass, Pass, ["u1", "u2"])
  const BobLogin := Parsed(Object(map["email" := Str("bob@x.com"), "password" := Str("p2")]))

  lemma AnnFirstIsScanOrder()
    ensures IsScanOrder(TwoAccounts, AnnFirst.scanOrder)
  {
    assert "u1" != "u2" by { assert "u1"[1] != "u2"[1]; }
  }

  lemma BobLoginDecodes()
    ensures DecodeCredentials(BobLogin) == Decoded(Credentials(Bob.email, Bob.password))
  {
    assert "email" != "password";
  }

  lemma BobCredentialsAreTrimmed()
    ensures NormalizeCredentials(Credentials(Bob.email, Bob.password)) == Some(Credentials(Bob.email, Bob.password))
  {
    var email, password := Bob.email, Bob.password;
    assert IsTrimmed(email) by { assert email[0] == 'b' && email[|email| - 1] == 'm'; }
    assert IsTrimmed(password) by { assert password[0] == 'p' && password[|password| - 1] == '2'; }
    TrimFixedIff(email);
    TrimFixedIff(password);
  }

  /** A concrete table in which a matching account exists and login still
      answers 401, because the scan evaluates the other record first. */
  lemma LoginMayMissExistingMatch()
    ensures IsScanOrder(TwoAccounts, AnnFirst.scanOrder)
    ensures "u2" in TwoAccounts && Matches(TwoAccounts["u2"], "bob@x.com", "p2")
    ensures LoginUser(BobLogin, TwoAccounts, AnnFirst).response.statusCode == 401
  {
    AnnFirstIsScanOrder();
    BobLoginDecodes();
    BobCredentialsAreTrimmed();
    assert "ann@x.com" != "bob@x.com" by { assert "ann@x.com"[0] != "bob@x.com"[0]; }
    LoginRejectsWhenFirstDiffers(BobLogin, TwoAccounts, AnnFirst);
  }

  /** Against a table that keeps the invariant, a successful login returns
      a stored account under its own id, complete but for the password. */
  lemma LoginReturnsStoredAccount(body: Body, store: Store, backend: Backend)
    requires IsScanOrder(store, backend.scanOrder)
    requires Invariant(store)
    requires LoginUser(body, store, backend).response.statusCode == 200
    ensures var v := LoginUser(body, store, backend).response.body.user;
      && v.userId in store
      && store[v.userId] == v.(password := store[v.userId].password)
      && v.userId != "" && v.name != "" && v.email != "" && v.password == ""
  {
    var v := LoginUser(body, store, backend).response.body.user;
    var k := backend.scanOrder[0];
    assert store[k].userId == k;
  }

  /** Every reply the router produces carries the same four headers. */
  lemma EveryReplyHasFixedHeaders(req: HttpRequest, store: Store, backend: Backend)
    requires IsScanOrder(store, backend.scanOrder)
    ensures Handler(req, store, backend).response.headers.Keys == {ContentType, AllowOrigin, AllowMethods, AllowHeaders}
    ensures Handler(req, store, backend).response.headers[ContentType] == "application/json"
  {
  }
}
