/** The operations the router dispatches to: health check, create-user and
    login. Each is a pure function from the request body, the table and the
    backend's behaviour to a response and the table afterwards. */
module Handlers {
  import opened Records
  import opened Json
  import opened Responses
  import opened Table

  /** Whether one backend call (marshalling, PutItem, Scan, unmarshalling) succeeds. */
  datatype Outcome = Pass | Fail

  /** Everything the handlers learn from the AWS side: which calls fail, and
      the order in which a scan visits the table. */
  datatype Backend = Backend(marshal: Outcome, put: Outcome, scan: Outcome, unmarshal: Outcome, scanOrder: seq<string>)

  datatype Reply = Reply(response: HttpResponse, store: Store)

  /** The Limit on the login scan: items evaluated, not items returned. */
  const LoginScanLimit: nat := 1

  /** The health check: 204 with a nil body, and the table is not touched. */
  function HandleHello(store: Store): (r: Reply)
    ensures r.response.statusCode == 204 && r.response.body == NullBody
    ensures r.store == store
  {
    Reply(Response(204, NullBody), store)
  }

  /** Create-user: decode, trim, validate, marshal, put. */
  function CreateUser(body: Body, store: Store, backend: Backend): (r: Reply)
    ensures r.response.statusCode in {201, 400, 500}
    ensures r.response.headers == FixedHeaders
    // a body the decoder rejects is answered before any trimming or validation
    ensures DecodeUser(body).Malformed? ==> r == Reply(Response(400, Error("invalid json")), store)
    // a field that trims to "" rejects the record, and nothing is written
    ensures DecodeUser(body).Decoded? && Normalize(DecodeUser(body).value).None? ==>
      r == Reply(Response(400, Error("missing fields")), store)
    // only a 201 changes the table
    ensures r.response.statusCode != 201 ==> r.store == store
    ensures r.response.statusCode == 201 <==>
      && DecodeUser(body).Decoded?
      && Normalize(DecodeUser(body).value).Some?
      && backend.marshal == Pass && backend.put == Pass
    // a 201 has upserted exactly the trimmed record under its trimmed id
    ensures r.response.statusCode == 201 ==>
      var u := TrimUser(DecodeUser(body).value);
      && WellFormed(u)
      && r.store == store[u.userId := u]
      && r.response.body == Message("user " + u.name + " created")
    ensures r.response.statusCode == 400 ==>
      DecodeUser(body).Malformed? || Normalize(DecodeUser(body).value).None?
    // a valid record whose attributes fail to marshal is never sent to the table
    ensures DecodeUser(body).Decoded? && Normalize(DecodeUser(body).value).Some? && backend.marshal == Fail ==>
      r == Reply(Response(500, Error("marshal failed")), store)
    // a failed PutItem is reported as a database error and writes nothing
    ensures (&& DecodeUser(body).Decoded? && Normalize(DecodeUser(body).value).Some?
             && backend.marshal == Pass && backend.put == Fail) ==>
      r == Reply(Response(500, Error("dynamodb error")), store)
    ensures r.response.statusCode == 500 ==> r.response.body in {Error("marshal failed"), Error("dynamodb error")}
  {
    var decoded := DecodeUser(body);
    if decoded.Malformed? then Reply(Response(400, Error("invalid json")), store)
    else
      var valid := Normalize(decoded.value);
      if valid.None? then Reply(Response(400, Error("missing fields")), store)
      else
        var u := valid.value;
        if backend.marshal == Fail then Reply(Response(500, Error("marshal failed")), store)
        else if backend.put == Fail then Reply(Response(500, Error("dynamodb error")), store)
        else
          assert backend.marshal == Pass && backend.put == Pass;
          Reply(Response(201, Message("user " + u.name + " created")), Put(store, u))
  }

  /** Login: decode, trim, require both credentials, scan with Limit 1,
      and answer with the first match, its password blanked. */
  function LoginUser(body: Body, store: Store, backend: Backend): (r: Reply)
    requires IsScanOrder(store, backend.scanOrder)
    ensures r.store == store
    ensures r.response.statusCode in {200, 400, 401, 500}
    ensures r.response.headers == FixedHeaders
    // both client errors are decided before the table is consulted
    ensures DecodeCredentials(body).Malformed? ==> r.response == Response(400, Error("invalid JSON"))
    ensures DecodeCredentials(body).Decoded? && NormalizeCredentials(DecodeCredentials(body).value).None? ==>
      r.response == Response(400, Error("email and password required"))
    ensures r.response.statusCode == 400 ==>
      DecodeCredentials(body).Malformed? || NormalizeCredentials(DecodeCredentials(body).value).None?
    // 401: valid credentials, a working scan, and no match among the records evaluated
    ensures r.response.statusCode == 401 <==>
      && DecodeCredentials(body).Decoded?
      && NormalizeCredentials(DecodeCredentials(body).value).Some?
      && backend.scan == Pass
      && var c := NormalizeCredentials(DecodeCredentials(body).value).value;
         Scan(store, backend.scanOrder, c.email, c.password, LoginScanLimit) == []
    ensures r.response.statusCode == 401 ==> r.response.body == Error("invalid email or password")
    // 200: the first record in scan order matched the trimmed credentials,
    // and it is returned with its password blanked
    ensures r.response.statusCode == 200 ==>
      && DecodeCredentials(body).Decoded?
      && NormalizeCredentials(DecodeCredentials(body).value).Some?
      && var c := NormalizeCredentials(DecodeCredentials(body).value).value;
         && |backend.scanOrder| > 0
         && var found := store[backend.scanOrder[0]];
            && Matches(found, c.email, c.password)
            && r.response.body == UserBody(found.(password := ""))
    ensures r.response.statusCode == 200 ==> r.response.body.UserBody? && r.response.body.user.password == ""
    // a failed scan is a database error
    ensures (&& DecodeCredentials(body).Decoded?
             && NormalizeCredentials(DecodeCredentials(body).value).Some?
             && backend.scan == Fail) ==>
      r.response == Response(500, Error("dynamodb error"))
    // a match that cannot be unmarshalled is an unmarshal error
    ensures (&& DecodeCredentials(body).Decoded?
             && NormalizeCredentials(DecodeCredentials(body).value).Some?
             && backend.scan == Pass && backend.unmarshal == Fail
             && var c := NormalizeCredentials(DecodeCredentials(body).value).value;
                Scan(store, backend.scanOrder, c.email, c.password, LoginScanLimit) != []) ==>
      r.response == Response(500, Error("unmarshal error"))
    // a non-empty scan gives 200 unless unmarshalling the item fails
    ensures r.response.statusCode == 200 <==>
      && DecodeCredentials(body).Decoded?
      && NormalizeCredentials(DecodeCredentials(body).value).Some?
      && backend.scan == Pass
      && backend.unmarshal == Pass
      && var c := NormalizeCredentials(DecodeCredentials(body).value).value;
         Scan(store, backend.scanOrder, c.email, c.password, LoginScanLimit) != []
  {
    match DecodeCredentials(body)
    case Malformed => Reply(Response(400, Error("invalid JSON")), store)
    case Decoded(raw) =>
      match NormalizeCredentials(raw)
      case None => Reply(Response(400, Error("email and password required")), store)
      case Some(c) =>
        if backend.scan == Fail then Reply(Response(500, Error("dynamodb error")), store)
        else
          var items := Scan(store, backend.scanOrder, c.email, c.password, LoginScanLimit);
          ScanLimitOne(store, backend.scanOrder, c.email, c.password);
          assert backend.scan == Pass;
          if |items| == 0 then Reply(Response(401, Error("invalid email or password")), store)
          else if backend.unmarshal == Fail then Reply(Response(500, Error("unmarshal error")), store)
          else
            assert backend.unmarshal == Pass;
            Reply(Response(200, UserBody(items[0].(password := ""))), store)
  }
}
