/** The request body as the JSON decoder sees it, and the rules by which Go's
    encoding/json fills a struct of string fields from it. The byte-level
    parser is not modelled: a body is either unparseable or a parsed value. */
module Json {
  import opened Records

  datatype Value =
    | Null
    | Bool(b: bool)
    | Number(literal: string)
    | Str(s: string)
    | Array(items: seq<Value>)
    | Object(members: map<string, Value>)

  datatype Body = Unparseable | Parsed(value: Value)

  /** The outcome of json.Unmarshal into a struct: an error, or the filled struct. */
  datatype Decoded<T> = Malformed | Decoded(value: T)

  /** One string field of a struct: a string member sets it, a null or
      absent member leaves it "", any other member is a type error. */
  function StringField(members: map<string, Value>, key: string): (r: Decoded<string>)
    ensures r.Malformed? <==> key in members && !members[key].Null? && !members[key].Str?
    ensures r.Decoded? && key in members && members[key].Str? ==> r.value == members[key].s
    ensures r.Decoded? && !(key in members && members[key].Str?) ==> r.value == ""
  {
    if key !in members then Decoded("")
    else match members[key]
      case Null => Decoded("")
      case Str(s) => Decoded(s)
      case _ => Malformed
  }

  /** json.Unmarshal into User: a top-level null leaves the zero record, an
      object fills the four tagged fields, anything else is an error. */
  function DecodeUser(body: Body): (r: Decoded<User>)
    ensures body.Unparseable? ==> r.Malformed?
    ensures body.Parsed? && body.value.Null? ==> r == Decoded(User("", "", "", ""))
    ensures body.Parsed? && !body.value.Null? && !body.value.Object? ==> r.Malformed?
    ensures body.Parsed? && body.value.Object? ==>
      var m := body.value.members;
      (r.Decoded? <==>
        StringField(m, "userId").Decoded? && StringField(m, "name").Decoded?
        && StringField(m, "email").Decoded? && StringField(m, "password").Decoded?)
    // each field holds what its member decodes to: the string, or "" when null or absent
    ensures body.Parsed? && body.value.Object? && r.Decoded? ==>
      var m := body.value.members;
      r.value == User(StringField(m, "userId").value, StringField(m, "name").value,
                      StringField(m, "email").value, StringField(m, "password").value)
  {
    match body
    case Unparseable => Malformed
    case Parsed(Null) => Decoded(User("", "", "", ""))
    case Parsed(Object(m)) =>
      var id := StringField(m, "userId");
      var name := StringField(m, "name");
      var email := StringField(m, "email");
      var password := StringField(m, "password");
      if id.Malformed? || name.Malformed? || email.Malformed? || password.Malformed? then Malformed
      else Decoded(User(id.value, name.value, email.value, password.value))
    case Parsed(_) => Malformed
  }

  /** json.Unmarshal into LoginUser: as for User, with only `email` and
      `password` looked at. */
  function DecodeCredentials(body: Body): (r: Decoded<Credentials>)
    ensures body.Unparseable? ==> r.Malformed?
    ensures body.Parsed? && body.value.Null? ==> r == Decoded(Credentials("", ""))
    ensures body.Parsed? && !body.value.Null? && !body.value.Object? ==> r.Malformed?
    ensures body.Parsed? && body.value.Object? ==>
      var m := body.value.members;
      (r.Decoded? <==> StringField(m, "email").Decoded? && StringField(m, "password").Decoded?)
    ensures body.Parsed? && body.value.Object? && r.Decoded? ==>
      var m := body.value.members;
      r.value == Credentials(StringField(m, "email").value, StringField(m, "password").value)
  {
    match body
    case Unparseable => Malformed
    case Parsed(Null) => Decoded(Credentials("", ""))
    case Parsed(Object(m)) =>
      var email := StringField(m, "email");
      var password := StringField(m, "password");
      if email.Malformed? || password.Malformed? then Malformed
      else Decoded(Credentials(email.value, password.value))
    case Parsed(_) => Malformed
  }

  /** The JSON object json.Marshal produces for a User. */
  function EncodeUser(u: User): (r: Body)
    ensures r.Parsed? && r.value.Object?
    ensures r.value.members.Keys == {"userId", "name", "email", "password"}
    ensures forall k :: k in r.value.members ==> r.value.members[k].Str?
  {
    Parsed(Object(map[
      "userId" := Str(u.userId),
      "name" := Str(u.name),
      "email" := Str(u.email),
      "password" := Str(u.password)]))
  }

  /** Decoding what was encoded gives the record back. */
  lemma DecodeEncodeUser(u: User)
    ensures DecodeUser(EncodeUser(u)) == Decoded(u)
  {
  }

  /** Any body accepted as a User is accepted as credentials, carrying the
      same email and password. */
  lemma CredentialsOfUserBody(body: Body)
    requires DecodeUser(body).Decoded?
    ensures DecodeCredentials(body) == Decoded(Credentials(DecodeUser(body).value.email, DecodeUser(body).value.password))
  {
  }

  /** The converse fails: a member the login struct does not have is never
      type-checked, so a body can be valid credentials yet an invalid User. */
  lemma CredentialsBodyNotUserBody()
    ensures var body := Parsed(Object(map["userId" := Number("7"), "email" := Str("a"), "password" := Str("p")]));
      DecodeCredentials(body) == Decoded(Credentials("a", "p")) && DecodeUser(body).Malformed?
  {
    var m := map["userId" := Number("7"), "email" := Str("a"), "password" := Str("p")];
    assert "email" != "userId" && "password" != "userId";
    assert StringField(m, "userId").Malformed?;
  }
}
