/** The uniform reply every operation funnels through: a status code, the
    fixed JSON and cross-origin headers, and a body value. */
module Responses {
  import opened Records

  /** The value handed to json.Marshal. `NullBody` is Go's nil, which
      marshals to the text "null"; the byte encoding itself is not modelled. */
  datatype Payload =
    | NullBody
    | Fields(fields: map<string, string>)
    | UserBody(user: User)

  datatype HttpResponse = HttpResponse(statusCode: int, headers: map<string, string>, body: Payload)

  const ContentType := "Content-Type"
  const AllowOrigin := "Access-Control-Allow-Origin"
  const AllowMethods := "Access-Control-Allow-Methods"
  const AllowHeaders := "Access-Control-Allow-Headers"

  const FixedHeaders: map<string, string> := map[
    ContentType := "application/json",
    AllowOrigin := "*",
    AllowMethods := "GET,POST,OPTIONS",
    AllowHeaders := "Content-Type"]

  /** A one-member `{"message": text}` body. */
  function Message(text: string): Payload
  {
    Fields(map["message" := text])
  }

  /** A one-member `{"error": text}` body. */
  function Error(text: string): Payload
  {
    Fields(map["error" := text])
  }

  /** The response builder: total, echoes the status code and body, and
      always attaches the same four headers. */
  function Response(code: int, body: Payload): (r: HttpResponse)
    ensures r.statusCode == code && r.body == body
    ensures r.headers.Keys == {ContentType, AllowOrigin, AllowMethods, AllowHeaders}
    ensures r.headers[ContentType] == "application/json"
    ensures r.headers[AllowOrigin] == "*"
    ensures r.headers[AllowMethods] == "GET,POST,OPTIONS"
    ensures r.headers[AllowHeaders] == "Content-Type"
  {
    HttpResponse(code, FixedHeaders, body)
  }

  /** Responses with any codes and bodies carry the same four headers: the
      header map depends on neither. */
  lemma ResponseHeadersUniform(code1: int, body1: Payload, code2: int, body2: Payload)
    ensures Response(code1, body1).headers == Response(code2, body2).headers
    ensures |Response(code1, body1).headers| == 4
  {
    assert ContentType != AllowOrigin && ContentType != AllowMethods && ContentType != AllowHeaders;
    assert AllowOrigin != AllowMethods && AllowOrigin != AllowHeaders && AllowMethods != AllowHeaders;
  }
}
