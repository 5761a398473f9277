# To-Do-List user API: request logic in Dafny

This project models the request logic of the To-Do-List account API. The API is an AWS Lambda HTTP handler in Go (`main.go`). It routes each request on the exact string `method + " " + path`. It creates accounts in a DynamoDB table keyed by `userId`, and logs users in by scanning that table for a matching email and password. Every reply goes through one response builder.

The model is functional. Requests, responses, accounts and JSON bodies are immutable datatypes. The table is a `map<string, User>`. Each operation is a pure function that returns a `Reply`: the response together with the table after the call. What the AWS side does is an input, a `Backend` value. It says which of the four backend calls fail (attribute marshalling, `PutItem`, `Scan`, attribute unmarshalling), and in what order a scan visits the table.

Modules, leaf first:

- `Text` (text.dfy): `strings.TrimSpace`, written as Go's forward scan (`Start`) and backward scan (`Stop`) over Go's `unicode.IsSpace` set.
- `Records` (records.dfy): `User` and `Credentials` (main.go's `LoginUser` struct). It also holds the trim-then-require-non-empty validation used by both operations.
- `Json` (json.dfy): a request body is either unparseable or a parsed JSON value. This module has the rules `json.Unmarshal` follows when it fills a struct of string fields:
  - a top-level `null` leaves the zero struct;
  - any other non-object value is an error;
  - a member that is a string sets its field;
  - a member that is null, or absent, leaves the field `""`;
  - any other value for a known member is an error.
- `Responses` (responses.dfy): the response builder. It takes a code and a body, and always adds the same four headers.
- `Table` (table.dfy): the store, the upsert `PutItem` performs, and the filtered scan. DynamoDB's `Limit` caps the number of items the scan evaluates, and the filter runs after that cap.
- `Handlers` (handlers.dfy): `handleHello`, `createUser` and `loginUser`.
- `Router` (router.dfy): `handler`, the routing switch.
- `Lifecycle` (lifecycle.dfy): properties that span several calls.

Behaviour of `main.go` worth knowing when reading the model:

- A successful create answers `{"message": "user <trimmed name> created"}`.
- `GET` on the users path is login, with the credentials in a JSON body. `main.go` has no operation that fetches an account by id.
- Login answers a malformed body with `"invalid JSON"`. Create answers it with `"invalid json"`.
- The health check marshals Go's `nil`, so its body is the JSON text `null`. The model records the body as `NullBody` and claims nothing about its bytes.
- The response builder ignores any `json.Marshal` error and has no 500 fallback. None of the bodies the handlers build can fail to marshal.
- Login scans with `Limit: 1`. So it can answer 401 even when a matching account exists (`Lifecycle.LoginMayMissExistingMatch`). The model keeps this behaviour and does not claim that a correct password always logs in.

## Model

| member | source | states |
|---|---|---|
| Text.Start | main.go:88-91 | TrimSpace's forward scan stops at the first position holding no whitespace: everything it skipped is whitespace |
| Text.Stop | main.go:88-91 | TrimSpace's backward scan stops just after the last non-whitespace character, never below the start, and everything it skipped is whitespace |
| Text.Trim | main.go:88-91 | a trimmed field has no whitespace at either end and is no longer than the original |
| Text.TrimDecomposes | main.go:88-91 | the original is whitespace, then its trim, then whitespace, so trimming only removes padding |
| Text.TrimPadded | main.go:88-91 | a core with no whitespace at its ends, padded with any whitespace on both sides, trims back to exactly that core |
| Text.TrimFixedIff | main.go:88-91 | a string is its own trim exactly when neither end is whitespace |
| Text.TrimIdempotent | main.go:88-91 | trimming twice gives the same as trimming once |
| Text.TrimEmptyIff | main.go:88-93 | a field trims to "" exactly when it is made only of whitespace |
| Records.TrimUser | main.go:87-91 | each field of the record is the trim of the same input field, so no field keeps end whitespace |
| Records.TrimUserIdempotent | main.go:87-91 | trimming a record twice gives the same record as trimming it once |
| Records.Normalize | main.go:87-95 | an accepted record is the trimmed record with all four fields non-empty; a rejected one has some trimmed field empty |
| Records.NormalizeAcceptsIff | main.go:87-95 | create rejects a record exactly when one of userId, name, email or password is whitespace only |
| Records.NormalizeCredentials | main.go:125-133 | accepted credentials are the trimmed email and password, both non-empty and free of end whitespace |
| Records.NormalizeCredentialsAcceptsIff | main.go:125-133 | login rejects credentials exactly when the email or the password is whitespace only |
| Records.NormalizeWellFormed | main.go:87-95 | a record that is already trimmed and complete passes validation unchanged |
| Json.StringField | main.go:25-30 | a tagged string field takes a string member's value, is "" when the member is null or absent, and is an error for any other value |
| Json.DecodeUser | main.go:81-85 | an unparseable body or a non-object value is an error, null gives the empty record, and an object is accepted exactly when each of its four fields decodes; each field then holds its member's string, or "" when the member is null or absent |
| Json.DecodeCredentials | main.go:118-123 | the same rules as for User, applied only to `email` and `password`, with each field holding what its member decodes to |
| Json.EncodeUser | main.go:25-30 | json.Marshal of a User is an object whose keys are exactly the four struct tags, each holding a string |
| Json.DecodeEncodeUser | main.go:25-30 | the JSON object of a User decodes back to that User |
| Json.CredentialsOfUserBody | main.go:118-123 | a body that decodes as a User also decodes as credentials carrying the same email and password |
| Json.CredentialsBodyNotUserBody | main.go:31-34 | the converse fails: a non-string `userId` breaks the User decoding but not the login decoding |
| Responses.Response | main.go:171-185 | the builder is total, echoes the code and the body, and attaches the four fixed headers with their values |
| Responses.ResponseHeadersUniform | main.go:177-182 | every response carries the same four-entry header map, whatever its code and body |
| Table.Put | main.go:102-105 | the upsert stores the record under its userId, overwriting any earlier entry, and leaves every other key as it was |
| Table.PutPreservesInvariant | main.go:93-105 | writing a trimmed, complete record under its own id keeps every stored record trimmed, complete and stored under its own id |
| Table.Filter | main.go:138 | the filter keeps exactly those evaluated records whose email and password both equal the given ones |
| Table.Scan | main.go:136-146 | a scan returns at most Limit records, each stored in the table and matching both email and password; with a Limit that covers the table it returns every match |
| Table.ScanLimitOne | main.go:136-155 | with Limit 1, the scan returns the first record in scan order if it matches, and nothing otherwise |
| Handlers.HandleHello | main.go:73-75 | the health check answers 204 with a nil body and leaves the table unchanged |
| Handlers.CreateUser | main.go:79-113 | a malformed body gets 400 "invalid json", then a blank field gets 400 "missing fields", and 400 arises only from these two; a valid record whose marshalling fails gets 500 "marshal failed", and one whose PutItem fails gets 500 "dynamodb error"; the table changes only on 201, which happens exactly when all steps pass, upserts the trimmed record and answers "user <name> created" |
| Handlers.LoginUser | main.go:117-167 | login never writes; a malformed body or blank credentials get 400 before any scan, and 400 arises only from these; a failed scan gets 500 "dynamodb error"; 401 "invalid email or password" exactly when the scan succeeds and finds no match; a match that fails to unmarshal gets 500 "unmarshal error"; 200 exactly when the scan finds a match and unmarshalling succeeds, and then with the first scanned record, which matched the trimmed credentials, with its password blanked |
| Router.RouteOf | main.go:55-70 | the switch dispatches exactly the four keys `method + " " + path`, each to its own handler, and every other key falls to the default |
| Router.KeySplits | main.go:55 | joining method and path with a space is injective on routes whose method and path contain no space |
| Router.RouteOfIff | main.go:55-70 | each of the four cases is reached exactly by its own method and path pair |
| Router.DispatchedPairs | main.go:55-70 | exactly four method and path pairs reach a handler, and every other pair falls to the default |
| Router.Handler | main.go:46-71 | an unrouted pair gets 405 "method not allowed" with the table unchanged; HEAD on health gets 204; OPTIONS on users gets 200 "ok"; only a 201 from POST on users changes the table; every reply carries the fixed headers |
| Router.NotAllowedIgnoresBody | main.go:66-69 | the 405 reply depends only on method and path, not on the body |
| Router.HandlerPreservesInvariant | main.go:55-70 | no request, routed anywhere, breaks the store invariant |
| Lifecycle.CreateLeavesOtherKeys | main.go:97-112 | a successful create leaves every key other than the trimmed userId absent or bound as before |
| Lifecycle.CreateIdempotent | main.go:97-112 | repeating a create request leaves the table as a single create did |
| Lifecycle.CreatePreservesInvariant | main.go:87-112 | every create, successful or not, keeps the store invariant |
| Lifecycle.CreateThenLogin | main.go:97-166 | once an account is created, a login whose credentials trim to the stored ones gets 200 with that account, password blanked, provided the new record is the first the scan evaluates and the scan reads the table consistently |
| Lifecycle.CreateBodyLogsIn | main.go:118-166 | the body that created an account logs into it under the same scan and consistency conditions |
| Lifecycle.LoginRejectsWhenFirstDiffers | main.go:136-155 | when the first record in scan order does not match, login answers 401 "invalid email or password", whatever the rest of the table holds |
| Lifecycle.LoginClientErrorsIgnoreTable | main.go:121-133 | a malformed login body or blank credentials get the same 400 reply whatever the table and the backend, so the table is never consulted |
| Lifecycle.LoginMayMissExistingMatch | main.go:143-155 | in a concrete two-account table, the correct credentials of the second account get 401 because the scan evaluates the first account only |
| Lifecycle.LoginReturnsStoredAccount | main.go:157-166 | against a table that keeps the invariant, a 200 returns a stored account under its own id, with userId, name and email non-empty and the password blank |
| Lifecycle.EveryReplyHasFixedHeaders | main.go:171-185 | every reply the router produces carries exactly the four fixed headers, with JSON as the content type |

## Left out

- Process bootstrap is not modelled: `init`, `config.LoadDefaultConfig`, the global `dbClient`, `tableName` and `lambda.Start` (main.go:19-22, 37-44, 187-189).
- The `ctx` argument and `log.Println` calls are not modelled. Cancellation only shows up as a backend call that fails.
- JSON bytes are not modelled, in either direction. A request body is a parsed `Json.Value` or `Unparseable`. A response body is a `Payload` value, and its serialized text is not modelled.
- Json.DecodeUser: member keys are matched exactly. Go's decoder also accepts a key that differs only in letter case, and lets the last of duplicated keys win. Neither is modelled, because the body is modelled as a map with exact keys.
- Json.DecodeCredentials: the same exact-key simplification applies as for Json.DecodeUser.
- DynamoDB attribute marshalling and unmarshalling are not modelled. `MarshalMap`, `UnmarshalMap` and the `PutItem`/`Scan` request construction are each reduced to an `Outcome` flag in `Backend`. A scanned item unmarshals to the stored record itself, so attributes outside the four fields are not modelled.
- A failed `PutItem` is taken to have written nothing.
- The table is modelled as read-after-write consistent: a login sees every create that finished before it. The Scan request sets no `ConsistentRead`, so DynamoDB may run it as an eventually consistent read that misses a just-written item and answers 401; `Lifecycle.CreateThenLogin` and `Lifecycle.CreateBodyLogsIn` hold only under the consistent reading.
- The scan's visiting order is an input, `Backend.scanOrder`, because DynamoDB does not document it. Scan pagination (`LastEvaluatedKey`) is not modelled, because the handler ignores it.
- Request fields the handler never reads are not modelled: headers, query parameters and the base64 flag.
- Strings are sequences of Unicode code points. Go's handling of invalid UTF-8 bytes in `TrimSpace` is not modelled.
- The other handler variants in the repository are not part of this model. They include a get-by-id operation and an API-key check.
