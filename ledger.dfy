/**
 The submission of a parsed withdrawal to the Firefly III ledger
 (`MatrixBot.create_transaction`): the POST request it builds and how it
 turns the server's answer into `True`, `False` or an exception.

 The HTTP exchange is not modelled: `CreateTransaction` takes the transport
 as a function from the request to what came back, so every property below
 holds for every server behaviour.
 */
module Ledger {
  import opened Wrappers
  import opened Text
  import MessageParser

  /** The endpoint appended to the configured base URL. */
  const TransactionsPath := "/api/v1/transactions"

  /** The two configuration values the submission reads
      (`firefly_iii.base_url` and `firefly_iii.token`). */
  datatype Settings = Settings(baseUrl: string, token: string)

  /** The JSON document `{"transactions": [record]}`, before serialisation. */
  datatype Payload = Payload(transactions: seq<MessageParser.Transaction>)

  /** A POST request: target URL, header dictionary and body. */
  datatype Request = Request(url: string, headers: map<string, string>, payload: Payload)

  /** The class of a Python exception, as far as `except ValueError` can tell
      them apart. `requests` raises `ValueError` subclasses for a malformed URL
      or header (`MissingSchema`, `InvalidURL`, `InvalidHeader`) and for a body
      that is not JSON (`JSONDecodeError`); connection failures and timeouts
      are other exceptions. */
  datatype Exception = ValueError | OtherError

  /** What the transport did with the request: a response with its status
      code and whether its body decodes as JSON, or an exception. */
  datatype Exchange =
    | Answered(status: int, jsonBody: bool)
    | Raised(error: Exception)

  /** How `create_transaction` ended: the value it returned, or the exception
      that left it. */
  datatype Submission = Returned(created: bool) | Propagated(error: Exception)

  /** Only 200 and 201 count as a created transaction. */
  predicate IsCreated(status: int) {
    status == 200 || status == 201
  }

  /** The request `create_transaction` posts for `record`. */
  function BuildRequest(settings: Settings, record: MessageParser.Transaction): (r: Request)
    ensures |settings.baseUrl| <= |r.url| && r.url[..|settings.baseUrl|] == settings.baseUrl
    ensures r.url[|settings.baseUrl|..] == TransactionsPath
    ensures r.headers.Keys == {"Authorization", "Content-Type", "Accept"}
    ensures r.headers["Authorization"] == "Bearer " + settings.token
    ensures r.headers["Content-Type"] == "application/json" && r.headers["Accept"] == "application/json"
    ensures |r.payload.transactions| == 1 && r.payload.transactions[0] == record
  {
    Request(
      settings.baseUrl + TransactionsPath,
      map["Authorization" := "Bearer " + settings.token,
          "Content-Type" := "application/json",
          "Accept" := "application/json"],
      Payload([record]))
  }

  /** The token the `Authorization` header carries, if it is a bearer token. */
  function BearerToken(headers: map<string, string>): (r: Option<string>)
    ensures r.Some? ==> "Authorization" in headers && headers["Authorization"] == "Bearer " + r.value
  {
    if "Authorization" in headers && |headers["Authorization"]| >= 7 && headers["Authorization"][..7] == "Bearer " then
      assert headers["Authorization"] == "Bearer " + headers["Authorization"][7..];
      Some(headers["Authorization"][7..])
    else None
  }

  /** The server reading the request sees the configured token and exactly
      the one record. */
  lemma RequestCarriesTokenAndRecord(settings: Settings, record: MessageParser.Transaction)
    ensures BearerToken(BuildRequest(settings, record).headers) == Some(settings.token)
    ensures BuildRequest(settings, record).payload.transactions == [record]
  {
    var h := BuildRequest(settings, record).headers["Authorization"];
    assert h[..7] == "Bearer ";
  }

  /** The decision after the POST: a 200 or 201 logs `response.json()` and
      returns `True` (the decoding raises when the body is not JSON); any
      other status returns `False`; an exception from the transport leaves
      the function unchanged, since nothing here catches it. */
  function Classify(exchange: Exchange): (r: Submission)
    ensures r == Returned(true) <==> exchange.Answered? && IsCreated(exchange.status) && exchange.jsonBody
    ensures r == Returned(false) <==> exchange.Answered? && !IsCreated(exchange.status)
    ensures r == Propagated(ValueError) <==>
      exchange == Raised(ValueError) || (exchange.Answered? && IsCreated(exchange.status) && !exchange.jsonBody)
    ensures r == Propagated(OtherError) <==> exchange == Raised(OtherError)
  {
    match exchange
    case Raised(e) => Propagated(e)
    case Answered(status, jsonBody) =>
      if status == 200 || status == 201 then
        if jsonBody then Returned(true) else Propagated(ValueError)
      else Returned(false)
  }

  /** `create_transaction(record)`: build the request, hand it to the
      transport `post`, classify what came back. */
  function CreateTransaction(settings: Settings, record: MessageParser.Transaction,
                             post: Request -> Exchange): (r: Submission)
    ensures var e := post(BuildRequest(settings, record));
      && (r == Returned(true) <==> e.Answered? && IsCreated(e.status) && e.jsonBody)
      && (r == Returned(false) <==> e.Answered? && !IsCreated(e.status))
      && (r == Propagated(ValueError) <==>
            e == Raised(ValueError) || (e.Answered? && IsCreated(e.status) && !e.jsonBody))
      && (r == Propagated(OtherError) <==> e == Raised(OtherError))
  {
    Classify(post(BuildRequest(settings, record)))
  }
}
