/** What one request for the character list yields once its response has arrived: the awaited
    part of `fetchChars`, from the response (or the rejection) to the list or the error message. */
module Fetch {
  import opened Text
  import opened Search

  /** The response body, as `response.json()` sees it. */
  datatype Body =
    | JsonArray(items: seq<Character>)  // a JSON array of records
    | JsonOther                         // valid JSON that is not an array (an object, null, a number, ...)
    | Unparseable(message: string)      // not JSON: `response.json()` rejects with this message

  /** How the request ended: a response with its HTTP status, or a rejection of `fetch` itself
      (no network, DNS failure, ...), whose thrown value may or may not carry a message. */
  datatype Outcome =
    | Response(status: nat, body: Body)
    | Rejected(message: Option<string>)

  /** The end of the `try` block: the list to store, or the message the `catch` stores. */
  datatype Attempt =
    | Loaded(chars: seq<Character>)
    | Failed(message: Option<string>)

  /** `response.ok`: the status lies in 200..299, the 2xx class. */
  predicate IsOkStatus(status: nat) {
    200 <= status <= 299
  }

  /** The message of the error thrown for a response that is not ok. */
  function StatusMessage(status: nat): (m: string)
    ensures |m| > 6
    ensures m[..6] == "Error "
    ensures exists k :: 6 < k <= |m| && m[6..k] == Decimal(status) && m[k..] == ": No se pudo conectar"
  {
    var m := "Error " + Decimal(status) + ": No se pudo conectar";
    assert m[6..6 + |Decimal(status)|] == Decimal(status);
    m
  }

  /** The numeral in the message names the status, so two statuses never give one message. */
  lemma StatusMessageInjective(s1: nat, s2: nat)
    requires StatusMessage(s1) == StatusMessage(s2)
    ensures s1 == s2
  {
    var d1, d2 := Decimal(s1), Decimal(s2);
    var tail := ": No se pudo conectar";
    var m := StatusMessage(s1);
    assert m == "Error " + d1 + tail;
    assert m == "Error " + d2 + tail;
    assert |d1| == |d2|;
    assert d1 == m[6..6 + |d1|] == d2;
    DecimalRoundTrip(s1);
    DecimalRoundTrip(s2);
  }

  /** Lines from `await fetch(...)` to `Array.isArray(data) ? data : []`, with the `catch`:
      a status outside 2xx throws its status message (the body is not read); an ok response
      whose body is not JSON fails with the parser's message; a JSON body that is not an array
      loads the empty list; a rejected request fails with whatever message it carried. */
  function Run(o: Outcome): (a: Attempt)
    ensures a.Loaded? <==> o.Response? && IsOkStatus(o.status) && !o.body.Unparseable?
    ensures a.Loaded? ==> a.chars == if o.body.JsonArray? then o.body.items else []
    ensures o.Response? && !IsOkStatus(o.status) ==> a == Failed(Some(StatusMessage(o.status)))
    ensures o.Response? && IsOkStatus(o.status) && o.body.Unparseable? ==> a == Failed(Some(o.body.message))
    ensures o.Rejected? ==> a == Failed(o.message)
  {
    match o
    case Rejected(message) => Failed(message)
    case Response(status, body) =>
      if !IsOkStatus(status) then Failed(Some(StatusMessage(status)))
      else
        match body
        case JsonArray(items) => Loaded(items)
        case JsonOther => Loaded([])
        case Unparseable(message) => Failed(Some(message))
  }

  /** A request that reaches the server but is answered with an error status always fails
      with a non-empty message, so the error screen has something to show. */
  lemma HttpErrorHasMessage(status: nat, body: Body)
    requires !IsOkStatus(status)
    ensures Run(Response(status, body)).Failed?
    ensures Run(Response(status, body)).message.Some?
    ensures |Run(Response(status, body)).message.value| > 0
  {
  }
}
