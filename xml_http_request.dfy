/** A stand-in for the browser's `XMLHttpRequest`: it performs no I/O and
    records, in order, every call the request helper makes on it. The
    transport sets `status` and `response` before it signals completion. */
module XmlHttpRequest {
  import opened Values

  /** One call made on a request object. */
  datatype Call =
    | Opened(verb: string, url: string, async: bool)
    | HeaderSet(name: string, value: string)
    | Sent(body: Value)

  class Request {
    var calls: seq<Call>
    var status: int
    var response: Value

    /** `new XMLHttpRequest()`: nothing called yet, status 0, empty body. */
    constructor ()
      ensures calls == [] && status == 0 && response == Text("")
    {
      calls := [];
      status := 0;
      response := Text("");
    }

    /** `xhr.open(verb, url, async)`. */
    method Open(verb: string, url: string, async: bool)
      modifies this`calls
      ensures calls == old(calls) + [Opened(verb, url, async)]
    {
      calls := calls + [Opened(verb, url, async)];
    }

    /** `xhr.setRequestHeader(name, value)`. */
    method SetRequestHeader(name: string, value: string)
      modifies this`calls
      ensures calls == old(calls) + [HeaderSet(name, value)]
    {
      calls := calls + [HeaderSet(name, value)];
    }

    /** `xhr.send(body)`. */
    method Send(body: Value)
      modifies this`calls
      ensures calls == old(calls) + [Sent(body)]
    {
      calls := calls + [Sent(body)];
    }
  }
}
