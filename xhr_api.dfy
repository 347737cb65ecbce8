/** The three helpers of the `xhrAPI` object: `query` builds the query
    string, `header` assigns request headers, and `listen` decides how the
    returned promise settles. */
module XhrApi {
  import opened Wrappers
  import opened Values
  import opened XmlHttpRequest
  import UriComponent
  import Strings

  /** A key and its value, in the order `Object.keys` lists them. */
  type Pair = (string, string)

  // ---------------------------------------------------------------- query

  /** `encodeURIComponent(key) + "=" + encodeURIComponent(value)`. */
  function FormatPair(p: Pair): (r: string)
    ensures '&' !in r && '?' !in r && |r| >= 1
  {
    UriComponent.Encode(p.0) + "=" + UriComponent.Encode(p.1)
  }

  function Fields(ps: seq<Pair>): (fs: seq<string>)
    ensures |fs| == |ps|
    ensures forall i :: 0 <= i < |fs| ==> '&' !in fs[i] && '?' !in fs[i] && fs[i] != []
  {
    if ps == [] then [] else [FormatPair(ps[0])] + Fields(ps[1..])
  }

  /** The query string of a list of pairs: empty for no pairs, otherwise
      `?` and the encoded pairs joined by `&`. */
  function QueryString(ps: seq<Pair>): (r: string)
    ensures r == "" <==> ps == []
    ensures r != "?"
  {
    if ps == [] then "" else "?" + Strings.Join(Fields(ps), '&')
  }

  /** A non-empty query string starts with its only `?` and never ends in
      `&`. */
  lemma QueryStringDelimiters(ps: seq<Pair>)
    requires ps != []
    ensures var r := QueryString(ps);
      r[0] == '?' && '?' !in r[1..] && r[|r| - 1] != '&'
  {
    var fs := Fields(ps);
    var r := QueryString(ps);
    Strings.JoinAvoids(fs, '&', '?');
    Strings.JoinEndsWithLast(fs, '&');
    assert r[1..] == Strings.Join(fs, '&');
  }

  /** An example from the tests: one pair `name=dummyData`. */
  lemma QueryStringExample()
    ensures QueryString([("name", "dummyData")]) == "?name=dummyData"
  {
    QueryStringOfOne(("name", "dummyData"));
    UriComponent.EncodeExample();
    ExampleText();
  }

  /** The query string of that example, written out. */
  lemma ExampleText()
    ensures "?" + ("name" + "=" + "dummyData") == "?name=dummyData"
  {
  }

  /** One pair gives `?` and its field. */
  lemma QueryStringOfOne(p: Pair)
    ensures QueryString([p]) == "?" + FormatPair(p)
  {
  }


  /** The fields, each followed by `&`: what the loop of `query` has
      appended after the leading `?`. */
  ghost function Terminated(fs: seq<string>): string {
    if fs == [] then "" else fs[0] + "&" + Terminated(fs[1..])
  }

  lemma {:induction false} TerminatedSnoc(fs: seq<string>, f: string)
    ensures Terminated(fs + [f]) == Terminated(fs) + f + "&"
  {
    if fs != [] {
      assert (fs + [f])[1..] == fs[1..] + [f];
      TerminatedSnoc(fs[1..], f);
    }
  }

  lemma {:induction false} TerminatedIsJoined(fs: seq<string>)
    requires fs != []
    ensures Terminated(fs) == Strings.Join(fs, '&') + "&"
  {
    if |fs| > 1 {
      TerminatedIsJoined(fs[1..]);
    }
  }

  lemma {:induction false} FieldsSnoc(ps: seq<Pair>, p: Pair)
    ensures Fields(ps + [p]) == Fields(ps) + [FormatPair(p)]
  {
    if ps != [] {
      assert (ps + [p])[1..] == ps[1..] + [p];
      FieldsSnoc(ps[1..], p);
    }
  }

  /** One turn of the loop of `query` appends one field and an `&`. */
  lemma QueryStep(queries: seq<Pair>, i: nat, built: string)
    requires i < |queries|
    requires built == "?" + Terminated(Fields(queries[..i]))
    ensures built + FormatPair(queries[i]) + "&" == "?" + Terminated(Fields(queries[..i + 1]))
  {
    assert queries[..i + 1] == queries[..i] + [queries[i]];
    FieldsSnoc(queries[..i], queries[i]);
    TerminatedStep(Fields(queries[..i]), FormatPair(queries[i]), built);
  }

  lemma TerminatedStep(fs: seq<string>, f: string, built: string)
    requires built == "?" + Terminated(fs)
    ensures built + f + "&" == "?" + Terminated(fs + [f])
  {
    TerminatedSnoc(fs, f);
  }

  /** Cutting the last character after the loop leaves the query string. */
  lemma QueryFinish(queries: seq<Pair>)
    ensures var built := "?" + Terminated(Fields(queries));
      |built| >= 1 && built[..|built| - 1] == QueryString(queries)
  {
    if queries != [] {
      TerminatedIsJoined(Fields(queries));
      var joined := Strings.Join(Fields(queries), '&');
      assert ("?" + joined + "&")[..|joined| + 1] == "?" + joined;
    }
  }

  /** `xhrAPI.query(queryData)`: starts from `?`, appends each encoded
      pair and an `&`, then cuts the last character, so that no pairs give
      `""` rather than `"?"`. */
  method Query(queryData: Option<seq<Pair>>) returns (queryString: string)
    ensures queryString == QueryString(OrEmpty(queryData))
  {
    var queries := OrEmpty(queryData);
    queryString := "?";
    for i := 0 to |queries|
      invariant queryString == "?" + Terminated(Fields(queries[..i]))
    {
      QueryStep(queries, i, queryString);
      queryString := queryString + FormatPair(queries[i]) + "&";
    }
    assert queries[..|queries|] == queries;
    QueryFinish(queries);
    queryString := queryString[..|queryString| - 1];
  }

  /** Reads one `key=value` field back, decoding both halves. */
  function ParsePair(field: string): Option<Pair> {
    var k := Strings.IndexOf(field, '=');
    if k == |field| then None
    else match (UriComponent.Decode(field[..k]), UriComponent.Decode(field[k + 1..]))
      case (Some(key), Some(value)) => Some((key, value))
      case _ => None
  }

  function ParseFields(fields: seq<string>): Option<seq<Pair>> {
    if fields == [] then Some([])
    else match (ParsePair(fields[0]), ParseFields(fields[1..]))
      case (Some(p), Some(ps)) => Some([p] + ps)
      case _ => None
  }

  /** Reads a query string back into its pairs: the empty string has none,
      and otherwise the text after `?` is split on `&` and each field on
      its `=`. */
  function ParseQuery(s: string): Option<seq<Pair>> {
    if s == "" then Some([])
    else if s[0] != '?' then None
    else ParseFields(Strings.Split(s[1..], '&'))
  }

  lemma ParseFormatPair(p: Pair)
    ensures ParsePair(FormatPair(p)) == Some(p)
  {
    var key, value := UriComponent.Encode(p.0), UriComponent.Encode(p.1);
    var f := FormatPair(p);
    Strings.IndexOfAfterPrefix(key, '=', value);
    assert f == key + ['='] + value;
    assert f[..|key|] == key && f[|key| + 1..] == value;
    UriComponent.DecodeEncode(p.0);
    UriComponent.DecodeEncode(p.1);
  }

  lemma {:induction false} ParseFieldsOfFields(ps: seq<Pair>)
    ensures ParseFields(Fields(ps)) == Some(ps)
  {
    if ps != [] {
      ParseFormatPair(ps[0]);
      ParseFieldsOfFields(ps[1..]);
      assert Fields(ps)[1..] == Fields(ps[1..]);
      assert [ps[0]] + ps[1..] == ps;
    }
  }

  /** Splitting the query string after `?` on `&` and each field on `=`,
      then decoding, gives back the pairs in their order. */
  lemma ParseQueryString(ps: seq<Pair>)
    ensures ParseQuery(QueryString(ps)) == Some(ps)
  {
    if ps != [] {
      var s := QueryString(ps);
      assert s[1..] == Strings.Join(Fields(ps), '&');
      Strings.SplitJoin(Fields(ps), '&');
      ParseFieldsOfFields(ps);
    }
  }

  /** Different pair lists never share a query string. */
  lemma QueryStringInjective(ps: seq<Pair>, qs: seq<Pair>)
    requires QueryString(ps) == QueryString(qs)
    ensures ps == qs
  {
    ParseQueryString(ps);
    ParseQueryString(qs);
  }

  // --------------------------------------------------------------- header

  /** One `setRequestHeader(name, value)` per pair, in order. */
  function HeaderCalls(hs: seq<Pair>): (cs: seq<Call>)
    ensures |cs| == |hs|
    ensures forall i :: 0 <= i < |cs| ==> cs[i].HeaderSet?
  {
    if hs == [] then [] else HeaderCalls(hs[..|hs| - 1]) + [HeaderSet(hs[|hs| - 1].0, hs[|hs| - 1].1)]
  }

  lemma {:induction false} HeaderCallsAt(hs: seq<Pair>)
    ensures |HeaderCalls(hs)| == |hs|
    ensures forall i :: 0 <= i < |hs| ==> HeaderCalls(hs)[i] == HeaderSet(hs[i].0, hs[i].1)
  {
    if hs != [] {
      HeaderCallsAt(hs[..|hs| - 1]);
    }
  }

  /** `xhrAPI.header(xhr, headerData)`: appends exactly the header calls to
      the request's trace and changes nothing else. */
  method Header(xhr: Request, headerData: Option<seq<Pair>>)
    modifies xhr`calls
    ensures xhr.calls == old(xhr.calls) + HeaderCalls(OrEmpty(headerData))
  {
    var headers := OrEmpty(headerData);
    for i := 0 to |headers|
      invariant xhr.calls == old(xhr.calls) + HeaderCalls(headers[..i])
    {
      assert headers[..i + 1][..i] == headers[..i];
      xhr.SetRequestHeader(headers[i].0, headers[i].1);
    }
    assert headers[..|headers|] == headers;
  }

  // --------------------------------------------------------------- listen

  /** Which completion callback the transport has invoked, if any. */
  datatype Signal = Unsignalled | Load | Error

  /** The state of the promise that `listen` returns. */
  datatype Settlement = Pending | Resolved(value: Value) | Rejected(reason: Value)

  /** Status codes of the classes 2xx (Successful) and 3xx (Redirection)
      of section 15 of RFC 9110: those whose first digit is 2 or 3. */
  predicate IsSuccessStatus(status: int) {
    status / 100 == 2 || status / 100 == 3
  }

  /** `xhrAPI.listen(xhr)`: how the promise stands once the transport has
      given `signal`, with `status` and `response` read from the request
      at that moment. `onload` resolves with the response for a 2xx or 3xx
      status and rejects with it otherwise; `onerror` rejects with the
      status. */
  function Listen(signal: Signal, status: int, response: Value): (s: Settlement)
    ensures s == Pending <==> signal == Unsignalled
    ensures signal == Load ==>
      s == if IsSuccessStatus(status) then Resolved(response) else Rejected(response)
    ensures signal == Error ==> s == Rejected(Number(status))
  {
    match signal
    case Unsignalled => Pending
    case Load =>
      if status >= 200 && status < 400 then Resolved(response)
      else if status < 200 || status >= 400 then Rejected(response)
      else Pending
    case Error => Rejected(Number(status))
  }

  /** The promise `listen(xhr)` returns, for the request itself: the
      callbacks read `status` and `response` from `xhr` when the transport
      signals. */
  function Outcome(xhr: Request, signal: Signal): (s: Settlement)
    reads xhr
    ensures s == Pending <==> signal == Unsignalled
    ensures signal == Load ==>
      s == if IsSuccessStatus(xhr.status) then Resolved(xhr.response) else Rejected(xhr.response)
    ensures signal == Error ==> s == Rejected(Number(xhr.status))
  {
    Listen(signal, xhr.status, xhr.response)
  }
}
