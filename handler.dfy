/** The proxy `handler` behind `xhrRequest`: reading a property either
    passes through a name the target already has or yields an invoker that
    issues a request whose HTTP method is the property name upper-cased. */
module Handler {
  import opened Wrappers
  import opened Values
  import opened XmlHttpRequest
  import XhrApi

  // ------------------------------------------------------------- dispatch

  /** What reading a property of the proxy gives. */
  datatype Property =
    | TargetMember(name: string)  // the target's own (or inherited) member, unchanged
    | Invoker(verb: string)       // a request function for the verb `verb`

  /** The names the proxy target `{}` has: those it inherits from
      `Object.prototype`. */
  const ObjectPrototypeNames: set<string> := {
    "constructor", "hasOwnProperty", "isPrototypeOf", "propertyIsEnumerable",
    "toLocaleString", "toString", "valueOf", "__proto__",
    "__defineGetter__", "__defineSetter__", "__lookupGetter__", "__lookupSetter__"
  }

  /** `handler.get(target, name)`: `name in target ? target[name] : invoker`. */
  function Get(target: set<string>, name: string): (p: Property)
    ensures p.TargetMember? <==> name in target
    ensures p == TargetMember(name) || p == Invoker(name)
  {
    if name in target then TargetMember(name) else Invoker(name)
  }

  /** The target is the empty literal, so the helper names of `xhrAPI` are
      not shadowed: reading them yields invokers like any other verb. */
  lemma HelpersNotShadowed(name: string)
    requires name in {"query", "header", "listen", "get", "post", "any", "anyMethod"}
    ensures Get(ObjectPrototypeNames, name) == Invoker(name)
  {
  }

  /** Every name `{}` inherits reaches the target's own member. */
  lemma PrototypeNamesPassThrough(name: string)
    requires name in ObjectPrototypeNames
    ensures Get(ObjectPrototypeNames, name) == TargetMember(name)
  {
  }

  // ------------------------------------------------------------ upper-case

  predicate IsLowerAscii(c: char) {
    'a' <= c <= 'z'
  }

  /** `toUpperCase` on one character, for the ASCII letters. */
  function UpperChar(c: char): (u: char)
    ensures IsLowerAscii(c) ==> u as int == c as int - 32 && 'A' <= u <= 'Z'
    ensures !IsLowerAscii(c) ==> u == c
  {
    if IsLowerAscii(c) then (c as int - 32) as char else c
  }

  /** `s.toUpperCase()`: same length, every lower-case letter replaced by
      its capital, every other character kept. */
  function ToUpper(s: string): (r: string)
    ensures |r| == |s|
    ensures forall i :: 0 <= i < |s| ==> r[i] == UpperChar(s[i])
    ensures forall i :: 0 <= i < |r| ==> !IsLowerAscii(r[i])
  {
    if s == [] then "" else [UpperChar(s[0])] + ToUpper(s[1..])
  }

  /** Upper-casing twice is upper-casing once. */
  lemma ToUpperIdempotent(s: string)
    ensures ToUpper(ToUpper(s)) == ToUpper(s)
  {
  }

  // --------------------------------------------------------------- options

  /** A top-level key of the caller's options: left out, or given. */
  datatype Field<T> = Omitted | Given(value: T)

  /** The `customOptions` argument; a `None` header or query list is an
      explicit `null` or `undefined`. */
  datatype CustomOptions = CustomOptions(
    header: Field<Option<seq<XhrApi.Pair>>>,
    query: Field<Option<seq<XhrApi.Pair>>>,
    data: Field<Value>)

  /** The options the invoker works with. */
  datatype Options = Options(
    header: Option<seq<XhrApi.Pair>>,
    query: Option<seq<XhrApi.Pair>>,
    data: Value)

  /** `{header: {}, query: {}, data: {}}`. */
  const DefaultOptions: Options := Options(Some([]), Some([]), EmptyObject)

  function Override<T>(base: T, f: Field<T>): T {
    match f
    case Omitted => base
    case Given(v) => v
  }

  /** `Object.assign({}, defaultOptions, customOptions)`: each key the
      caller gives replaces the default as a whole; an absent
      `customOptions` leaves the defaults. */
  function Merge(custom: Option<CustomOptions>): (o: Options)
    ensures custom.None? ==> o == DefaultOptions
    ensures custom.Some? && custom.value.header.Given? ==> o.header == custom.value.header.value
    ensures custom.Some? && custom.value.query.Given? ==> o.query == custom.value.query.value
    ensures custom.Some? && custom.value.data.Given? ==> o.data == custom.value.data.value
    ensures (custom.None? || custom.value.header.Omitted?) ==> o.header == Some([])
    ensures (custom.None? || custom.value.query.Omitted?) ==> o.query == Some([])
    ensures (custom.None? || custom.value.data.Omitted?) ==> o.data == EmptyObject
  {
    match custom
    case None => DefaultOptions
    case Some(c) =>
      Options(
        Override(DefaultOptions.header, c.header),
        Override(DefaultOptions.query, c.query),
        Override(DefaultOptions.data, c.data))
  }

  // --------------------------------------------------------------- invoker

  /** The calls the invoker makes on its fresh request: `open`, then one
      `setRequestHeader` per header, then `send`. */
  function InvokeTrace(verb: string, url: string, custom: Option<CustomOptions>): (t: seq<Call>)
    ensures |t| >= 2 && t[0].Opened? && t[|t| - 1].Sent?
    ensures forall i :: 0 < i < |t| - 1 ==> t[i].HeaderSet?
  {
    var options := Merge(custom);
    [Opened(ToUpper(verb), url + XhrApi.QueryString(OrEmpty(options.query)), true)]
      + XhrApi.HeaderCalls(OrEmpty(options.header))
      + [Sent(options.data)]
  }

  /** The invoker that `handler.get` returns for `verb`, applied to `url`
      and `customOptions`. It returns the request it created; the promise
      it returns is `XhrApi.Outcome(xhr, signal)` on that same request,
      once the transport has given its signal. */
  method Invoke(verb: string, url: string, customOptions: Option<CustomOptions>) returns (xhr: Request)
    ensures fresh(xhr)
    ensures xhr.calls == InvokeTrace(verb, url, customOptions)
    ensures xhr.status == 0 && xhr.response == Text("")
  {
    var methodName := ToUpper(verb);
    xhr := new Request();
    var options := Merge(customOptions);
    var queryString := XhrApi.Query(options.query);
    xhr.Open(methodName, url + queryString, true);
    XhrApi.Header(xhr, options.header);
    xhr.Send(options.data);
  }

  /** What the trace promises: `open` first, with the upper-cased verb, the
      URL followed by a query string that reads back as the query pairs,
      and the asynchronous flag; then exactly the header calls in order;
      and `send` with the data, verbatim, last. */
  lemma InvokeTraceShape(verb: string, url: string, custom: Option<CustomOptions>)
    ensures var t := InvokeTrace(verb, url, custom);
      var options := Merge(custom);
      var hs := OrEmpty(options.header);
      && |t| == |hs| + 2
      && t[0].Opened? && t[0].verb == ToUpper(verb) && t[0].async
      && |url| <= |t[0].url| && t[0].url[..|url|] == url
      && XhrApi.ParseQuery(t[0].url[|url|..]) == Some(OrEmpty(options.query))
      && (forall i :: 1 <= i <= |hs| ==> t[i] == HeaderSet(hs[i - 1].0, hs[i - 1].1))
      && t[|t| - 1] == Sent(options.data)
  {
    var options := Merge(custom);
    var hs := OrEmpty(options.header);
    var q := XhrApi.QueryString(OrEmpty(options.query));
    XhrApi.HeaderCallsAt(hs);
    XhrApi.ParseQueryString(OrEmpty(options.query));
    assert (url + q)[|url|..] == q;
    assert (url + q)[..|url|] == url;
  }

  /** The end-to-end case of the tests: `xhrRequest.any("/example", {data: 7})`
      opens `ANY /example` asynchronously, sets no header and sends `7`
      unchanged; a 200 answer resolves with the body, a 404 or 500 answer
      rejects with it. */
  lemma AnyRequestExample(body: Value)
    ensures InvokeTrace("any", "/example", Some(CustomOptions(Omitted, Omitted, Given(Number(7)))))
         == [Opened("ANY", "/example", true), Sent(Number(7))]
    ensures XhrApi.Listen(XhrApi.Load, 200, body) == XhrApi.Resolved(body)
    ensures XhrApi.Listen(XhrApi.Load, 404, body) == XhrApi.Rejected(body)
    ensures XhrApi.Listen(XhrApi.Load, 500, body) == XhrApi.Rejected(body)
  {
    assert ToUpper("any") == "ANY";
    assert "/example" + "" == "/example";
  }
}
