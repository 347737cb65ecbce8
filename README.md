# xhrAPI in Dafny

A model of `app/xhr.js`, a small browser HTTP helper. It exposes a proxy,
`xhrRequest`, on which any property name is an HTTP verb:
`xhrRequest.get(url, options)` opens a fresh `XMLHttpRequest` with method
`GET`, the URL followed by a query string, sets the headers, sends the body
and returns a promise. Three helpers of the `xhrAPI` object do the work:
`query` builds the query string, `header` assigns the headers, and `listen`
decides how the promise settles.

The model:

- `wrappers.dfy`, `values.dfy`: `Option` (with `None` for `null` and
  `undefined`), and the JavaScript values that pass through untouched.
- `utf8.dfy`, `uri_component.dfy`: `encodeURIComponent` as ECMA-262 defines
  it. Each character outside the unescaped set (`A-Z a-z 0-9 - _ . ! ~ * ' ( )`)
  becomes the `%XX` triples of its UTF-8 bytes, with upper-case hex digits.
  `decodeURIComponent` is its partner. The decoder refuses what would throw
  `URIError`: a bad triple, a bad lead or continuation byte, an overlong
  form, a surrogate, or a code point past U+10FFFF.
- `strings.dfy`: `split` and `join` on one separator character. These are
  used to read a query string back.
- `xml_http_request.dfy`: a stand-in `Request` class for `XMLHttpRequest`.
  `open`, `setRequestHeader` and `send` append to a trace of calls. No
  member writes `status` and `response`: they stand for what the transport
  has stored, and `XhrApi.Outcome` reads them.
- `xhr_api.dfy`: `Query` (the loop that appends `key=value&` and then cuts
  the last character), `Header` (the loop of `setRequestHeader` calls) and
  `Listen` (the `onload`/`onerror` decision, as a value of type
  `Settlement`).
- `handler.dfy`: the proxy's `get` trap (`Get`), `toUpperCase`, the option
  merge, and the invoker (`Invoke`). The invoker's contract is the exact
  call trace of the request it creates.

Where a description of this library differs from the code, the model follows
the code:
- The proxy target is the empty literal `{}`. So `query`, `header` and
  `listen` are not passed through: reading them gives an invoker like any
  other verb. Only names inherited from `Object.prototype` pass through.
- The default `data` is `{}`, not `undefined`.
- Headers are set in the order of the key list, not in an unspecified order.

## Model

| member | source | states |
|---|---|---|
| `Wrappers.OrEmpty` | app/xhr.js:10 | an absent (`null` or `undefined`) argument defaults to `{}`: an absent list reads as empty; a present list is kept as it is |
| `Utf8.EncodeChar` | app/xhr.js:12 | each character becomes 1 to 4 UTF-8 bytes; the lead byte announces the length; the other bytes are continuation bytes; exactly the ASCII characters take one byte |
| `Utf8.DecodeEncodeChar` | app/xhr.js:12 | decoding the UTF-8 bytes of a character gives back that character |
| `Utf8.EncodeDecodeChar` | app/xhr.js:12 | any byte sequence the decoder accepts is the encoding of the character it decodes to, so each character has only one spelling |
| `UriComponent.IsUnescaped` | app/xhr.js:12 | the characters copied unchanged are ASCII and never `%` |
| `UriComponent.HexDigit` | app/xhr.js:12 | the digit for 0..15 is one of `0-9 A-F` (upper case, as ECMA-262 requires), is unescaped, is not `%`, and reads back as its value |
| `UriComponent.PercentEncode` | app/xhr.js:12 | three characters per byte, using only `%` and unescaped characters |
| `UriComponent.EncodeChar` | app/xhr.js:12 | an unescaped character is copied as it is; any other becomes a `%` triple per UTF-8 byte; the result holds only unescaped characters and `%` |
| `UriComponent.Encode` | app/xhr.js:12 | `encodeURIComponent`: its output holds only unescaped characters and `%`, so never `=`, `&`, `?` or `#`; the output is never shorter than the input |
| `UriComponent.EncodeUnescaped` | app/xhr.js:12 | a string of unescaped characters is its own encoding |
| `UriComponent.DecodeEncode` | app/xhr.js:12 | `decodeURIComponent(encodeURIComponent(s)) == s` for every string |
| `UriComponent.EncodeInjective` | app/xhr.js:12 | two strings with the same encoding are equal |
| `XhrApi.FormatPair` | app/xhr.js:12 | `encode(key) + "=" + encode(value)` is never empty and holds no `&` and no `?` |
| `XhrApi.QueryString` | app/xhr.js:9-15 | the query string is empty exactly when there are no pairs, and is never a bare `?` |
| `XhrApi.Query` | app/xhr.js:9-15 | the loop that starts from `?`, appends `encode(k)=encode(v)&` per pair and cuts the last character returns the query string of the pairs; `null`/`undefined` gives `""` |
| `XhrApi.QueryStep` | app/xhr.js:12 | one turn of the loop appends one field and one `&` to what was built so far |
| `XhrApi.QueryFinish` | app/xhr.js:13 | cutting the last character of the built string leaves the query string, also when there are no pairs |
| `XhrApi.QueryStringDelimiters` | app/xhr.js:11-13 | a non-empty query string starts with its only `?` and never ends in `&` |
| `XhrApi.ParseQueryString` | app/xhr.js:12 | splitting the query string after `?` on `&` and on each `=`, then decoding, gives back the pairs in order |
| `XhrApi.QueryStringInjective` | app/xhr.js:12 | different pair lists never give the same query string |
| `XhrApi.QueryStringExample` | test/xhr.test.js:137-141 | `{name: "dummyData"}` gives `?name=dummyData` |
| `XhrApi.HeaderCalls` | app/xhr.js:6 | one call per pair, each a `setRequestHeader` call |
| `XhrApi.HeaderCallsAt` | app/xhr.js:6 | there is one header call per pair; call i is `setRequestHeader(k_i, v_i)` |
| `XhrApi.Header` | app/xhr.js:4-7 | appends exactly those header calls to the request's trace; `null`/`undefined` appends none; nothing else on the request changes |
| `XhrApi.Listen` | app/xhr.js:17-29 | pending until a signal arrives. On `onload`, it resolves with the response exactly when the status is in class 2xx or 3xx, and rejects with the response otherwise, so for an integer status exactly one of the two happens. On `onerror`, it rejects with the status, not the response |
| `XhrApi.Outcome` | app/xhr.js:48 | the promise of `listen(xhr)` on the request itself: pending until a signal arrives; on load it resolves with `xhr.response` for a 2xx/3xx `xhr.status` and rejects with it otherwise; on error it rejects with `xhr.status` |
| `XmlHttpRequest.Request.constructor` | app/xhr.js:37 | a fresh request has made no calls |
| `XmlHttpRequest.Request.Open` | app/xhr.js:45 | `open` appends one `open` call and changes nothing else |
| `XmlHttpRequest.Request.SetRequestHeader` | app/xhr.js:6 | `setRequestHeader` appends one header call and changes nothing else |
| `XmlHttpRequest.Request.Send` | app/xhr.js:47 | `send` appends one `send` call carrying the body and changes nothing else |
| `Handler.Get` | app/xhr.js:33-35 | a name the target has is returned as that member; any other name gives an invoker for that name |
| `Handler.PrototypeNamesPassThrough` | app/xhr.js:54 | every name the `{}` target inherits from `Object.prototype` (`ObjectPrototypeNames`) passes through as the target's member |
| `Handler.HelpersNotShadowed` | app/xhr.js:54 | with the target `{}`, `query`, `header`, `listen` and ordinary verbs all give invokers |
| `Handler.UpperChar` | app/xhr.js:36 | a lower-case ASCII letter becomes its capital; every other character stays |
| `Handler.ToUpper` | app/xhr.js:36 | upper-casing keeps the length, upper-cases each character, and leaves no lower-case ASCII letter |
| `Handler.ToUpperIdempotent` | app/xhr.js:36 | upper-casing twice is the same as upper-casing once |
| `Handler.Merge` | app/xhr.js:38-43 | each top-level key the caller gives replaces the default as a whole; each key left out keeps the default `{}`; no options at all gives `DefaultOptions`, that is `{header: {}, query: {}, data: {}}` |
| `Handler.InvokeTrace` | app/xhr.js:45-47 | at least two calls: `open` first, `send` last, and only header calls between them |
| `Handler.Invoke` | app/xhr.js:35-49 | the invoker creates a fresh request and makes exactly the calls in `InvokeTrace` on it |
| `Handler.InvokeTraceShape` | app/xhr.js:45-47 | the trace is: `open` first, with the upper-cased verb, the URL plus a query string that reads back as the query pairs, and async `true`; then the header calls in order; then `send` with the data verbatim, last |
| `Handler.AnyRequestExample` | test/xhr.test.js:247-258 | `any("/example", {data: 7})` opens `ANY /example`, sets no header and sends `7`; status 200 resolves with the body; 404 and 500 reject with it |

## Left out

- The network and the real `XMLHttpRequest` (app/xhr.js:37, 45, 47). The `Request` class performs no I/O. It records calls, and `status` and `response` are whatever the transport wrote.
- Exceptions from the transport are not modelled: the stand-in never throws. A real `setRequestHeader` throws on an invalid header name or value. That exception propagates uncaught out of `header` and out of the invoker, leaving a partial trace with no `send`.
- Promises and the event loop (app/xhr.js:18). `listen`'s promise is modelled as a `Settlement` value that depends on which callback the transport invoked. The assignment of the `onload`/`onerror` fields is not modelled as callback storage.
- `Proxy` metaprogramming (app/xhr.js:54). The target is a set of property names. A passed-through member is represented by its name, not by its value.
- `Handler.ToUpper`: covers only the ASCII letters. `toUpperCase` also maps non-ASCII letters (and can lengthen a string, as `ß` to `SS`).
- `Handler.UpperChar`: leaves every non-ASCII character as it is, where `toUpperCase` maps `é` to `É`.
- `UriComponent.Encode`: the `URIError` that `encodeURIComponent` throws on a lone surrogate is not modelled. A Dafny `char` is always a Unicode scalar value, so such a string cannot be formed.
- `Object.keys` order (integer-like keys first): the key/value pairs are given as an ordered list. Duplicate keys, which an object cannot have, are not excluded.
- Query values that are numbers: values are given as strings, and JavaScript's `String(n)` conversion is not modelled.
- A `queryData` or `headerData` that is neither absent nor a plain object (a string, a number) is not modelled. A `null`/`undefined` header or query option is modelled.
- `XhrApi.Listen`: status is an integer. The non-numeric status for which neither `onload` branch fires (NaN comparisons) is not modelled. For it, the promise would stay pending after `onload`.
- Line 12 reads the value as `queryData[query]` rather than `queries[query]`. This makes no difference: when `queryData` is absent there are no keys to read.
