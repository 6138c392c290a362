# MQTT dashboard relay — a Dafny model

The dashboard is made of two pieces of glue code:

- **The server** (`mqtt_dashboard/src/server.mjs`) keeps at most one broker session. It narrates that session's life cycle to every open browser event stream. Each broker message is relayed as a line `Topic: <t> | Message: <m>`.
- **The browser page** (`mqtt_dashboard/public/js/client.js`):
  - decodes each pushed line;
  - parses its payload and stamps it with a `receivedTime`;
  - appends it to an in-memory history.
  
  From that history the page can:
  - plot two paths of the records, sorted by x, and extend a live chart by one point per arriving record;
  - export the history as CSV.

The model follows the code's own form, file by file:

| file | module | what it holds |
|---|---|---|
| `wrappers.dfy` | `Wrappers` | `Option`, and `Completion` (a normal result, or a thrown `TypeError`) |
| `strings.dfy` | `Strings` | JavaScript's `\s` class, `trim`, `indexOf`, decimal numerals, `join` |
| `json.dfy` | `Json` | the value union `JValue` (undefined, null, boolean, number, string, array with named properties, ordered object); property read and write (`Get`, `Put`); `Object.keys`/`Object.values`; join rendering |
| `wire.dfy` | `Wire` | the server's line encoder, and the page's decoder (see below) |
| `paths.dfy` | `Paths` | `getValueByPath` |
| `series.dfy` | `Series` | the four point-building rules; the plot loop (`CollectPoints`/`PushPoints`), proved against the function `Collected`; the sort on x; the one-point live update |
| `csv.dfy` | `Csv` | the export text, and the export loop proved against it |
| `client.dfy` | `Client` | class `Dashboard`: the page's mutable state (`historicalData`, the chart paths, the live chart) and its three handlers |
| `server.dfy` | `Server` | class `Viewer`: an event stream as an output buffer; class `Bridge`: the stream list and the nullable broker handle, with one method per request or broker event |

The decoder in `wire.dfy` is the regular expression `^Topic:\s+(.+?)\s+\|\s+Message:\s+(.*?)(\s+\|\s+Props:\s+(.*))?$`, written out as the backtracking matcher JavaScript runs:
- greedy runs give back one character at a time;
- lazy captures grow one character at a time;
- the optional group is tried before it is skipped;
- `.` does not match line terminators.

The round trip `Wire.DecodeEncode` is proved under a condition that suffices, `Wire.Transparent`:
- neither part has a line terminator;
- the topic is non-empty and neither starts nor ends with whitespace;
- the payload is empty or does not start with whitespace (trailing whitespace is allowed);
- neither part has whitespace directly before a `|`.

The condition is not necessary: some lines outside it also round-trip, for example payload `a | b`. Excluding only the exact text ` | Message: ` from the topic would not be enough: a topic containing `\t|\tMessage:\t` also splits, because the separator allows any whitespace.

Behaviours of the code that the model keeps:
- **CSV header.** It is the first record's keys. Objects nested in a row render as `[object Object]` (the join rendering).
- **Connect URL.** Only `mqtt://` is ever put in front, so `mqtts://h` becomes `mqtt://mqtts://h` (`Server.ConnectUrlSecureScheme`).
- **Props segment.** The server never writes one, but a payload that itself contains ` | Props: ` is split there by the page, and the rest is lost from the record: payload `a | Props: b` comes back as payload `a` with properties `b` (`Wire.DecodePropsInPayload`, `Wire.PayloadPropsSplit`).
- **A `null` payload.** It parses, then throws at the `receivedTime` read, so nothing is stored.
- **A `null` or `undefined` element under a dotted path.** It throws inside `getValueByPath`. This aborts the plot, with the paths already stored and the old chart left standing, and it aborts the live update.
- **Array payloads.** They gain `receivedTime` as a named property.
- **Primitive payloads.** Numbers, strings and booleans lose the assignment silently, as in a non-strict script.
- **The live point and the rebuilt points can differ.** An empty array reduces to `undefined`, which the live update plots and a rebuild does not (`Series.LiveEmptyArrayPoint`). A leading `null` element hides the whole record from the live update, while a rebuild still plots the later pairs (`Series.LiveLeadingNull`).

## Model

| member | source | states |
|---|---|---|
| Wire.Decode | mqtt_dashboard/public/js/client.js:71-83 | A line not starting with `Topic:` (or not matching) is returned whole as the payload, with no topic and empty props. A match has a non-empty topic, and no part contains a line terminator. |
| Wire.Match | mqtt_dashboard/public/js/client.js:72-74 | A successful match starts with `Topic:` and yields well-formed captures. |
| Wire.MatchEncode | mqtt_dashboard/public/js/client.js:72-74 | The pattern matches a server-encoded transparent line with exactly its topic and payload, and no Props group. |
| Wire.DecodeEncode | mqtt_dashboard/src/server.mjs:91 | Decoding the line the server writes for topic t and payload m gives back t and m with empty props, whenever t and m are transparent. |
| Wire.NoSeparatorInsideTopic | mqtt_dashboard/public/js/client.js:73 | Inside a transparent topic, the lazy topic capture cannot stop at a false separator. |
| Wire.MessageScan | mqtt_dashboard/public/js/client.js:73 | The lazy payload capture runs to the end of a line whose rest has no line terminator and no space before `|`. |
| Wire.TopicScan | mqtt_dashboard/public/js/client.js:73 | The lazy topic capture grows until the real separator. |
| Wire.AfterTransparentTopic | mqtt_dashboard/public/js/client.js:73 | After the topic, the separator is recognised and the payload capture is the whole payload. |
| Wire.MatchTopic | mqtt_dashboard/public/js/client.js:72-74 | For a transparent topic, the match captures exactly the topic, with the message and Props captures the rest of the pattern finds after it. |
| Wire.AfterTopicFrame | mqtt_dashboard/public/js/client.js:73 | After the topic of a server line, the separator and `Message:` label are recognised and the payload capture starts right after the label's single space, whatever the payload. |
| Wire.PropsAt | mqtt_dashboard/public/js/client.js:73 | Text ` \| Props: q` running to the end of the line, with `q` on one line and not starting with whitespace, is a Props group capturing exactly `q`. |
| Wire.MessageScanTo | mqtt_dashboard/public/js/client.js:73 | The lazy payload capture stops at the first position where a Props group begins, provided no `\|` follows whitespace before it. |
| Wire.AfterTopicProps | mqtt_dashboard/public/js/client.js:73 | After the topic, a payload `p \| Props: q` yields the message capture `p` and the Props capture `q`. |
| Wire.DecodePropsInPayload | mqtt_dashboard/public/js/client.js:71-79 | For a transparent topic `t` and a payload `p \| Props: q` (`p` non-empty, on one line, not starting or ending with whitespace, with no `\|` after whitespace; `q` non-empty, on one line, not starting with whitespace), decoding the server's line gives topic `t`, payload `p` and properties `q`: the relayed payload is cut short. |
| Wire.PayloadPropsSplit | mqtt_dashboard/src/server.mjs:91 | The server's line for topic `t` and payload `a \| Props: b` decodes to payload `a` with properties `b`. |
| Strings.Trim | mqtt_dashboard/public/js/client.js:123 | The trimmed text is no longer than the input, and neither starts nor ends with whitespace. |
| Strings.TrimInfix | mqtt_dashboard/public/js/client.js:123 | The trimmed text is an infix of the input, with only whitespace on either side. |
| Strings.TrimEmpty | mqtt_dashboard/public/js/client.js:217-222 | Trimming gives the empty string exactly when the field is all whitespace, which is when the Plot button falls back to its default path. |
| Strings.IndexOf | mqtt_dashboard/public/js/client.js:124 | It finds the first occurrence, and finds nothing exactly when the character is absent. |
| Strings.DigitsValueOfNatToString | mqtt_dashboard/public/js/client.js:134-135 | The decimal numeral of n reads back as n, so `Number` of a digit string inverts the numeral. |
| Json.Get | mqtt_dashboard/public/js/client.js:133 | A property read throws exactly on `null` or `undefined`. |
| Json.Put | mqtt_dashboard/public/js/client.js:21-23 | A write throws exactly on `null` or `undefined`. On an object or array, the key then reads the written value and every other key reads as before. Key order is kept, with a new key last. An array keeps its items. Numbers, strings and booleans are unchanged. |
| Json.SetMemberSpec | mqtt_dashboard/public/js/client.js:22 | After `o[key] = v`, `key` reads v and every other key reads as before. Key order is kept; a new key goes last. |
| Json.CoerceDigits | mqtt_dashboard/public/js/client.js:141-143 | A digit string becomes the number its digits spell; anything else is unchanged; the result is never a digit string. |
| Json.CoerceNumeral | mqtt_dashboard/public/js/client.js:134-135 | The decimal numeral of n, as a string, is coerced back to the number n. |
| Json.ArrayIndexOfNumeral | mqtt_dashboard/public/js/client.js:353 | Every decimal numeral is read as the array index it spells. |
| Json.Values | mqtt_dashboard/public/js/client.js:353 | `Object.values` has one entry per key of `Object.keys`. |
| Json.LookupDistinct | mqtt_dashboard/public/js/client.js:353 | With no key twice, each member's key reads that member's value. |
| Json.ValuesReadKeys | mqtt_dashboard/public/js/client.js:350-353 | For objects, arrays and strings whose own keys are distinct, entry k of `Object.values` is what reading entry k of `Object.keys` gives, so each CSV cell lines up with its key. |
| Json.PropsReadKeys | mqtt_dashboard/public/js/client.js:353 | An array's named property follows its items in `Object.keys`, and reads its own value. |
| Json.Keys | mqtt_dashboard/public/js/client.js:350 | The definition of `Object.keys`: an object's member names in order, an array's indices as numerals followed by its named properties, a string's indices; stated through `Json.Values` and `Json.ValuesReadKeys`. |
| Strings.Join | mqtt_dashboard/public/js/client.js:350-353 | The definition of `join(",")` over already rendered parts; used by `Csv.Header` and `Csv.Row`, and stated through `Csv.CsvAppend` and `Csv.Export`. |
| Json.JoinString | mqtt_dashboard/public/js/client.js:353 | The definition of how `join` renders one value: `null`/`undefined` as empty, arrays as their own comma join, objects as `[object Object]`; no contract of its own. |
| Paths.SplitPath | mqtt_dashboard/public/js/client.js:123-127 | The path is treated as dotted exactly when its trimmed form contains a `.`; the array property never holds a `.`. |
| Paths.SplitPathSpec | mqtt_dashboard/public/js/client.js:123-127 | A dotted path splits at the first dot of its trimmed form, into the trimmed text before it and the trimmed text after it. |
| Paths.Resolve | mqtt_dashboard/public/js/client.js:119-146 | The definition of `getValueByPath`; its properties are the lemmas in the rows around this one. |
| Paths.ResolveThrows | mqtt_dashboard/public/js/client.js:119-146 | Every path of `null`/`undefined` throws; on any other record only a dotted path can throw. |
| Paths.ResolveCurrent | mqtt_dashboard/public/js/client.js:120-122 | The empty path and `current` both read `receivedTime`, uncoerced, and do not throw. |
| Paths.DottedResolve | mqtt_dashboard/public/js/client.js:124-138 | The result is `null` unless the array property holds a non-empty array. Otherwise it throws exactly when some element is `null`/`undefined`, or else is an array of the same length whose element k is element k's sub-property, coerced. |
| Paths.PluckSpec | mqtt_dashboard/public/js/client.js:132-138 | The `map` throws exactly when an element is nullish; otherwise it is elementwise. |
| Paths.PlainResolve | mqtt_dashboard/public/js/client.js:139-145 | A plain path never throws on a record: falsy values become `null`, digit strings become numbers, and everything else passes through. |
| Series.ZipPointsSpec | mqtt_dashboard/public/js/client.js:229-235 | Two arrays pair up to the shorter length; exactly the pairs with no `null` side become points. |
| Series.SpreadXSpec | mqtt_dashboard/public/js/client.js:236-241 | An array x pairs each non-`null` element with a non-`null` scalar y. |
| Series.SpreadYSpec | mqtt_dashboard/public/js/client.js:242-247 | A scalar x pairs with each non-`null` element of an array y. |
| Series.ZipIndices | mqtt_dashboard/public/js/client.js:229-235 | There is a strictly increasing list of positions, holding exactly the positions below the shorter length where neither side is `null`, such that the points are the pairs at those positions, in that order, and no others. |
| Series.SpreadXIndices | mqtt_dashboard/public/js/client.js:236-241 | There is a strictly increasing list of positions, holding exactly the positions of non-`null` x elements when y is not `null` (none otherwise), such that the points pair those elements with y, in that order. |
| Series.SpreadYIndices | mqtt_dashboard/public/js/client.js:242-247 | There is a strictly increasing list of positions, holding exactly the positions of non-`null` y elements when x is not `null` (none otherwise), such that the points pair x with those elements, in that order. |
| Series.PointsOfIndices | mqtt_dashboard/public/js/client.js:229-252 | For all four rules at once: a record's points are the pairs at its positions (the shorter array's, the one array's, or a single one), in increasing order, exactly where neither side is `null`. |
| Series.RecordPoints | mqtt_dashboard/public/js/client.js:226-228 | The definition of one record's contribution: both paths are read, and either read may throw; stated by `Series.CollectedThrows` and the loop `Series.CollectPoints`. |
| Series.PointsOf | mqtt_dashboard/public/js/client.js:229-252 | The definition of one record's points from its resolved x and y; stated by `Series.PointsOfSpec`. |
| Series.Collected | mqtt_dashboard/public/js/client.js:225-253 | The definition of all points, record by record; stated by `Series.CollectedThrows` and the loop `Series.CollectPoints`. |
| Series.PointsOfSpec | mqtt_dashboard/public/js/client.js:229-252 | The four rules: the membership condition and size bound of each; two scalars give at most one point; no point has a `null` side. |
| Series.CollectedThrowsAt | mqtt_dashboard/public/js/client.js:226-228 | One record whose reading throws makes the whole build throw. |
| Series.ThrowingRecord | mqtt_dashboard/public/js/client.js:226-228 | A build that throws has a record whose reading throws. |
| Series.CollectedThrows | mqtt_dashboard/public/js/client.js:226-228 | The build throws exactly when reading some record throws. |
| Series.CollectPoints | mqtt_dashboard/public/js/client.js:225-253 | The `forEach` over the history computes exactly `Collected`: the records' points, in history order. |
| Series.PushPoints | mqtt_dashboard/public/js/client.js:229-252 | One record's loop appends exactly that record's points to those already collected. |
| Series.InsertByXSorted | mqtt_dashboard/public/js/client.js:256 | Inserting into a list sorted by x keeps it sorted. |
| Series.InsertByXPermutes | mqtt_dashboard/public/js/client.js:256 | Insertion adds exactly the one point. |
| Series.InsertByXStable | mqtt_dashboard/public/js/client.js:256 | Insertion keeps the relative order of points with equal keys. |
| Series.SortByX | mqtt_dashboard/public/js/client.js:256 | The definition of the sort, as insertion by key; stated by `Series.SortByXSpec`. |
| Series.SortByXSpec | mqtt_dashboard/public/js/client.js:256 | The sorted points are ordered by x, are a permutation of the built points, and keep the input order among equal keys (stable). |
| Series.NumericSortAscending | mqtt_dashboard/public/js/client.js:256 | When every x is a number, the sorted x values ascend. |
| Series.SortSortedIsIdentity | mqtt_dashboard/public/js/client.js:256 | Sorting an already sorted list changes nothing. |
| Series.SortIdempotent | mqtt_dashboard/public/js/client.js:256 | Sorting twice is sorting once. |
| Series.FirstIfArray | mqtt_dashboard/public/js/client.js:60-61 | The definition of `if (Array.isArray(v)) v = v[0]`; stated through `Client.LiveUpdateSpec` and `Series.LiveEmptyArrayPoint`. |
| Series.LatestOf | mqtt_dashboard/public/js/client.js:60-62 | There is a live point exactly when neither first value is `null`, and then neither side of it is `null`. |
| Series.LatestPoint | mqtt_dashboard/public/js/client.js:57-62 | The definition of the live point of a record, which throws when either read throws; stated by `Client.LiveUpdateSpec`. |
| Series.LiveEmptyArrayPoint | mqtt_dashboard/public/js/client.js:60-62 | An empty x array gives the live chart an `undefined` x, while a rebuild of the same record gives no point. |
| Series.LiveLeadingNull | mqtt_dashboard/public/js/client.js:60-62 | A leading `null` x element gives no live point, while a rebuild of the same record plots the later pair. |
| Series.LatestAgreesWithRebuild | mqtt_dashboard/public/js/client.js:57-62 | For two scalars, or two non-empty arrays with non-`null` heads, the live update adds the point a full rebuild would put first for that record (or none). |
| Series.ZipFirst | mqtt_dashboard/public/js/client.js:229-233 | When the first pair qualifies, it is the first zipped point. |
| Csv.Header | mqtt_dashboard/public/js/client.js:350 | The definition of the header line: the first record's keys joined by commas. |
| Csv.Row | mqtt_dashboard/public/js/client.js:353 | The definition of a row: the record's values rendered by `join` and joined by commas; cells line up with keys by `Json.ValuesReadKeys`. |
| Csv.CsvText | mqtt_dashboard/public/js/client.js:349-355 | The definition of the export text; stated by `Csv.CsvAppend`, `Csv.HeaderIsFirstRecords` and the loop `Csv.Export`. |
| Csv.RowsAppend | mqtt_dashboard/public/js/client.js:352-355 | The lines of two histories are the lines of the first followed by those of the second. |
| Csv.CsvAppend | mqtt_dashboard/public/js/client.js:349-355 | Once the history is non-empty, a new record leaves the header alone and adds exactly its own line at the end. |
| Csv.HeaderIsFirstRecords | mqtt_dashboard/public/js/client.js:350 | The export begins with the first record's keys and the earlier lines, whatever arrives later. |
| Csv.Export | mqtt_dashboard/public/js/client.js:348-355 | The loop produces exactly `CsvText`: nothing for an empty history, otherwise the header line and one line per record in order. |
| Client.ChartOf | mqtt_dashboard/public/js/client.js:259-260 | The chart's labels and values are the points' x and y, position by position. |
| Client.LiveUpdate | mqtt_dashboard/public/js/client.js:51-66 | The definition of the live update; stated by `Client.LiveUpdateSpec` and `Client.LiveUpdateExtends`. |
| Client.LiveUpdateSpec | mqtt_dashboard/public/js/client.js:51-66 | With a chart shown and both paths set, the chart gains exactly (first x, first y) when both reads succeed and neither first value is `null`. In every other case it is unchanged. |
| Client.LiveUpdateExtends | mqtt_dashboard/public/js/client.js:62-65 | A live update never changes what the chart shows: it adds at most one label and one value, neither `null`, at the end. |
| Client.Arrival | mqtt_dashboard/public/js/client.js:13-23 | A stored record is never `null` or `undefined`. |
| Client.XPathOf | mqtt_dashboard/public/js/client.js:217-221 | The definition of the stored x path: the trimmed field, or `current` when it is empty. |
| Client.YPathOf | mqtt_dashboard/public/js/client.js:218-222 | The definition of the stored y path: the trimmed field, or `value` when it is empty. |
| Client.ArrivalSpec | mqtt_dashboard/public/js/client.js:13-23 | Arrival throws exactly when the payload parses to `null`/`undefined`. Unparsable text becomes `{text, receivedTime: now}`. A parsed object or array keeps a truthy `receivedTime`. Otherwise it gets `now`, with its other members (and an array's items) unchanged and `receivedTime` last unless it was already a key. Other primitives pass through. |
| Client.Dashboard.constructor | mqtt_dashboard/public/js/client.js:2-6 | The history starts empty, with no chart paths and no chart. |
| Client.Dashboard.OnMessage | mqtt_dashboard/public/js/client.js:12-68 | The paths are unchanged. After a throw, history and chart are unchanged. Otherwise exactly the arrived record is appended to the history, and the chart becomes its `LiveUpdate`. |
| Client.Dashboard.Plot | mqtt_dashboard/public/js/client.js:216-267 | The trimmed paths, or their defaults, are stored first. If the rebuild throws, the old chart stays; otherwise the chart is the rebuilt points sorted by x. The history is unchanged. |
| Client.Dashboard.ExportCsv | mqtt_dashboard/public/js/client.js:348-355 | The exported text is `CsvText` of the history. |
| Server.ConnectUrl | mqtt_dashboard/src/server.mjs:63-69 | The URL always has a `mqtt://` or `tcp://` scheme. It starts with the given URL, or with `mqtt://` and then the given URL. It ends with `:port` when a port is given. Its length is exactly the given URL, plus 7 for an added scheme, plus `:port`, so nothing else is inserted. |
| Server.ConnectUrlIdempotent | mqtt_dashboard/src/server.mjs:63-69 | Rebuilding from a built URL with no port changes nothing. |
| Server.ConnectUrlSecureScheme | mqtt_dashboard/src/server.mjs:64-65 | `mqtts://h` is not recognised and becomes `mqtt://mqtts://h`. |
| Server.FirstIndex | mqtt_dashboard/src/server.mjs:35 | `indexOf` is the first position of the stream, or the length when the stream is absent. |
| Wire.Encode | mqtt_dashboard/src/server.mjs:91 | The definition of the relayed line; stated by `Wire.DecodeEncode`. |
| Server.Frame | mqtt_dashboard/src/server.mjs:46 | The definition of one event-stream write, `data: m` and a blank line; stated by `Server.Bridge.Broadcast`. |
| Server.Remove | mqtt_dashboard/src/server.mjs:35-38 | The definition of closing a stream, as `indexOf` then `splice`; stated by `Server.RemoveSpec`. |
| Server.RemoveSpec | mqtt_dashboard/src/server.mjs:35-38 | Closing an absent stream changes nothing. Closing a present one removes exactly one occurrence of it and nothing else. |
| Server.RemoveDistinct | mqtt_dashboard/src/server.mjs:31-38 | A list without repeats stays without repeats and no longer holds the closed stream. |
| Server.Viewer.constructor | mqtt_dashboard/src/server.mjs:25-29 | A new stream has received no data. |
| Server.Bridge.constructor | mqtt_dashboard/src/server.mjs:20 | No streams and no session. |
| Server.Bridge.Attach | mqtt_dashboard/src/server.mjs:23-31 | A fresh, empty stream is appended to the list, and the session is unchanged. |
| Server.Bridge.Close | mqtt_dashboard/src/server.mjs:33-39 | The list becomes `Remove` of the old list: the first occurrence is spliced out. |
| Server.Bridge.Broadcast | mqtt_dashboard/src/server.mjs:43-48 | Every registered stream receives `data: m` followed by a blank line, exactly once; the list is unchanged. |
| Server.Bridge.Connect | mqtt_dashboard/src/server.mjs:54-98 | With a session: 400 `Already connected`, and nothing broadcast or changed. Otherwise: every stream gets `Connecting to: <url> ...`, and the session opens with that URL and with username and password only when non-empty. Returns `Connecting`. |
| Server.Bridge.BrokerConnected | mqtt_dashboard/src/server.mjs:79-81 | Broadcasts `Connected to broker at <url>` and issues one subscribe call. |
| Server.Bridge.SubscribeDone | mqtt_dashboard/src/server.mjs:81-87 | Each subscribe callback broadcasts exactly one of `Subscription error: <e>` and `Subscribed to topic: <t> (QoS: <q>)`. |
| Server.Bridge.BrokerMessage | mqtt_dashboard/src/server.mjs:90-92 | Every stream receives the encoded `Topic: t \| Message: m` line. |
| Server.Bridge.BrokerError | mqtt_dashboard/src/server.mjs:94-96 | Broadcasts `MQTT Error: <e>` and keeps the session. |
| Server.Bridge.Disconnect | mqtt_dashboard/src/server.mjs:102-112 | Without a session: 400 `Not connected`. Otherwise `Disconnecting`, with the session kept, marked as ending, and nothing broadcast. |
| Server.Bridge.EndDone | mqtt_dashboard/src/server.mjs:104-107 | Only the `end` callback broadcasts `Disconnected from MQTT broker.` and clears the session. |

## Left out

- **I/O and foreign code become parameters or are not modelled.**
  - `JSON.parse` is the parameter `parse`, and `Date.now()` is the parameter `now`.
  - The `mqtt` library is an opaque session; its events are method calls.
  - Express routing, static files, body parsing, `app.listen`, `console.log` and `res.writeHead` headers are not modelled.
- **Display code and downloads.** `syntaxHighlight`, the HTML and DOM updates, the clear/copy/download handlers, and the Blob/URL download are presentation only.
- **The page's `fetch` calls.** The `/connect` and `/disconnect` requests are modelled on the server side instead.
- **Chart.js.** `new Date(x)` conversion, the chart options, `destroy` and `update` are not modelled. The chart is its labels and values.
- **Numbers.** They are exact integers, so JavaScript floating point is not modelled. The digit-string coercion is exact.
- **Prototype properties and getters.** Only own members are read.
- **UTF-16.** A Dafny `char` is one Unicode scalar value, while JavaScript strings index UTF-16 code units. For characters outside the Basic Multilingual Plane, a string's `length`, index reads, and `Object.keys`/`Object.values` differ from the model. That includes the CSV row of a string record.
- **Electron.** The Electron shell (`mqtt_dashboard/electronjs/main.js`) is not part of this model.
- **Concurrency.** Events are a sequential stream of method calls.
- Series.SortByX: the model's key is the x number, and 0 for any x that is not a number. The comparator `a.x - b.x` also converts some other x to numbers, and the browser sorts those numerically: strings such as `"-5"` or `"2.5"`, booleans, and one-element arrays such as `[3]`. For those x, and for x that convert to `NaN` (where the browser's order is implementation-defined), the order is not modelled. Sortedness, permutation and stability are proved for the model's key, and ascending order only when every x is a number.
- Server.Bridge.Broadcast: each stream's own sequence of writes is modelled. The interleaving of writes across different streams, and the event-stream framing on the page's side, are not.
- Server.Bridge.Connect: the page always sends strings, so a missing `brokerUrl` (which throws in `startsWith`) is not modelled. `Number(qos)` passed to the broker is not modelled either; the QoS text is kept as given.
- Server.Bridge.Disconnect: repeating `/disconnect` before the `end` callback calls `end` again; whether the library then runs a second callback is library behaviour and not modelled.
- Server.Bridge.BrokerConnected: broker events are only modelled while a session exists. An event from a handle already cleared by `end` is not modelled.
- Client.Dashboard.OnMessage: the message list, JSON highlighting and the topic/props display of each arrival are not modelled.
