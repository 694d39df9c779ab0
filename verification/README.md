# envoy-docker-shim: a verified model

The repository keeps a table of the containers on a host and serves it to Envoy as JSON
discovery documents. Three of its parts are modelled and proved here.

**The JSON codec of the discovery documents** (`Lexemes`, `Structs`, `Printer`, `Parser`,
`Marshal`, `Unmarshal`, `RoundTrip`, `ExactRoundTrips`, `Balance`, `ParserSafety`, `Framing`,
`Suffixes`, `StructLanguage`, `ArrayLanguage`, `ObjectArrays`, `MapLanguage`, `GeneratedText`,
`JsonGrammar`, `PrintedJson`, `JsonReading`, `LooseText`, `Strictness`, `EnvoyObjects`). The generator wrote the same printer and the same parser fourteen times, once for
each struct, from the fields of the struct. The model has them once, over a table of fields, and
gives the fourteen tables in `EnvoyObjects`. `Marshal` and `Unmarshal` are the code: a shared
buffer with a one-byte rewind, a shared lexer, and loops over state, current key and token.
`Printer` and `Parser` are the functions they are proved against, and the other modules prove what
these functions are for: parsing inverts printing, for every nesting depth and every continuation
of the text, on exactly which values; which texts each of the four loops of the parser (struct,
map, array of strings, array of structs) accepts, and as what; and how both relate to JSON, the
grammar of which is in `JsonGrammar`: which printed texts are JSON, which JSON texts are read, and
which accepted texts are JSON. Text is a sequence of lexemes; the
structural characters have the names of section 2 of RFC 8259 (the original calls `{` and `}`
`left_bracket` and `right_bracket`, and `[` and `]` `left_brace` and `right_brace`).

**The UDP proxy** (`Addresses`, `ConnTrackKeys`, `UdpProxy`). One `Run`, one `replyLoop` for each
connection, and one `Close`, as interleaved atomic steps: a critical section is one step, every
socket operation is a step of its own. The five parts of `Inv` are kept by each of the eighteen
kinds of step, and hold in the state after any list of them (`Reached`). Beside safety: service goes
on (`UdpProxy.RepliesDelivered`, `UdpProxy.NextIsForwarded`).

**The registrar, its three views and the shim** (`Registry`, `EnvoyApi`, `ServedDocuments`,
`ServedJson`, `EnvoyProxy`). The table of entries under printed names, the cluster, listener and service
documents made from it, and the shim that registers and deregisters with retries.
`ServedDocuments` joins this to the codec: what is served from any reachable table is read back
exactly. `ServedJson` writes the served documents out, member by member.

## Where the code departs from what one would expect

- A nil element of a slice makes the printer return early, which leaves the text unbalanced by two
  brackets (`Balance.DepthOfObject`); the text is JSON if and only if there is none
  (`PrintedJson.PrintedIsJsonIffNoNil`). And an empty list that is marked `omitempty` comes back
  nil. The round trip gives the same value if and only if there is neither
  (`ExactRoundTrips.SameValueIff`).
- A `null` element makes the parser leave an array of structs at once. JSON text that fits a struct
  is read if and only if no array of structs in it holds null, and refused otherwise
  (`JsonReading.JsonIsReadIffNullFree`).
- More than JSON is accepted. Where all keys are known, the accepted texts are those of `LooseText`
  (`LooseText.AcceptedLanguage`), and such a text is JSON if and only if it is strict at every depth
  (`Strictness.JsonIffStrict`): no comma before a closing brace; each pointer value null or opened
  by a brace, where any value token will do; each array element opened by a brace, where almost any
  token will do; arrays of structs ended by a bracket, where a null will do; one comma between the
  elements of arrays and maps and none after the last, where any number will do; no null for a key
  of a map. `{"config":true}}` is a filter, read past the brace that ends the JSON object
  (`Strictness.PastTheBrace`). With unknown members nothing of the kind is claimed: what the library
  skips is not part of this model.
- Service names of different ports can collide if a port is negative (`Registry.ClashIffSameName`).
  Ports are isolated from each other if and only if no registration is taken over in that way
  (`Registry.ProjectionIffNoneTakenOver`).
- An IPv4 client and a client with the IPv4-compatible address and the same port have one key; so
  do link-local clients that differ in the zone only (`ConnTrackKeys.SameKey`). Two clients can come
  to share a connection if and only if they have one key (`UdpProxy.SharedIffSameKey`).
- `Close` can leave a connection open (`UdpProxy.ShutdownLeak`), never more than one
  (`UdpProxy.ShutdownBound`), and if and only if `Run` holds a datagram read and not yet looked up
  while `Close` goes through the table (`UdpProxy.LeakIffDatagramHeld`).
- With an empty list of retries, and only then, nothing is attempted, and no error returned
  (`EnvoyProxy.WithRetries`).
- Retries amount to at most one application if and only if discovery keeps the name from attempt
  to attempt (`EnvoyProxy.RetriesConvergeIff`). If it reports another name at the end than at the
  start, the entry made at the start stays (`EnvoyProxy.CloseUndoesRun`).

## Model

| member | source | states |
|---|---|---|
| `Lexemes.Buffer.Rewind` | internal/envoyhttp/envoy_api_objects_ffjson.go:1007-1009 | A rewind takes back exactly one lexeme, and every caller has to show that this is a comma or the padding space, never content or a bracket |
| `Lexemes.Lexer.Scan` | internal/envoyhttp/envoy_api_objects_ffjson.go:88-92 | The cursor skips spaces, never moves back, and yields the next token or end of input |
| `Marshal.MarshalObject` | internal/envoyhttp/envoy_api_objects_ffjson.go:928-1010 | The code with commas and rewinds appends exactly the strictly separated text of the struct, early returns on nil elements included, and touches nothing written before |
| `Marshal.WriteOpening` | internal/envoyhttp/envoy_api_objects_ffjson.go:2213-2221 | The members before the first optional one are written in one piece with commas between them and one after the last; they and what is still to come make up the text |
| `Marshal.WriteTrailing` | internal/envoyhttp/envoy_api_objects_ffjson.go:2609-2680 | Before and after each optional field the buffer ends in the padding space or a pending comma; taken back at the end, it leaves the separated text with no trailing comma |
| `Marshal.WriteSeparated` | internal/envoyhttp/envoy_api_objects_ffjson.go:288-309 | A struct without optional fields writes the same separated members without any rewind |
| `Marshal.WritePointers` | internal/envoyhttp/envoy_api_objects_ffjson.go:963-991 | The array loop writes the bracketed elements, or stops at the first nil element after `null`, closing nothing |
| `Marshal.WriteStrings` | internal/envoyhttp/envoy_api_objects_ffjson.go:1425-1450 | The loop over a string slice writes the bracketed, comma-separated elements |
| `Marshal.WriteTags` | internal/envoyhttp/envoy_api_objects_ffjson.go:3216-3228 | The map loop writes the members in the order of iteration; its rewind takes back the last comma, or the space of an empty map |
| `Marshal.MarshalPointer` | internal/envoyhttp/envoy_api_objects_ffjson.go:928-932 | A nil receiver prints `null`, any other the text of its struct |
| `Marshal.MarshalJSON` | internal/envoyhttp/envoy_api_objects_ffjson.go:14-25 | The text handed out is that of the value alone |
| `GeneratedText.GeneratedForm` | internal/envoyhttp/envoy_api_objects_ffjson.go:937-1009 | For every value of every struct, what stands before the final rewind is `{ ` and the present members with a comma each; the rewind takes the last comma or the padding space, never content or a bracket; an early return leaves the members as they are |
| `Balance.DepthOfObject` | internal/envoyhttp/envoy_api_objects_ffjson.go:963-991 | The bracket depth at the end of the text of any value is exactly twice the number of arrays cut short by the early return |
| `Balance.NoCutsIffNoNil` | internal/envoyhttp/envoy_api_objects_ffjson.go:45-48 | Nothing is cut short if and only if no slice, at any depth, holds nil |
| `Balance.BalancedIffNoNil` | internal/envoyhttp/envoy_api_objects_ffjson.go:38-61 | The text is balanced if and only if no slice at any depth holds nil |
| `PrintedJson.PrintedIsJsonIffNoNil` | internal/envoyhttp/envoy_api_objects_ffjson.go:26-63 | The text is JSON of RFC 8259 if and only if no slice at any depth holds nil |
| `PrintedJson.KeyIsPrintedIff` | internal/envoyhttp/envoy_api_objects_ffjson.go:938-1006 | Which members a printed struct has, on the text alone: whatever JSON object the text is, it has the key of a field if and only if the field is not `omitempty`, or the string or slice has a length above zero, or the pointer is not nil; and under it the tree of the value |
| `PrintedJson.PrintedTree` | internal/envoyhttp/envoy_api_objects_ffjson.go:928-1010 | The text of a value without nil elements is, spaces apart, that of one JSON tree and of no other |
| `PrintedJson.FieldsPrinted` | internal/envoyhttp/envoy_api_objects_ffjson.go:963-991 | Nil elements or not: the fields printed are, in order, those not left out that no printed slice holding nil comes before |
| `PrintedJson.PaddedIff` | internal/envoyhttp/envoy_api_objects_ffjson.go:937 | A space follows the opening brace exactly if some field is `omitempty` and some member is printed |
| `ServedJson.ConfigTexts` | internal/envoyhttp/envoy_api_objects_ffjson.go:937-1009 | The empty router config prints as two braces; the config of a TCP filter has exactly `stat_prefix` and `route_config` |
| `ServedJson.TCPRouteTree` | internal/envoyhttp/envoy_api_objects_ffjson.go:3769-3837 | A TCP route has its cluster, and each of the four other members exactly when not empty |
| `Unmarshal.UnmarshalObject` | internal/envoyhttp/envoy_api_objects_ffjson.go:1042-1411 | The state machine terminates on every input with the result and the cursor position of its specification; the cursor never moves back; in `want_colon` and `want_value` the current key is never the base value |
| `Parser.LookupInRange` | internal/envoyhttp/envoy_api_objects_ffjson.go:124-152 | A scanned key is never the base value and names one of the fields or none |
| `Parser.LookupIs` | internal/envoyhttp/envoy_api_objects_ffjson.go:386-470 | A scanned key names the first field it is exactly; if there is none, the last whose folded comparison accepts it; and none if there is none of these or the key is empty |
| `Parser.IntegerRange` | internal/envoyhttp/envoy_api_objects_ffjson.go:565-593 | An integer is taken exactly if it fits 64 bits |
| `JsonGrammar.ValueTokenIff` | internal/envoyhttp/envoy_api_objects_ffjson.go:163 | The tokens a value may start with are those that start some JSON value |
| `Unmarshal.UnmarshalField` | internal/envoyhttp/envoy_api_objects_ffjson.go:565-593 | Each handler, entered with its token read, computes what its specification says, or the same error |
| `Unmarshal.UnmarshalStrings` | internal/envoyhttp/envoy_api_objects_ffjson.go:1679-1734 | The array loop over strings, with its `wantVal` flag, computes its specification and terminates |
| `Unmarshal.UnmarshalPointers` | internal/envoyhttp/envoy_api_objects_ffjson.go:1309-1362 | The array loop over structs terminates on every input; end of input inside it is met by the nested parser, which fails |
| `Unmarshal.UnmarshalTags` | internal/envoyhttp/envoy_api_objects_ffjson.go:3646-3734 | The map loop terminates on every input with the map, the error and the cursor position of `ParseTags`, the language of which `MapLoopLanguage` gives |
| `MapLanguage.MapLoopLanguage` | internal/envoyhttp/envoy_api_objects_ffjson.go:3646-3734 | The map loop accepts exactly (key : value comma*)* up to the brace, keys and values strings or `null`, and assigns the members in order |
| `MapLanguage.LastValueWins` | internal/envoyhttp/envoy_api_objects_ffjson.go:3728 | Of a repeated key the last value counts; `null` counts as the empty string; no other key is in the map |
| `Unmarshal.SkipField` | internal/envoyhttp/envoy_api_objects_ffjson.go:169-175 | Skipping an unknown member moves the cursor to where the library leaves it, never back |
| `Unmarshal.UnmarshalJSON` | internal/envoyhttp/envoy_api_objects_ffjson.go:74-78 | The entry point parses from the start of the text; what follows the closing brace is not looked at |
| `RoundTrip.ObjectRoundTrip` | internal/envoyhttp/envoy_api_objects_ffjson.go:665-1411 | Framing: after its opening brace, the nested parser, entered in `want_key`, gives the printed struct back and consumes exactly up to its own closing brace, whatever follows and however deep the nesting |
| `RoundTrip.DocumentRoundTrip` | internal/envoyhttp/envoy_api_objects_ffjson.go:4528-4776 | Print then parse into a zero struct is the identity up to `Norm` (an empty omitted list becomes nil, the order of a map is forgotten), with any rest left unread, for every type |
| `RoundTrip.MembersRoundTrip` | internal/envoyhttp/envoy_api_objects_ffjson.go:2204-2987 | From any field on, the parser reads the remaining members into the fields that are still zero |
| `RoundTrip.ValueRoundTrip` | internal/envoyhttp/envoy_api_objects_ffjson.go:1425-1830 | Each kind of field value is given back by its handler: nil, empty and filled slices told apart |
| `RoundTrip.PointersRoundTrip` | internal/envoyhttp/envoy_api_objects_ffjson.go:963-991 | A printed array of structs is read back element by element, in order |
| `RoundTrip.StringsRoundTrip` | internal/envoyhttp/envoy_api_objects_ffjson.go:3769-4325 | A printed array of strings is read back, in order |
| `RoundTrip.TagsValueRoundTrip` | internal/envoyhttp/envoy_api_objects_ffjson.go:3195-3231 | A map printed in any iteration order is read back as the same map, empty or not |
| `RoundTrip.ExactKeyFound` | internal/envoyhttp/envoy_api_objects_ffjson.go:386-470 | A printed key is found by the exact comparison, whatever the case-folding ones would say |
| `RoundTrip.SameTextSameValue` | internal/envoyhttp/envoy_api_objects_ffjson.go:4790-5136 | Two values print to the same text only if they agree in all that is kept |
| `EnvoyObjects.EnvoyTablesAreSound` | internal/envoyhttp/envoy_api_objects.go:8-97 | The fourteen structs meet what the codec needs: distinct non-empty keys, and only strings, pointers and slices omitted when empty |
| `EnvoyObjects.ExactRoundTrip` | internal/envoyhttp/envoy_api_objects_ffjson.go:26-274 | A value of the Envoy types without empty omitted lists is read back from its text unchanged |
| `ParserSafety.ParsedObjectIsGood` | internal/envoyhttp/envoy_api_objects_ffjson.go:1042-1411 | On any input whatever, an accepting parser leaves a well-typed struct, and puts no nil into a slice |
| `ParserSafety.RoundTripIffNoNil` | internal/envoyhttp/envoy_api_objects_ffjson.go:963-991 | The exact domain of the round trip up to `Norm`: it gives the value back if and only if no slice at any depth holds nil |
| `ExactRoundTrips.SameValueIff` | internal/envoyhttp/envoy_api_objects_ffjson.go:665-1411 | The exact domain of the law itself: print then parse gives the same Go value if and only if at no depth a slice holds nil or an omitted list is empty without being nil |
| `ExactRoundTrips.NormIsPlainIff` | internal/envoyhttp/envoy_api_objects_ffjson.go:963-991 | The text carries the whole value if and only if no list is left out that is empty without being nil |
| `ParserSafety.AcceptedPrintsBalanced` | internal/envoyhttp/envoy_api_objects_ffjson.go:79-274 | Whatever was accepted prints to balanced text |
| `StructLanguage.StructLanguage` | internal/envoyhttp/envoy_api_objects_ffjson.go:86-181 | One level of a struct, unknown members included: an opening brace, members separated by single commas with or without one after the last, and a closing brace, spaces anywhere between tokens; each value is what its handler or the skip reads, the members are handled in order, and what follows is left unread |
| `LooseText.AcceptedLanguage` | internal/envoyhttp/envoy_api_objects_ffjson.go:79-274 | Every level at once, with no parser in the definition: where all keys are known, exactly these texts are accepted, with this value and what follows left unread. Any value token but null opens a pointer value, any token without another meaning opens an array element, an array of structs ends in a bracket or a null |
| `Strictness.JsonIffStrict` | internal/envoyhttp/envoy_api_objects_ffjson.go:79-274 | A text of that language is JSON of RFC 8259 if and only if, at every depth, no comma stands before a closing brace, each struct opens with a brace, arrays of structs end in a bracket, arrays and maps have one comma between elements and none after the last, and no key of a map is null |
| `Strictness.AcceptedIsJsonIffStrict` | internal/envoyhttp/envoy_api_objects_ffjson.go:79-274 | The same for any library: what is accepted with known keys only is a text of that language, and JSON exactly if it is strict |
| `Strictness.SkipPlaysNoPart` | internal/envoyhttp/envoy_api_objects_ffjson.go:169-175 | What is accepted with known keys only is accepted alike whatever the skip of unknown members does |
| `Strictness.OpenerPlaysNoPart` | internal/envoyhttp/envoy_api_objects_ffjson.go:870-890 | In a pointer field any value token but null opens the struct, as a brace would |
| `Strictness.ElementOpenerPlaysNoPart` | internal/envoyhttp/envoy_api_objects_ffjson.go:226-246 | In an array of structs any token but a bracket, a comma, a null or an error opens the element |
| `Strictness.PastTheBrace` | internal/envoyhttp/envoy_api_objects_ffjson.go:870-890 | So an object with a bare token in a pointer field, such as `{"config":true}`, is read past the brace where JSON ends it: one brace more is consumed, and the field is an empty struct |
| `Strictness.TokenObjectIsJson` | internal/envoyhttp/envoy_api_objects_ffjson.go:870-890 | That object is JSON up to its own brace |
| `Strictness.AnyElementOpens` | internal/envoyhttp/envoy_api_objects_ffjson.go:226-246 | Any such token followed by a closing brace and a bracket is read as an array of one empty struct |
| `StructLanguage.CommaBeforeBrace` | internal/envoyhttp/envoy_api_objects_ffjson.go:104-118 | A text beyond section 4 of RFC 8259: a comma before the closing brace is accepted |
| `StructLanguage.AcceptedIsMembers` | internal/envoyhttp/envoy_api_objects_ffjson.go:1042-1411 | The same for the nested entry in `want_key`: every accepted text is members and a closing brace |
| `JsonReading.JsonIsReadIffNullFree` | internal/envoyhttp/envoy_api_objects_ffjson.go:79-274 | JSON text, spaces anywhere between tokens, members in any order, missing and repeated keys, is read as its value, with what follows left unread, if and only if no array of structs in it, at any depth, holds null; with such a null it is refused |
| `JsonReading.StuckAfterNull` | internal/envoyhttp/envoy_api_objects_ffjson.go:229-235 | After a null element neither the closing bracket nor a comma and the next element will do |
| `Framing.ObjectFrame` | internal/envoyhttp/envoy_api_objects_ffjson.go:79-274 | For any input and state: what is accepted is accepted with any text after it, with the same value and that text left over |
| `Framing.TruncatedIsRejected` | internal/envoyhttp/envoy_api_objects_ffjson.go:1042-1411 | No proper prefix of a printed document is accepted, whatever the library does with unknown members |
| `ArrayLanguage.StringArrayLanguage` | internal/envoyhttp/envoy_api_objects_ffjson.go:1679-1737 | The loop over strings accepts exactly (element comma*)* up to the bracket, and yields the elements in order |
| `ArrayLanguage.StrictArrays` | internal/envoyhttp/envoy_api_objects_ffjson.go:4081-4129 | The printer writes arrays in the form of section 5 of RFC 8259, and the loop reads every such array, spaces anywhere in it, as its elements |
| `ArrayLanguage.LooserThanStrict` | internal/envoyhttp/envoy_api_objects_ffjson.go:1697-1706 | A trailing comma and no comma at all are accepted too, a leading comma never |
| `ObjectArrays.ObjectArrayLanguage` | internal/envoyhttp/envoy_api_objects_ffjson.go:1309-1362 | The loop over structs accepts exactly (element (comma or space)*)* up to a bracket or a null, where each element is read to its end by its own parser |
| `Suffixes.ObjectLeaves` | internal/envoyhttp/envoy_api_objects_ffjson.go:79-274 | What an accepting parser leaves unread is an end piece of its input: the cursor only moves forward |
| `ConnTrackKeys.SameKey` | cmd/envoy-docker-shim/udp_proxy.go:33-46 | Two senders share a key if and only if the ports agree and the addresses are the same bytes or one is the IPv4-compatible form of the other (section 2.5.5.1 of RFC 4291); the zone plays no part |
| `Addresses.BigEndianInjective` | cmd/envoy-docker-shim/udp_proxy.go:37-43 | The big-endian decode tells byte strings of one length apart |
| `UdpProxy.StepKeepsTable` | cmd/envoy-docker-shim/udp_proxy.go:75-147 | Every step of every goroutine keeps table entries and undeleted loops in one-to-one correspondence |
| `UdpProxy.StepKeepsIsolation` | cmd/envoy-docker-shim/udp_proxy.go:75-147 | Every step keeps each connection to its own client, the one being written to without the lock included |
| `UdpProxy.StepKeepsOrder` | cmd/envoy-docker-shim/udp_proxy.go:99-145 | Every step keeps the pieces of the datagram in flight equal to what has been sent of it |
| `UdpProxy.StepKeepsSockets` | cmd/envoy-docker-shim/udp_proxy.go:75-157 | Every step keeps sockets accounted for: open, or closed by their loop or by `Close` |
| `UdpProxy.StepKeepsLateBound` | cmd/envoy-docker-shim/udp_proxy.go:110-157 | Every step keeps the dials after the close of the listener to one, that of a datagram already read |
| `UdpProxy.ClientIsolation` | cmd/envoy-docker-shim/udp_proxy.go:75-147 | In every interleaving a connection carries only datagrams whose key is that of its client, and what it reads goes to that client only |
| `UdpProxy.SharedIffSameKey` | cmd/envoy-docker-shim/udp_proxy.go:110-147 | Two senders come to share a connection in some interleaving if and only if their keys are equal |
| `UdpProxy.DatagramsWhole` | cmd/envoy-docker-shim/udp_proxy.go:99-145 | In every interleaving a write loop that ends without error has written its datagram in order, with nothing in between; in one or more pieces, none of them empty, if there is a byte to write, and not at all if the datagram is empty |
| `UdpProxy.RunFlow` | cmd/envoy-docker-shim/udp_proxy.go:112-146 | `Run` stops by a failed read only, and goes back to its read exactly from a failed dial, a failed write and a datagram written whole |
| `UdpProxy.LoopFlow` | cmd/envoy-docker-shim/udp_proxy.go:76-106 | A `replyLoop` goes to its end exactly by a failed read or a failed write, and back to its read from a datagram written whole; then it deletes, and then closes |
| `UdpProxy.RepliesDelivered` | cmd/envoy-docker-shim/udp_proxy.go:84-106 | From any state in which a loop reads, with its connection and the listener open, any list of datagrams arriving on it can all be read and written to the client, whole and in order |
| `UdpProxy.NextIsForwarded` | cmd/envoy-docker-shim/udp_proxy.go:112-146 | From every reachable state in which `Run` has not stopped and the listener is open, in the midst of a failing dial or write or not, the next datagram of any sender can be received and forwarded whole on the connection of its key |
| `UdpProxy.AnythingMayFail` | cmd/envoy-docker-shim/udp_proxy.go:113-144 | At any moment the pending read, dial or write may fail |
| `UdpProxy.ClosedSocketsFail` | cmd/envoy-docker-shim/udp_proxy.go:84-102 | On a closed listener or connection reads and writes only fail |
| `UdpProxy.DeleteRemovesOwn` | cmd/envoy-docker-shim/udp_proxy.go:76-81 | The unchecked delete always removes the loop's own entry and no other |
| `UdpProxy.TableLoopBijection` | cmd/envoy-docker-shim/udp_proxy.go:124-137 | In every reachable state a connection is in the table, under its client's key only, if and only if its loop has not run its delete |
| `UdpProxy.SocketConservation` | cmd/envoy-docker-shim/udp_proxy.go:75-157 | Every dialled connection is in the table, between delete and close, or closed; when all loops have finished the table is empty and all are closed |
| `UdpProxy.ShutdownBound` | cmd/envoy-docker-shim/udp_proxy.go:110-157 | After `Close` the connections neither closed nor removed by their loop are exactly the tracked ones dialled after `Close` went through the table; there is at most one, the only one dialled after the listener closed |
| `UdpProxy.LeakIffDatagramHeld` | cmd/envoy-docker-shim/udp_proxy.go:124-157 | A run after `Close` can leave a connection open if and only if, when `Close` goes through the table, `Run` holds a datagram it has read and not yet looked up |
| `UdpProxy.ShutdownLeak` | cmd/envoy-docker-shim/udp_proxy.go:110-157 | The bound is met: a run in which `Close` and `Run` both return and one connection stays open |
| `UdpProxy.WriteAll` | cmd/envoy-docker-shim/udp_proxy.go:99-105 | The write loop terminates, stays within the datagram, and without an error the pieces are the datagram; with one, they are what stands before the failed write |
| `Registry.Registrar.Register` | internal/envoyhttp/registrar.go:102-131 | Action 0 files the entry, field by field, under the name made of its own service, environment and port; action 1 removes that name; any other action changes nothing and is refused |
| `Registry.NameByCases` | internal/envoyhttp/registrar.go:83-99 | The name, case by case: service-environment-port, service-port, -environment-port, or unknown--port |
| `Registry.Filed` | internal/envoyhttp/registrar.go:102-127 | Where a request is filed and as what, over its own strings; no other name is touched |
| `Registry.WireActions` | internal/envoyhttp/registrar.go:104-130 | What each number on the wire does |
| `Registry.RenderedIsNumeral` | internal/envoyhttp/registrar.go:98 | A port is printed as its base-10 numeral, without leading zeros, after a minus sign if it is negative |
| `Registry.Registrar.GetEntry` | internal/envoyhttp/registrar.go:42-47 | The entry under the name, or none |
| `Registry.Registrar.EachEntry` | internal/envoyhttp/registrar.go:50-62 | Each entry is visited once, in any order, up to the first callback that fails |
| `Registry.DecimalInjective` | internal/envoyhttp/registrar.go:98 | Decimal printing tells numbers apart |
| `Registry.SameName` | internal/envoyhttp/registrar.go:83-99 | Two names are equal exactly when base and port are, or when a negative port meets its opposite on a base with a dash more |
| `Registry.RunConsistent` | internal/envoyhttp/registrar.go:102-127 | In every reachable table each entry is filed under its own name |
| `Registry.LastWriterWins` | internal/envoyhttp/registrar.go:102-131 | After any run, what stands under a name is decided by the last request about it |
| `Registry.ProjectionIffNoneTakenOver` | internal/envoyhttp/registrar.go:83-131 | Isolation between ports, exactly: in any interleaving the entries of every port are those its own requests produce if and only if no registration is taken over by a later request of another port on its name |
| `Registry.PortProjection` | internal/envoyhttp/registrar.go:83-131 | It holds for every run in which no two requests share a name on different ports |
| `Registry.RealPortsDoNotClash` | internal/envoyhttp/registrar.go:83-99 | Ports that are not negative never share a name |
| `Registry.PairProjection` | internal/envoyhttp/registrar.go:83-131 | A registration and a deregistration: each port is isolated if and only if the names do not clash |
| `Registry.ClashIffSameName` | internal/envoyhttp/registrar.go:83-99 | Names on different ports are equal exactly when one port is negative, the other its opposite, and the bases differ by a dash |
| `Registry.NegativePortCollides` | internal/envoyhttp/registrar.go:83-99 | A concrete clash: two requests on ports -5 and 5 of which the second takes the entry of the first |
| `Registry.ResyncConverges` | scripts/resync:11-17 | Replaying the same registrations in any order and with any repetition from nothing gives one table, and a second replay changes nothing |
| `Registry.OrderIsFreeIffAgreeing` | scripts/resync:11-17 | The order of a replay plays no part if and only if registrations of the same name carry the same entry |
| `Registry.ResyncRebuilds` | scripts/resync:11-17 | After any history, replaying exactly the registrations that were the last word on their name rebuilds the table from nothing and leaves a running one as it is |
| `EnvoyApi.EnvoyApi.EnvoyClustersFromRegistrar` | internal/envoyhttp/envoy_api.go:143-163 | One cluster for each entry, in the order of some range over the map; never a nil list |
| `EnvoyApi.EnvoyApi.EnvoyListenersFromRegistrar` | internal/envoyhttp/envoy_api.go:235-248 | One listener for each entry, in the order of some range over the map; never a nil list |
| `EnvoyApi.EnvoyApi.RegistrationHandler` | internal/envoyhttp/envoy_api.go:34-72 | Not found without a name or without an entry; else one host, the backend of the entry |
| `ServedDocuments.ListenersServed` | internal/envoyhttp/envoy_api.go:235-248 | For every run of requests and every iteration order, the listener document parses back from its text exactly, the empty `router` config and the empty decorator included |
| `ServedDocuments.ClustersServed` | internal/envoyhttp/envoy_api.go:143-163 | The same for the cluster document |
| `ServedDocuments.RegistrationServed` | internal/envoyhttp/envoy_api.go:54-63 | The same for the service document, at any time |
| `ServedDocuments.ViewsAgree` | internal/envoyhttp/envoy_api.go:125-248 | In one reachable state, listeners, clusters, found services and keys of the table are the same names, each once |
| `ServedDocuments.ListenerRoutes` | internal/envoyhttp/envoy_api.go:167-231 | Wherever routes stand in a listener, they name one cluster, that of the entry |
| `ServedJson.RoutesResolve` | internal/envoyhttp/envoy_api.go:125-248 | In one reachable state each listener routes to one cluster name; the cluster document lists exactly one cluster of that name; it is of type `sds`, its `service_name` is found, and the answer is the backend of the entry |
| `ServedJson.ClustersResolve` | internal/envoyhttp/envoy_api.go:143-163 | Read from the text: each cluster of the document has its name, the type, timeout and balancing of the source, and a `service_name` the service request for which answers with the backend of that entry |
| `ServedJson.ClustersText` | internal/envoyhttp/envoy_api.go:143-163 | The cluster document, member by member |
| `ServedJson.ListenersText` | internal/envoyhttp/envoy_api.go:167-248 | The listener document, member by member, the HTTP filter with its route, decorator, router and tracing or the TCP filter included |
| `ServedJson.AnswerText` | internal/envoyhttp/envoy_api.go:46-63 | The answer to a service request, member by member |
| `ServedJson.ClustersHandler` | internal/envoyhttp/envoy_api.go:76-97 | The handler writes the cluster document of the table, in some range order |
| `ServedJson.ListenersHandler` | internal/envoyhttp/envoy_api.go:101-121 | The handler writes the listener document of the table, in some range order |
| `ServedJson.ShimIsServed` | internal/envoyhttp/envoy_api.go:125-231 | After an applied registration the listener stands at the shim's frontend, and the service answer names its backend, with the settings of its container |
| `ServedDocuments.LastRequestServed` | internal/envoyhttp/envoy_api.go:46-61 | What a service request answers is decided by the last request about the name, and carries its backend |
| `ServedDocuments.LastRequestListens` | internal/envoyhttp/envoy_api.go:167-231 | A name registered last by a request is listened for at that request's frontend, over HTTP if and only if it asked for it |
| `EnvoyProxy.DoAction` | cmd/envoy-docker-shim/envoy_proxy.go:76-91 | An attempt without settings, or not delivered, changes nothing; any other registers, or removes, the shim's own addresses, ports and settings under the service's name, and may still be reported as failed |
| `EnvoyProxy.RequestIsFiled` | cmd/envoy-docker-shim/envoy_proxy.go:157-167 | What is filed for a shim: its frontend and backend addresses and ports and its container's settings, field by field |
| `EnvoyProxy.RunShim` | cmd/envoy-docker-shim/envoy_proxy.go:108-140 | Registers with retries; a reload returns, or panics exactly if the last attempt failed; any other run waits for ever |
| `EnvoyProxy.CloseShim` | cmd/envoy-docker-shim/envoy_proxy.go:143-153 | Deregisters with retries; fatal exactly if the last attempt failed, and else nothing is filed for the shim |
| `EnvoyProxy.WithRetries` | cmd/envoy-docker-shim/envoy_proxy.go:94-106 | Attempts are made until one succeeds or the list is used up, none exactly if the list is empty; the table is as after those attempts; the error is that of the last one, and no attempt is no error |
| `EnvoyProxy.ToInt32` | cmd/envoy-docker-shim/envoy_proxy.go:160-162 | The conversion keeps the value where it fits and is congruent modulo 2^32 everywhere |
| `EnvoyProxy.ApplyAbsorbs` | internal/envoyhttp/registrar.go:104-127 | A request after one of the same name and kind has the effect of itself alone |
| `EnvoyProxy.RetriesConverge` | cmd/envoy-docker-shim/envoy_proxy.go:94-106 | If the name stays, any number of applied or lost attempts leaves the table as after zero or one application |
| `EnvoyProxy.RetriesConvergeIff` | cmd/envoy-docker-shim/envoy_proxy.go:94-106 | On every table the attempts amount to zero or one application if and only if discovery kept the name from attempt to attempt |
| `EnvoyProxy.AppliedStays` | cmd/envoy-docker-shim/envoy_proxy.go:94-106 | A name once registered stays in the table through further attempts, and one once deregistered stays out |
| `EnvoyProxy.RetriesConvergeAmongOthers` | cmd/envoy-docker-shim/envoy_proxy.go:94-106 | The same for the entries of the shim's port, while other shims on other ports register and deregister in between |
| `EnvoyProxy.StableSuccess` | cmd/envoy-docker-shim/envoy_proxy.go:119-125 | With unchanging discovery, a run that ends well has had the effect of exactly one application |
| `EnvoyProxy.CloseUndoesRun` | cmd/envoy-docker-shim/envoy_proxy.go:143-153 | The deregistration at the end takes back the registration of the start if and only if discovery still gives the service its name |

## Left out

- Framing.ObjectFrame: over arbitrary input it assumes that skipping an unknown member decides on the text it skips only (`SkipIsLocal`); the library's `SkipField` is not part of this model, and is otherwise an arbitrary function.
- LooseText.AcceptedLanguage: with the results of `Strictness` that rest on it, it speaks of texts with known keys only; unknown members are whatever the library's skip reads, and `StructLanguage` has them at one level.
- Unmarshal.UnmarshalObject: a parsed struct is a value that is assigned field by field; what a struct holds after an error, and aliasing between the caller's struct and its nested ones, are not captured. Errors are told apart by kind, not by their text.
- UdpProxy.WriteAll: a successful write takes at least one byte and no more than it was given, as `net.Conn` promises; the loop of the original would not end otherwise.
- UdpProxy.ClientIsolation: `Run`, `replyLoop` and `Close` are a state machine over their steps and not methods over a shared object, because their interleaving is the point; their write loop is also there as a method, `WriteAll`. Senders are those the kernel reports, with addresses of 4 or 16 bytes.
- UdpProxy.NextIsForwarded: with `RepliesDelivered`, it says what can happen from any state, not that the scheduler and the network let it happen.
- UdpProxy.ShutdownBound: one call of `Close`; a read on the closed listener, once issued, fails.
- The bytes of the text: escaping of strings, invalid UTF-8, the printing and the syntax of numbers, and the lexer's own errors. Strings and integers are opaque lexemes, integers with the 64-bit range check.
- The case-folding key comparisons of the library are an arbitrary function; printed keys never reach them.
- A top-level nil receiver prints `null`, which the parser at top level rejects; the round trip is about values.
- HTTP headers, routing, status codes, error documents, buffer pooling and CORS: plumbing around the three documents.
- A nil entry given to `EnvoyServiceFromEntry`: the registrar never holds one.
- gRPC transport and its encoding: a request is a record with an open integer action, a call is applied or not and answered or not.
- Container discovery is an oracle that may answer differently at each attempt; `net.ParseIP` and `IP.String` are arbitrary functions; the time of day is a parameter.
- The callback of `EachEntry` is the predicate on which it stops; the views that collect from it build their list from the visited names.
- The locks of the registrar: each request and each view is one step; nothing is said of two views taken at different times.
- The panic, the log and the endless wait after the retries, sleeps, command line, signals and socket files.
