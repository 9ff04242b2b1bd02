# Verified model of the ESP32 ASCOM Alpaca server

A Dafny model of the kernel under the HTTP handlers and the UDP discovery service of
`esp32-idf-ascom-alpaca`, with proofs of what it promises. `dafny verify dfyconfig.toml` checks it.

The server takes HTTP requests for astronomical devices. Its kernel parses the query and the form
body in place (`parse_string`), merges the two (`parse_request`), decodes the URI into a device type
and a number, looks the device up in a registry grouped by type, checks the parameters, calls the
device and answers with a JSON object. Routes are printed from the same registry at startup. A
second service answers discovery datagrams through a bounded queue between two FreeRTOS tasks.

The modules follow that order.

- Text and numbers: `CText`, `Decimal` (printf/strtol), `Hex`, `IntegerChecks` (the two integer checks).
- The request's text: `QueryPairs` (the scan as a pure parser with its printer), `FormDecoding` (the
  comparison with the WHATWG URL Standard), `RequestText` (the scan in place on an `array<char>`),
  `HandedOut` (the strings that the scan hands out), `Merge` (query and form), `Reading` (what a request
  gives, by its text).
- Devices and routes: `Devices`, `Registry`, `Uri`, `Endpoints`, `Routes`, `Addressing`.
- The server: `Json` (a heap of trees), `Requests`, `Handlers` and `Server` (what a request means, as
  functions), `Api` (the object, each method proved against those functions), and over whole runs
  `Runs`, `Replies`, `Listings` (the management replies), `Arguments`, `KeptTrees` (what refused requests
  leave behind), `Startup`, which starts the server from a list of devices and follows any requests
  through it, and `Client`, which writes a call into a request and gets it back.
- Concurrency: `TransactionIds` (the counter under its mutex), `Discovery` and `UdpProtocol` (the queue).
- `UniqueId`: the hex text of a hash.

About 190 handlers share one generic handler. The tables of `Endpoints` are its data: name, method,
parameters and their checks for each endpoint, as the handlers have them.

## Assumptions

- A `char` is one byte. `int` and `long` are 32 bits wide; `strtol` and `atoi` saturate, as newlib's do;
  `itoa` prints the smallest int correctly. `%hhd` keeps a number modulo 256; `%d` prints a `size_t` as
  the int with the same 32 bits. A vector has fewer than 2^32 elements.
- The HTTP library passes a request to the handler whose method and path are equal to those of the
  request, where the path is what stands before the first `?`; URIs carry no fragment. It refuses a
  second handler for the same method and URI. One call of `httpd_req_recv` delivers at most what it
  was asked for.
- cJSON objects are lists that append; a lookup returns the first match; numbers are reals.
- Code that is not part of the repository is a parameter: whether `strtof`/`strtod` reach the end of a
  text, the error message function, device names and ids, and the answer of a device to a call.

## Where code and documentation differ, or a promise holds only up to a limit

- `src/alpaca_server/discovery.c:37` asks for equality with the probe. The code also takes every
  prefix of it, the empty datagram included, and the probe followed by a NUL and anything
  (`ProbesAre`, `ProbeIsEqualityUnless`, `EmptyIsProbe`).
- A device is addressed by its number modulo 256. A request always finds a device of the right class,
  and finds the number of its route if and only if that is below 256 (`RoutedRequestFindsItsEntry`). If
  no device is listed twice, the same holds of the device itself (`RoutedRequestFindsItsDevice`); with
  257 domes the last one is out of reach (`LastDomeIsOutOfReach`).
- The two integer checks accept different texts (`ChecksDiffer`): the second takes the empty text, white
  space, a `+`, leading zeros and numbers out of range.
- The scan is not the parser of the URL Standard: on a text it yields the standard's list if and only if
  every piece has its own `=`, up to empty pieces at the end, and nothing is encoded
  (`ScanIsSplitWhenSeparated`, `ScanIsStandard`).
- A request with too long a query, or with a parameter missing or malformed, leaves its body tree alive,
  and no other request does (`RefusedKeepTheirBodies`, `HeapGrows`; `NoValueKeepsBody` is one such
  request).

## Model

| member | source | states |
|---|---|---|
| QueryPairs.ScanIsTheOnlyReading | src/alpaca_server/api.cpp:488-507 | every text has exactly one decomposition into pairs (no `=` in keys, no `&` in values) and a residue without `=`, and the scan finds it |
| QueryPairs.ScanPrints | src/alpaca_server/api.cpp:486-546 | printing the pairs found, followed by the residue, gives the text back, for every text |
| QueryPairs.ScanReads | src/alpaca_server/api.cpp:486-546 | a printed list of pairs, with any residue behind it, parses back to that list and that residue |
| QueryPairs.NoPairs | src/alpaca_server/api.cpp:491-496 | no pair is found exactly when the text has no `=`; then all of it is left over |
| QueryPairs.ScanIsSplitWhenSeparated | src/alpaca_server/api.cpp:501-507 | the greedy scan equals split on `&` then on the first `=` (URL Standard, section 5.1) if and only if every piece has its own `=`, up to empty pieces at the end |
| FormDecoding.ScanIsStandard | src/alpaca_server/api.cpp:486-546 | for every text, the pairs found equal the list of the URL Standard, decoded, if and only if every piece has its own `=`, up to empty pieces at the end, and the text contains no `+` and no percent escape |
| RequestText.TakePair | src/alpaca_server/api.cpp:490-507 | one iteration overwrites exactly the consumed `=` and `&`, and finds the value and the rest of the text |
| RequestText.Store | src/alpaca_server/api.cpp:509-542 | a pair sets one of the ids or is appended to the body; no other tree changes |
| RequestText.ParseString | src/alpaca_server/api.cpp:486-546 | the loop in place has the effect of the pure scan on the request, changes the buffer at the consumed separators only, and hands out the offsets whose strings the next row is about |
| HandedOut.HandedOutStaysGood | src/alpaca_server/api.cpp:490-507 | after the whole scan every key and value handed out still reads as it did, and no two of these strings overlap |
| HandedOut.CutsAreEnds | src/alpaca_server/api.cpp:498-507 | the overwritten bytes are, in order, those that end a key or a value, the last value possibly ending at the terminator |
| HandedOut.CutsAreSeparators | src/alpaca_server/api.cpp:498-507 | nothing but an `=` or an `&` is overwritten |
| Merge.ApplyPairsMeaning | src/alpaca_server/api.cpp:509-542 | after a scan an id is the last matching value, else what it was; the body grew by all other pairs, in order |
| Merge.FormOverridesIds | src/alpaca_server/api.cpp:607-655 | after both scans an id is the last match of the form, else the last of the query, else 0 |
| Merge.QueryShadowsParameters | src/alpaca_server/api.cpp:607-655 | a parameter lookup, with or without regard to case, finds the first match of the query, else the first of the form |
| Merge.MisspelledId | src/alpaca_server/api.cpp:509-542 | an id name in other letter case is an ordinary parameter in the form but the id in the query |
| CText.SameTextMeans | src/alpaca_server/api.cpp:526-532 | comparison without regard to case is equality up to the two forms of each letter |
| Uri.UriParts | src/alpaca_server/api.cpp:607-618 | a path without `?` and a query put together with `?` come apart again |
| Reading.ReadsBothTexts | src/alpaca_server/api.cpp:607-655 | with a query of at most 512 bytes the request is the merge of the pairs in its query and in its form, the form being the received body of type `application/x-www-form-urlencoded` and announced length below 4096, in any case of letters; with a longer query it is empty |
| Reading.ReadsIds | src/alpaca_server/api.cpp:509-542 | both ids of a request are the numbers that its text gives: the last value of the form, else of the query, else 0 |
| Decimal.StrtolReads | src/alpaca_server/api.cpp:2474-2475 | `strtol` reads white space, a sign and digits up to the first other character, and saturates |
| Decimal.StrtolReadsIntText | src/alpaca_server/api.cpp:1440-1443 | printing any integer and reading it back saturates it, whatever non-digit follows |
| IntegerChecks.StrictAcceptsCanonical | src/alpaca_server/api.cpp:1440-1451 | the strict check accepts a text if and only if it is the canonical decimal of an int32, and hands on the number written |
| IntegerChecks.StrictInvertsPrinting | src/alpaca_server/api.cpp:1440-1451 | it yields n if and only if n is an int32 and the text is n printed |
| IntegerChecks.LenientLanguage | src/alpaca_server/api.cpp:2474-2482 | the lenient check accepts exactly the empty text (as 0) and white space, optional sign, digits, with the saturated value |
| IntegerChecks.StrictWithinLenient | src/alpaca_server/api.cpp:4349-4355 | what the strict check accepts the lenient one accepts with the same value |
| IntegerChecks.ChecksDiffer | src/alpaca_server/api.cpp:4349-4355 | the checks agree on a text if and only if it is canonical or both refuse it |
| IntegerChecks.LenientAcceptsPadding | src/alpaca_server/api.cpp:4440-4446 | for every number, one leading `+`, zero or blank separates the checks |
| IntegerChecks.OutOfRange | src/alpaca_server/api.cpp:4349-4355 | out of range the strict check refuses and the lenient one saturates |
| Devices.UriNameReadsBack | src/alpaca_server/api.cpp:562-601 | the printed name of a type is read back as that type by the chain of comparisons |
| Devices.TagTellsClass | src/alpaca_server/device.cpp:101-221 | `device_type()` is never Unknown and determines the class |
| Devices.WriteUriName | src/alpaca_server/device.cpp:51-91 | the caller's buffer reads as the name when it has room; nothing behind `len` is written |
| Devices.WriteFriendlyName | src/alpaca_server/device.cpp:7-49 | the buffer always reads as a terminated name, cut short when the buffer is |
| Registry.Group | src/alpaca_server/api.cpp:81-84 | the constructor's loop gives every type its devices in the order of the list |
| Registry.RegistryTags | src/alpaca_server/api.cpp:81-84 | every device of the registry is stored under its own type |
| Registry.TouchKeepsDevices | src/alpaca_server/api.cpp:676 | map indexing inserts at most an empty entry, so every type keeps its devices |
| Registry.ListDevices | src/alpaca_server/api.cpp:859-880 | the nested loops produce the listing by type and number |
| Registry.ListingIsStableSort | src/alpaca_server/api.cpp:859-880 | the listing is a permutation of the constructor's list, sorted by type, order kept within a type |
| Registry.StableSortIsUnique | src/alpaca_server/api.cpp:859-880 | there is only one such list |
| Registry.ListedEntries | src/alpaca_server/api.cpp:859-880 | a (number, device) is listed if and only if the registry holds that device under its type and that number |
| Uri.ScanReadsRoute | src/alpaca_server/api.cpp:558-560 | a printed route, whatever follows it, is scanned back as its type and its number modulo 256 |
| Uri.RoutePathInjective | src/alpaca_server/api.cpp:12-22 | equal printed routes come from equal type, number and endpoint |
| Endpoints.EndpointsDiffer | src/alpaca_server/api.cpp:218-262 | no two endpoints of a device share both name and method |
| Endpoints.EndpointCounts | src/alpaca_server/api.cpp:273-484 | a device has 12 common endpoints and 9, 25, 4, 12, 18, 13, 1, 12 or none of its class |
| Endpoints.PrefixIsUriName | src/alpaca_server/api.cpp:273-484 | the type names spelled out in the specific registrations are those that `uri_device_type` prints |
| Routes.TableNoClash | src/alpaca_server/api.cpp:173-208 | for every device list all registered (method, URI) pairs are distinct |
| Routes.TableCount | src/alpaca_server/api.cpp:173-208 | there are 3 routes and, per device of the constructor's list, those of its class |
| Routes.RouteFits | src/alpaca_server/api.cpp:210-215 | every printed route is shorter than its 128 byte buffer |
| Routes.HttpServer.RegisterUriHandler | src/alpaca_server/api.cpp:21 | a route is added unless its method and URI are taken |
| Routes.RegisterRoutes | src/alpaca_server/api.cpp:173-208 | every registration succeeds, and the server ends up with the whole table in order |
| Routes.DispatchFinds | src/alpaca_server/api.cpp:177-207 | a request is dispatched to a route if and only if that route is registered |
| Addressing.EntryResolves | src/alpaca_server/api.cpp:676-679 | each listed device is found under its printed address: always one of its class, the same entry if and only if its number is below 256 |
| Addressing.RoutedRequestIsSafe | src/alpaca_server/api.cpp:1562-1577 | a routed request is refused only for a query over 512 bytes; its index is in bounds, its type the one asked for, and the downcast is to the object's class |
| Addressing.RoutedRequestFindsItsEntry | src/alpaca_server/api.cpp:558-601 | a request on a registered device path is routed to it and resolves to the number of that route modulo 256, the very number if and only if it is below 256 |
| Addressing.RoutedRequestFindsItsDevice | src/alpaca_server/api.cpp:676-679 | it resolves to the device of that route when its number is below 256; if no device is listed twice, only then |
| Addressing.LastDomeIsOutOfReach | src/alpaca_server/api.cpp:558-560 | a case where another device is reached: of 257 domes, the request to number 256 goes to number 0 |
| Addressing.RoutedSegmentFits | src/alpaca_server/api.cpp:558-560 | the type segment scanned from any request that reaches a handler has at most 19 characters, so it fits its 32 bytes |
| Addressing.RoutedAsksFor | src/alpaca_server/api.cpp:12-22 | a request that reaches a device handler has the method and the printed path of the endpoint that this handler serves, for a device that exists |
| Addressing.PathLeadsToHandler | src/alpaca_server/api.cpp:218-262 | the path and method of an endpoint lead to the handler of that endpoint and no other, if and only if there is a device of the type with the number |
| Addressing.ManagementPaths | src/alpaca_server/api.cpp:177-199 | each management handler is reached by GET on its own path and by nothing else |
| Api.Api.constructor | src/alpaca_server/api.cpp:70-91 | the registry of the given devices, the counter at 0, no call made |
| Api.Api.TakeId | src/alpaca_server/api.cpp:603-605 | the counter goes up by one modulo 2^32; the id is its int32 |
| Api.Api.ParseRequest | src/alpaca_server/api.cpp:548-694 | request fields, status, registry and counter are the functions of Requests; one fresh body tree, no other tree touched |
| Api.Api.ReadTexts | src/alpaca_server/api.cpp:607-655 | the two scans into one request, each over its own buffer |
| Api.Api.FindDevice | src/alpaca_server/api.cpp:671-679 | unknown type or number out of bounds is not found; the lookup may insert an empty entry |
| Api.Api.SendJson | src/alpaca_server/api.cpp:696-780 | the reply is the root's items and both ids; root, then body, is released |
| Api.Api.SetError | src/alpaca_server/api.cpp:887-902 | number and text are appended to the root, the text looked up from the low 16 bits |
| Api.Api.CheckReturn | src/alpaca_server/api.cpp:904-915 | an error is appended exactly when the code is not 0 |
| Api.Api.Respond | src/alpaca_server/api.cpp:1433-1465 | one device handler behind a successful parse: reply, call, and which trees are released |
| Api.Api.HandleDevice | src/alpaca_server/api.cpp:4328-4372 | a device handler takes the server's whole state to the state of one step, and answers as that step says |
| Api.Api.HandleManagement | src/alpaca_server/api.cpp:817-885 | the same for the management handlers, which ignore a failed parse |
| Api.Api.Serve | src/alpaca_server/api.cpp:919-950 | any list of requests has the state and the replies of the pure run |
| Api.Api.StateIsOwned | src/alpaca_server/api.cpp:696-707 | the trees of the object satisfy the ownership invariant that runs keep |
| Api.DevicesAfterSame | src/alpaca_server/api.cpp:671-679 | no parsed URI changes the devices of a type or the listing |
| Runs.RunKeepsDevices | src/alpaca_server/api.cpp:859-880 | after any run every type has the devices it had, and the listing is the same |
| Runs.RunCounts | src/alpaca_server/api.cpp:603-612 | every request takes one id, refused or not |
| Runs.RequestId | src/alpaca_server/api.cpp:603-605 | the k-th request of a run gets the k-th id |
| Runs.RunOwned | src/alpaca_server/api.cpp:696-707 | over any run no tree is released twice, and every tree created is alive or was released |
| Runs.LiveAfterRun | src/alpaca_server/api.cpp:782-813 | what a run, of whatever events, leaves alive is exactly the body trees of the requests that got an error reply |
| Runs.RootsAreReleased | src/alpaca_server/api.cpp:922-949 | every root tree created in a run is released, once |
| Replies.RunTrace | src/alpaca_server/api.cpp:1098-1124 | the device calls of a run are those of its outcomes in order, at most one for each request |
| Replies.ReplySays | src/alpaca_server/api.cpp:696-699 | a reply echoes the client's id, carries the server's, has an error number and the text looked up from its low 16 bits exactly when the call returned one, and a value only when it did not |
| Replies.ErrorTextRepeats | src/alpaca_server/api.cpp:887-902 | codes that agree modulo 2^16 have the same text but their own numbers |
| Replies.ErrorMeansNoCall | src/alpaca_server/api.cpp:922-947 | behind an error reply there is no device call |
| Replies.UnroutedOutcome | src/alpaca_server/api.cpp:922-928 | a device handler answers 400 to a query over 512 bytes, 404 to an address without a device, and error 0x400 to a device of another class, one handler 404 |
| Replies.RoutedOutcome | src/alpaca_server/api.cpp:4328-4372 | a routed request calls its device if and only if query and parameters are good, and gets 400 otherwise, never 404 or "not implemented" |
| Replies.RoutedRun | src/alpaca_server/api.cpp:4419-4469 | the same for the k-th request of any run, in the state reached by then |
| Arguments.ConvertsMeaning | src/alpaca_server/api.cpp:1111-1116 | a text is converted to an argument if and only if the argument is what the text means: the text itself, true or false in any case of letters, a canonical int32, or the saturated number of a lenient numeral |
| Arguments.ReadsFirst | src/alpaca_server/api.cpp:932-935 | a parameter is read as an argument if and only if that is what its first text over query then form means |
| Arguments.ReadsAll | src/alpaca_server/api.cpp:4436-4455 | the parameters are read if and only if each is given in the text, and then as what the text means |
| Arguments.RoutedArguments | src/alpaca_server/api.cpp:4345-4358 | in any run a routed request calls its device exactly when all parameters are given in its text, and the device receives what they mean |
| KeptTrees.RefusedGetErrors | src/alpaca_server/api.cpp:4328-4372 | in any run of routed requests an error reply answers exactly the device requests with a query over 512 bytes, or with a parameter missing from their text or malformed |
| KeptTrees.RefusedKeepTheirBodies | src/alpaca_server/api.cpp:922-949 | the trees alive after any such run are those from before and exactly the bodies of these requests |
| KeptTrees.HeapGrows | src/alpaca_server/api.cpp:782-813 | the heap grows by one tree with each of these requests and with no other |
| KeptTrees.NoValueKeepsBody | src/alpaca_server/api.cpp:2002-2013 | such a request: a PUT to `/api/v1/dome/0/slaved` without parameters leaves one more tree alive |
| Listings.ListingIsDescribed | src/alpaca_server/api.cpp:859-882 | the configured-devices reply, read key by key, tells name, type, number and id of the listed devices, one by one and in order |
| Listings.ManagementSays | src/alpaca_server/api.cpp:817-885 | the three management replies carry version 1, the server's four texts, and that list |
| Listings.LowerIsUriName | src/alpaca_server/device.cpp:7-91 | the name of a type in the listing is its name in a path but for case |
| Listings.ListingLeadsBack | src/alpaca_server/api.cpp:859-882 | a client that prints a path from the type and the number read out of the reply gets to that device, if the number is below 256 |
| Startup.Start | src/alpaca_server/api.cpp:173-208 | for every device list the server starts with the registry of the list and the whole route table |
| Startup.DeliveredAreRouted | src/alpaca_server/api.cpp:177-207 | whatever arrives, only requests that match a registered route reach a handler, and that route's |
| Startup.ArrivalIsDelivered | src/alpaca_server/api.cpp:177-207 | every arrival with the method and path of a registered route reaches that route's handler, unchanged and in its place |
| Startup.OthersAreNotDelivered | src/alpaca_server/api.cpp:177-207 | an arrival with no such route reaches no handler |
| Startup.ServerIsSafe | src/alpaca_server/api.cpp:1562-1577 | after any requests, every device ever called is one of the list and was cast to its own class |
| Startup.ReplyIsSafe | src/alpaca_server/api.cpp:919-950 | a request on a device route gets 400 or the answer to its call: the 404 and "not implemented" branches are never taken |
| Startup.RunKeepsPromises | src/alpaca_server/api.cpp:548-694 | in any run from the start, for the k-th delivered request: on a management path it gets that path's value; refused, it gets 400 without a call; else the device under its path is called, at its endpoint, with what its parameters mean, and the reply holds just the answer, the id in its text and the k-th id |
| Startup.StartAndServe | src/alpaca_server/api.cpp:173-208 | from start through any requests, on the real objects: each delivered one comes to what the row above says, the calls made are theirs in order and all safe, the registry stays that of the list, and as many trees are alive as requests were refused |
| Client.QueryCarries | src/alpaca_server/api.cpp:607-625 | pairs that a client writes behind a path are the pairs that the server reads |
| Client.FormCarries | src/alpaca_server/api.cpp:627-655 | so are pairs written as a form |
| Client.WrittenMeansItself | src/alpaca_server/api.cpp:1440-1451 | an argument of the right kind, written out, means itself |
| Client.CallArrives | src/alpaca_server/api.cpp:4419-4469 | round trip: a request with the path of an endpoint and a written call, in query or form, is passed to that endpoint's handler, which calls the device with exactly these arguments, and the reply has the client's id and the device's answer |
| Client.SlaveRequestIsCall | src/alpaca_server/api.cpp:2002-2006 | one such request: `Slaved=true&ClientTransactionID=7` to the first dome |
| TransactionIds.RunKeeps | src/alpaca_server/api.cpp:603-605 | under every interleaving handlers exclude each other between lock and unlock, and counter, lock order and ids stay in step |
| TransactionIds.IdsInLockOrder | src/alpaca_server/api.cpp:603-605 | the k-th handler to take the mutex gets the k-th id after the start, modulo 2^32 |
| TransactionIds.IdsRepeat | src/alpaca_server/api.h:46 | two ids, narrowed to int32, are equal if and only if a multiple of 2^32 requests lies between them |
| TransactionIds.IdsDistinct | src/alpaca_server/api.h:347-351 | any two ids fewer than 2^32 requests apart are distinct |
| TransactionIds.WithoutExclusion | src/alpaca_server/api.cpp:603-605 | two handlers inside at once can both get the same id: the mutex is needed |
| UniqueId.WriteUniqueId | src/alpaca_server/api.cpp:164-168 | the overlapping prints leave 32 hex digits and a terminator in 33 bytes and nothing behind them changes |
| UniqueId.HexReadsBack | src/alpaca_server/api.cpp:165-168 | the text is lower-case hex and decodes to the hash |
| UniqueId.HexInjective | src/alpaca_server/api.cpp:165-168 | different hashes have different texts |
| Discovery.ProbesAre | src/alpaca_server/discovery.c:38 | exactly the prefixes of `alpacadiscovery1`, and that text followed by a NUL and anything, are taken for a probe |
| Discovery.ProbeIsEqualityUnless | src/alpaca_server/discovery.c:37-38 | the test decides equality, as its comment says, if and only if the datagram is neither a proper prefix nor a continuation behind a NUL |
| Discovery.EmptyIsProbe | src/alpaca_server/discovery.c:37-38 | an input on which the comment and the code differ |
| Discovery.ResponseFits | src/alpaca_server/discovery.c:23-26 | for every port the rendered reply fits its buffers and is terminated where its length says |
| Discovery.ResponseReadsBack | src/alpaca_server/discovery.c:23-24 | the port reads back from the reply |
| Discovery.ResponsesDiffer | src/alpaca_server/discovery.c:23-24 | replies are equal if and only if the ports are |
| Discovery.BuildMessage | src/alpaca_server/udp_server.c:95-102 | a datagram becomes a message with a zero-filled data field, its length, source and socket |
| Discovery.DiscoveryTask.Process | src/alpaca_server/discovery.c:38-47 | a probe is overwritten with the reply and sent to its source; anything else is not answered; the rendered reply stays as it was |
| UdpProtocol.MessageQueue.Send | src/alpaca_server/udp_server.c:104-109 | a message joins the end of the queue unless ten are waiting |
| UdpProtocol.MessageQueue.Receive | src/alpaca_server/udp_server.c:154 | the oldest message leaves the queue |
| UdpProtocol.RunKeeps | src/alpaca_server/udp_server.c:67-113 | the invariant of the two loops and their queue is kept by every interleaving of their steps |
| UdpProtocol.ReceivedIsArrived | src/alpaca_server/udp_server.c:67-113 | what is on record as received is exactly the datagrams that arrived, in order |
| UdpProtocol.ReachableStates | src/alpaca_server/udp_server.c:125-143 | in every reachable state at most ten messages wait; arrived = pending + dropped + queued + in hand + processed; what was kept is processed in order of arrival; the replies are those of the processed probes |
| UdpProtocol.RepliesAnswerDatagrams | src/alpaca_server/discovery.c:28-49 | behind every reply there is a datagram that arrived and begins the probe, or continues it behind a NUL; the reply goes to where it came from, over the socket of the last restart before it, and carries the port |
| UdpProtocol.DropsMeanFull | src/alpaca_server/udp_server.c:104-109 | a datagram is dropped if and only if ten messages wait |
| UdpProtocol.ReplyAnswers | src/alpaca_server/discovery.c:41-46 | a reply goes to the source and socket of its probe, and the port reads back from its bytes |
| UdpProtocol.RepliesAnswerProbes | src/alpaca_server/discovery.c:38-47 | a message is among the replies if and only if it answers a processed probe |
| UdpProtocol.ReceiveAndOffer | src/alpaca_server/udp_server.c:67-113 | an iteration of the receive loop, on the real buffer and queue, is one arrival and one offer of the protocol |
| UdpProtocol.TakeAndProcess | src/alpaca_server/discovery.c:28-49 | an iteration of the discovery loop is one take and one processing step of the protocol |

## Left out

- The Telescope handlers, which no route leads to, and Camera, which has none.
- The HTTP server's own answers (404, 405), its limit on the number of handlers, methods other than GET and PUT.
- Sockets, WiFi, timeouts, scheduling by FreeRTOS, and that replies eventually arrive.
- Logging, timing, HTTP headers and status strings.
- MD5 and the uniqueness of device ids: only the text of a given hash is modelled.
- The printing of the reply into a 512 byte text: a reply is its list of items.
- The value of a decimal: the device receives its text, and acceptance by `strtof`/`strtod` is a parameter.
- The UTF-8 decoding at the end of the standard's parser: the comparison in `FormDecoding` is of bytes.
- Numerals longer than the internal buffer of `scanf`.
- A type segment of 32 or more characters: where its terminator is stored. No request that reaches a handler has one (`RoutedSegmentFits`).
- The default table of error texts: the installed message function is a parameter.
- Handlers that overlap in time, except at the transaction counter: `Api.Serve` answers one request after the other.
- The state of a device behind its interface: a device is an address and a class, and its answers are parameters.
- `examples/`: the sample devices.
- Routes.RegisterRoutes: goes over the listing in one loop where the source nests a loop over the vector in one over the map; the order is the same.
- Devices.UriNameReadsBack: the chain of comparisons is a search through the list of types in the chain's order.
