# libjaypea in Dafny

libjaypea is a C++ networking library: a JSON text engine, a small web server with its own
client, an epoll event loop, a symmetric encrypted channel, a remote shell, WebSockets and a
tank game. This project models its algorithmic parts and proves what they are for.

| file | what it models |
|---|---|
| `Text` | C strings, occurrences in a text |
| `JsonScan`, `JsonPrint` | the parser's transition on one character and its run; the printer |
| `JsonRoundTrip`, `JsonLaws` | parsing what was printed, with the exact cursor at every level |
| `JsonGrammar`, `JsonSpelled` | a recognizer of RFC 8259 and its written texts; parsing what anyone wrote |
| `JsonStrict`, `JsonLayout` | what is printed against that recognizer; the lines of a pretty print |
| `JsonHalting`, `JsonNul` | which texts the parser comes back from, NULs and all; prints that hold NULs |
| `JsonHeap` | the class itself: `parse`, `stringify`, `escape`, `deescape` on linked nodes |
| `Replace`, `Url` | `replace_all`, `url_encode` / `url_decode` |
| `Template`, `TemplateFill` | pages with holes under `replace_all` and the two searches; filling them in any order |
| `HttpScan`, `HttpParser` | `parse_http_request` as a state machine, and as the loop over a node |
| `HttpText`, `HttpRoundTrip`, `HttpLaws` | the client's request texts, and reading them back |
| `HttpStrict`, `HttpAnyClient` | the client's requests against RFC 9112; requests that any client wrote |
| `TankGeometry`, `TankGame`, `TankDrive` | the collision test; the event queue, the five maps and the tick; where tanks go |
| `EpollServer` | `run_thread` on any number of threads, one kernel or map operation a step |
| `SymmetricChannel`, `SymmetricClient` | the counter-stamped channel; `communicate` |
| `Comd`, `ComdSession` | the remote shell's server; its client and one session between the two |
| `FileCache`, `RateLimiter` | the web server's file cache and its rate limiter |
| `WebSocketFrame`, `LinkedQueue` | frames against RFC 6455; the doubly linked queue |

Code that changes things step by step is a method with its loop, or a class with its fields;
each is proved equal to a function of its inputs or its old state, and the laws are proved of
that function. Runs are sequences of events or states in which the outside (clients, the
kernel, clocks, failing writes, the order of hash maps) chooses freely.

Results that differ from what one would expect of the code, each with its exact condition:

- A node comes back from a JSON round trip unchanged exactly when it is `Plain`: no `NOTYPE`,
  no NUL, no `\n`, `\r` or `\t` in any string or key (`JsonLaws.RoundTripExact`). The parser
  drops the escapes of those three characters; the string of one line feed is lost
  (`JsonLaws.LineFeedLost`).
- A written JSON string is read as it is meant, less the three controls, exactly when it has no
  escape of a backspace or a form feed and no four-digit code (`JsonSpelled.HeardExact`). Numbers
  and the words `true`, `false` and `null` are passed over: a member's value is the next string,
  object or array (`JsonSpelled.ValueBehindJunk`).
- A print is JSON exactly when no string or key holds another control character than the three
  that are escaped (`JsonStrict.PrintAccepted`).
- The parse of a text comes back exactly when one pass over it with a stack of open values never
  meets an array on a quote in front of a NUL, nor an escape cut off by the end
  (`JsonHalting.HaltsExact`, over all texts). Of a printed document the first NUL decides: at the
  root or in a key the parse returns; behind a quote in an array element it never does; behind a
  backslash in an element or a member's value the parser steps over it and the pass decides
  (`JsonNul.ReturnsExact`). The print `["\\\0x"]`, with a NUL for `\0`, returns
  (`JsonNul.SteppedOverReturns`), and `{"a":"\\\0","b":["\0"]}` does not
  (`JsonNul.SteppedOverStays`). Without a NUL at the start of a string or behind a quote every
  print returns (`JsonNul.UnquotedReturns`).
- `url_decode` undoes `url_encode` exactly on ASCII without NUL (`Url.RoundTripExact`); the byte
  0xE9 does not come back (`Url.HighByteLost`).
- The character behind a header's colon is dropped, space or not (`HttpRoundTrip.ReadLine`), and of
  percent codes a value understands `%26`, as a quotation mark, and `%0A` (`HttpRoundTrip.DecodedSigns`).
- The protocol of a request is read wrongly exactly when its query ends in a key without `=`
  behind collected text (`HttpLaws.ProtocolExact`); `/?b` is such a target (`HttpLaws.BareKeyLeaks`).
- A filled template is the simultaneous substitution, for whatever order the parameter map has,
  exactly when no parameter whose hole is on the page has an opening mark in its value
  (`TemplateFill.FillTemplate`, `TemplateFill.FilledExact`).
  `TemplateFill.OrderMattersForMarks` is a page where two orders differ.
- The texts delivered by a symmetric channel are a prefix of those sent in every run in which no
  whole block of the wanted length stands next that is ahead of the receiver by a multiple of 255
  (`SymmetricChannel.PrefixDelivered`). A whole next message that is so far ahead is delivered,
  and breaks the prefix exactly when its text differs from the missing one
  (`SymmetricChannel.CycleExact`).
- A cached response is current exactly when the modification time differs from the cached one
  or the bytes do not (`FileCache.CurrentExact`). A failed fill is served afterwards, and is
  current whatever the memory held exactly when the file is empty or its reads covered it
  (`FileCache.FailedFillServed`).
- A client's WebSocket frame is read back exactly when its length survives the host's byte
  order, or comes out longer with nothing behind it (`WebSocketFrame.ParsedExact`); 126 bytes with
  something behind them and 256 bytes are not (`WebSocketFrame.SwappedLengths`). A created frame is
  readable exactly up to 65535 bytes (`WebSocketFrame.CreatedDecodes`).

## Model

| member | source | states |
|---|---|---|
| JsonScan.KindStays | cpp-source/json.cpp:44-74 | once an opening character has fixed a node's type, no later text changes it |
| JsonPrint.UnescapedEscape | cpp-source/json.cpp:156-206 | `deescape` undoes the body of `escape` on every string, controls included |
| JsonPrint.UnescapedPieces | cpp-source/json.cpp:183-206 | on any text `deescape` reads the five escapes as their characters, left to right, and keeps every other backslash with what is behind it, also one at the end |
| JsonRoundTrip.ReadBody | cpp-source/json.cpp:34-42 | an escaped body is collected character by character, as value or as key, losing exactly the three controls |
| JsonRoundTrip.ReadString | cpp-source/json.cpp:43-51 | a quoted string anywhere in a text is read to its closing quote; the cursor is one past it |
| JsonRoundTrip.ReadKey | cpp-source/json.cpp:52-60 | a quoted key is read from its opening quote to the colon behind it |
| JsonRoundTrip.ReadDoc | cpp-source/json.cpp:23-154 | wherever a document was printed (any depth, compact or pretty, any text around it), a parse started there on a fresh node yields its readback and the cursor one past a string or on the closing bracket |
| JsonRoundTrip.ReadDict | cpp-source/json.cpp:84-139 | printed pairs are read over whatever an object node already holds, overriding key by key, and reading stops on the closing brace |
| JsonRoundTrip.ReadMember | cpp-source/json.cpp:124-139 | a member's value is read by a child that starts on the colon; the parent goes on at the first character behind the value |
| JsonRoundTrip.ReadElement | cpp-source/json.cpp:61-82 | an array element and its comma and blanks are consumed exactly, the element appended |
| JsonRoundTrip.ReadList | cpp-source/json.cpp:99-115 | printed elements are appended in order and reading stops on the closing bracket |
| JsonLaws.ReadsAsUnique | cpp-source/json.cpp:23-154 | what a node is to be read back as (same tree, controls deleted, `NOTYPE` as the empty string) is fixed by the node alone |
| JsonLaws.OverlayAt | cpp-source/json.cpp:134 | when keys do not collide, every pair written is found in the resulting map |
| JsonLaws.ReadbackReads | cpp-source/json.cpp:224-236 | whatever order the map was printed in, the readback is the one reading of the node, if its keys stay apart |
| JsonLaws.ReadbackIsPlain | cpp-source/json.cpp:34-42 | whatever was read back survives every further round trip |
| JsonLaws.ScanNulFree | cpp-source/json.cpp:23-154 | in whatever state, on a text in which no escape from the cursor on is of a NUL, the parser puts no NUL into a string or key |
| JsonLaws.NoBackslashNul | cpp-source/json.cpp:34-42 | a text in which no backslash stands directly in front of a NUL is such a text |
| JsonLaws.PrintNoNulEscape | cpp-source/json.cpp:156-272 | every print is such a text, whatever NULs its strings hold |
| JsonLaws.EscapedNulKept | cpp-source/json.cpp:34-42 | the text quote, backslash, NUL, quote is read as the string of one NUL |
| JsonLaws.ParsesUnique | cpp-source/json.cpp:23-154 | a text parses to at most one node and cursor |
| JsonLaws.RoundTrip | cpp-source/json.cpp:23-272 | for every document without NUL the parse of its print returns, with its readback, which is plain |
| JsonLaws.RoundTripAnyOrder | cpp-source/json.cpp:23-272 | a node whose keys stay distinct is read back as the same tree less the three controls, `NOTYPE` as the empty string, for every print order |
| JsonLaws.RoundTripExact | cpp-source/json.cpp:23-272 | the very node comes back if and only if it is plain |
| JsonLaws.LineFeedLost | cpp-source/json.cpp:34-42 | the string of one line feed is never what the parse of its print gives |
| JsonGrammar.TreeRead | cpp-source/json.cpp:23-154 | the recognizer of sections 2, 4, 5 and 7 of RFC 8259 reads every written value, with any white space between its tokens, at any place in a text, up to its end |
| JsonGrammar.TextRead | cpp-source/json.cpp:23-154 | a text is such a value with white space around it and nothing else |
| JsonSpelled.ParseValue | cpp-source/json.cpp:23-154 | wherever the recognizer reads a value, in any buffer, a parse from any node without a type gives the node that value and returns one past a string or on the closing bracket |
| JsonSpelled.HeardExact | cpp-source/json.cpp:34-42 | a written string is read as it is meant less line feeds, returns and tabs if and only if it has no escape of a backspace or form feed and no four-digit code |
| JsonSpelled.ParseSpelled | cpp-source/json.cpp:23-154 | wherever a document is written, with any white space at every place RFC 8259 allows and any escapes but those, the parse gives the document's readback with the exact cursor |
| JsonSpelled.ParseAgain | cpp-source/json.cpp:23-154 | the same over a node that held values and has lost its type: a string is replaced, members override, elements are appended |
| JsonSpelled.ParseOver | cpp-source/json.cpp:84-139 | a written object parsed over an object node overrides the old members |
| JsonSpelled.ParseText | cpp-source/json.cpp:23-154 | a written document with white space around it is the result of parsing the text |
| JsonSpelled.PassJunk | cpp-source/json.cpp:31-152 | outside of strings and keys every run of characters without quotes, brackets, backslashes and NULs is passed over |
| JsonSpelled.ValueBehindJunk | cpp-source/json.cpp:124-139 | a member's value is the next string, object or array behind the colon, whatever stands in between |
| JsonSpelled.WrongBracket | cpp-source/json.cpp:90-115 | a bracket of the wrong kind closes an array, and an object that waits for a key; an object that waits for its colon is closed by a square bracket only |
| JsonStrict.PrintAccepted | cpp-source/json.cpp:156-272 | every print, compact or pretty, at any depth, is accepted by the recognizer and denotes its document if and only if no string or key holds a control character but line feed, return and tab |
| JsonLayout.PrettyIsCompact | cpp-source/json.cpp:208-272 | a pretty print without its line feeds and tabs is the compact print |
| JsonLayout.PrettyLaid | cpp-source/json.cpp:245-267 | in every pretty print a line ends behind each opening bracket and each comma and in front of each closing bracket, and nowhere else; each line starts with as many tabs as it is deep, a closing bracket with one less |
| JsonLayout.LaidDoc | cpp-source/json.cpp:245-267 | wherever a document is pretty printed in a text laid out so, the layout goes on behind it at the same depth |
| JsonHalting.HaltsAsHolder | cpp-source/json.cpp:61-139 | wherever a child's parse comes back, the pass is then where its holder goes on, also where the holder reads the last character again |
| JsonHalting.HaltsReturns | cpp-source/json.cpp:23-154 | a text that passes the check is parsed, in any position and under any waiting values, within three rounds a character |
| JsonHalting.HaltsExact | cpp-source/json.cpp:23-154 | for every text, NULs and all, and every node, the parse comes back if and only if a single pass that builds nothing, calls nothing and never goes back says so |
| JsonNul.WalkDoc | cpp-source/json.cpp:23-154 | wherever a document is printed, in any text and inside any values, its first NUL decides: none leads to the character behind it, one the parser gets over ends everything, one behind a quote in an array is read for ever |
| JsonNul.ReturnsExact | cpp-source/json.cpp:23-154 | for every document, compact or pretty, the parse of its print returns if and only if its first NUL, if any, is none an array stands in front of on a quote, and, where the parser steps over that NUL, the one-pass check of the print says so |
| JsonNul.UnquotedReturns | cpp-source/json.cpp:23-154 | when no string or key has a NUL at its start or behind a quote, the parse of the print returns, whatever NULs the parser steps over |
| JsonNul.SteppedOverReturns | cpp-source/json.cpp:34-42 | an element and a member of backslash, NUL, `x` are stepped over and the parse returns |
| JsonNul.SteppedOverStays | cpp-source/json.cpp:34-60 | of an object with the members backslash, NUL and an array of one NUL the parse steps over the first NUL and never returns |
| JsonNul.NulInArrayNeverReturns | cpp-source/json.cpp:61-68 | an array whose only element starts with a NUL, whatever follows in it, is printed, compact or pretty, to a text on which no number of rounds ends the parse |
| JsonHeap.JsonObject.constructor | cpp-source/json.cpp:280-281 | a new node has no type and no contents |
| JsonHeap.JsonObject.OfString | cpp-source/json.cpp:277-278 | a new string node |
| JsonHeap.JsonObject.OfKind | cpp-source/json.cpp:274-275 | a new empty node of a type |
| JsonHeap.JsonObject.Parse | cpp-source/json.cpp:23-154 | the loop over linked nodes changes the node into exactly what the scan of the text says and returns its cursor; `JsonSpelled.ParseValue` says what that is of every written document |
| JsonHeap.JsonObject.ParseItem | cpp-source/json.cpp:61-68 | an array child is parsed from the current character and appended; the cursor is the child's |
| JsonHeap.JsonObject.ParseMember | cpp-source/json.cpp:124-139 | a member is parsed and stored under its key; behind a string the cursor backs up by one |
| JsonHeap.JsonObject.Escape | cpp-source/json.cpp:156-181 | the loop writes the quoted escape of the string |
| JsonHeap.JsonObject.Deescape | cpp-source/json.cpp:183-206 | the loop undoes the five escapes and leaves other backslashes alone |
| JsonHeap.JsonObject.Stringify | cpp-source/json.cpp:208-272 | the text is the print of a document that depicts the node, in some order of its maps; `JsonStrict.PrintAccepted` and `JsonLayout.PrettyLaid` say what texts prints are |
| Replace.ReplacedAbsent | cpp-source/util.cpp:349-355 | a text without the pattern is left alone |
| Replace.FirstReplaced | cpp-source/util.cpp:349-355 | everything before the first occurrence is kept, it is replaced, and the rest is treated alike |
| Replace.ReplaceAll | cpp-source/util.cpp:349-355 | the in-place loop ends and replaces every occurrence from the left, never inside inserted text |
| Url.UrlEncode | cpp-source/util.cpp:297-324 | the loop produces the encoding, including the eight hexadecimal digits of a negative `char` |
| Url.EncodedByDigits | cpp-source/util.cpp:305-322 | by the digits alone: unreserved characters stand for themselves, a space is `+`, an ASCII byte `%` and two digits, a byte from 128 on `%0FFFFFF` and two digits |
| Url.UrlDecode | cpp-source/util.cpp:326-347 | the loop produces the decoding, two digits, one digit, blanks and signs behind a percent sign as `sscanf` reads them, and a percent sign without a number repeats the last one, for every text whose first percent sign has a number behind it; `Url.SpelledDecodes` says what that is |
| Url.SpelledDecodes | cpp-source/util.cpp:326-347 | every byte string, spelled with any of its bytes as a percent sign and two digits, each digit in either case, and with `+` for any space, is decoded to that byte string |
| Url.LoneDigit | cpp-source/util.cpp:338-341 | one digit, alone, in front of another character, or behind a blank or a sign, is read as its value |
| Url.ShortEscapes | cpp-source/util.cpp:338-341 | one digit behind a percent sign is read, and a percent sign without a number repeats the one before, if there was one |
| Url.RoundTripExact | cpp-source/util.cpp:297-347 | decoding the encoding gives the string back if and only if it is ASCII without NUL |
| Url.HighByteLost | cpp-source/util.cpp:313-321 | the byte 0xE9 does not come back |
| Url.EncodedHarmless | cpp-source/util.cpp:305-322 | the encoder's output holds no delimiter of a form body, a header or JSON |
| HttpText.BuildPost | cpp-source/tls-client-manager.cpp:9-23 | the appended text is the printed POST request with the caller's headers in some order, the body with its line ends replaced and its length |
| HttpText.BuildGet | cpp-source/tls-client-manager.cpp:28-33 | the appended text is the printed GET request |
| HttpRoundTrip.DecodedSigns | cpp-source/util.cpp:520-546 | of any value `%26` is read as a quotation mark, `%0A` as a line feed, any other percent sign and every return is dropped, and a plus is a space in parameters only |
| HttpRoundTrip.ReadLine | cpp-source/util.cpp:492-518 | a header line stores its decoded value, whichever character stands behind its colon |
| HttpRoundTrip.ReadVersion | cpp-source/util.cpp:492-497 | any protocol text is appended, decoded, to what the target left |
| HttpRoundTrip.ReadEnd | cpp-source/util.cpp:498-499 | any line without a colon, such as an empty one, ends the head, with the cursor behind it |
| HttpRoundTrip.ReadCut | cpp-source/util.cpp:413-559 | a text that ends in the middle of a head leaves the request object as its complete parts made it |
| HttpRoundTrip.DecodedExact | cpp-source/util.cpp:521-546 | a header or path value comes through unchanged if and only if it holds no return and no percent sign, a parameter moreover no plus |
| HttpRoundTrip.ReadHeader | cpp-source/util.cpp:492-518 | a header line, ended by a bare line feed or with a return, stores its decoded value under its name as a string |
| HttpRoundTrip.ReadParam | cpp-source/util.cpp:469-546 | the characters of one `key=value` of the query are collected as key and decoded value, and the machine stands on its delimiter |
| HttpRoundTrip.ReadNext | cpp-source/util.cpp:476-491 | a parameter with an ampersand behind it is stored, parsed as JSON where it is JSON, and the machine starts the next key |
| HttpRoundTrip.ReadLast | cpp-source/util.cpp:446-459 | a parameter with a space behind it is stored likewise and the machine starts the protocol |
| HttpRoundTrip.ReadQuery | cpp-source/util.cpp:461-491 | any number of parameters, with or without a last bare key, are all stored |
| HttpRoundTrip.ReadTarget | cpp-source/util.cpp:432-491 | the path becomes the route and the query's parameters are stored |
| HttpRoundTrip.ReadProtocol | cpp-source/util.cpp:492-497 | the protocol is what the target left in the value buffer followed by the text sent |
| HttpRoundTrip.MethodFound | cpp-source/util.cpp:393-411 | each of the five request starts is recognized as its own method |
| HttpRoundTrip.ReadPrintedHead | cpp-source/util.cpp:428-559 | the head of any printed request is read in full, from any earlier state of the object |
| HttpRoundTrip.ReadPrintedRequest | cpp-source/util.cpp:385-620 | any printed request, with any target and any number of headers, is read back and its body handed to the body's parser at its first character |
| HttpLaws.StoreInert | cpp-source/util.cpp:447-455 | a value that holds no JSON is stored as the string it is, whatever was there |
| HttpLaws.InertEntry | cpp-source/util.cpp:447-455 | the entry of a parameter that holds no JSON is its decoded value as a string |
| HttpLaws.JsonEntry | cpp-source/util.cpp:447-455 | the entry of a new parameter that decodes to a printed document is the readback of that document |
| HttpLaws.ParamsRead | cpp-source/util.cpp:446-491 | of any parameters with distinct names each entry is its own value's JSON or string, whatever the object held, and all other entries stay |
| HttpLaws.EncodedInert | cpp-source/util.cpp:297-324 | no encoded value is a form delimiter or opens a JSON value |
| HttpLaws.ReadPrintedForm | cpp-source/util.cpp:566-617 | a form body of any number of pairs stores every pair, also the last without a delimiter |
| HttpLaws.FormRoundTrip | cpp-source/util.cpp:566-617 | after encoding, form parsing and `GetURLDecodedStr` each field has its value again if and only if the value is ASCII |
| HttpLaws.HeaderAt | cpp-source/util.cpp:500-508 | the last header of a name decides |
| HttpLaws.HeadersElsewhere | cpp-source/util.cpp:500-508 | headers leave every other entry alone |
| HttpLaws.PostEntries | cpp-source/util.cpp:389-559 | method, route, protocol, every query parameter no header overrides and every caller's header of a POST are found in the request object |
| HttpLaws.PrintReturnFree | cpp-source/tls-client-manager.cpp:20 | printed JSON holds no return, so posting it changes nothing of it |
| HttpLaws.ReadOverObject | cpp-source/json.cpp:23-154 | a printed object parsed into an object overrides the old map pair by pair and stops on its brace, whatever follows |
| HttpLaws.PostReadBack | cpp-source/util.cpp:561-564 | a posted JSON object, on a path with or without a query, is read back with its request line, parameters and headers, overlaid by the body's pairs |
| HttpLaws.FormReadBack | cpp-source/util.cpp:566-617 | a posted form of encoded fields, on a path with or without a query, is read back with every field |
| HttpLaws.OtherReadBack | cpp-source/util.cpp:561-619 | a post of another content type is read back with its head, and its body is not parsed |
| HttpLaws.GetReadBack | cpp-source/tls-client-manager.cpp:28-33 | a fetched request is read back with route, protocol, host and every query parameter, as the JSON it decodes to or as a string |
| HttpLaws.ProtocolExact | cpp-source/util.cpp:443-497 | the protocol is read as sent if and only if the query does not end in a bare key behind collected text |
| HttpLaws.BareKeyLeaks | cpp-source/util.cpp:443-497 | for the target `/?b` the protocol is read as `/HTTP/1.1` |
| HttpLaws.ApiExact | cpp-source/util.cpp:393-411 | the result is `API` if and only if the text has none of the five request starts |
| HttpLaws.ApiReadBack | cpp-source/util.cpp:389-411 | a printed object at the start of a text, over any object node, gives `API` and the entries `GET`, an empty route and `JPON`, overlaid by the object's pairs; all other entries stay |
| HttpLaws.ApiSpelled | cpp-source/util.cpp:389-411 | the same of an object that anyone wrote, with any white space, also in front of it |
| HttpAnyClient.HeadRead | cpp-source/util.cpp:385-559 | a request that any client wrote, with any target, protocol text, header lines of either line end and any character behind their colons, and any line without a colon as its end, is read in full: method, route, protocol, the last line of each name, and the parameters no line overrides |
| HttpAnyClient.JsonBodyRead | cpp-source/util.cpp:561-564 | behind such a head that announces JSON an object anyone wrote overlays what the head left |
| HttpAnyClient.OtherBodyRead | cpp-source/util.cpp:561-619 | behind such a head of any other type the body is not parsed |
| HttpAnyClient.FormRead | cpp-source/util.cpp:566-617 | of any form body each field holds the texts behind its equals signs joined, also an empty one, and only a last field without an equals sign is not stored |
| HttpAnyClient.ParamRenewed | cpp-source/util.cpp:447-455 | a parameter or field that holds a written document renews its entry, whatever it was: members over the old ones, elements behind the old ones |
| HttpStrict.RequestRead | cpp-source/tls-client-manager.cpp:9-33 | a reader of requests by sections 2, 3 and 5 of RFC 9112 finds in a printed request its start line, its header fields in order and its body |
| HttpStrict.PostRead | cpp-source/tls-client-manager.cpp:9-23 | of a post that reader finds the four fixed fields, the caller's in the order of their map, and a length that is the length of the body |
| HttpStrict.GetRead | cpp-source/tls-client-manager.cpp:28-33 | of a fetch that reader finds the four fixed fields and no body |
| HttpStrict.DecimalRead | cpp-source/tls-client-manager.cpp:22 | a printed length is read back as the number |
| HttpParser.Reparse | cpp-source/util.cpp:450-455 | parsing a value into its entry, with the fall back to a string, is the stored parameter |
| HttpParser.StartRequest | cpp-source/util.cpp:389-391 | the three entries every request object has |
| HttpParser.StoreParamAt | cpp-source/util.cpp:447-455 | the entry of a parameter, old or new, holds the value's JSON or the value itself |
| HttpParser.ParseHead | cpp-source/util.cpp:413-559 | the loop with its two switches changes the object as the head's state machine does and stops on the same character |
| HttpParser.ParseForm | cpp-source/util.cpp:566-614 | the form loop stores what the form machine stores |
| HttpParser.SelectMethod | cpp-source/util.cpp:393-411 | the comparisons, in source order, find the method |
| HttpParser.ParseBodyAt | cpp-source/util.cpp:561-619 | the body is parsed by the content type that was stored |
| HttpParser.ParseHttpRequest | cpp-source/util.cpp:385-620 | the whole function on linked nodes gives the result and the object of the request machine; `HttpAnyClient.HeadRead` and `HttpLaws.ApiSpelled` say what these are with and without an HTTP start |
| Template.ReplacedIsSubst | cpp-source/http-api.cpp:127-129 | replacing one mark everywhere fills exactly the holes of that name |
| Template.FirstRuns | cpp-source/http-api.cpp:130-134 | the first opening and the first closing braces belong to the first hole |
| Template.FindHole | cpp-source/http-api.cpp:130-137 | the two searches cut out exactly the mark of the first hole left, or find none |
| TemplateFill.Substitute | cpp-source/http-api.cpp:294-296 | the parameter loop, in any order of the map, puts each value in place of its holes one parameter after the other, marks in values included |
| TemplateFill.RemoveLeftovers | cpp-source/http-api.cpp:297-312 | the clean-up loop ends, and removes exactly the holes that are left |
| TemplateFill.FillTemplate | cpp-source/http-api.cpp:125-145 | both loops together are the simultaneous substitution, unknown holes deleted, if and only if no value whose hole is on the page contains an opening mark; else the page is what one-by-one filling in some order leaves |
| TemplateFill.FilledExact | cpp-source/http-api.cpp:125-145 | for each single order of the parameters, one-by-one filling with clean-up equals the simultaneous substitution if and only if no value whose hole is on the page has a hole |
| TemplateFill.TameMade | cpp-source/http-api.cpp:127-129 | parameters without runs of three braces are made of tokens, so filling with them is always the simultaneous substitution |
| TemplateFill.OrderMattersForMarks | cpp-source/http-api.cpp:127-129 | on the page of one mark, filled with a value that is another mark, the two orders of the two parameters give two pages |
| TankGeometry.Project | cpp-source/examples/jph2/tanks-wss.cpp:156-178 | the loop finds the least and the greatest projection |
| TankGeometry.Test | cpp-source/examples/jph2/tanks-wss.cpp:145-186 | the loop over the edges reports a collision if no edge normal has a gap |
| TankGeometry.BlendBetween | cpp-source/examples/jph2/tanks-wss.cpp:158-166 | every convex combination projects between the extremes of its points |
| TankGeometry.GapSeparates | cpp-source/examples/jph2/tanks-wss.cpp:182-185 | a gap on any normal, for any two vertex lists, leaves their hulls without a common point |
| TankGeometry.CollidesNear | cpp-source/examples/jph2/tanks-wss.cpp:19 | for two tanks the four normals amount to three inequalities between their positions |
| TankGeometry.CoveredInHull | cpp-source/examples/jph2/tanks-wss.cpp:19 | every point of the tank's area is an explicit convex combination of its four corners |
| TankGeometry.CollisionExact | cpp-source/examples/jph2/tanks-wss.cpp:132-193 | the test reports two tanks if and only if their quadrilaterals share a point |
| TankGeometry.CollisionSymmetric | cpp-source/examples/jph2/tanks-wss.cpp:132-193 | the test does not depend on which tank's normals are used |
| TankGame.Server.OnDisconnect | cpp-source/examples/jph2/tanks-wss.cpp:281-288 | a known client is forgotten and its departure queued |
| TankGame.Server.OnRead | cpp-source/examples/jph2/tanks-wss.cpp:294-343 | input, announcement and spawn, in this order of preference, with their guards |
| TankGame.Server.Drain | cpp-source/examples/jph2/tanks-wss.cpp:73-119 | the queue is worked off in order |
| TankGame.Server.Detect | cpp-source/examples/jph2/tanks-wss.cpp:124-194 | every tank that collides with another is announced, in any order of the map, and nothing else is |
| TankGame.Server.MoveTank | cpp-source/examples/jph2/tanks-wss.cpp:203-255 | one tank's speed, turning, rotation, place and public record; `TankDrive.Drives`, `TankDrive.Turns` and `TankDrive.RunShown` say what these become |
| TankGame.Server.Move | cpp-source/examples/jph2/tanks-wss.cpp:199-256 | every tank moves exactly once, in any order of the map |
| TankGame.Server.Tick | cpp-source/examples/jph2/tanks-wss.cpp:73-256 | a tick drains, tests and moves |
| TankGame.TickSpeed | cpp-source/examples/jph2/tanks-wss.cpp:203-222 | a tick gives every tank that survives it the speed the rule makes of its old speed and its input |
| TankGame.SpellStops | cpp-source/examples/jph2/tanks-wss.cpp:203-222 | in the game itself, with handlers of any clients between the ticks, a tank of k accelerations that holds neither `f` nor `b` at each tick stands still after k or more ticks |
| TankGame.IdleTankStops | cpp-source/examples/jph2/tanks-wss.cpp:203-222 | in every run, from any reachable game on, any tank that stays and is idle at 200 ticks, with any handlers between them, stands still |
| TankGame.RunKeeps | cpp-source/examples/jph2/tanks-wss.cpp:73-343 | over every run the five maps have the same keys, so no lookup fails, and every speed is a multiple of the acceleration of at most the maximum, the turning speed likewise |
| TankGame.DrainedIs | cpp-source/examples/jph2/tanks-wss.cpp:73-119 | draining removes exactly the announced tanks from all five maps |
| TankGame.CollisionRound | cpp-source/examples/jph2/tanks-wss.cpp:73-194 | from one tick's test over any handlers to the next drain, a tank survives if and only if it shared no point with another at the test and its player did not leave |
| TankDrive.TickMoves | cpp-source/examples/jph2/tanks-wss.cpp:245-248 | in a tick a surviving tank goes its new speed times cosine along x and minus sine along y of its new rotation, and keeps its input |
| TankDrive.Drives | cpp-source/examples/jph2/tanks-wss.cpp:203-248 | over ticks with any handlers between them, a tank that keeps its rotation and one of forwards, backwards or neither goes the sum of its speeds along its heading: pushed from any speed, also against it, up to the maximum and on, or rolling out to rest |
| TankDrive.FromRest | cpp-source/examples/jph2/tanks-wss.cpp:203-248 | from rest, k at most 200 ticks of `f` move a tank by 0.05 k (k + 1) / 2 times cosine and minus sine, `b` the opposite way |
| TankDrive.Turns | cpp-source/examples/jph2/tanks-wss.cpp:224-243 | over ticks with any handlers between them, a tank that holds one of left, right or neither turns by the sum of its turning speeds, up to their maximum and on, or down to none |
| TankDrive.TurnFromRest | cpp-source/examples/jph2/tanks-wss.cpp:224-243 | from no turning, k at most 100 ticks of `l` turn a tank by 0.0005 k (k + 1) / 2, of `r` the other way |
| TankDrive.RunShown | cpp-source/examples/jph2/tanks-wss.cpp:250-255 | in every reachable game the public record shows each tank's place, speed, rotation and turning speed |
| TankDrive.Spawned | cpp-source/examples/jph2/tanks-wss.cpp:314-337 | a tank enters the game only by a spawn message under its own name, at the place the message says, at rest, with no rotation and no input |
| TankDrive.InputTaken | cpp-source/examples/jph2/tanks-wss.cpp:298-303 | an input message sets the input of the tank it names and of no other |
| TankDrive.AnnouncementTaken | cpp-source/examples/jph2/tanks-wss.cpp:305-313 | the first announcement of a client, and only that, gives it its name |
| TankDrive.LeaverRemoved | cpp-source/examples/jph2/tanks-wss.cpp:281-288 | after a player who announced a name left, the next drain removes his tank and changes no other |
| EpollServer.InverseTrack | cpp-source/tcp-server.cpp:385-386 | entering a fresh pair keeps the two maps inverse |
| EpollServer.InverseErase | cpp-source/tcp-server.cpp:277-279 | erasing a pair from both maps keeps them inverse |
| EpollServer.ThreadKeeps | cpp-source/tcp-server.cpp:251-448 | a thread's step keeps its maps inverse and its count, maps and registration in step |
| EpollServer.ApartKeeps | cpp-source/tcp-server.cpp:274-306 | no step gives a descriptor to two threads: entries are erased before the descriptor is closed |
| EpollServer.ExclusiveKeeps | cpp-source/tcp-server.cpp:338-415 | the mutex keeps accepting to one thread |
| EpollServer.CallsKeeps | cpp-source/tcp-server.cpp:233-249 | each step keeps the callbacks in line with the stage of the connection |
| EpollServer.StepInv | cpp-source/tcp-server.cpp:172-452 | the invariant is kept by every step of every thread |
| EpollServer.TrackedOnce | cpp-source/tcp-server.cpp:274-306 | in every interleaving, the two map statements of one pair taken as one step, the two maps of each thread are mutually inverse, tracked descriptors are open, and none is tracked by two threads |
| EpollServer.CountedAtRest | cpp-source/tcp-server.cpp:337-416 | between events the count is the size of the maps, at most the maximum, and the listening socket is registered if and only if there is room |
| EpollServer.AcceptAlone | cpp-source/tcp-server.cpp:338-415 | never do two threads accept at once |
| EpollServer.CallbackOnce | cpp-source/tcp-server.cpp:233-249 | one `on_connect` at most, one `on_disconnect` at most, exactly for connections closed by timeout, hang-up or failed read; a connection nobody holds has had both or neither |
| EpollServer.RefusedSilent | cpp-source/tcp-server.cpp:338-375 | a connection given up by `accept_continuation` or because it could not be registered has neither callback in any later state |
| EpollServer.CountedIsAnnounced | cpp-source/tcp-server.cpp:395-400 | a tracked connection has had exactly one `on_connect` and no `on_disconnect` |
| SymmetricChannel.NumberBytes | cpp-source/symmetric-encryptor.cpp:162-163 | the four size bytes carry the length modulo 2^32 |
| SymmetricChannel.SendInStep | cpp-source/symmetric-encryptor.cpp:158-189 | sending, however its writes end, keeps the link in order and the deliveries a prefix |
| SymmetricChannel.ReceiveInStep | cpp-source/symmetric-encryptor.cpp:191-258 | receiving keeps them too, unless the next block is whole, of the wanted length and ahead of the receiver by a positive multiple of 255 |
| SymmetricChannel.SizeTaken | cpp-source/symmetric-encryptor.cpp:197-229 | a whole size block is accepted if and only if its stamp is the receiver's, and refused with -4 otherwise |
| SymmetricChannel.DataTaken | cpp-source/symmetric-encryptor.cpp:231-256 | a whole data block of the announced length is delivered and moves the counter |
| SymmetricChannel.RefusalExact | cpp-source/symmetric-encryptor.cpp:191-258 | a read keeps the connection open if and only if the next block is whole, of the wanted length and of the receiver's stamp; else nothing is delivered and nothing counted |
| SymmetricChannel.PrefixDelivered | cpp-source/symmetric-encryptor.cpp:158-258 | over every run with failing and cut writes, however many messages are lost, in which no next block that is whole and of the wanted length is ahead by a positive multiple of 255, the deliveries are the first messages sent, in order |
| SymmetricChannel.CycleExact | cpp-source/symmetric-encryptor.cpp:130-258 | in any state in step, a whole next message is delivered if and only if 255 divides its distance from the receiver, else the connection closes; the deliveries stay a prefix if and only if the distance is 0, or not divided by 255, or the two texts are the same |
| SymmetricChannel.SizeAsDataExact | cpp-source/symmetric-encryptor.cpp:231-256 | a receiver that waits for data takes a later message's size block for it if and only if 255 divides the distance and the lengths are equal; then its bytes are delivered |
| SymmetricChannel.LosslessRun | cpp-source/symmetric-encryptor.cpp:158-258 | when writes succeed, the sender's counter less the receiver's is the number of messages in flight, and the connection stays open |
| SymmetricChannel.Drained | cpp-source/symmetric-encryptor.cpp:191-258 | however many messages are in flight, reading on delivers every one |
| SymmetricChannel.LossesExact | cpp-source/symmetric-encryptor.cpp:130-156 | from any settled state, after k messages lost in a failing first write the next is delivered if and only if 255 divides k, else the connection closes; deliveries stay a prefix exactly unless a positive multiple is lost and the text differs |
| SymmetricClient.PairedTells | cpp-source/symmetric-tcp-client.cpp:25-57 | one request at a time keeps both directions from ever being ahead by a multiple of 255, so nothing is ever mistaken |
| SymmetricClient.TurnPaired | cpp-source/symmetric-encryptor.cpp:191-258 | whatever the server does next, each request it took has exactly one answer |
| SymmetricClient.AwaitedAnswers | cpp-source/symmetric-tcp-client.cpp:48-56 | whatever the server and the link do, a text that ends the wait is the reply to this request, never an earlier one; an empty reply never ends it |
| SymmetricClient.PromptAnswer | cpp-source/symmetric-tcp-client.cpp:37-56 | on a quiet connection a prompt server's reply ends the wait and leaves the connection quiet |
| SymmetricClient.SymmetricTcpClient.constructor | cpp-source/symmetric-tcp-client.cpp:4-10 | not connected, both counters 0 |
| SymmetricClient.SymmetricTcpClient.CloseClient | cpp-source/symmetric-tcp-client.cpp:12-19 | closing resets both counters |
| SymmetricClient.SymmetricTcpClient.Await | cpp-source/symmetric-tcp-client.cpp:48-54 | the loop reads until a non-zero code and keeps the read counter |
| SymmetricClient.SymmetricTcpClient.Communicate | cpp-source/symmetric-tcp-client.cpp:25-57 | over any attempts, reconnections and failures a response is the reply to this very request; it is empty if and only if the client ends unconnected; with a prompt server it comes |
| Comd.HandledTypes | cpp-source/examples/comd.cpp:82-99 | only a message in the exchange state, on an open connection, adds to the shell's input, and it adds exactly itself |
| Comd.NextSound | cpp-source/examples/comd.cpp:45-106 | every event keeps the state tied to the messages of the open connection |
| Comd.ShellExact | cpp-source/examples/comd.cpp:45-106 | in every run a connection wrote to the shell nothing unless its first message was the identity and its second the shell request, and then all later messages in order, but perhaps the one it was closed for |
| Comd.ShellUnshared | cpp-source/examples/comd.cpp:103-106 | no shell process takes bytes from two connections |
| Comd.RepliesExact | cpp-source/examples/comd.cpp:49-100 | by how many messages a connection has sent: what is answered to which text, and when the connection stays open |
| Comd.Server.constructor | cpp-source/examples/comd.cpp:28-42 | the state before any connection |
| Comd.Server.OnConnect | cpp-source/examples/comd.cpp:45-47 | a new connection starts at the identity |
| Comd.Server.OpenShell | cpp-source/shell.hpp:18-63 | a running shell is kept, otherwise one is started or the call fails |
| Comd.Server.OnRead | cpp-source/examples/comd.cpp:49-100 | state, shell, return value and what is sent, for every message in every state |
| Comd.Server.OnDisconnect | cpp-source/examples/comd.cpp:103-106 | the shell is closed |
| Comd.Server.Serve | cpp-source/examples/comd.cpp:40-109 | the loop over any events is the run the laws speak of |
| ComdSession.MovedJoint | cpp-source/examples/com.cpp:145-233 | every move of client, server, shell, link and other clients keeps the two sides in step |
| ComdSession.ExchangeTogether | cpp-source/examples/com.cpp:161-233 | whenever the client exchanges packets the server does too or has closed its connection |
| ComdSession.ShellHearsTerminal | cpp-source/examples/com.cpp:197-216 | what the client's connection wrote to the shell is a beginning of what was typed at its terminal |
| ComdSession.HandshakeWorks | cpp-source/examples/com.cpp:145-180 | five messages bring client and idle server into the exchange |
| ComdSession.Client.constructor | cpp-source/examples/com.cpp:110-111 | the client's first state |
| ComdSession.Client.OnConnect | cpp-source/examples/com.cpp:145-151 | the identity is sent, or the client gives up |
| ComdSession.Client.OnData | cpp-source/examples/com.cpp:161-233 | the state after each message from the server and what is sent |
| FileCache.CleanNeverClimbs | cpp-source/http-api.cpp:192-200 | no cleaned route has two dots in a row |
| FileCache.CleanExact | cpp-source/http-api.cpp:192-200 | cleaning leaves a route alone if and only if it has no two dots in a row |
| FileCache.ChunksWhole | cpp-source/http-api.cpp:84-95 | the chunks make up the data, all but the last are full, and an exact multiple ends with an empty one |
| FileCache.SendChunks | cpp-source/http-api.cpp:81-97 | the sending loop ends for every length and sends exactly these chunks, or those before the first failing send |
| FileCache.FillWhole | cpp-source/http-api.cpp:256-276 | a fill whose reads succeed copies the whole file, for every length |
| FileCache.RespondBudget | cpp-source/http-api.cpp:240-254 | each request keeps what is left and what was cached in balance, and what is left non-negative |
| FileCache.RunBudget | cpp-source/http-api.cpp:240-254 | over every run remaining plus everything ever cached is the capacity, and the live files fit in it |
| FileCache.HappenedFaithful | cpp-source/http-api.cpp:240-284 | requests and edits keep every cached file a version that its path really had |
| FileCache.AlwaysCurrent | cpp-source/http-api.cpp:240-319 | after any run without failed fills and repeated modification times, a response from the cache carries the current bytes |
| FileCache.FoundExact | cpp-source/http-api.cpp:202-237 | the answer is `404` if and only if the path is no regular file and no directory with one as its index; a HEAD request is answered with the length of that file |
| FileCache.FromCache | cpp-source/http-api.cpp:240-319 | a file that is or can be cached is answered from an entry of its modification time, with the entry's length; other entries stay, and asking again changes nothing |
| FileCache.CurrentExact | cpp-source/http-api.cpp:241 | a cached file is answered with current bytes if and only if the time differs or the bytes do not |
| FileCache.FailedFillServed | cpp-source/http-api.cpp:247-288 | a failed fill leaves its entry, and the next answer is current for every content of fresh memory if and only if the file is empty or its open succeeded and its good reads covered it |
| FileCache.CopiedExact | cpp-source/http-api.cpp:256-282 | a fill leaves the file's bytes in every memory if and only if the file is empty or its good reads covered it |
| FileCache.FailedFillStays | cpp-source/http-api.cpp:247-288 | the request of a failed fill fails, and the next is answered with what the fill left, over the memory as it was |
| FileCache.CachedFile.constructor | cpp-source/http-api.hpp:111-116 | a cached file holds its data and its time |
| FileCache.HttpApi.constructor | cpp-source/http-api.hpp:161-163 | an empty cache with its whole capacity |
| FileCache.HttpApi.FillData | cpp-source/http-api.cpp:256-282 | the read loop fills the memory with as much of the file as its reads gave |
| FileCache.HttpApi.Check | cpp-source/http-api.cpp:240-244 | a file whose time changed is dropped, its bytes not given back |
| FileCache.HttpApi.Store | cpp-source/http-api.cpp:246-284 | the entry is stored and charged before it is known whether reading works |
| FileCache.HttpApi.Serve | cpp-source/http-api.cpp:286-319 | small HTML goes to the template, everything else out in chunks with its length |
| FileCache.HttpApi.RespondHttp | cpp-source/http-api.cpp:191-329 | the whole request on the object is the transition the laws speak of |
| RateLimiter.AdmittedExact | cpp-source/http-api.cpp:438-460 | a call is admitted if and only if no admitted call of the same client lies less than the minimum before it |
| RateLimiter.AllAdmitted | cpp-source/http-api.cpp:439 | without a positive minimum every call is admitted |
| RateLimiter.AdmittedSpaced | cpp-source/http-api.cpp:438-460 | admitted calls of a client are at least the minimum apart for any readings of the clock and any calls of others |
| RateLimiter.OthersIrrelevant | cpp-source/http-api.cpp:443-459 | which calls of a client are admitted does not depend on other clients |
| RateLimiter.WindowBound | cpp-source/http-api.cpp:438-460 | any window of length W holds at most W / minimum + 1 admitted calls |
| RateLimiter.Route.constructor | cpp-source/http-api.hpp:65-84 | no call has been admitted yet |
| RateLimiter.Route.Called | cpp-source/http-api.cpp:438-460 | the answer to one call and the time that is kept |
| WebSocketFrame.ParseFrame | cpp-source/websocket.hpp:15-61 | length, mask and payload as the loops read them, within the received bytes |
| WebSocketFrame.CreateFrame | cpp-source/websocket.hpp:82-128 | the frame as it is streamed, without a length past 65535 bytes |
| WebSocketFrame.CreatedDecodes | cpp-source/websocket.hpp:90-118 | a receiver written from section 5.2 of RFC 6455 reads the payload if and only if it has at most 65535 bytes |
| WebSocketFrame.ParsedExact | cpp-source/websocket.hpp:15-61 | a client's masked frame (sections 5.2 and 5.3), with anything behind it, is read back if and only if its length is the same in the other byte order, or longer there with nothing behind |
| WebSocketFrame.SwappedLengths | cpp-source/websocket.hpp:29-51 | payloads of 126 bytes with anything behind them, and of 256 bytes, are not read back |
| WebSocketFrame.ShortRead | cpp-source/websocket.hpp:29-51 | up to 125 bytes, every payload under every mask and before any trailing bytes is read back |
| LinkedQueue.Queue.constructor | cpp-source/queue.hpp:24 | the empty queue |
| LinkedQueue.Queue.Enqueue | cpp-source/queue.hpp:26-37 | the value is last, and both chains stay each other's reverse |
| LinkedQueue.Queue.Dequeue | cpp-source/queue.hpp:39-55 | the oldest value leaves; an empty queue refuses |
| LinkedQueue.Queue.Printed | cpp-source/queue.hpp:57-65 | the walk from the head lists the contents in reverse |
| LinkedQueue.FirstInFirstOut | cpp-source/queue.hpp:26-55 | under any mix of operations what left and what is left, in this order, is what was put in |
| LinkedQueue.Operate | cpp-source/queue.hpp:26-55 | the linked queue does this |

## Left out

- JsonHeap.JsonObject.Parse: requires that some number of rounds brings the source's loop to an end inside the text; on texts where it runs on forever or reads behind the terminator nothing is claimed. `JsonHalting.HaltsExact` says of every text whether it is among them, and `JsonNul.ReturnsExact` of every printed document.
- JsonSpelled.ParseSpelled: requires a document of strings, objects and arrays, as the library has no others; what stands for a number or a word is only passed over. What a four-digit code means is an arbitrary function to at most three bytes.
- JsonHeap.JsonObject.Stringify: the array loop tells its last element by its pointer, which is its position because a node never holds one child twice; trees that share nodes are not modelled.
- Url.UrlDecode: requires that the first percent sign has a number behind it that `sscanf` reads, or that there is none; otherwise the source appends an uninitialised number. Later percent signs are free.
- Replace.ReplaceAll: requires a pattern that is not empty, since with an empty one the source's loop does not end.
- TemplateFill.FillTemplate: requires that the page and the values are made of literals and whole marks, where literals and names hold no run of three braces and do not start or end with one. Values may hold marks; half marks, and closing braces in front of opening ones, are outside the clean-up loop's termination argument.
- HttpLaws.PostReadBack: requires delimiters to be absent from the path and header names, and query parameters with distinct names other than the request line's, whose values do not make the JSON parser run away; percent escapes in headers and queries are modelled as the code reads them, which is two codes only.
- HttpLaws.GetReadBack: requires the same of its query, whose names moreover are not those of the fixed headers, and that the object handed in has no content type yet, as the parser would otherwise read a body.
- HttpAnyClient.HeadRead: requires delimiters to be absent from path, names, values and protocol, query parameters as `HttpLaws.PostReadBack` does, and no header line named `method`, `route` or `protocol`, which would override the request line.
- HttpStrict.RequestRead: requires that the target and the header fields are one line each, which the client does not check.
- EpollServer.StepInv: the event loop is a state machine and not a class, because threads interleave; one event at a time for a tracked descriptor, timer creation succeeds, and `max_connections` is positive. The two statements that enter or erase a pair (cpp-source/tcp-server.cpp:278-279, 385-386) are one step: the maps belong to their thread. Closing a timer succeeds; the `continue` after a failure (cpp-source/tcp-server.cpp:298-301) is not modelled. Broadcasts and packet contents do not touch the modelled state. A failed `try_lock` is the step not taken, so nothing is claimed about when a thread accepts.
- SymmetricChannel.PrefixDelivered: requires that no next block which `recv` would otherwise take is ahead by a positive multiple of 255; `SymmetricChannel.CycleExact` and `SymmetricChannel.SizeAsDataExact` say what happens to one that is. Encryption is abstract: a block that arrives whole decrypts to what was encrypted, anything else is refused. Blocks are the unit of the link, so a cut block is refused with -3 where the source may also say -4. The block length is an arbitrary function of the text length, and the fixed 89 bytes are its value for five bytes. Counters do not overflow.
- SymmetricClient.SymmetricTcpClient.Communicate: the server answers each request once; the attempts and turns given may end before the source's loops would, and then `done` is false. An int code cannot tell an empty reply from none, so the client waits on: this is modelled as in the code.
- Comd.ShellExact: the end of `on_disconnect`, a sleep of ten seconds, has no effect on the modelled state. The shell process and partial writes to it are not part of this model.
- ComdSession.ExchangeTogether: the two directions are message queues that lose nothing before the connection ends, which is what `SymmetricChannel.PrefixDelivered` gives; routines other than the shell do not go beyond the request, as in the source.
- FileCache.AlwaysCurrent: files do not change while one request is answered, and sizes fit the types; entries shared between threads are not modelled. Responses that bypass the cache open `view->route` and are only named `Direct`.
- TankGame.RunKeeps: numbers are exact reals, cosine and sine arbitrary functions; the printed numbers of the public record stand for themselves, an empty input string is read as no direction, and `stod` is a total function. Handlers and ticks are atomic.
- TankGeometry.CollisionExact: rounding of doubles is not modelled.
- WebSocketFrame.ParsedExact: payloads are shorter than 2^48 bytes; the handshake, pings and the disconnect frame are left out.
- LinkedQueue.Queue.Dequeue: freeing the node is not modelled.
- AES, HMAC, SHA, base64 and argon2, TLS, sockets and clocks are outside; what they decide is a parameter.
- The PostgreSQL models, argument parsing, sessions, captchas and logging, the `Stack`, and the other example programs are input and output or would only add easy members.
