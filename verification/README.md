# Verified model of the ball-and-coin game

The game server moves players (balls) in a round field, lets them bounce off each other and off the
border, and shares coins among the players nearest to them. Clients and server exchange JSON
messages in length-prefixed frames. This project models, in Dafny 4.11, the parts of the repository
whose correctness is not visible from one function, and proves what they are for.

| files | part of the repository |
|---|---|
| JsonValue, JsonNumber, JsonString, JsonLexer, JsonParser, JsonReader, JsonAccepted | the bundled JSON reader |
| JsonText, JsonFastWriter, JsonStyledWriter, JsonRoundTrip | the two JSON printers and the round trip |
| ValueOrder, JsonConversion | the order on JSON values and the conversions between their types |
| Messages, MessageTexts, Framing, Wire, Requests | game messages, frames, and both together over a connection |
| Geometry, Physics, Coins, Emulator, Flight | one call of the emulator: motion, collisions, scoring |
| Players, Server, ServerHistory, ServerStart, StaleTurns, Managers | the game server as a system of two threads |
| ThreadPool | the thread pool |
| HttpReader, HttpRequest, Urls | the HTTP header reader, the parsers of requests and URLs, and the serializer of the web client |
| Strategy, ClosestCoin | the predictive strategy: its search and its way to the closest coin |
| Wrappers, Streams | what several of these share |

`dafny verify dfyconfig.toml` checks everything.

How the model is built:

* Code that changes things step by step is a class or a method with loops. Each method is proved equal
  to a function on values (`Reader.ReadValue` to `ParseValue`, `HandleBallToBallCollisions` to
  `BallPass`, ...), and what the code is for is proved of that function.
* The specification functions are written independently of the arithmetic where that is possible, and what
  they share with the code is pinned down by tables, coordinates and printed texts: a collision is described by the parts of the velocities along and across the line of impact, the JSON
  reader by a grammar (sections 2.2 to 2.5 of RFC 4627) with a meaning for every sentence, UTF-8 by
  section 3 of RFC 3629, surrogates by section 2.1 of RFC 2781, the end of an HTTP header by section
  4.1 of RFC 2616.
* Concurrent code is a system of atomic steps: what runs while a lock is held is one step, except that the
  draws for a new player are steps of their own, between which the lock stays held. The server reads bytes,
  which the frame decoder and the message parser turn into requests. Results hold of every sequence of
  enabled steps.
* A `char` stands for one byte. Doubles of the emulator are reals; `sqrt` is a parameter of which only
  `sqrt(x) >= 0` and `sqrt(x) * sqrt(x) == x` for `x >= 0` are known, and the largest double is a
  parameter. Doubles in JSON are their decimal literals.
* A reference to a child of a JSON value, which the reader keeps on its node stack, is modelled by
  writing the child back when it is popped.

Where the code and its evident intent differ, the code is modelled, and a lemma says when exactly the
intent is met, with an input that fails it:

* What a client sends can end the server process, since nothing on the message thread catches: a turn for a
  player that does not exist, a text that is no message, a text whose parser fails an assertion such as `[]`,
  a length prefix of 2^31 or more. The process has ended exactly when some socket has sent such a length or
  such a text (`CrashedExactlyWhen`); `FatalTextCrashes`, `StrangerCrashes`, `FirstTextCrashes` and
  `OversizedLengthCrashes` give the runs, `TextAbortsExactlyWhen` the texts that fail an assertion.
* A new player is drawn with the lock of the game held, and drawn again until a position is free. A started
  game can still be finished exactly when the process has not ended and the lock is not held for a client
  that may join and finds no room (`GameEnds`); `SecondClientHoldsUp` is an accepted configuration in which
  a second client stops a game for ever.
* The configuration check compares the minimum number of players with the number of states instead of
  the maximum number of players, and does not ask whether the players have room. The game can start
  exactly when the minimum does not exceed the maximum and that many players fit into the field one
  after another (`StartsExactlyWhen`); two accepted configurations cannot (`TooFewAllowed`,
  `CrowdedAllowed`).
* `FilterTurns` edits copies. That makes no difference to the velocities at the start of a tick exactly when
  each stale turn in force is without effect: its acceleration is zero, or its player moves at the speed limit
  and is pushed on in its own direction (`FilteringMakesNoDifferenceExactlyWhen`, `NoEffectExactlyWhen`); then
  it makes none to the whole tick (`SameStartSameTick`). In other states a stale turn can move a player at rest
  (`StaleTurnMoves`).
* Coins are shared by closeness to a running minimum, which can stand up to epsilon above the least distance.
  Exactly those within epsilon of the least distance share if and only if the distances in their order do not
  lead the scan astray (`NearShareExactlyWhen`); in every order, if and only if no two distances of which one
  can lead straddle that bound (`NearShareInEveryOrder`, more simply `NearShareSimply`). The nearest player can
  get nothing (`NearestUnpaid`). Of those close to the recorded minimum some can be passed over
  (`PassedOver`), exactly as `RecordedCloseShareExactlyWhen` and `RecordedCloseShareInEveryOrder` say.
* Colliding players are not tested for approaching each other: an impact reverses their relative velocity
  along the axis whatever it is, so they part exactly if they were approaching (`BounceReverses`,
  `PartingPlayersCollide`), and a second impact undoes the first (`BounceTwice`).
* An impact changes two players exactly when they touch, differ in their velocities along the line of impact,
  and do not stand at nearly the same spot with radii that add up to less than one
  (`PairChangesExactlyWhen`, `SameSpotNoHit`).
* The JSON reader accepts more than JSON, and `DocumentAcceptedExactly` says exactly what: any token
  separates array elements (`AnyTokenSeparates`), and behind a comment also members
  (`AnyTokenAfterComment`). A number token is accepted when it begins with a number that is not
  followed by an exponent mark without digits, and the rest is dropped (`AcceptedNumbers`); a lone minus sign
  is zero and "1-2" is one (`AcceptedNonNumbers`). Integers near the 32-bit limits come back as doubles (`NormIsIdentity` says
  exactly which values come back unchanged).
* `isConvertibleTo` says yes to a UInt of 2^31-1 as an Int and to numbers as strings, where the accessors
  fail (`ConvertsExactlyWhen`).
* A failed subscription, identifiers of 33 bits or more and differing radii do not survive a message
  (`TransmitIsIdentity` says exactly which messages do).
* A frame with an empty body is delivered only with the next byte (`OneFrame`, `DecoderUndoesEncoder`).
* The authority of a URL is cut out with an end where a length is expected. A URL with a host is taken apart
  into its parts exactly when it has a port and no query right behind it, or nothing behind the host; one
  without a host exactly when "://" occurs nowhere in it (`ReadsBackExactlyWhen`). "http://h/a" has the host
  "h/a", and "http://h/a:b" makes the parser throw (`HostRunsOn`, `SomeUrls`).
* A header line is its own name and value exactly when it has no colon (`WholeLineIsNameExactlyWhen`,
  `NoColon`).

## Model

| member | source | states |
|---|---|---|
| JsonValue.PutSorted | contrib/jsoncpp/src/lib_json/json_value.cpp:1022-1042 | inserting or replacing a member keeps the map in key order |
| JsonValue.GetPut | contrib/jsoncpp/src/lib_json/json_value.cpp:1022-1080 | what is stored under a key is read back, and no other key is affected |
| JsonValue.StrLessTrichotomy | contrib/jsoncpp/src/lib_json/json_value.cpp:218-231 | keys are totally ordered by strcmp, and equality of keys is neither being less |
| JsonValue.StrLessExactlyWhen | contrib/jsoncpp/src/lib_json/json_value.cpp:218-231 | a key is below another exactly when it has the smaller byte where they first differ, or ends there |
| JsonNumber.UIntToString | contrib/jsoncpp/src/lib_json/json_writer.cpp:30-40 | the numeral and its terminator are written in front of the given position, within eleven cells, and no other cell changes |
| JsonNumber.ValueToStringInt | contrib/jsoncpp/src/lib_json/json_writer.cpp:42-54 | every Int, the smallest included, is printed as its decimal numeral |
| JsonNumber.ValueToStringUInt | contrib/jsoncpp/src/lib_json/json_writer.cpp:57-64 | every UInt is printed as its decimal numeral |
| JsonNumber.DecodeNumberKeepsValue | contrib/jsoncpp/src/lib_json/json_reader.cpp:582-643 | every decimal literal is accepted with the value it denotes: an integer result is exact, never an overflow, and a fraction or exponent keeps the literal |
| JsonNumber.DecodeIntText | contrib/jsoncpp/src/lib_json/json_reader.cpp:582-616 | decoding undoes the printing of every 32-bit integer, up to the stated change of representation |
| JsonNumber.NormIntKeepsValue | contrib/jsoncpp/src/lib_json/json_reader.cpp:596-615 | that change of representation keeps the numeric value |
| JsonNumber.WellFormedLiteral | contrib/jsoncpp/src/lib_json/json_reader.cpp:582-643 | every number of section 2.4 of RFC 4627 is read to its end, and with a fraction or exponent becomes a double |
| JsonNumber.NumeralIsLiteral | contrib/jsoncpp/src/lib_json/json_reader.cpp:582-643 | a plain numeral of any size is a literal and denotes its decimal value |
| JsonNumber.LiteralMeans | contrib/jsoncpp/src/lib_json/json_reader.cpp:620-643 | a number denotes its digits as one numeral, times ten to the exponent less the number of digits behind the point, with its sign |
| JsonNumber.DigitsAreDecimal | contrib/jsoncpp/src/lib_json/json_writer.cpp:30-40 | the k-th digit of a numeral from its end is the character in the place of n / 10^k modulo 10 in "0123456789" |
| JsonNumber.LiteralIsNumber | contrib/jsoncpp/src/lib_json/json_reader.cpp:620-643 | a number token is read to its end exactly when it has the form of a number |
| JsonNumber.ReadExactlyWhen | contrib/jsoncpp/src/lib_json/json_reader.cpp:620-643 | `%lf` reads from a number token exactly a beginning of the form sign, digits, fraction, exponent with each part as long as it can be and no exponent mark left without digits |
| JsonNumber.AcceptedNumbers | contrib/jsoncpp/src/lib_json/json_reader.cpp:582-643 | a number token is accepted exactly if it is a lone minus sign or has such a beginning; the value is that of the beginning, which is all of the token exactly when the token has the form of a number or is the lone minus sign |
| JsonNumber.AcceptedNonNumbers | contrib/jsoncpp/src/lib_json/json_reader.cpp:582-643 | a lone minus sign is accepted as zero and "1-2" as one, though neither has the form of a number |
| JsonString.Utf8ReadsBack | contrib/jsoncpp/src/lib_json/json_reader.cpp:69-103 | the encoding of every scalar value is the one of section 3 of RFC 3629: its decoder gives the value and the length back whatever follows |
| JsonString.Utf8PrefixFree | contrib/jsoncpp/src/lib_json/json_reader.cpp:69-103 | the encoding is injective and no encoding is a prefix of another |
| JsonString.EscapeSequenceSpells | contrib/jsoncpp/src/lib_json/json_reader.cpp:733-757 | four characters behind \u are read as n exactly when, in lower case, they are the characters in the places of the four hexadecimal digits of n in "0123456789abcdef" |
| JsonString.UnicodeEscapeDecodes | contrib/jsoncpp/src/lib_json/json_reader.cpp:704-757 | one \u escape, or a surrogate pair, of any scalar value, spelt in either case, decodes to its UTF-8 form |
| JsonString.EscapesAreTheTable | contrib/jsoncpp/src/lib_json/json_reader.cpp:672-694 | a backslash and a character other than u decode to one character exactly as the table of section 2.5 of RFC 4627 has it, by character codes |
| JsonString.WrittenEscapes | contrib/jsoncpp/src/lib_json/json_writer.cpp:111-172 | a character is written in the short form of the table if it has one and is no slash, as four hexadecimal digits that spell it if it is another control character, and as it is otherwise |
| JsonString.ScanLiteral | contrib/jsoncpp/src/lib_json/json_reader.cpp:464-477 | the scanner stops at the closing quote of any grammatical string, whatever follows it |
| JsonString.DecodeLiteral | contrib/jsoncpp/src/lib_json/json_reader.cpp:658-757 | a grammatical string decodes to what it denotes, and is refused exactly when a high surrogate is not followed by an escaped unit |
| JsonString.QuoteDenotes | contrib/jsoncpp/src/lib_json/json_writer.cpp:111-172 | the quoted form of any string is a grammatical string that denotes it |
| JsonString.QuoteReadsBack | contrib/jsoncpp/src/lib_json/json_writer.cpp:111-172 | scanning quoted text stops at its closing quote whatever follows, and decoding the inside gives the string back |
| JsonString.ValueToQuotedString | contrib/jsoncpp/src/lib_json/json_writer.cpp:111-172 | the short cut for text without special characters and the escaping loop give the same quoted form |
| JsonLexer.FirstToken | contrib/jsoncpp/src/lib_json/json_reader.cpp:274-346 | a token is never empty and is a prefix of the text, so the cursor always advances |
| JsonLexer.LexString | contrib/jsoncpp/src/lib_json/json_reader.cpp:274-477 | a quoted grammatical string is one token, and the tokens after it are those of the rest |
| JsonLexer.BlanksSkipped | contrib/jsoncpp/src/lib_json/json_reader.cpp:349-360 | the four characters of white space of section 2 of RFC 4627 are skipped, and a token begins with any other |
| JsonLexer.CStyleComment | contrib/jsoncpp/src/lib_json/json_reader.cpp:425-435 | a comment up to the first asterisk with a slash is one token |
| JsonLexer.CppStyleComment | contrib/jsoncpp/src/lib_json/json_reader.cpp:438-448 | a comment up to the end of its line is one token |
| JsonParser.ParseValue | contrib/jsoncpp/src/lib_json/json_reader.cpp:195-242 | terminates on every token list, takes at least one token when it succeeds, and succeeds exactly when it reports no error |
| JsonParser.ParseDocument | contrib/jsoncpp/src/lib_json/json_reader.cpp:151-191 | on every byte string and feature set the result is true exactly when the error list is empty |
| JsonParser.ReaderAcceptsGrammar | contrib/jsoncpp/src/lib_json/json_reader.cpp:195-579 | every sentence of the grammar, whatever precedes it in the node or follows it in the text, is accepted exactly when its surrogates are paired; then it yields what the sentence denotes and consumes its tokens |
| JsonParser.ReaderAcceptsText | contrib/jsoncpp/src/lib_json/json_reader.cpp:151-191 | the same for any document whose tokens start with those of a sentence, however laid out, in every feature set: strict mode also asks for a container or null at the root |
| JsonParser.AnyTokenSeparates | contrib/jsoncpp/src/lib_json/json_reader.cpp:539-579 | in an array any token but a comment or a closing bracket works as a comma |
| JsonAccepted.AcceptedExactly | contrib/jsoncpp/src/lib_json/json_reader.cpp:195-579 | a value is accepted exactly when the tokens begin with a derivation of the extended grammar; then exactly its tokens are taken and its meaning is the result |
| JsonAccepted.DocumentAcceptedExactly | contrib/jsoncpp/src/lib_json/json_reader.cpp:151-191 | a document is accepted exactly when its tokens begin with such a derivation, whose meaning in strict mode is a container or null |
| JsonAccepted.AnyTokenAfterComment | contrib/jsoncpp/src/lib_json/json_reader.cpp:480-536 | behind a comment any token separates the members of an object |
| JsonReader.Reader.ReadToken | contrib/jsoncpp/src/lib_json/json_reader.cpp:274-346 | takes exactly the first of the tokens ahead, moves only forward, stays within the document |
| JsonReader.Reader.ReadString | contrib/jsoncpp/src/lib_json/json_reader.cpp:464-477 | moves over a string with its escapes as the scanner says |
| JsonReader.Reader.DecodeNumberToken | contrib/jsoncpp/src/lib_json/json_reader.cpp:582-616 | the digit loops compute the decoded number into the current node or add one error |
| JsonReader.Reader.DecodeUnicodeCodePoint | contrib/jsoncpp/src/lib_json/json_reader.cpp:704-731 | combines a surrogate pair and moves past it, or adds one error |
| JsonReader.Reader.DecodeStringToken | contrib/jsoncpp/src/lib_json/json_reader.cpp:658-701 | the escape loop decodes the inside of a quoted token or adds one error |
| JsonReader.Reader.RecoverFromError | contrib/jsoncpp/src/lib_json/json_reader.cpp:774-798 | skips past the wanted token or to the end, always fails, and leaves no error of its own |
| JsonReader.Reader.ReadValue | contrib/jsoncpp/src/lib_json/json_reader.cpp:195-242 | cursor, current node and errors change as `ParseValue` says, the rest of the node stack is restored, the result says whether errors were added |
| JsonReader.Reader.ReadMemberAndComma | contrib/jsoncpp/src/lib_json/json_reader.cpp:507-531 | one member value with the comma or brace after it |
| JsonReader.Reader.ReadObject | contrib/jsoncpp/src/lib_json/json_reader.cpp:480-536 | the same for the members of an object |
| JsonReader.Reader.ReadElementAndComma | contrib/jsoncpp/src/lib_json/json_reader.cpp:555-576 | one element with the token after it |
| JsonReader.Reader.ReadArray | contrib/jsoncpp/src/lib_json/json_reader.cpp:539-579 | the same for the elements of an array |
| JsonReader.Reader.Parse | contrib/jsoncpp/src/lib_json/json_reader.cpp:151-191 | the reader with its cursor, node stack and error list computes `ParseDocument` on every byte string and ends with the root alone on the stack |
| JsonText.SyntaxDenotes | contrib/jsoncpp/src/lib_json/json_writer.cpp:208-263 | the sentence of every value is grammatical and denotes the value |
| JsonText.ArrayLayout | contrib/jsoncpp/src/lib_json/json_writer.cpp:352-402 | an array that is not on one line: at depth d its brackets stand behind 3 d blanks, and each element begins a line behind three more |
| JsonText.ObjectLayout | contrib/jsoncpp/src/lib_json/json_writer.cpp:318-349 | the same for the members of an object, with the key, " : " and the value |
| JsonText.RowFits | contrib/jsoncpp/src/lib_json/json_writer.cpp:405-433 | an array is written in one row exactly when it holds no filled container, less than a third of 74 elements, and the row is shorter than 74 columns |
| JsonFastWriter.FastWriter.Write | contrib/jsoncpp/src/lib_json/json_writer.cpp:198-263 | the compact printer writes the compact text of the value and a line end |
| JsonStyledWriter.StyledWriter.Write | contrib/jsoncpp/src/lib_json/json_writer.cpp:277-349 | the pretty printer writes the styled text of the value, and its indentation ends as it began |
| JsonStyledWriter.StyledWriter.WriteArrayValue | contrib/jsoncpp/src/lib_json/json_writer.cpp:352-402 | an array is laid out in one line or in many as measured; measuring mode and indentation are restored |
| JsonStyledWriter.StyledWriter.IsMultilineArray | contrib/jsoncpp/src/lib_json/json_writer.cpp:405-433 | decides the layout and leaves exactly one text for each element in the side buffer whenever it has measured them, without writing |
| JsonRoundTrip.PrintersAgree | contrib/jsoncpp/src/lib_json/json_writer.cpp:198-480 | both printers write the same tokens for every value, namely those of its sentence |
| JsonRoundTrip.ReaderUndoesPrinters | contrib/jsoncpp/src/lib_json/json_writer.cpp:198-480 | parsing what either printer wrote, whatever follows, gives the value back up to the representation of integers, and succeeds unless a strict root is not a container |
| JsonRoundTrip.NormIsIdentity | contrib/jsoncpp/src/lib_json/json_reader.cpp:596-615 | the round trip is the identity exactly on values whose Ints are at least -2147483639 and whose UInts lie above Int and at most at 4294967289 |
| ValueOrder.Trichotomy | contrib/jsoncpp/src/lib_json/json_value.cpp:565-668 | of any two values exactly one holds: less, equal, greater |
| ValueOrder.Chain | contrib/jsoncpp/src/lib_json/json_value.cpp:565-612 | not-above is transitive through nested containers, and strict if one step is |
| ValueOrder.StrictTotalOrder | contrib/jsoncpp/src/lib_json/json_value.cpp:565-668 | `operator<` is irreflexive and transitive, and neither being less is the same as `operator==` |
| ValueOrder.LessExactlyWhen | contrib/jsoncpp/src/lib_json/json_value.cpp:565-612 | which order it is: the earlier type in the enumeration; of one type the smaller number, false before true, the string with the smaller byte where they first differ, the container with fewer entries, and of two with equally many the one that is below in the first entry that differs |
| ValueOrder.SameIsCongruence | contrib/jsoncpp/src/lib_json/json_value.cpp:565-668 | `operator==` is an equivalence and equal values compare alike with all others |
| JsonConversion.ConvertsExactlyWhen | contrib/jsoncpp/src/lib_json/json_value.cpp:684-868 | `isConvertibleTo` promises that the accessor returns, except for the largest Int kept as a UInt and for numbers asked for as strings; no accessor returns where it says no |
| JsonConversion.IntegersFit | contrib/jsoncpp/src/lib_json/json_value.cpp:715-792 | what an integer accessor returns fits its type and is the numeric value without its fraction |
| JsonConversion.AccessorsKeep | contrib/jsoncpp/src/lib_json/json_value.cpp:684-868 | a number keeps its value as a double; a truth value is one or zero in all number types and as a string what is printed for it; a string is itself, and null empty or zero |
| Messages.SetMember | lib/protocol/protocol.cpp:59-115 | assigning a member adds or replaces that member and nothing else |
| Messages.BuildPlainMessage | lib/protocol/protocol.cpp:13-19 | a message without content is an object with its type alone |
| Messages.BuildResultMessage | lib/protocol/protocol.cpp:21-57 | a subscription result has type, result and, if it succeeded, the identifier |
| Messages.BuildTurnMessage | lib/protocol/protocol.cpp:104-115 | a turn has exactly its members |
| Messages.BuildFieldStateMessage | lib/protocol/protocol.cpp:59-102 | a state has exactly its members, with one object for each player and coin in order and null for an empty list |
| Messages.BuildJsonMessage | lib/protocol/protocol.cpp:128-170 | the text is the compact text of the object that represents the message |
| Messages.FillPlayers | lib/protocol/protocol.cpp:264-292 | the loop fills one player for each element in order, and fails where an element does |
| Messages.FillCoins | lib/protocol/protocol.cpp:294-313 | the same for coins |
| Messages.ParseFieldStateMessage | lib/protocol/protocol.cpp:231-316 | reads a state field by field, in the order in which missing fields are noticed |
| Messages.ParseJsonMessage | lib/protocol/protocol.cpp:351-382 | dispatches on the type of the parsed text |
| Messages.TextAbortsExactlyWhen | lib/protocol/protocol.cpp:172-382 | parsing a text fails an assertion exactly when the reader accepts it and its value is neither null nor an object, or its type is a number or a container, or it is a complete state in which the first unreadable player or coin is neither null nor an object |
| Messages.SomeTextsAbort | lib/protocol/protocol.cpp:351-382 | the texts of an empty array and of a message with a numeric type, whatever follows |
| Messages.ParseInvertsBuild | lib/protocol/protocol.cpp:13-349 | parsing what was built for any message gives what `Transmit` says |
| Messages.ParseTextOfMessage | lib/protocol/protocol.cpp:128-382 | the same through the text of the message, whatever follows it |
| Messages.TransmitIsIdentity | lib/protocol/protocol.cpp:59-349 | a message arrives unchanged exactly when a subscription succeeded, state identifiers fit 32 bits, all players share one radius and all coins share one |
| MessageTexts.TurnPrinted | lib/protocol/protocol.cpp:104-115 | a turn is printed with the members a_x, a_y, id, state_id, type in this order, and the text lists them |
| MessageTexts.StatePrinted | lib/protocol/protocol.cpp:59-102 | a state is printed with its nine members in the order of their bytes, one object with six members for each player, one with three for each coin, and the radius of the first of each kind |
| MessageTexts.ResultPrinted | lib/protocol/protocol.cpp:21-57 | what a subscription is answered, member by member |
| MessageTexts.PlainPrinted | lib/protocol/protocol.cpp:13-19 | the subscriptions and the finish consist of their type |
| Framing.ChunkingIsInvisible | src/server/protocol.hpp:44-109 | any division of a stream into chunks delivers the same messages and leaves the same state as one chunk |
| Framing.FeedSplit | src/server/protocol.hpp:44-109 | the same for a cut at any point from any state |
| Framing.DecoderUndoesEncoder | src/server/protocol.hpp:44-127 | the frames of any list of bodies below 2^31 bytes decode to that list in order, except that empty bodies at the end wait for another byte |
| Framing.OneFrame | src/server/protocol.hpp:44-127 | one frame delivers exactly its body if and only if the body is not empty and shorter than 2^31 bytes |
| Framing.OversizedFails | src/server/protocol.hpp:74-80 | four bytes that announce 2^31 or more make the allocation throw, whatever follows |
| Framing.LengthBytes | src/server/protocol.hpp:118-127 | byte k in front of a body is its length divided by 256^k modulo 256 |
| Framing.LengthRead | src/server/protocol.hpp:66-76 | and so the decoder reads the four bytes |
| Framing.ThreeBytes | src/server/protocol.hpp:118-127 | the frame of a body of three bytes |
| Framing.InputLengthPrefixedProtocol.ProcessDataChunk | src/server/protocol.hpp:44-109 | the loop over portions ends and does what feeding byte by byte does; it throws exactly when that meets an oversized length, with the bodies before it delivered |
| Framing.GetResponse | src/server/protocol.hpp:118-127 | the frame is the length, lowest byte first, and the body |
| Wire.MessagesArrive | src/server/json_message.hpp:18-46 | messages printed, framed, cut in any way, decoded, terminated and parsed arrive all, in order, each unchanged exactly when it is faithful |
| Requests.PrintedTurn | src/server/json_message.hpp:18-28 | the printed text of a turn is handled as that turn, with the state number modulo 2^32 |
| Requests.PrintedMessage | src/server/json_message.hpp:18-28 | the printed text of a subscription is handled as that subscription, and that of a state or the finish as no request |
| Requests.SubscriptionSubscribes | src/server/json_message.hpp:18-28 | a text that subscribes a client |
| Geometry.NormalizeIsUnit | lib/util/geometry.cpp:16-22 | a normalized vector has length one and the direction it had |
| Physics.ImpulseTrades | lib/emulator/default_emulator.cpp:63-74 | the impulse arithmetic gives each player the other's part along the axis and leaves the part across it |
| Physics.TradeConserves | lib/emulator/default_emulator.cpp:48-75 | an impact keeps the sum of the velocities and of their squares |
| Physics.BounceReverses | lib/emulator/default_emulator.cpp:48-75 | an impact reverses the relative velocity along the axis, so touching players part exactly if they were approaching |
| Physics.PartingPlayersCollide | lib/emulator/default_emulator.cpp:48-75 | two players that part and are driven together |
| Physics.BounceTwice | lib/emulator/default_emulator.cpp:48-75 | handling the same touching pair again restores the velocities |
| Physics.PairChangesExactlyWhen | lib/emulator/default_emulator.cpp:40-75 | handling a pair changes the players exactly when they touch, do not stand at nearly the same spot with radii that add up to less than one, and differ in their velocities along the line of impact |
| Physics.SameSpotNoHit | lib/emulator/default_emulator.cpp:53-61 | two players at the same spot that pass through each other |
| Physics.BallPassConserves | lib/emulator/default_emulator.cpp:77-87 | the pass over all pairs keeps total energy and momentum and changes velocities only |
| Physics.ReflectionKeepsSpeed | lib/emulator/default_emulator.cpp:96-108 | reflection keeps the speed, never leaves an outward part, is idempotent and does nothing to an inward velocity |
| Physics.ReturnedHeadsInward | lib/emulator/default_emulator.cpp:89-108 | a player outside the border, of whatever size, does not move outward afterwards and keeps its speed; only one exactly in the middle, where the source divides by zero, is excluded |
| Physics.BorderPassConserves | lib/emulator/default_emulator.cpp:110-116 | the border pass keeps total energy and turns every outside player inward, whatever the sizes |
| Physics.TurnOf | lib/emulator/helpers.cpp:48-62 | the search returns a turn of the player |
| Physics.AcceleratedIsLimited | lib/emulator/helpers.cpp:64-79 | no player gets faster than the limit; a faster one keeps its direction at exactly the limit |
| Physics.AccelerateAllIsLimited | lib/emulator/helpers.cpp:64-79 | after acceleration the energy is at most the squared limit for each player |
| Coins.NearestLeads | lib/emulator/helpers.cpp:20-32 | the scan ends with a non-empty increasing list whose first member is at the recorded minimum, which contains exactly the later players within epsilon of it, while no player is nearer by more than epsilon |
| Coins.ScanFindsLastLeader | lib/emulator/helpers.cpp:20-32 | the scan ends with the last leader, a distance clearly below every leader before it, and with exactly the close ones from there on |
| Coins.RecordedCloseShareExactlyWhen | lib/emulator/helpers.cpp:20-32 | in a given order everybody within epsilon of the recorded minimum shares exactly when no distance stands between a leader and the last leader that does not fall clearly below the former and is close to the latter |
| Coins.RecordedCloseShareInEveryOrder | lib/emulator/helpers.cpp:20-32 | in every order of the players everybody within epsilon of the recorded minimum shares exactly when the distances contain no a, b, c with b within epsilon below a, c more than epsilon below a and less than epsilon below b, and nothing more than epsilon below c |
| Coins.NearShareExactlyWhen | lib/emulator/helpers.cpp:20-32 | in a given order exactly those within epsilon of the least distance share, if and only if the recorded minimum is not epsilon above the least distance, nobody that near comes before the last leader, and nobody farther comes after it close to the leader |
| Coins.NearShareInEveryOrder | lib/emulator/helpers.cpp:20-32 | in every order exactly those within epsilon of the least distance share, if and only if no two distances, one of which can lead, lie on both sides of that bound and at most (one way round: less than) epsilon apart |
| Coins.NearShareSimply | lib/emulator/helpers.cpp:20-32 | with all distances clearly below the initial value: if and only if no two distances at most epsilon apart lie on both sides of the bound |
| Coins.NearestUnpaid | lib/emulator/helpers.cpp:20-32 | two distances of which the smaller is not in the list |
| Coins.WellSpacedShare | lib/emulator/helpers.cpp:20-32 | a simple case for the recorded minimum: no two distances differ by one to two epsilons |
| Coins.PassedOver | lib/emulator/helpers.cpp:10-46 | three players around a coin, the second within epsilon of the third, which is nearest and takes the whole coin |
| Coins.PayMeans | lib/emulator/helpers.cpp:34-41 | a taken coin is shared out whole and in equal parts among the listed players, once each; otherwise nothing changes |
| Coins.DivisionConserves | lib/emulator/helpers.cpp:10-46 | scores and remaining coins are worth what they were, the coins left are exactly those out of reach, in order, and only scores change |
| Emulator.EmulateKeeps | lib/emulator/default_emulator.cpp:120-137 | after any number of sub-steps the energy is what acceleration left, at most the number of players times the squared limit, which bounds every squared speed; identifiers and radii stay, scores and coins are conserved |
| Flight.FlightOfACall | lib/emulator/default_emulator.cpp:120-137 | a player that touches neither another player nor the border in a call of `Emulate` has afterwards the velocity v + t a, cut down to the limit in its direction if it is above it, and stands at its old center plus a hundredth of t times that velocity, in coordinates, for any number of sub-steps |
| Flight.FreeFlight | lib/emulator/default_emulator.cpp:131-136 | over any number of sub-steps a player that touches nothing flies straight on |
| Flight.SubStepMoves | lib/emulator/default_emulator.cpp:32-38 | in a sub-step every center moves by the velocity before it times the time, whatever the player meets |
| Flight.AloneKeepsVelocity | lib/emulator/default_emulator.cpp:77-116 | where the players have come to, one that touches no other keeps its velocity, or has it turned in at the border: the part along the way out reversed, the part across it kept |
| Flight.PairTrades | lib/emulator/default_emulator.cpp:48-87 | two players that have come to touch each other and nothing else trade the parts of their velocities along the line of impact, once |
| Flight.PairMeetsOnce | lib/emulator/default_emulator.cpp:77-87 | from any point of the loops on, each pair still to come is handled exactly once |
| Flight.NobodyLeaves | lib/emulator/default_emulator.cpp:110-116 | after a sub-step no player beyond the border moves further out |
| Flight.CoinsLeft | lib/emulator/helpers.cpp:20-46 | where the players have come to, a coin out of reach of all of them stays, and one that stays is in nobody's reach by more than epsilon |
| Emulator.SubStepKeeps | lib/emulator/default_emulator.cpp:131-136 | one sub-step keeps energy, value, identifiers and radii |
| Emulator.MovePlayers | lib/emulator/default_emulator.cpp:32-38 | every center moves by its velocity times the time, in coordinates, nothing else changes |
| Emulator.ResolveCollision | lib/emulator/default_emulator.cpp:48-75 | updates the two players to the traded velocities, with the axis and the early return of the source |
| Emulator.HandleBallToBallCollisions | lib/emulator/default_emulator.cpp:77-87 | the nested loops handle all pairs in order |
| Emulator.ResolveBorderCollision | lib/emulator/default_emulator.cpp:96-108 | updates one player to the reflected velocity |
| Emulator.HandleBallToBorderCollisions | lib/emulator/default_emulator.cpp:110-116 | exactly the players outside the border are reflected |
| Emulator.FindNearest | lib/emulator/helpers.cpp:20-32 | the loop computes running minimum and list |
| Emulator.DivideCoins | lib/emulator/helpers.cpp:10-46 | the loops update scores and coins as the division says |
| Emulator.GetAccelerations | lib/emulator/helpers.cpp:48-62 | each player gets the acceleration of its first turn |
| Emulator.ApplyAcceleration | lib/emulator/helpers.cpp:64-79 | the loop accelerates and limits every player |
| Emulator.Emulate | lib/emulator/default_emulator.cpp:120-137 | the whole call, updating the state in place, equals acceleration and then the sub-steps |
| Players.DefaultPlayerGenerator.GetPlayer | lib/player_generators/default_player_generator.cpp:26-61 | the new player stands at the first position drawn that touches nobody, with the next identifier; as long as no position drawn is free the loop goes on and nothing changes |
| Players.FreeMeansNoHit | lib/player_generators/default_player_generator.cpp:47-53 | a player placed there collides with nobody |
| Server.EmulateNeverFails | src/server/game_state_manager.cpp:13-84 | in every interleaving player i has identifier i and turn i, the limit on players holds, the assertion of the emulator holds and its search finds turn i |
| Server.ScoresAreCoins | src/server/game_state_manager.cpp:64-102 | in every reachable state scores plus coins on the field equal the value of all coins generated |
| Server.BroadcastShape | src/server/game_state_manager.cpp:49-94 | in every interleaving the broadcasts are states 1, 2, 3, ... up to the configured number and then one finish, with enough and not too many players, never fewer than before, each to distinct known connections |
| ServerHistory.KeptTurnsAreLast | src/server/game_state_manager.cpp:13-38 | in every interleaving the turn kept for a player is the last one that any text taken up has sent for it, and one that does not accelerate if there is none; the search of the emulator finds just this turn |
| ServerHistory.BroadcastReachesAll | src/server/observers_manager.cpp:27-59 | in every interleaving a state, and the finish, goes to the connection of every text taken up so far that subscribes a client or a viewer, and to no other |
| Server.AcceptedIdsDiffer | src/server/observers_manager.cpp:27-37 | accepted clients are told the identifiers 0, 1, 2, ..., each the identifier of its player |
| Server.GameEnds | src/server/game_state_manager.cpp:18-94 | in every interleaving the game thread takes at most three steps for each state and two more once started; a started game can still be finished exactly when the process has not ended and the lock is not held for a client that may join and finds no room; between two chunks, exactly when no oversized length and no such text as below has been received |
| Server.JammedForEver | src/server/game_state_manager.cpp:18-27 | such a client keeps the lock in every run from there on, and no game that has not ended ends |
| Server.OnlyTheLock | src/server/game_state_manager.cpp:49-94 | before its end the game thread has a next step whenever the process is alive and no player is being placed |
| Server.CrashedExactlyWhen | src/server/json_message.hpp:18-28 | whenever a chunk has been worked off or the process has ended: it has ended exactly when the bytes of some socket decode to an oversized length, or a text in them fails an assertion when parsed, is no message, or is a turn for a player unknown when it is taken up; until then the texts taken up from each socket are exactly those its bytes decode to |
| Server.FatalTextCrashes | src/server/json_message.hpp:18-28 | on a socket with no frame begun the frame of any such text leads to a state in which no thread has a step |
| Server.StrangerCrashes | src/server/game_state_manager.cpp:13-16 | so does the printed text of any turn for a player that does not exist |
| Server.FirstTextCrashes | src/server/message_manager.cpp:23-51 | an empty array as the very first text ends the process |
| Server.OversizedLengthCrashes | src/server/protocol.hpp:74-80 | so do four bytes that announce 2^31 or more, in any state between two chunks |
| ServerStart.StartsExactlyWhen | src/server/game_state_manager.cpp:18-59 | some run starts the game exactly when the minimum of players does not exceed the maximum and that many positions in the field can be taken one after another without touching |
| ServerStart.NeverStarts | src/server/game_state_manager.cpp:49-59 | otherwise every run waits forever and nothing is sent |
| ServerStart.TooFewAllowed | src/server/game_server.hpp:25-35 | an accepted configuration whose minimum is above its maximum |
| ServerStart.CrowdedAllowed | src/server/game_server.hpp:25-35 | an accepted configuration in whose field the second of two players finds no room |
| ServerStart.SecondClientHoldsUp | src/server/game_state_manager.cpp:18-27 | an accepted configuration and a run, from the first byte on, in which the game has begun, the process is alive and no continuation finishes the game |
| ServerStart.OpeningIsCalm | lib/player_generators/default_player_generator.cpp:26-61 | while the game waits no two players collide and none collides with the border |
| StaleTurns.NoEffectExactlyWhen | lib/emulator/helpers.cpp:64-79 | for a player in any motion an acceleration makes no difference to the velocity exactly when it is zero or the player moves at the limit and is pushed on in its own direction |
| StaleTurns.FilteringMakesNoDifferenceExactlyWhen | src/server/game_state_manager.cpp:40-47 | zeroing the stale turns would leave the field after the acceleration loop as it is exactly when each player whose turn is stale is accelerated without effect |
| StaleTurns.SameStartSameTick | src/server/game_state_manager.cpp:78-83 | and then the whole tick comes out the same |
| StaleTurns.TickMovesExactlyWhen | src/server/game_state_manager.cpp:78-83 | players at rest are still at rest after a tick exactly when no turn in force accelerates one of them |
| StaleTurns.StaleTurnMoves | src/server/game_state_manager.cpp:40-47 | a state in which a stale turn moves a player that would stay if the turn were zeroed |
| Server.StepInv | src/server/game_state_manager.cpp:13-102 | every step of either thread keeps all of this |
| Server.TurnFound | lib/emulator/helpers.cpp:53-58 | the first turn of player i is turn i |
| Managers.MessageManager.AddConnection | src/server/message_manager.cpp:12-16 | the new connection gets the next index |
| Managers.ObserversManager.SendMessageToConnections | src/server/observers_manager.cpp:8-17 | each listed connection gets the message once and no other gets anything |
| Managers.ObserversManager.SendToAllObservers | src/server/observers_manager.cpp:46-59 | every client and viewer gets the event exactly once |
| Managers.GameStateManager.AddTurn | src/server/game_state_manager.cpp:13-16 | stores the turn for its player and leaves every other entry, or throws and changes nothing |
| Managers.GameStateManager.AddPlayer | src/server/game_state_manager.cpp:18-38 | refuses at the limit without drawing and without any change; else appends a player at the first free position drawn, and its turn; or, with none of the positions free, goes on drawing with nothing changed |
| Managers.GameStateManager.FilterTurns | src/server/game_state_manager.cpp:40-47 | changes no turn |
| Managers.GameStateManager.GenerateCoin | src/server/game_state_manager.cpp:96-102 | appends one coin at the position drawn, of the configured radius and worth one, or none, by the draw |
| Managers.GameStateManager.SendStateBlock | src/server/game_state_manager.cpp:66-76 | the locked block that may add a coin and sends each observer the state once, in any state in which it is entered |
| Managers.GameStateManager.TickBlock | src/server/game_state_manager.cpp:78-83 | the locked block that filters nothing and emulates, in any state in which it is entered |
| Managers.GameStateManager.RunOnce | src/server/game_state_manager.cpp:64-84 | one pass of the main loop without interference between these blocks |
| ThreadPool.FifoExactlyOnce | lib/util/thread_pool.cpp:24-64 | in every interleaving tasks are taken first in first out, at most once, and each task taken is running on one worker or has run once, with or without an exception |
| ThreadPool.NoLostWakeup | lib/util/thread_pool.cpp:24-46 | whenever all workers wait and the pool is not quitting, the queue is no longer than the number of notifications on their way |
| ThreadPool.PoolDrains | lib/util/thread_pool.cpp:24-64 | in every interleaving, left to itself the pool stops after a bounded number of steps, and then every task pushed has run |
| ThreadPool.ShutdownCompletes | lib/util/thread_pool.cpp:66-77 | in every interleaving, once quitting every run without new tasks is bounded, spurious wakeups included, no task is taken any more, and when nothing can move all workers have left |
| ThreadPool.StuckMeansNoStep | lib/util/thread_pool.cpp:33-64 | being stuck is exactly having no step of its own |
| ThreadPool.StepInv | lib/util/thread_pool.cpp:24-77 | every step keeps order, accounting, wakeups and shutdown state |
| ThreadPool.ThreadPoolState.Push | lib/util/thread_pool.cpp:24-29 | the locked part of `Enqueue` is the push step |
| ThreadPool.ThreadPoolState.WorkerDequeue | lib/util/thread_pool.cpp:33-46 | one pass waits, leaves, or takes the front of the queue |
| ThreadPool.ThreadPoolState.NotifyAll | lib/util/thread_pool.cpp:72 | wakes every waiting worker |
| HttpReader.StateIsLongestMatch | src/web-ui-client/client_handler.cpp:66-100 | the state of the automaton is the longest beginning of CR LF CR LF that the input ends with |
| HttpReader.AcceptsOnceEnded | src/web-ui-client/client_handler.cpp:66-100 | the automaton accepts exactly when CR LF CR LF has occurred |
| HttpReader.ReadHttpRequest | src/web-ui-client/client_handler.cpp:102-128 | under any chunking the result is the shortest prefix of the stream that ends with CR LF CR LF, or an error if there is none |
| HttpReader.LoopFinds | src/web-ui-client/client_handler.cpp:102-128 | the two read loops find the shortest request of the whole stream, or nothing if there is none |
| HttpReader.ChunkingIsInvisible | src/web-ui-client/client_handler.cpp:102-128 | the read loops give the same result for any two chunkings of one stream |
| HttpRequest.CompleteIsEnd | src/web-ui-client/client_handler.cpp:102-128 | the reader stops exactly at a text that ends with its first empty line |
| HttpRequest.CompleteInLines | src/web-ui-client/http.cpp:55-102 | such texts are exactly those made of a first line, lines that are not empty, and an empty line |
| HttpRequest.LinesUnique | src/web-ui-client/http.cpp:73-100 | the division into lines is unique and found by the searches |
| HttpRequest.Parse | src/web-ui-client/http.cpp:55-102 | on what the reader returns every search succeeds, the loop ends, verb, URL and version are the words of the first line, and there is one header for each line, in order; there is no result exactly when the URL makes its parser throw |
| HttpRequest.DivisionUnique | src/web-ui-client/http.cpp:55-102 | a request has one division into first line and lines, so the result of parsing is determined |
| HttpRequest.FirstLineReadsBack | src/web-ui-client/http.cpp:62-70 | a first line is taken apart into what it was put together from exactly when verb and URL are words and the version has no white space |
| Urls.ReadsBackExactlyWhen | src/web-ui-client/http.cpp:8-45 | a URL is taken apart into the parts it was put together from exactly when: without a host, "://" occurs nowhere in it; with host and port, no non-empty query stands right behind the port; with a host alone, nothing stands behind it |
| Urls.HostRunsOn | src/web-ui-client/http.cpp:20-33 | what becomes of a host with a path and no port: it takes in as many characters of the path as the scheme and "://" have, and a colon among them starts the port or makes the parser throw |
| Urls.SomeUrls | src/web-ui-client/http.cpp:8-45 | an ordinary URL with its wrong host, and one that makes the parser throw |
| HttpRequest.SplitHeader | src/web-ui-client/http.cpp:79-97 | name before the first colon in lower case, value without blanks at its ends |
| HttpRequest.WholeLineIsNameExactlyWhen | src/web-ui-client/http.cpp:80-96 | a line is its own name, and trimmed its own value, exactly when it has no colon |
| HttpRequest.NoColon | src/web-ui-client/http.cpp:80-96 | such a line and what becomes of it |
| HttpRequest.HeaderReadsBack | src/web-ui-client/http.cpp:79-113 | a written header reads back as itself exactly when its name is in lower case without a colon and its value is trimmed |
| HttpRequest.LettersAndBlanks | src/web-ui-client/http.cpp:48-97 | which letters become small and what is trimmed, by character codes |
| HttpRequest.Serialize | src/web-ui-client/http.cpp:104-121 | the loop writes the header text and the body |
| HttpRequest.HeadersReadBack | src/web-ui-client/http.cpp:55-121 | the headers of a serialized response read back, with the computed length of the body last, and reading stops where the body begins |
| Strategy.GetBestMove | src/strategies/predictive_strategy.cpp:107-150 | finds the least meeting of player and coin by step, direction and coin, or none if there is none; no other result would be right |
| Strategy.GetTurn | src/strategies/predictive_strategy.cpp:249-272 | goes for its first coin unless it has none or another player gets to the same coin in less time; then it moves to the closest coin |
| ClosestCoin.FindClosestCoin | src/strategies/predictive_strategy.cpp:154-172 | finds the first of the coins at the least distance, or none if all are too far |
| ClosestCoin.Narrows | src/strategies/predictive_strategy.cpp:207-224 | no comparison of the ternary search cuts off the nearest point of the ray |
| ClosestCoin.Search | src/strategies/predictive_strategy.cpp:205-225 | the search ends with the nearest point of the ray within (2/3)^100 of it |
| ClosestCoin.SearchIsPrecise | src/strategies/predictive_strategy.cpp:193-225 | along the whole ray that is less than a ten millionth |
| ClosestCoin.NearestExists | src/strategies/predictive_strategy.cpp:193-203 | there is a nearest point |
| ClosestCoin.MoveToClosestCoin | src/strategies/predictive_strategy.cpp:154-247 | a fixed direction when no coin is near enough, else a unit vector from where the player will be to the point found, or a unit past it; not a number when the player stands on the coin |
| ClosestCoin.FallbackIsUnit | src/strategies/predictive_strategy.cpp:154-247 | the result is a number exactly unless the player stands on the closest coin, and then a unit vector |
| ClosestCoin.FallbackAtRest | src/strategies/predictive_strategy.cpp:154-247 | a player at rest not on the closest coin gets exactly the unit vector from it to the coin |
| ClosestCoin.PassingGoesOn | src/strategies/predictive_strategy.cpp:226-247 | a player that will be less than one, by more than the precision of the search, from some point of the ray is accelerated with a positive part towards the coin |
| ClosestCoin.FarTurnsBack | src/strategies/predictive_strategy.cpp:226-247 | a player that will be one or more from every point of the ray is accelerated straight towards a point of it that is nearest within that precision |
| Strategy.BeatenInSteps | src/strategies/predictive_strategy.cpp:263-270 | with time running forward, less time is fewer steps |

## Left out

- Comments attached to JSON values: the reader skips them as tokens, but does not collect them and the printers do not print them.
- Error positions and message texts of the JSON reader: an error is only its kind.
- `StyledStreamWriter`, YAML mode, `Path`, sparse arrays, `resize`, `removeMember`, and the switched-off internal containers of the JSON library.
- JSON conversions to Boolean, null, array and object, which never fail or have no accessor.
- Rounding of doubles, `sprintf` and `sscanf`: reals in the emulator, decimal literals in JSON; sixteen digits do not identify every double.
- JSON value references: no aliasing between nodes is modelled; a child is written back to its parent.
- ValueOrder.StrictTotalOrder: leaves out NaN and containers of 2^31 entries or more, whose size difference overflows an int.
- Memory: that a length below 2^31 can be allocated is assumed.
- Messages.ParseJsonMessage: an unparsable text is an absent message; what the caller does with it is in `Server`.
- Emulator.Emulate: over the reals; players larger than the field, which may come to stand at its very middle where the source divides by zero, and a negative speed limit are excluded, as the configuration check does.
- Emulator.GetAccelerations: needs a turn for every player, since the source dereferences the end of the list otherwise; `Server.EmulateNeverFails` shows that this holds.
- Players.DefaultPlayerGenerator.GetPlayer: the random draws are given positions; that a free position is drawn sooner or later is not claimed.
- Managers.GameStateManager.RunOnce: states the pass without interference; each locked block by itself is `SendStateBlock` or `TickBlock`, and interference is covered by the steps of `Server`.
- Server.BroadcastShape: access to the lists of observers is not synchronised in the source; here it is atomic.
- Lifetimes of the managers behind weak pointers, except that the observers manager may be gone when the game thread sends; the thread that receives bytes finds all of them alive.
- JsonNumber.AcceptedNumbers: for a number token of exactly 32 characters that goes to `decodeDouble` the source writes one byte past its buffer (contrib/jsoncpp/src/lib_json/json_reader.cpp:626-629), which is undefined; the model, and with it every result of the reader on all byte strings, reads such a token like any other.
- Sockets, epoll, partial writes, `AsyncWriter`, `EINTR`, and everything else that depends on system calls.
- Sleep times, random number generators, command-line options and console output.
- ThreadPool.ShutdownCompletes: that tasks return and that a wakeable thread is eventually scheduled is assumed; joining is not a step.
- Strategy.GetTurn: the simulated motion with its wall reflection and the fixed numbers of directions and steps are parameters.
- The other strategies, the Qt client, the web page and its JavaScript, and the build and release scripts.
