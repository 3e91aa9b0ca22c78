# cmall: verified models of its algorithms and protocols

cmall is a web shop server written in C++20. This project models the parts of it that compute or
coordinate something difficult, and proves what they promise for every input, run or interleaving.

| file | what it models |
|---|---|
| `Bits.dfy`, `ByteOps.dfy`, `ExpGolomb.dfy`, `BitStream.dfy` | the bit-level stream: partial-byte reads and writes in place, Exp-Golomb codes (clauses 9.1 and 9.1.1 of ITU-T H.264) |
| `UriChars.dfy`, `UriParser.dfy`, `UriRoundTrip.dfy`, `UriUserInfo.dfy`, `UriLanguage.dfy` | the thirteen-state URI scanner with its rewinds (section 3 of RFC 3986) |
| `PercentCodec.dfy` | encodeURI, decodeURI, encodeURIComponent, decodeURIComponent |
| `QueryString.dfy` | the query string iterator |
| `Utf8.dfy` | the table-driven UTF-8 automaton (section 4 of RFC 3629) |
| `ConnectRace.dfy`, `ConnectOutcomes.dfy` | connecting to many endpoints at once (compare section 5 of RFC 8305) |
| `MerchantApplications.dfy` | applying to become a merchant, with concurrent requests and administrators |
| `PaymentGate.dfy` | one payment script at a time per order |
| `TimedMap.dfy` | the expiring map |
| `OptionDocument.dfy`, `SelectionGrammar.dfy` | the option part of a goods description; the selection string of an order |
| `OrderCreation.dfy`, `OrderGoods.dfy`, `OrderOptions.dfy` | pricing and creating an order |
| `Slices.dfy`, `Permutations.dfy`, `Wrappers.dfy` | facts about sequences, the option type |

How it is modelled:

- Objects that change in place are classes (`BitStream`, `Uri`, `QsIterator`, `TimedMap`,
  `PaymentImpl`, `ConnectContext`, `MerchantDatabase`); loops are loops. Each method is tied to a
  function of the old state, and the lemmas are about those functions and about all runs of them.
- Machine integers are nonnegative numbers with explicit widths: shifts and masks drop what does not
  fit (`Bits.Shl`, `Bits.And`), so wrap-around and truncation are visible.
- A protocol is a list of atomic events applied to a state. An event that cannot happen in the state
  changes nothing, so every list of events is a run and the theorems hold for all lists.
- The connect condition, the network, the database's answers to loads, the goods repositories, the
  text-to-number conversion and the clock are parameters.
- Prices are exact real numbers. Loads and repositories may answer differently at each turn of the
  order loop.

Where the code differs from its comments, or from what one would expect, the code is followed:

- The comment on `ReadExponentialGolomb` speaks of restoring the cursor after a failed parse; the code
  does not, and the cursor stays past the leading zeros. The encoder's comment asks for as many zeros
  as v+1 has digits; the code writes one less, which is the H.264 code.
- Completing exactly once in the connect race needs a condition that accepts all endpoints or rejects
  all of them (`ConnectRace.ExactlyOnceIffUniform`).
- The payment guard erases its order even if the caller never got in (`PaymentGate.ExclusionExactly`).
- The seller of an order is recognised as unset by the number 0 (`OrderGoods.SingleMerchantExactly`).
- Option titles are looked up by their first entry, so with a title used twice the buyer's order matters (`OrderOptions.OrderIrrelevantExactly`).
- A query such as `a&b=1` makes a view of negative size (`QueryString.WalkExactly`).
- With user information the parser misreads a few authorities that it reads well without (`UriUserInfo.Misread`), and it takes the first part of the path of a `file:///` URL as its host (`UriLanguage.FileParsePrint`).
- `decodeURI(encodeURI(s))` differs from `s` where `s` has a `#` (`PercentCodec.WholeUriIdentity`).

`dafny verify dfyconfig.toml` checks the whole project.

## Model

| member | source | states |
|---|---|---|
| `BitStreams.BitStream.PeekBits` | cmall/include/utils/io.hpp:266-302 | At any alignment: succeeds exactly when at most 32 bits are asked for and that many remain, and gives the number the next bits spell, most significant first; nothing moves |
| `BitStreams.BitStream.ReadBits` | cmall/include/utils/io.hpp:258-261 | The same, and the cursor advances exactly when it succeeds |
| `BitStreams.BitStream.WriteBits` | cmall/include/utils/io.hpp:414-456 | For 1 to 64 bits with room, the low bits of the value stand at the cursor, every other bit of the buffer is as before and the cursor is past them; without room nothing changes |
| `BitStreams.ReadAfterWrite` | cmall/include/utils/io.hpp:258-302 | Reading back what was written gives the value modulo 2^n |
| `BitStreams.BitStream.ConsumeBits` | cmall/include/utils/io.hpp:370-379 | The cursor moves by exactly the given number of bits, or not at all if they do not remain |
| `BitStreams.BitStream.Seek` | cmall/include/utils/io.hpp:383-393 | Reaches exactly the positions inside the buffer and its end, and otherwise stays |
| `BitStreams.BitStream.CountBits` | cmall/include/utils/io.hpp:191-200 | The shifting loop finds the number of binary digits without leading zeros |
| `BitStreams.BitStream.WriteExponentialGolomb` | cmall/include/utils/io.hpp:460-473 | Succeeds exactly for values below 2^32-1 whose code fits, and then exactly the code of the value stands at the cursor; otherwise nothing changes |
| `BitStreams.BitStream.ReadExponentialGolomb` | cmall/include/utils/io.hpp:312-342 | Succeeds exactly when a code of at most 32 leading digits begins at the cursor, and ends after it; after a failure the cursor is past the leading zeros, as the saved offsets are never used |
| `BitStreams.BitStream.WriteSignedExponentialGolomb` | cmall/include/utils/io.hpp:478-494 | Writes the code of the mapped value; refuses exactly the smallest 32-bit integer and codes that do not fit |
| `BitStreams.BitStream.ReadSignedExponentialGolomb` | cmall/include/utils/io.hpp:347-359 | Reads the code and maps it back, always inside the 32-bit range |
| `BitStreams.BitStream.RoundTrip` | cmall/include/utils/io.hpp:509-545 | For every buffer, start and list of values: all are written exactly when none is 2^32-1 and the codes fit, reading from the same start gives the same list and the same final cursor, and only those bits of the buffer changed |
| `BitStreams.BitStream.SignedRoundTrip` | cmall/include/utils/io.hpp:347-359 | The same for every list of signed values without the smallest 32-bit integer |
| `ByteOps.LowestBitsDigits` | cmall/include/utils/io.hpp:151-154 | The mask keeps exactly the last digits of the byte |
| `ByteOps.HighestBitsDigits` | cmall/include/utils/io.hpp:158-163 | The mask and shift give exactly the number spelled by the first digits of the byte |
| `ByteOps.WritePartialByteDigits` | cmall/include/utils/io.hpp:174-188 | Exactly the digits at the offset are replaced by the first digits of the source byte |
| `ExpGolomb.CodeIsPaddedNumber` | cmall/include/utils/io.hpp:467-472 | Writing v+1 in twice its length less one digits is the same as writing the zeros and then v+1 |
| `ExpGolomb.CodeLength` | cmall/include/utils/io.hpp:472 | Codes of values below 2^32-1 have at most 63 digits, so the write fits in 64 bits |
| `ExpGolomb.DecodeExactly` | cmall/include/utils/io.hpp:304-342 | The decoder accepts exactly the codes of the values below 2^32-1 and gives their values, without underflow of the final decrement |
| `ExpGolomb.PrefixFree` | cmall/include/utils/io.hpp:304-310 | No code begins the code of another value |
| `ExpGolomb.DecodeAllOfCodes` | cmall/include/utils/io.hpp:312-342 | Any list of values is read back from its codes, whatever bits follow |
| `ExpGolomb.SignedBijection` | cmall/include/utils/io.hpp:344-359 | The mapping 0, 1, -1, 2, -2, ... is a bijection between the codable values and the 32-bit integers other than the smallest |
| `ExpGolomb.SignedOrder` | cmall/include/utils/io.hpp:344-358 | Positive values have odd indices and the others even ones, by magnitude: the codes of 0, 1 and -1 are 1, 010 and 011 |
| `UriParser.StepIsSound` | cmall/include/utils/url_parser.hpp:208-640 | Every turn of the scanner, rewinds included, keeps the components found so far in order and inside the text and decreases a lexicographic measure |
| `UriParser.Uri.Parse` | cmall/include/utils/url_parser.hpp:186-643 | For every text, on a new object or a used one: terminates, reads only inside the text, every component it sets is a slice of it in order, and the components it does not set keep what an earlier parse left |
| `UriParser.ComponentsAreOrderedSlices` | cmall/include/utils/url_parser.hpp:208-642 | For every text, accepted or not, the components set are in-bounds slices, pairwise disjoint, in the order scheme, username, password, host, port, path, query, fragment |
| `UriRoundTrip.ParsePrint` | cmall/include/utils/url_parser.hpp:186-643 | Every URL without user information built from the code's own character classes (named or bracketed IPv6 host, optional digit port, path, query, fragment) is accepted when printed and its components are found exactly |
| `UriUserInfo.ParsePrintExactly` | cmall/include/utils/url_parser.hpp:302-320 | For every URL with user information built from those classes the user name is what stands before the first : and the password what stands after it, up to the @; the URL is accepted with all its components found exactly if and only if it is not one of those this branch misreads: a one-character host or one-digit port at the end of the text, a host name before a single last character, a bracketed host before a last ? or # |
| `UriLanguage.AcceptedIsExplained` | cmall/include/utils/url_parser.hpp:208-642 | Whatever is accepted has a scheme, :// before an authority, @ after a login, : before password and port, / at the start of the path of an authority, ? before the query and # before the fragment, a host without a login is a nonempty IPv6 text between brackets or has no [, and path, query and fragment have only characters of their classes, the last character of the text aside |
| `UriLanguage.UrnParsePrint` | cmall/include/utils/url_parser.hpp:252-271 | A scheme, : and a text without ? that does not begin with / is accepted with that text as its path |
| `UriLanguage.UrnQueryParsePrint` | cmall/include/utils/url_parser.hpp:258-271 | With a ? that is not the last character the path ends there, and the query and the fragment are found exactly |
| `UriLanguage.FileParsePrint` | cmall/include/utils/url_parser.hpp:239-251 | Printed with file:/// a URL has the components it would have with file://, so the first part of the path is taken as the host |
| `UriLanguage.NameCharIs` | cmall/include/utils/url_parser.hpp:37-67 | The characters of user names and host names are all but "#&/:;<>?@[\]^ grave accent and braces and bar |
| `UriLanguage.PathCharIs` | cmall/include/utils/url_parser.hpp:608-610 | The characters of a path are all but "#;<>?@[\]^ grave accent and braces and bar |
| `UriLanguage.V6CharIs` | cmall/include/utils/url_parser.hpp:418-427 | Between brackets stand hexadecimal digits, : and . |
| `UriLanguage.QueryCharIs` | cmall/include/utils/url_parser.hpp:627-628 | The characters of a query or fragment are all but "#%<>[\]^ grave accent and braces and bar |
| `PercentCodec.Encode` | cmall/include/utils/url_parser.hpp:645-664 | The loop over the bytes gives the escaped text that the next three rows describe (both encodeURI and encodeURIComponent) |
| `PercentCodec.EncodedByByte` | cmall/include/utils/url_parser.hpp:652-660 | Each byte stands in the result by itself: letters, digits and marks, for whole URIs also the reserved characters, as they are; every other as % and its two lower-case hexadecimal digits |
| `PercentCodec.EncodedIsPlain` | cmall/include/utils/url_parser.hpp:719-738 | An encoded text has only such characters and % |
| `PercentCodec.UnchangedExactly` | cmall/include/utils/url_parser.hpp:645-738 | A text is its own encoding exactly when all its characters are such |
| `PercentCodec.Decode` | cmall/include/utils/url_parser.hpp:740-788 | The loop with its look-ahead gives the decoded text or the error (both decodeURI and decodeURIComponent) |
| `PercentCodec.EscapeByEscape` | cmall/include/utils/url_parser.hpp:677-711 | An escape in digits of either case stands for its byte; in a whole URI the escapes of the reserved characters and of # stay as they are |
| `PercentCodec.DecodeOfEncode` | cmall/include/utils/url_parser.hpp:645-788 | For every byte string decoding the encoded string never throws; decodeURIComponent gives the string back, decodeURI gives it with each # replaced by %23 |
| `PercentCodec.WholeUriIdentity` | cmall/include/utils/url_parser.hpp:645-717 | decodeURI undoes encodeURI exactly on the strings without # |
| `PercentCodec.MalformedExactly` | cmall/include/utils/url_parser.hpp:666-717 | Decoding throws exactly when some % is not followed by two hexadecimal digits, including after an escape that decodeURI keeps |
| `PercentCodec.HexIs` | cmall/include/utils/url_parser.hpp:687-694 | Hexadecimal digits are the decimal ones and a to f in either case |
| `PercentCodec.HexRoundTrip` | cmall/include/utils/url_parser.hpp:87-109 | The two digits of the table stand for the byte they were made from |
| `QueryString.QsIterator.MakeValue` | cmall/include/utils/url_parser.hpp:855-867 | The key view ends at the first =, the value view has the size computed from the first &, negative if that comes first; without = there is no pair |
| `QueryString.QsIterator.Increment` | cmall/include/utils/url_parser.hpp:869-881 | Moves past the end of the value view to what follows, always forward, or to the end |
| `QueryString.Collect` | cmall/include/utils/url_parser.hpp:888-896 | For every query the walk from qs_begin to qs_end terminates and hands out the views in order |
| `QueryString.WalkExactly` | cmall/include/utils/url_parser.hpp:855-881 | For every query: every view handed out lies inside the text if and only if at each pair met the = comes before the &, and then the views show exactly the pairs |
| `QueryString.EmptyPairEnds` | cmall/include/utils/url_parser.hpp:831-842 | A pair with nothing in it compares equal to the end and stops the walk |
| `QueryString.UncleanQuery` | cmall/include/utils/url_parser.hpp:857-866 | The query a&b=1 makes a value view of size -3 |
| `QueryString.WalkOfJoin` | cmall/include/utils/url_parser.hpp:790-896 | For every list of pairs with nonempty keys free of = and & and values free of &, the walk over the joined string stays inside it and shows exactly that list in order |
| `Utf8.TableClass` | cmall/include/utils/logging.hpp:240-249 | The first half of the table classifies all 256 bytes as the ranges of RFC 3629 need |
| `Utf8.TableNext` | cmall/include/utils/logging.hpp:250-255 | The second half of the table is the transition function on states and classes |
| `Utf8.AcceptedIffWellFormed` | cmall/include/utils/logging.hpp:238-265 | The automaton accepts a byte string if and only if it is a concatenation of characters of section 4 of RFC 3629 |
| `Utf8.Utf8CheckIsValid` | cmall/include/utils/logging.hpp:267-279 | Returns true exactly for those strings; stopping at the first rejection loses nothing |
| `Utf8.CharsEncodeScalars` | cmall/include/utils/logging.hpp:238-265 | Every well-formed character is the encoding of the Unicode scalar value in its payload |
| `Utf8.ScalarsEncodeToChars` | cmall/include/utils/logging.hpp:238-265 | Every Unicode scalar value is encoded by a well-formed character with that payload |
| `Utf8.DecodeLead` | cmall/include/utils/logging.hpp:259-261 | On a leading byte the codepoint starts with exactly the payload of that byte |
| `Utf8.DecodeTail` | cmall/include/utils/logging.hpp:259-261 | On a tail byte the codepoint gains exactly its six payload digits, without overflow |
| `Utf8.EncodedScalarsAreReadBack` | cmall/include/utils/logging.hpp:238-265 | Over every list of scalar values, the codepoints seen when the automaton is back in state 0 are exactly that list |
| `Utf8.ReadScalarsEncodeBack` | cmall/include/utils/logging.hpp:238-265 | For every valid string, encoding the codepoints seen in state 0 gives the string back |
| `ConnectRace.ConnectContext.DoAsyncConnect` | cmall/include/utils/async_connect.hpp:125-232 | The family detection and the launching loop leave the race exactly as launched: no_data, or each attempt delayed, connecting or rejected |
| `ConnectRace.ConnectContext.OnTimer` | cmall/include/utils/async_connect.hpp:219-226 | A delayed attempt does nothing when the race is won, else it starts |
| `ConnectRace.ConnectContext.OnConnect` | cmall/include/utils/async_connect.hpp:171-202 | The completion handler is the atomic step of the race: flag exchange, stream, countdown, handler call |
| `ConnectOutcomes.LaunchedExactly` | cmall/include/utils/async_connect.hpp:134-232 | After the launch an attempt is delayed exactly if it is to an IPv4 address and some address is not; otherwise it is connecting or rejected as the condition says |
| `ConnectOutcomes.RunIsSimple` | cmall/include/utils/async_connect.hpp:87-232 | In every run what can be seen from outside is exactly the run of a race without flag and counters: not_found at a rejection after which all attempts are lost, an error at a failure after which all have failed, the first success |
| `ConnectOutcomes.ErrorIsTheLast` | cmall/include/utils/async_connect.hpp:182-201 | A reported error is that of the last attempt to fail |
| `ConnectRace.LaunchKeepsInv` | cmall/include/utils/async_connect.hpp:150-232 | The launch leaves counters, flag and calls in agreement with the attempts |
| `ConnectRace.RunKeepsInv` | cmall/include/utils/async_connect.hpp:87-232 | In every run the flag, the countdown, the rejection count, the stream and the handler calls agree with what the attempts have done |
| `ConnectRace.HandlerCalledAtMostOnce` | cmall/include/utils/async_connect.hpp:125-232 | In every run the handler is called at most once, the stream assigned at most once, and a reported success is the first of all attempts to succeed |
| `ConnectRace.NoEndpoints` | cmall/include/utils/async_connect.hpp:125-132 | Without endpoints exactly one no_data, whatever follows |
| `ConnectRace.AcceptAllCompletesOnce` | cmall/include/utils/async_connect.hpp:157-203 | If the condition accepts every endpoint, a finished run called the handler exactly once, with an error if and only if all attempts failed |
| `ConnectRace.RejectAllCompletesOnce` | cmall/include/utils/async_connect.hpp:157-168 | If it rejects every endpoint, exactly one not_found |
| `ConnectRace.ExactlyOnceIffUniform` | cmall/include/utils/async_connect.hpp:84-232 | Every finished run calls the handler exactly once if and only if the condition treats all endpoints alike |
| `ConnectRace.SilentRun` | cmall/include/utils/async_connect.hpp:157-189 | With some endpoints rejected and some accepted, a finished run in which the handler is never called |
| `ConnectRace.QuiescentMeansFinished` | cmall/include/utils/async_connect.hpp:208-232 | Runs called finished are exactly those in which no timer or completion can change anything more |
| `ConnectRace.EffectiveEventsAreFew` | cmall/include/utils/async_connect.hpp:157-232 | In every run at most two events per endpoint change anything |
| `ConnectRace.RunsCanFinish` | cmall/include/utils/async_connect.hpp:157-232 | Every run can be continued to a finished one, whichever way each attempt ends |
| `MerchantApplications.MerchantDatabase.LoadNextSeq` | cmall/src/cmall_impl/handle_jsonrpc_user_api.cpp:198-211 | The number taken is the largest in use plus one, or 0 |
| `MerchantApplications.MerchantDatabase.LoadWaiting` | cmall/src/cmall_impl/handle_jsonrpc_user_api.cpp:213-218 | Finds a waiting application of the user exactly when there is one |
| `MerchantApplications.MerchantDatabase.AddApplication` | cmall/include/cmall/db.hpp:324-326 | Inserts a waiting row unless the unique (applicant, seq) index has the number, and then changes no row |
| `MerchantApplications.MerchantDatabase.ApproveMerchant` | cmall/src/cmall_impl/handle_jsonrpc_admin_api.cpp:91-114 | Succeeds exactly if the application is waiting and its applicant is no merchant; then that row alone becomes approved and the applicant a merchant, else nothing changes |
| `MerchantApplications.ApproveExactly` | cmall/src/cmall_impl/handle_jsonrpc_admin_api.cpp:95-113 | The same for the step of the protocol |
| `MerchantApplications.DenyExactly` | cmall/src/cmall_impl/handle_jsonrpc_admin_api.cpp:141-148 | Denying a waiting application makes that row alone denied; else nothing changes |
| `MerchantApplications.RequestsExactly` | cmall/src/cmall_impl/handle_jsonrpc_user_api.cpp:186-223 | A request is refused exactly when, at its looks at the database, the user is a merchant, has an application waiting, or has one of the number read; else its row is inserted and it is accepted |
| `MerchantApplications.ApprovalLasts` | cmall/src/cmall_impl/handle_jsonrpc_admin_api.cpp:91-114 | An approval of a waiting application of a user who is no merchant holds in every continuation of the run, with the user a merchant |
| `MerchantApplications.MerchantDatabase.DenyApplicant` | cmall/include/cmall/database.hpp:247-266 | Denies the application if it is waiting and touches no other row |
| `MerchantApplications.MaxSeqIsLast` | cmall/src/cmall_impl/handle_jsonrpc_user_api.cpp:198-211 | What is computed from max(seq) is the first number not in use |
| `MerchantApplications.NumbersAreGapless` | cmall/src/cmall_impl/handle_jsonrpc_user_api.cpp:196-223 | The numbers in use for a user are exactly those below the number of that user's applications |
| `MerchantApplications.StepKeepsInv` | cmall/src/cmall_impl/handle_jsonrpc_user_api.cpp:186-226 | Each database operation keeps the numbering, one waiting and one approved application per user, and the promise that a request whose number is still free has missed no insertion |
| `MerchantApplications.ApplicationsStayOrderly` | cmall/src/cmall_impl/handle_jsonrpc_user_api.cpp:196-223 | In every interleaving no user has two waiting applications, each user's numbers are exactly 0 to the maximum, increasing, and rows are as many as the requests told true |
| `MerchantApplications.StepIsLawful` | cmall/src/cmall_impl/handle_jsonrpc_admin_api.cpp:91-148 | One step only appends a waiting row or decides a waiting one, and creates a merchant exactly when it approves that user's application |
| `MerchantApplications.DecisionsAreFinal` | cmall/src/cmall_impl/handle_jsonrpc_admin_api.cpp:91-148 | Over any run an application leaves waiting at most once and rows are never lost |
| `MerchantApplications.MerchantsAreApproved` | cmall/src/cmall_impl/handle_jsonrpc_admin_api.cpp:91-114 | Over any run a user has at most one approved application, and the merchants are those from the start and the approved users |
| `MerchantApplications.UndisturbedRequestIsAccepted` | cmall/src/cmall_impl/handle_jsonrpc_user_api.cpp:186-226 | A request that runs alone, for a user who is no merchant and has none waiting, is accepted |
| `PaymentGate.PaymentImpl.Call` | cmall/src/services/payment_service.cpp:45-64 | Without a script it throws and touches nothing; else it runs its script or must wait, as the set of orders says |
| `PaymentGate.PaymentImpl.Retry` | cmall/src/services/payment_service.cpp:65-79 | After 50 ms the caller is let in exactly when its order has left the set |
| `PaymentGate.PaymentImpl.ScopedExit` | cmall/src/services/payment_service.cpp:50-54 | The guard erases the order, for a caller that ran and for one destroyed while waiting |
| `PaymentGate.ExclusionExactly` | cmall/src/services/payment_service.cpp:50-89 | In a run, the set is at every moment exactly the orders with a running script and no order has two, if and only if no caller is ever destroyed while waiting for an order being served |
| `PaymentGate.UndisturbedRunsAreExclusive` | cmall/src/services/payment_service.cpp:50-89 | With no caller destroyed while waiting, every run is exclusive |
| `PaymentGate.HarmLetsASecondScriptIn` | cmall/src/services/payment_service.cpp:50-54 | After such a destruction the next caller for the order is let in beside the running script |
| `PaymentGate.TwoScriptsForOneOrder` | cmall/src/services/payment_service.cpp:50-54 | A run with two scripts for one order |
| `PaymentGate.AdmittedExactlyWhenFree` | cmall/src/services/payment_service.cpp:59-84 | A new or waiting caller gets in exactly when no script for its order is running |
| `PaymentGate.FinishLetsTheNextIn` | cmall/src/services/payment_service.cpp:50-79 | When a script ends its call is over, and the next caller for the order that wakes is let in |
| `PaymentGate.NoScriptNoChange` | cmall/src/services/payment_service.cpp:45-48 | A call without a script takes no place and frees none |
| `PaymentGate.PhasesOnlyAdvance` | cmall/src/services/payment_service.cpp:41-90 | In every run a call that is over stays over, and a running one runs on or is over |
| `PaymentGate.OrdersDoNotInterfere` | cmall/src/services/payment_service.cpp:56-84 | In every run each order is served exactly as if its own callers were the only ones |
| `TimedMaps.TimedMap.Get` | cmall/include/utils/timedmap.hpp:83-92 | Finds a value exactly when an item has the key, and it is the value of every such item |
| `TimedMaps.TimedMap.Put` | cmall/include/utils/timedmap.hpp:94-106 | A new key is stored at its place in the time order; a key present keeps its value and time |
| `TimedMaps.TimedMap.Purge` | cmall/include/utils/timedmap.hpp:116-131 | Removes the entries up to the cut-off time and sleeps as the last one removed says, else 30 s |
| `TimedMaps.InsertedKeepsOrder` | cmall/include/utils/timedmap.hpp:83-106 | Insertion keeps time order and unique keys and adds the item exactly when its key was absent |
| `TimedMaps.GetIsFirstPut` | cmall/include/utils/timedmap.hpp:83-106 | In every run a key is present exactly when a put of it still stands, and get gives the value of the first put since the key was last purged |
| `TimedMaps.PassRemovesByAge` | cmall/include/utils/timedmap.hpp:119-131 | A pass removes exactly the entries of at least the lifetime in age |
| `TimedMaps.DelayExactly` | cmall/include/utils/timedmap.hpp:119-131 | After a pass that removed something the sleep is the due time of the last item removed less now, which is not positive; otherwise it is 30 s |
| `TimedMaps.NextPassAtOnce` | cmall/include/utils/timedmap.hpp:127-140 | So after a pass that removed something the next is due at once, else 30 s later |
| `TimedMaps.NeverStaleExactly` | cmall/include/utils/timedmap.hpp:115-141 | If each pass starts when its timer fires, no entry is seen at an age of lifetime + 30 s or more, exactly for lifetimes of at least a millisecond |
| `OptionDocument.ParseLines` | cmall/src/services/goods_option_grammer.hpp:29-75 | The loop over the lines gives the options read, or nothing if no title was met |
| `OptionDocument.ParseGoodsOption` | cmall/src/services/goods_option_grammer.hpp:78-84 | The document is cut at each CR or LF and its lines read by the loop |
| `OptionDocument.SplitAtFirst` | cmall/src/services/goods_option_grammer.hpp:78-84 | A separator ends a piece, and neighbouring separators are not merged |
| `OptionDocument.ParsedIsWellFormed` | cmall/src/services/goods_option_grammer.hpp:29-75 | Every result is nonempty; titles are trimmed, names and prices free of blanks and line ends |
| `OptionDocument.RoundTripExactly` | cmall/src/services/goods_option_grammer.hpp:29-84 | An option list printed with any line ends (LF, CRLF) is read back if and only if it is nonempty and well formed |
| `OptionDocument.LineInDocument` | cmall/src/services/goods_option_grammer.hpp:37-66 | A line that is no title, anywhere after the first title, adds exactly this to the option above it: nothing if it has fewer than two characters, its name at price 0 if it has no blank, name and price at its one blank, nothing if it has more |
| `OptionDocument.LinesBeforeTheFirstTitle` | cmall/src/services/goods_option_grammer.hpp:39-47 | Lines before the first title add nothing |
| `OptionDocument.TitleInLine` | cmall/src/services/goods_option_grammer.hpp:40-46 | A title is what follows the # without the white space around it |
| `OptionDocument.WellFormedIs` | cmall/src/services/goods_option_grammer.hpp:29-84 | Well-formedness in letters: trimmed titles without line ends; names and prices without blanks and line ends, not both empty, the name not beginning with # |
| `OptionDocument.ReadingIsStable` | cmall/src/services/goods_option_grammer.hpp:29-84 | Printing what was read and reading it again changes nothing |
| `SelectionGrammar.ParseExactly` | cmall/src/selection_parser.hpp:47-80 | A string parses to a list exactly when the list is nonempty and well formed, the string begins with its printed form and no further item follows |
| `SelectionGrammar.RoundTripExactly` | cmall/src/selection_parser.hpp:47-80 | A printed list of pairs is read back if and only if it is nonempty, titles are nonempty without : ; or line breaks and names nonempty without ; or newline |
| `SelectionGrammar.ReadingIsStable` | cmall/src/selection_parser.hpp:62-80 | Printing what was read and reading it again changes nothing |
| `OrderCreation.PickOptions` | cmall/src/cmall_impl/handle_jsonrpc_order_api.cpp:106-132 | The option loop fails as the first failing option does, else the price is the base plus the chosen prices and the selection string is the printed choices |
| `OrderCreation.CreateOrder` | cmall/src/cmall_impl/handle_jsonrpc_order_api.cpp:32-149 | Fails with recipient_id_out_of_range, or as the first failing good does; else the stored order has the goods bought, their total price, their total shipping fee, the seller and the last version |
| `OrderGoods.OrderIsWhatWasAsked` | cmall/src/cmall_impl/handle_jsonrpc_order_api.cpp:60-139 | Every order lists, in the order asked, exactly the goods on offer (their merchant is normal by the first load that found it), each with the product, price, fee and choices of its turn |
| `OrderGoods.CacheIsKnown` | cmall/src/cmall_impl/handle_jsonrpc_order_api.cpp:71-79 | The cache holds exactly what the first successful load of each merchant asked for gave |
| `OrderGoods.OrderCostsWhatItsGoodsCost` | cmall/src/cmall_impl/handle_jsonrpc_order_api.cpp:104-141 | The price of an order is the sum of its goods' prices, each its base price plus the chosen selection prices |
| `OrderGoods.OrderShipsForItsGoodsFees` | cmall/src/cmall_impl/handle_jsonrpc_order_api.cpp:137-142 | The shipping fee of an order is the sum of the numbers in its goods' descriptions, nothing for those without |
| `OrderGoods.OrderIsCreatedExactly` | cmall/src/cmall_impl/handle_jsonrpc_order_api.cpp:60-139 | An order is created if and only if every entry has the expected fields, every good on offer has a product, numbers for price and fee, and options that can be picked as asked, and no good on offer comes after one of another merchant, merchants numbered 0 aside |
| `OrderGoods.OtherMerchantIsRefused` | cmall/src/cmall_impl/handle_jsonrpc_order_api.cpp:87-93 | The first good on offer of another merchant stops the order with should_be_same_merchant, if its product can be had |
| `OrderGoods.EveryOrderHasOneMerchant` | cmall/src/cmall_impl/handle_jsonrpc_order_api.cpp:14-20 | With no merchant numbered 0 every good is the seller's and every order with goods passes is_sigle_merchant_order |
| `OrderGoods.SingleMerchantExactly` | cmall/src/cmall_impl/handle_jsonrpc_order_api.cpp:87-93 | An order has goods exactly when the request asks for some on offer, and then has one merchant exactly when the request does not ask both for goods on offer of a merchant numbered 0 and of another |
| `OrderGoods.MerchantZeroMixes` | cmall/src/cmall_impl/handle_jsonrpc_order_api.cpp:87-93 | With a merchant numbered 0 two merchants' goods do get into one order |
| `OrderOptions.AcceptedListsTheTitles` | cmall/src/cmall_impl/handle_jsonrpc_order_api.cpp:106-118 | With distinct product titles, an accepted buyer's titles are a permutation of them |
| `OrderOptions.AcceptedExactly` | cmall/src/cmall_impl/handle_jsonrpc_order_api.cpp:106-131 | An item with distinct option titles is accepted if and only if the buyer's titles are a permutation of them and each entry names a selection of its option |
| `OrderOptions.PickedAsAsked` | cmall/src/cmall_impl/handle_jsonrpc_order_api.cpp:114-127 | For each option what is picked is the first selection of the name in the first entry with its title |
| `OrderOptions.FindsTheFirst` | cmall/src/cmall_impl/handle_jsonrpc_order_api.cpp:114-118 | An option is looked up in the first entry with its title, and only if no broken entry comes before it |
| `OrderOptions.RefusalsExactly` | cmall/src/cmall_impl/handle_jsonrpc_order_api.cpp:106-127 | good_option_needed exactly when a product with options gets another number of entries; with well-typed entries every other refusal is good_option_invalid; a product without options is never refused |
| `OrderOptions.ListingOrderDoesNotMatter` | cmall/src/cmall_impl/handle_jsonrpc_order_api.cpp:111-131 | Listing the same entries in another order is accepted alike and picks the same, so price and selection string are the same |
| `OrderOptions.RefusalsDoNotDependOnOrder` | cmall/src/cmall_impl/handle_jsonrpc_order_api.cpp:108-127 | If the entries have the right JSON types, refusals are the same too |
| `OrderOptions.OrderIrrelevantExactly` | cmall/src/cmall_impl/handle_jsonrpc_order_api.cpp:106-131 | For every product the order in which a buyer lists options does not matter if and only if no title is used twice or some options sharing a title have no selection name in common; the same for lists of the right JSON types and with refusals compared too |
| `OrderOptions.ServableExactly` | cmall/src/cmall_impl/handle_jsonrpc_order_api.cpp:111-127 | Some option list is accepted if and only if the options that share a title have a selection name in common |
| `OrderOptions.RearrangedIsRefused` | cmall/src/cmall_impl/handle_jsonrpc_order_api.cpp:114-127 | With a title used twice and a product that can be bought, an accepted list and a rearrangement of it that is refused |
| `OrderOptions.OrdersDoNotDependOnListing` | cmall/src/cmall_impl/handle_jsonrpc_order_api.cpp:60-139 | If that holds of every product, a whole order comes out the same however the options of each of its goods are listed |
| `OrderOptions.SelectionReadsBackExactly` | cmall/src/cmall_impl/handle_jsonrpc_order_api.cpp:130 | The stored selection string reads back as the pairs chosen if and only if there are options and their titles and names fit the grammar |
| `OrderOptions.StoredGoods` | cmall/src/cmall_impl/handle_jsonrpc_order_api.cpp:99-134 | Every good of every order is stored with the product's id, title, description and version, and with a selection string that is empty for a product without options and reads back as the options' titles with the names picked exactly when there are options and these fit the grammar |
| `OrderOptions.DescribedSelectionsReadBack` | cmall/src/services/merchant_git_repo.cpp:114-138 | From the goods description to the order and back: with nonempty titles free of : and ; and nonempty names free of ; whatever is picked reads back as picked |

## Left out

Of the modelled components:

- BitStreams.BitStream.PeekBits: 0 bits may not be asked for at the end of the buffer, because the source then reads a byte that is not there; the same goes for `ReadBits`.
- BitStreams.BitStream.WriteBits: 1 to 64 bits, because for others the source shifts a 64-bit value by its width or more.
- The fixed-width reads and writes and `ConsumeBytes`, which only call `ReadBits`, `WriteBits` and `ConsumeBits`; null output pointers; streams over read-only buffers; offsets near the end of `size_t`.
- UriRoundTrip.ParsePrint: covers URLs without user information; those with it are in `UriUserInfo`.
- The default port of a scheme.
- QueryString.QsIterator.Increment: not from the end position, where the source adds to a null pointer. A negative view size is kept as a negative number; in the source it becomes a very large `size_t`.
- Logging other than the UTF-8 check.
- Cancellation slots, the actual 200 ms, socket cancellation and object lifetimes in the connect race; the condition is asked once per endpoint and its answer is fixed before the race.
- Legacy application rows with a null sequence number, retries and connection pools of the database, notifications and repository set-up after an approval.
- MerchantApplications.MerchantDatabase.ApproveMerchant: the clean-up fields of the row (deletion time, remarks) are not modelled.
- The script runner, its arguments and its output in the payment service; the 50 ms period.
- The mutexes of the map and of the payment service: each locked section is one step. A timed map's stop flag.
- In a request to create an order, a text that is not JSON of the expected type is one error; the uuid, stage and snapshot time of the order, and the failure of the final insertion, are not modelled. `json_as_string` is taken to give its default for a value that is no string.
- Rounding of `cpp_dec_float`; locales in which other characters than those of the C locale are white space when a title is trimmed.

Of the rest of the repository:

- HTTP and websocket serving, TLS, sessions, carts, favourites, search, the git repositories and the metadata grammar of goods, payment and shipping clients, the script sandbox, templates and the command line.
