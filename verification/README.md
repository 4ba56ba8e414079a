# tim2tox FFI layer: verification model

This project models the stateful and textual cores of the tim2tox FFI layer in Dafny and
proves what they promise, for every input and every run.

* **Durable callbacks** (`DurableSpec`, `DurableProofs`, `DurableTheorems`, `BridgeHistory`,
  `CallbackBridge`). Notifications that cannot be posted to Dart are held in a bounded
  keyed map and replayed. `CallbackBridge.Bridge` is the map with sequence numbers, updated
  in place; `DurableSpec` is the same thing as an ordered list, with runs over all calls.
  The answers of the Dart VM are an arbitrary function of the number of the post, and the
  texts it has accepted are part of the state.
* **JSON text** (`JsonText`, `KeySearch`, `BraceScan`, `ElementExtraction`, `ListReader`,
  `StringListScan`, `ConversationListScan`, `InviteeScan`, `GroupInviteScan`). The escape
  table, the printers, and the six hand-written scanners that read such text back, each as
  its own loop and each with the exact condition under which it inverts the printer.
* **Listener registry** (`ListenerSpec`, `ListenerProofs`, `ListenerTheorems`,
  `GroupListeners`, `ListenerHistory`, `InstanceHistory`, `CallbackData`,
  `RegistrationHistory`, `ListenerRegistry`). Per-instance listener objects, callback user
  data, the managers' listener lists, and the replay for new instances; `ListenerHistory`
  tells from the calls alone what the registry holds after them.
* **Terminal callbacks** (`TerminalContract`, `InviteInterleaving`, `SignalingInvite`). The
  32-bit counter that arbitrates between success, error and a missing callback; `DartInvite`
  as all interleavings of two threads, and with the repository's own signaling manager.
* **File names and event lines** (`Utf8Filename`, `ReceiveMarker`, `EventLine`).
* `Text` has decimal numbers and searching.

## What the proofs brought to light

* A held message over 1 MiB at the head of the buffer blocks every replay behind it
  (`OversizedHeadBlocks`, `OversizedHeadReached`); without such messages and with a VM that
  accepts, an open bridge holds nothing (`ReliableRunsDrain`).
* `DartInvite` answers every invitation (`EveryInvitationIsAnswered`) because of what
  `V2TIMSignalingManagerImpl::Invite` does: it calls back before it returns, and succeeds
  only with an id. Its own arbitration is not enough: with a manager that called back later,
  or succeeded without an id, a success could go unreported (`OneResultIff`,
  `LateSuccessIsLost`, `SuccessWithoutIdIsLost`).
* Conversation managers hold the Dart listener once per registered callback, because their
  list is appended to without a check; all other managers hold it once
  (`AtMostOneListenerIff`).
* Events of the default instance's listeners are attributed to whichever instance is
  current, except those of its group listener, which carries its instance
  (`AttributionIff`, `DefaultMisattributed`). The receiver set for a message does not help
  the default instance (`OwnReceiverChangesNothing`).
* A headless instance has no group listener unless a group callback is registered after it
  was created, although group tips user data is stored (`HeadlessMissesGroup`,
  `LiveInstanceIff`).
* User data outlives its instance: a destroyed instance's data is still given to later ones
  (`DestroyedDataIsCopied`).
* The search for a quoted name also stops in an earlier string value that is the name or
  ends in a quotation mark and the name (`KeySearchIff`). That is harmless exactly as long as
  no brace follows the next bracket before the array's own first object (`ElementIff`,
  `EarlierStringHarmless`); an object in an array in between is taken for the message's
  element (`EarlierStringMisleads`, `ElementLost`).
* A blank between the closing quotation mark of an invitee and the comma leaves the quotation
  marks in the id (`ItemIsRead`).
* With unmatched brackets in invitee ids some ids are lost, unless brackets later in the
  parameter happen to close the count (`FieldIdsIff`, `ClosingBracketLosesIds`).
* Truncating a file name in two steps can differ from truncating it once: the first step may
  keep an extension that the second drops, or leave an earlier dot, or part of the
  extension, to be taken for the extension (`TruncateComposesIff`,
  `TruncateDoesNotAlwaysCompose`).
* The comment on the user data search (ffi/dart_compat_listeners.cpp:3013-3015) speaks of
  the most recently registered data; the code takes the lowest-numbered instance's, and so
  does the model. Comments that the signaling and community managers do not exist are out
  of date: both are always created, and the model follows the code.

## Model

| member | source | states |
|---|---|---|
| CallbackBridge.Bridge.PostJsonToDartLocked | ffi/callback_bridge.cpp:164-191 | A post goes through exactly when the text is within 1 MiB and the Dart VM accepts it; then that text, and otherwise nothing, is added to what the VM has accepted; oversized text never reaches the VM |
| CallbackBridge.Bridge.DartInitDartApiDL | ffi/callback_bridge.cpp:97-116 | A failed initialisation changes nothing; a successful one opens the bridge and replays; the whole new state, the texts the VM has accepted included, is one step of the ordered-list model |
| CallbackBridge.Bridge.DartRegisterSendPort | ffi/callback_bridge.cpp:122-126 | Registering sets the port and replays what is held; the texts the VM has accepted are those of the step |
| CallbackBridge.Bridge.DartUnregisterSendPort | ffi/callback_bridge.cpp:132-137 | Only the registered port can be unregistered |
| CallbackBridge.Bridge.SendCallbackToDart | ffi/callback_bridge.cpp:151-161 | A plain message is posted with its own text or dropped, and never touches the held messages |
| CallbackBridge.Bridge.SendDurableCallbackToDart | ffi/callback_bridge.cpp:204-232 | The map, the sequence numbers, the eviction loop and the post together do one step of the list: deliver this text and drop the key, or remove the key, append, and drop the head over 4096 |
| CallbackBridge.Bridge.HoldLocked | ffi/callback_bridge.cpp:213-231 | Overwriting an entry or evicting the oldest and inserting keeps the map equal to the ordered list |
| CallbackBridge.OldestKey | ffi/callback_bridge.cpp:218-222 | Whatever order the unordered map is visited in, the entry found has the least sequence number |
| CallbackBridge.Bridge.DiscardDurableCallbacksForInstance | ffi/callback_bridge.cpp:234-250 | Exactly the owner's messages leave the list, in place, and are recorded as ended |
| CallbackBridge.Bridge.EraseOwnerLocked | ffi/callback_bridge.cpp:237-244 | Erasing while iterating visits every entry once: the rest of the map is unchanged |
| CallbackBridge.SortedEntries | ffi/callback_bridge.cpp:257-262 | The collected pairs are exactly those of the map, in ascending sequence order |
| CallbackBridge.SortedIsHeldOrder | ffi/callback_bridge.cpp:257-270 | Sorting the map's pairs lists the keys of the held messages in send order |
| CallbackBridge.Bridge.PostInOrderLocked | ffi/callback_bridge.cpp:263-270 | When r held messages go through and the next one does not, the VM accepts exactly the texts of those r, in send order, and exactly their entries are erased |
| CallbackBridge.Bridge.ReplayPendingDurableLocked | ffi/callback_bridge.cpp:253-273 | Replay is the list step: a prefix moves from held to delivered, and its texts are what the VM accepts |
| CallbackBridge.FilterRepresents | ffi/callback_bridge.cpp:48-49 | Removing keys from the map and filtering the ordered list keep representing each other |
| CallbackBridge.EntryReplaced | ffi/callback_bridge.cpp:213-217 | Overwriting a key with a new sequence number moves its message to the end of the order |
| CallbackBridge.RunBridge | ffi/callback_bridge.cpp:97-273 | Any sequence of calls on a new bridge ends in the state of the run, with the texts the VM has accepted, so the run theorems hold of the map and the posts of the code |
| BridgeHistory.OpenIff | ffi/callback_bridge.cpp:97-137 | In every run the bridge is open exactly when the API has been initialised successfully and the last port calls left a port |
| BridgeHistory.RunPlain | ffi/callback_bridge.cpp:151-161 | In every run the plain texts the VM has accepted are, in order, exactly those sent with a type while the bridge was open, within 1 MiB, and accepted when the VM was asked |
| BridgeHistory.SendDeliveredIff | ffi/callback_bridge.cpp:204-232 | A durable send is delivered at once exactly when the bridge is open, the text within 1 MiB and the VM accepts it; otherwise it is the newest message held |
| BridgeHistory.PortCallReplays | ffi/callback_bridge.cpp:97-126 | A registration or initialisation that leaves the bridge open delivers, in order, the held messages up to the first that does not go through |
| BridgeHistory.QuietCalls | ffi/callback_bridge.cpp:97-161 | Failed initialisations, removals of a port, sends without a type, and port calls that leave the bridge closed post, deliver, hold and lose nothing |
| DurableSpec.ReplayCount | ffi/callback_bridge.cpp:264-268 | The number replayed is maximal: everything before it can be posted, the next one cannot |
| DurableProofs.RunHeldInv | ffi/callback_bridge.cpp:204-273 | In every run the held messages are in send order, one per key, at most 4096, and none has been overtaken by a later send of its key |
| DurableProofs.RunWire | ffi/callback_bridge.cpp:151-273 | In every run the durable messages among the posts the VM has accepted are exactly the delivered ones, in the order of delivery |
| DurableProofs.RunDeliveredInv | ffi/callback_bridge.cpp:204-217 | In every run, deliveries under one key happen in strictly increasing send order and what is held is newer, even when posts fail and sends overtake |
| DurableProofs.Conservation | ffi/callback_bridge.cpp:164-250 | In every run and for every pattern of failing posts each durable send is in exactly one of delivered, held, superseded, evicted, ended with its session |
| DurableProofs.RunLossesExplained | ffi/callback_bridge.cpp:193-250 | Every loss has its cause in the history: a later send of the key, 4096 other keys sent after it, or the end of its own session |
| DurableProofs.EvictionIsFlooded | ffi/callback_bridge.cpp:218-228 | A message dropped at the cap is followed by 4096 sends of pairwise different other keys |
| DurableProofs.HistoryHasNoRepeats | ffi/callback_bridge.cpp:204-206 | The history lists each durable send once, in order |
| DurableTheorems.DurableKeyInjective | ffi/dart_compat_group.cpp:731-761 | kind, instance and group can be read back from the dedupe key, whatever the group id contains |
| DurableTheorems.SupersededWithinInstance | ffi/dart_compat_group.cpp:726-761 | With those keys a message is only superseded by a later send of its own instance |
| DurableTheorems.EndedSessionIsGone | ffi/callback_bridge.cpp:234-250 | After a discard nothing its instance sent before is delivered or held in any continuation, and deliveries are never retracted |
| DurableTheorems.EndedSessionSparesOthers | ffi/callback_bridge.cpp:236-244 | A discard keeps every held message of the other instances, in order |
| DurableTheorems.ReplayDrainsIff | ffi/callback_bridge.cpp:253-270 | Replay empties the buffer exactly when every held message can be posted in turn |
| DurableTheorems.ReliableRunsDrain | ffi/callback_bridge.cpp:97-126 | If no post fails and no message is oversized, an open bridge never holds anything |
| DurableTheorems.OversizedHeadBlocks | ffi/callback_bridge.cpp:170-173 | A held message over 1 MiB at the head blocks the replay: no number of registrations or initialisations delivers what is behind it |
| DurableTheorems.OversizedHeadReached | ffi/callback_bridge.cpp:204-232 | Two sends on a new bridge lead there: the small second message is never delivered by port calls, for any answers of the VM |
| DurableTheorems.OfflineBuffer | ffi/callback_bridge.cpp:193-203 | As long as no durable message has been delivered, for whatever reason, the buffer is exactly the last 4096 distinct keys by last send, each with its latest value |
| DurableTheorems.NothingDelivered | ffi/callback_bridge.cpp:193-203 | That is so while the API or the port is missing, or when the VM refuses every post |
| DurableTheorems.LatestMeaning | ffi/callback_bridge.cpp:40-42 | "Latest per key" means: sent, and not followed by a send of the same key |
| JsonText.EscapeJsonString | ffi/json_parser.cpp:26-47 | The appending loop computes the escape table's text |
| JsonText.EscapeRoundTrip | ffi/json_parser.cpp:30-44 | An independent reader of JSON string bodies (RFC 8259, section 7) recovers every string from its escaped form |
| JsonText.EscapeGrows | ffi/json_parser.cpp:30-44 | Escaping leaves a text alone exactly when it has no quote, backslash or control character |
| JsonText.EscapeTable | ffi/json_parser.cpp:30-44 | Seven characters have a two-character escape, the other control characters a six-character one, and the rest are written as they are |
| JsonText.StringVectorToJsonArray | ffi/dart_compat_listeners.cpp:2361-2370 | The loop prints the quoted, comma-separated list |
| BraceScan.FindObjectEnd | ffi/dart_compat_message.cpp:55-83 | The loop finds the brace at which the string-aware depth returns to zero, or the start when there is none |
| BraceScan.AfterValue | ffi/dart_compat_message.cpp:59-83 | Inside an object every printed value, of any nesting and with any strings, is passed over at the same depth |
| BraceScan.BraceScanFindsObject | ffi/dart_compat_message.cpp:51-83 | For every object tree followed by any text the scan stops exactly on the object's own closing brace |
| BraceScan.BraceEndIff | ffi/dart_compat_message.cpp:59-83 | For any text the scan finds nothing exactly when it passes the whole text, and what it finds is a brace outside strings that closes depth one |
| BraceScan.CutShortHasNoEnd | ffi/dart_compat_message.cpp:51-85 | An object that is cut short has no end |
| ElementExtraction.ExtractFirstElement | ffi/dart_compat_message.cpp:43-88 | Search for the key, bracket and brace, then cut out the object |
| ElementExtraction.ElementIff | ffi/dart_compat_message.cpp:43-88 | For every message tree and whatever follows it: the object cut out starts at the array's own first object if and only if no brace lies between the first bracket behind the first occurrence of the quoted name and that object; then that object is what is cut out |
| ElementExtraction.MessageElementIff | ffi/dart_compat_message.cpp:43-88 | The same for the name in use; when nothing before the member imitates its name, no brace is in the way |
| ElementExtraction.FirstElementOfTree | ffi/dart_compat_message.cpp:43-88 | When no name or string before the member imitates its name, the text cut out is the array's first object, whatever the rest contains |
| ElementExtraction.EarlierStringHarmless | ffi/dart_compat_message.cpp:46-53 | An earlier string equal to the name does no harm when the name's own member comes next |
| ElementExtraction.EarlierStringMisleads | ffi/dart_compat_message.cpp:46-53 | With another array in between, that array's first object is cut out instead of the one of the array that has the name |
| ElementExtraction.ElementLost | ffi/dart_compat_message.cpp:46-53 | A message for which this happens |
| ElementExtraction.NoNameNoElement | ffi/dart_compat_message.cpp:46-47 | Without the name, or a string that imitates it, nothing is cut out |
| ElementExtraction.CutShortIsNotTaken | ffi/dart_compat_message.cpp:85 | An object that is cut short is not taken |
| KeySearch.KeySearchIff | ffi/dart_compat_message.cpp:46-47 | In a printed object the search for a member's quoted name stops on that member if and only if no earlier name or string is the name or ends in a quotation mark and the name |
| StringListScan.ParseGroupStringArray | ffi/dart_compat_group.cpp:1230-1293 | The loop computes the escape-keeping reading, from the text's first bracket or from the looked-up field |
| StringListScan.ParseMessageStringArray | ffi/dart_compat_message.cpp:407-501 | The variant with an iteration cap computes the same list: the cap never ends the loop |
| StringListScan.RawListOfPrinted | ffi/dart_compat_group.cpp:1248-1291 | Reading a printed list with any text after it gives exactly the escaped forms of the non-empty strings, in order |
| StringListScan.RawListOfField | ffi/dart_compat_group.cpp:1230-1250 | A text without a bracket is read through the looked-up field, and gives nothing without one |
| StringListScan.RawListOfSpaced | ffi/dart_compat_group.cpp:1248-1291 | White space, or any text without quotes, backslashes and closing brackets, around the strings changes nothing |
| StringListScan.RawRoundTripIff | ffi/dart_compat_group.cpp:1253-1272 | It gives the strings themselves if and only if none of them needs an escape |
| ConversationListScan.ParseConversationStringArray | ffi/dart_compat_conversation.cpp:19-60 | The loop computes the backslash-dropping reading |
| ConversationListScan.ListOfPrinted | ffi/dart_compat_conversation.cpp:19-60 | Reading a printed list gives the non-empty strings with each escape reduced to what follows its backslash |
| ConversationListScan.ListOfSpaced | ffi/dart_compat_conversation.cpp:19-60 | White space around the strings changes nothing, and a text without a bracket gives nothing |
| ConversationListScan.ConversationRoundTripIff | ffi/dart_compat_conversation.cpp:37-55 | It gives the non-empty strings themselves if and only if no string has a control character |
| InviteeScan.ParseInvitees | ffi/dart_compat_signaling.cpp:155-198 | The splitting loop reads, between the first and last bracket, the pieces between commas, unquoted and trimmed |
| InviteeScan.ReadInvitee | ffi/dart_compat_signaling.cpp:168-196 | One round yields the next piece and resumes right after its comma |
| InviteeScan.SplitHasNoCommas | ffi/dart_compat_signaling.cpp:174-196 | No id read ever contains a comma |
| InviteeScan.InviteesOfSpaced | ffi/dart_compat_signaling.cpp:168-196 | Items behind any blanks are read in order, each without its quotes and without blanks at its ends, and empty ones are dropped |
| InviteeScan.ItemIsRead | ffi/dart_compat_signaling.cpp:180-192 | An id is read as it is with or without quotes; a blank behind the closing quotation mark leaves both marks in the id |
| InviteeScan.InviteesRoundTripIff | ffi/dart_compat_signaling.cpp:155-198 | The printed ids are read back if and only if no id has a comma, a character that is escaped, or a blank at an end |
| GroupInviteScan.FindBracketEnd | ffi/dart_compat_group.cpp:1520-1527 | The loop finds the position where the bracket count returns to zero |
| GroupInviteScan.ExtractInviteIds | ffi/dart_compat_group.cpp:1506-1566 | Field lookup, fallback names in order, and the whole-text case |
| GroupInviteScan.BracketEndIff | ffi/dart_compat_group.cpp:1520-1529 | The count, which ignores strings, stops on the list's own bracket if and only if the brackets inside the ids match each other |
| GroupInviteScan.FieldIdsIff | ffi/dart_compat_group.cpp:1512-1532 | The field yields the escaped forms of its non-empty ids if and only if the bracket count closes, on the list's bracket or, with opening brackets left over from the ids, in the text after it; otherwise it yields fewer ids |
| GroupInviteScan.InviteIdsLookup | ffi/dart_compat_group.cpp:1506-1566 | The whole lookup finds the field's ids exactly when the count closes, or when the field yields nothing and the fallbacks find them |
| GroupInviteScan.InviteIdsIff | ffi/dart_compat_group.cpp:1506-1566 | For every parameter object in which nothing before the field imitates its name, and which mentions no fallback name if the field yields nothing: the lookup returns the ids themselves if and only if the count closes and none of the non-empty ids needs an escape |
| GroupInviteScan.InviteIdsOfParameter | ffi/dart_compat_group.cpp:1506-1566 | The same for the names in use; the field's own name is never taken for a fallback name |
| GroupInviteScan.InviteIdsOfList | ffi/dart_compat_group.cpp:1564-1566 | A parameter that is itself a list gives the escaped forms of its non-empty ids, whatever brackets they have |
| GroupInviteScan.InviteIdsOfFallback | ffi/dart_compat_group.cpp:1536-1562 | A parameter that has its ids under a later name, and mentions none of the earlier ones, gives them |
| GroupInviteScan.ClosingBracketLosesIds | ffi/dart_compat_group.cpp:1520-1532 | An id with a closing bracket: the field yields nothing, whatever else the parameter holds |
| TerminalContract.TerminalCallbackGate.TryComplete | ffi/dart_send_message_contract.cpp:11-13 | Only an attempt that finds the 32-bit counter at zero wins; the counter wraps around |
| TerminalContract.WinningCount | ffi/dart_send_message_contract.cpp:11-17 | How many of any number of attempts win, including after wrap-around |
| TerminalContract.WinnerAt | ffi/dart_send_message_contract.cpp:11-17 | Which ones: the first, and then every 2^32nd |
| TerminalContract.RunForwarding | ffi/dart_compat_signaling.cpp:282-311 | The callback object and the check after the call send what the counter arbitrates, and report failure by return code exactly when no attempt is counted |
| TerminalContract.ForwardingSendsOneIff | ffi/dart_compat_message.cpp:268-396 | Send, cancel, accept, reject, modify and get-info send exactly one result for every callback sequence, none and duplicates included, if and only if fewer than 2^32 attempts are made; the first result has code 0, no description and the callback's data for a first success, the callback's code and message for a first error, and the internal error when there was no callback |
| TerminalContract.RunInviteInGroup | ffi/dart_compat_signaling.cpp:207-249 | Errors are reported by the callback, a noted success by the caller, a missing callback as failure |
| TerminalContract.InviteInGroupSendsOneIff | ffi/dart_compat_signaling.cpp:207-246 | A group invitation sends at least one result, and exactly one below 2^32 attempts: code 0 and the id for a first success, the code and message of a first error, or the internal error; beyond, exactly one when every winner succeeded and the count is not zero again |
| TerminalContract.ReportedIdUnique | ffi/dart_compat_signaling.cpp:101-106 | A reported id can be read back: one result reports one id only |
| InviteInterleaving.RunKeepsInv | ffi/dart_compat_signaling.cpp:69-112 | What holds between any two atomic steps of the calling thread and the event thread |
| InviteInterleaving.AtMostOneResult | ffi/dart_compat_signaling.cpp:69-112 | Under every interleaving, at every moment, at most one result has been sent |
| InviteInterleaving.InviteSendsAnswer | ffi/dart_compat_signaling.cpp:69-112 | What a completed invitation has sent, field by field, from the id, the callbacks and the schedule alone: code 0 with the id, the first error's code and message, the internal error, or nothing |
| InviteInterleaving.UnheardSendsNothing | ffi/dart_compat_signaling.cpp:101-112 | Without user data nothing is ever sent |
| InviteInterleaving.OneResultIff | ffi/dart_compat_signaling.cpp:101-112 | Exactly one result is sent unless the first callback is a success that reaches the gate before the caller's third step, and the id is empty or the event thread's second step does not come before the caller's first; then none is sent |
| InviteInterleaving.LateSuccessIsLost | ffi/dart_compat_signaling.cpp:77-112 | A manager that succeeded after its call returned could go unreported |
| InviteInterleaving.SuccessWithoutIdIsLost | ffi/dart_compat_signaling.cpp:101-112 | So could one that succeeded without an id |
| InviteInterleaving.SynchronousInviteSends | ffi/dart_compat_signaling.cpp:94-112 | When every callback ran before the call returned, the result is the id with code 0, the first error's code and message, or the internal error when there was no callback; only a success without an id is not reported |
| SignalingInvite.EveryInvitationIsAnswered | source/V2TIMSignalingManagerImpl.cpp:294-380 | With this repository's manager, in all surroundings, exactly one result is sent: code 0 with the id when the packet was sent, the offline error when it was not, and the internal error when the event loop did not answer |
| Utf8Filename.Utf8PrefixLength | ffi/file_io_compat.cpp:24-33 | The loop steps back over continuation bytes from the budget |
| Utf8Filename.CutIsLargestBoundary | ffi/file_io_compat.cpp:24-33 | On valid UTF-8 (RFC 3629) the cut is the largest character boundary within the budget, at most 3 bytes below it |
| Utf8Filename.BoundaryIff | ffi/file_io_compat.cpp:28-31 | In valid UTF-8 the positions not on a continuation byte are exactly those that split it into valid texts |
| Utf8Filename.TruncateIsSound | ffi/file_io_compat.cpp:196-214 | Truncation gives valid UTF-8 within min(max, 255) bytes, unchanged when it fits and at most 3 bytes below the budget otherwise |
| Utf8Filename.TruncateKeepsExtension | ffi/file_io_compat.cpp:202-213 | The extension is kept whole whenever it fits and only the stem is cut; otherwise the result is a prefix |
| Utf8Filename.TruncateIsShortened | ffi/file_io_compat.cpp:196-214 | A name that does not fit becomes the longest valid beginning of its stem and its whole extension when that fits, and otherwise the longest valid beginning of the name |
| Utf8Filename.CutTwice | ffi/file_io_compat.cpp:24-33 | For any bytes, cutting to m and then to n is cutting to n |
| Utf8Filename.TruncateComposes | ffi/file_io_compat.cpp:196-214 | Truncating to m and then to n is truncating to n when there is no dot or the extension fits in n |
| Utf8Filename.TruncateComposesIff | ffi/file_io_compat.cpp:196-214 | For any bytes, truncating to m first makes no difference to truncating to n if and only if: the name fits in m, has no dot or its extension fits in n; or the extension fits in m only and the kept stem fills n or goes on as the extension does; or it fits in neither and the shortened name's own extension does not fit in n or costs nothing |
| Utf8Filename.OneDotComposesIff | ffi/file_io_compat.cpp:196-214 | For valid names with one dot whose extension does not fit in n the condition is one on lengths only |
| Utf8Filename.TruncateDoesNotAlwaysCompose | ffi/file_io_compat.cpp:205-213 | A name for which it is not, when the extension fits in m and not in n |
| Utf8Filename.ComposeIsSound | ffi/file_io_compat.cpp:216-222 | A storage name is within the budget and starts with the whole prefix, or is a prefix of it that fills the budget |
| Utf8Filename.ComposeKeepsName | ffi/file_io_compat.cpp:216-222 | A name that fits behind the prefix follows it unchanged; one that does not follows it shortened no more than needed, within 3 bytes of the remaining budget and with its whole extension whenever that fits |
| ReceiveMarker.MarkerIff | ffi/file_io_compat.cpp:248-255 | A name is read as the marker of a data name exactly when it is a dot, that name and the suffix |
| ReceiveMarker.MarkerLiesBeside | ffi/file_io_compat.cpp:240-246 | What ends in the last slash or backslash of the path stays, and the name behind it gets the dot and the suffix |
| ReceiveMarker.MarkerRoundTrip | ffi/file_io_compat.cpp:240-255 | Reading the basename of any path's marker gives back the path's basename |
| ReceiveMarker.MarkerInjective | ffi/file_io_compat.cpp:240-246 | Different data paths have different markers |
| ReceiveMarker.StorageNameIsNoMarker | ffi/file_io_compat.h:48-52 | A storage name whose prefix does not start with a dot is never read as a marker |
| EventLine.FromChars | ffi/event_line_parser.cpp:41-47 | The digits are accumulated, with overflow past int64 detected, up to the first non-digit |
| EventLine.ParseInstanceIdFromLine | ffi/event_line_parser.cpp:20-48 | The prefix loop and the number parse compute the line's instance id |
| EventLine.PrefixUnique | ffi/event_line_parser.cpp:10-16 | At most one of the five prefixes fits a line |
| EventLine.InstanceIdIff | ffi/event_line_parser.cpp:20-48 | A positive id is returned if and only if the line is a prefix, digits of that value within int64, a colon and any rest |
| EventLine.InstanceIdRoundTrip | ffi/event_line_parser.cpp:20-48 | Printing any positive int64 in a line parses back to it |
| ListenerRegistry.Registry.StoreCallbackUserData | ffi/dart_compat_utils.cpp:40-45 | Data that is not null is found under its instance and name afterwards; every other entry, and all of them for null, are as before |
| ListenerRegistry.Registry.GetOrCreateListener | ffi/dart_compat_listeners.cpp:2848-2873 | A slot keeps its listener object; a missing one is created fresh, a group listener with its instance stored in it |
| ListenerRegistry.Registry.AddToManager | source/V2TIMConversationManagerImpl.cpp:109-112 | The listener is in the list afterwards, appended at most once; a known one is appended again by the conversation manager only; no other list changes |
| ListenerRegistry.Registry.DartSetCallback | ffi/dart_compat_listeners.cpp:722-731 | Store the user data, get or create the current instance's listener, add it to the current manager |
| ListenerRegistry.Registry.DartSetGroupTipsEventCallback | ffi/dart_compat_listeners.cpp:2314-2337 | Every test instance and the current one get the user data and the group listener |
| ListenerRegistry.Registry.FindExistingUserData | ffi/dart_compat_listeners.cpp:3016-3024 | The search in key order returns the data of the lowest-numbered other instance that holds the name |
| ListenerRegistry.Registry.CopyUserData | ffi/dart_compat_listeners.cpp:3075-3080 | The loop over a table copies each name held elsewhere and tells whether there was any |
| ListenerRegistry.Registry.ReplayListenersForNewInstance | ffi/dart_compat_listeners.cpp:3000-3266 | The five blocks of the replay, in order |
| ListenerRegistry.Registry.CreateManagedInstance | ffi/tim2tox_ffi.cpp:1470-1563 | A fresh id; registered, and replayed unless headless or failed |
| ListenerRegistry.Registry.DestroyTestInstance | ffi/tim2tox_ffi.cpp:1796-1851 | The instance, its listeners and its manager go; its user data stays; the current instance falls back to the default |
| ListenerRegistry.Registry.DetachDefaultInstanceListeners | ffi/dart_compat_listeners.cpp:3276-3326 | The default instance's listeners leave its managers and the maps |
| ListenerRegistry.Registry.CleanupInstanceListeners | ffi/dart_compat_listeners.cpp:3328-3346 | No slot of the instance has a listener afterwards, and every other slot has the one it had |
| ListenerRegistry.Registry.GetInstanceIdForListener | ffi/dart_compat_listeners.cpp:16-45 | The search through a class's map gives the first instance with that listener, or 0 |
| ListenerRegistry.Registry.ResolveInstance | ffi/dart_compat_listeners.cpp:817-825 | A received message takes the receiver set for the delivery, once; a group listener its stored instance (lines 1952-1974); otherwise the search, and for 0 the current instance |
| ListenerRegistry.RunRegistry | ffi/dart_compat_listeners.cpp:2766-3346 | Any sequence of calls on a new registry ends in the state of the run |
| ListenerProofs.CopyNamesEffect | ffi/dart_compat_listeners.cpp:3016-3080 | Copying while searching is the same as searching first: each name gets the lowest holder's data, everything else is unchanged |
| ListenerProofs.ReplayEffect | ffi/dart_compat_listeners.cpp:3036-3265 | On a manager without Dart listeners each block leaves its class's listener once, or none if it neither always registers nor finds a name |
| ListenerTheorems.RunKeepsInv | ffi/dart_compat_listeners.cpp:2766-2980 | In every run the listener maps are injective and a manager's list holds only its own instance's listener, at most once outside conversation managers |
| RegistrationHistory.ListenerIff | ffi/dart_compat_listeners.cpp:2314-3346 | In every run and for every class but conversations, a manager has its own Dart listener exactly once if the calls have registered it since its list was last emptied, by a callback, by group tips or by its creation, and none otherwise |
| RegistrationHistory.ConversationListenerIff | ffi/dart_compat_listeners.cpp:1689-1790 | A conversation manager has its own Dart listener as often as the calls have registered it since its list was last emptied |
| RegistrationHistory.KeptIff | ffi/dart_compat_listeners.cpp:2766-3346 | Listener objects are kept for the default instance and live ones only, and outside signaling exactly while they are registered |
| RegistrationHistory.UnknownIsCurrent | ffi/dart_compat_listeners.cpp:11-45 | An event of an object in none of the maps is attributed to the current instance |
| ListenerTheorems.AttributionIff | ffi/dart_compat_listeners.cpp:11-45 | An event is attributed to its listener's own instance if and only if it is a group listener's, or its instance was set as the receiver of the message, or no receiver applies and the instance is a test instance or the default instance is current |
| ListenerTheorems.DefaultMisattributed | ffi/dart_compat_listeners.cpp:11-45 | Three calls after which an event of the default instance's listener is attributed to another instance, for every class but the group's |
| ListenerTheorems.OwnReceiverChangesNothing | source/V2TIMManagerImpl.cpp:172-185 | A manager sets its own instance as the receiver; in every run that attributes a message as the search would |
| ListenerTheorems.NewInstanceData | ffi/dart_compat_listeners.cpp:3016-3265 | A new instance gets, for each name of the tables, the lowest-numbered holder's data, and no other entry changes |
| InstanceHistory.RunInstances | ffi/tim2tox_ffi.cpp:1470-1645 | In every run the current instance, the number of the next one and which ones are live follow from the calls alone: failed creations use up a number, a switch needs a live instance or the default one, and destroying the current instance makes the default one current |
| CallbackData.RunData | ffi/dart_compat_utils.cpp:40-45 | In every run the data stored for each instance follows from the calls alone |
| CallbackData.SeenIsLastStored | ffi/dart_compat_utils.cpp:48-62 | In every run the callbacks of an instance see the last data that the calls stored for it, by a registration or its creation, or else the default instance's |
| CallbackData.NewInstanceSees | ffi/dart_compat_utils.cpp:48-62 | Right after its creation an instance sees the lowest-numbered holder's data under the names of the tables, and the default instance's under any other |
| CallbackData.DestroyedDataIsCopied | ffi/dart_compat_listeners.cpp:3016-3024 | A destroyed instance's data is still what a later instance is given |
| ListenerTheorems.NewInstanceLists | ffi/dart_compat_listeners.cpp:3082-3265 | The new manager has exactly one friendship, message and conversation listener; the other managers keep their lists |
| ListenerTheorems.RunKeepsGroupInv | ffi/dart_compat_listeners.cpp:2992-3047 | In every run, once group tips user data is stored anywhere, every test instance created with listeners has exactly one group listener, whichever came first |
| GroupListeners.GroupListenerIff | ffi/dart_compat_listeners.cpp:2314-2350 | In every run and for every instance, a manager has exactly one group listener if and only if the history of calls reached the instance and did not take it away since, and none otherwise |
| GroupListeners.LiveInstanceIff | ffi/tim2tox_ffi.cpp:1545-1561 | Once group tips user data is stored anywhere, a live instance has exactly one group listener if and only if it was created with listeners or some call registered the listener for it |
| GroupListeners.HeadlessMissesGroup | ffi/tim2tox_ffi.cpp:1545-1547 | A headless instance created after the group tips registration has none |
| ListenerTheorems.DetachSparesOthers | ffi/dart_compat_listeners.cpp:3276-3326 | Detaching empties the default instance and leaves every other instance's lists, listeners and user data untouched |
| ListenerTheorems.ConversationListenerRepeats | ffi/dart_compat_listeners.cpp:1689-1790 | A conversation manager holds its listener as often as it was registered since its list was last emptied |
| ListenerTheorems.AtMostOneListenerIff | ffi/dart_compat_listeners.cpp:2766-2980 | At most one Dart listener per manager and class holds always outside conversations, and there exactly when it was added at most once |
| ListenerTheorems.ConversationListenerTwice | ffi/dart_compat_listeners.cpp:1689-1713 | Two conversation callbacks of one instance suffice for a duplicate |
| ListenerTheorems.ActualTables | ffi/dart_compat_listeners.cpp:3036-3247 | The callback tables of the code meet what the theorems ask of tables |

## Left out

- DurableSpec.State: the sequence counter is unbounded here and 64 bits wide in the code; a run would need 2^64 holds to tell them apart.
- CallbackBridge.Bridge.PostJsonToDartLocked: allocation failure is not separate; it is one more refused post. Each call is one atomic step because it runs under one mutex. The illegal port is the value of the fallback header; no statement depends on it.
- CallbackBridge.SortedEntries: an insertion stands for the library sort.
- JsonText.Escape: the library serialiser that normally does the escaping is not part of this model; the escape table is. Strings are sequences of characters that stand for bytes, and C strings are taken as without a NUL.
- JsonText.Unescape: surrogate pairs are not decoded; the escape table never writes one.
- BraceScan.Scan: the depth is unbounded, an `int` in the code. Printed trees have no optional white space, as the Dart encoder writes none.
- StringListScan.RawList: the lookup of the list under its usual names, used when the text has no bracket, is a parameter.
- ElementExtraction.ElementIff: exact in where the object is taken to start; an object taken from elsewhere may have the same text.
- GroupInviteScan.InviteIdsIff: excludes parameters in which an earlier string imitates the field's name, and, when the field yields nothing, those that mention a fallback name; `InviteIdsLookup` has the general case over the text.
- TerminalContract.RunForwarding: parameter checks that fail before the callback exists send one result each and are not modelled; progress callbacks send nothing; the failure's text and the return code are those of the signaling calls; the id that the invitation calls return is not modelled.
- InviteInterleaving.Start: one event thread, and fewer than 2^32 attempts.
- SignalingInvite.Invite: the packet, the record of active invites and exceptions are not modelled; what the Tox lookups find is part of the surroundings.
- Utf8Filename.IsTail: the mask test is written as a range of byte values.
- ListenerRegistry.Registry: whole calls are atomic; the current manager is the current instance's; addresses are numbers that are never reused; the listeners the library itself adds are not counted; the on-demand friendship listener of the manager and `DartSetExperimentalNotifyCallback`, which registers no listener, are not modelled; the epoch checks before a detach are not modelled.
- ListenerSpec.Tables: the run theorems hold for all tables with one block per class, so they are stated for a table parameter; `ActualTables` covers the code's own.
- File, disk and stat calls, crash handlers, logging and the Dart API itself: operating system and foreign code.
- Struct-to-JSON converters, request forwarding, conversation id prefixes and enum maps: plumbing or short case splits.
- Object lifetime, thread-local return strings and interleavings inside the listener registry: not part of this model.
