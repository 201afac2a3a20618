# Verified model of the Music Assistant MCP server

This project models the parts of the server that decide what a client may do and what it gets to see, and
proves their promises in Dafny. `dafny verify dfyconfig.toml` checks all of it.

- **Response fitting** (`Json`, `ShrinkPolicy`, `ListTree`, `ListReduction`, `EnvelopeFit`). A command result is
  shrunk until its compact JSON fits a byte budget: a trial copies the result into candidate records, keeps a
  heap with lazy invalidation, and removes list elements; a binary search runs such trials; at the end a field
  counts its own digits. `ShrinkPolicy` is the plain policy the heap has to reach.
- **Bounded normalisation** (`Normalize`, `NormalizeLoops`). An object graph, possibly cyclic, becomes a JSON
  value within caps on lists, mappings, strings and nesting. `NormalizeLoops` is the code with its set of active
  identities and its loops; `Normalize` is what it computes and what that promises.
- **Policies** (`Policy`, `CommandPolicy`, `Preflight`). Modes of capabilities combine into the mode of a
  command; names, scopes and profiles are classified; preflight adds requirements from live configuration.
- **The call protocol** (`CallProtocol`, `CallRuns`, `CallIdentity`). One call is a step machine: every step runs
  the code between two awaits, in an arbitrary world. The world holds policy, handler registry, users, target
  filters, bearer binding and setup-flow answers. The log of a run holds what the user saw and answered, what the
  handler did and what was recorded.
- **Logs** (`LogLines`, `LogRecords`). The backward block reader, the grouping of lines into records, and paging
  by offset.
- **Cursors and discovery** (`Texts`, `Encodings`, `JsonReader`, `Cursor`, `Discovery`). Base64url (section 5 of
  RFC 4648, without padding) over UTF-8 JSON (strings as in section 7 of RFC 8259); what Python reads in its place:
  skipped characters, UTF-16 and UTF-32, surrogates, white space, nesting, repeated keys; pages of an ordered result
  list; the walks a client makes along `next_cursor`.
- **Shared caches** (`IndexCache`). The search index and the base snapshot, built once for concurrent callers.
- **Token identities** (`PolicyConfig`, `TokenIdentity`). The least-recently-used registry, its change callback,
  and the compiled resolver.
- **Queue removal** (`QueueRemoval`). Safe removal of a batch of queue items.

## Taken as given

Parameters stand for what the server calls: case folding and query normalisation (which maps the empty text to
itself), the header pattern of logs, log filters and redacted message sizes, search scores as abstract numbers,
the order of JSON texts inside sets, answers of Music Assistant, of the user and of handlers. Digests (SHA-256)
count as injective, so a bearer or token ID stands for its digest. `heapq` returns a least entry of its heap.
Printed floats are their text. Integers are unbounded, as in Python.

## What turned out false

- Three rounds of measuring do not settle `bytes` under every cap. `EnvelopeFit.ThreeRoundsSettleExactly` says
  under which they do, among them every cap with no more digits than the rest of the envelope has bytes, which
  is at least 100; `EnvelopeFit.NoRoomInAnEnvelope` is an envelope that does not settle.
- Distinct mapping keys can collapse to one when a surrogate was replaced
  (`Normalize.SurrogateKeysCollide`); entries survive exactly under the condition on keys and limit in
  `Normalize.EntriesSurviveExactly`, and always for keys without surrogates.
- Offset paging is not lossless for a file that starts with several headerless lines, because they all carry
  offset 0 (`LogRecords.SecondHeaderlessLineIsLost`); `LogRecords.PagingIsLosslessExactly` says when it is.
- A configuration change that is not policy-only leaves the old resolver installed
  (`TokenIdentity.RestartCanStayStale`); `TokenIdentity.AnswersAreOfLastCompilation` says for every run which
  answers are right.
- An advertised allow can prompt after all: clearing a favorite, when deleting favorites needs confirmation
  (`Preflight.FavoriteClearPrompts`, and the whole run in `CallRuns.FavoriteCallPromptsAndRuns`);
  `Preflight.DiscoveryIsConservative` shows that nothing else does.
- A state that a cursor decodes to is not always one that the encoder emits. A query with a surrogate decodes and
  cannot be encoded (`Cursor.SurrogateQueryDecodes`), so a search for it fails as soon as its results take a second
  page (`Discovery.FirstAnswered`); and a cursor in UTF-16 can hold a revision whose UTF-8 payload is too long
  (`Cursor.WideRevisionDecodes`). `Cursor.DecodedStatesEncode` and `Cursor.EncodesExactly` say when it is one.
- The seal does not always renew the identity: when authentication is switched off while a call waits, the handler
  is entered as the caller of before, whoever that is by now, and without the confirmed target
  (`CallIdentity.SwitchedOffSealEntersUnchecked`); `CallProtocol.EntryIdentity` says exactly when.

## Model

| member | source | states |
|---|---|---|
| Json.EncodedSizeIsSize | provider/dynamic_serialization.py:462-471 | The UTF-8 length of the compact JSON text of any value is the sum of the sizes of its parts, escapes, quotes, commas and brackets included. |
| ShrinkPolicy.VictimIsBest | provider/dynamic_serialization.py:403-413 | Unless every list is empty, the plain policy names the one longest list, ties to the shallower, then to the earlier in traversal order. |
| ShrinkPolicy.VictimUnique | provider/dynamic_serialization.py:403-413 | There is only one such list. |
| ShrinkPolicy.PopAtCount | provider/dynamic_serialization.py:432-438 | Removing the last element of any nonempty list lowers the count of all list elements, so the count bounds the removals. |
| ShrinkPolicy.CountZeroIffAllEmpty | provider/dynamic_serialization.py:432-438 | The count is zero exactly when every list at every level is empty. |
| ShrinkPolicy.CountEmptiesEveryList | provider/dynamic_serialization.py:327-330 | After as many removals as the count, or more, every remaining list is empty. |
| ShrinkPolicy.MoreStepsAreSmaller | provider/dynamic_serialization.py:335-347 | More removals never give a longer text nor a larger top-level count. |
| ListTree.KeysOfLabels | provider/dynamic_serialization.py:304-311 | The candidate records reachable from the root, in index order, have exactly the lengths and depths of the lists of the current tree in traversal order. |
| ListTree.ErasePop | provider/dynamic_serialization.py:414-416 | Popping the list of candidate c is popping the list that stands at c's place in traversal order. |
| ListTree.LabelsAfterPop | provider/dynamic_serialization.py:414-416 | A pop takes just the candidates inside the removed item out of the tree and keeps the others in order. |
| ListTree.RepresentsPop | provider/dynamic_serialization.py:414-414 | The object graph after the pop is the popped tree. |
| ListReduction.Reduction.Collect | provider/dynamic_serialization.py:374-388 | Collection registers every list once, depth first, with its true depth, an index equal to its order, and a heap entry when it is not empty. |
| ListReduction.Reduction.Invalidate | provider/dynamic_serialization.py:390-400 | Exactly the candidates below a removed item become inactive; no list changes. |
| ListReduction.Reduction.PopLeast | provider/dynamic_serialization.py:407-407 | Removes one least entry in the order of Python tuples and loses no other. |
| ListReduction.LeastFreshIsVictim | provider/dynamic_serialization.py:403-413 | In every consistent state a least entry that is not stale describes the plain policy's victim: stale entries never change the choice. |
| ListReduction.RoundIsPlainStep | provider/dynamic_serialization.py:405-428 | A round that is not skipped is one step of the plain policy. |
| ListReduction.EmptyHeapMeansAllEmpty | provider/dynamic_serialization.py:406-406 | When the heap runs out every list is empty. |
| ListReduction.HeapWithout | provider/dynamic_serialization.py:407-413 | Dropping a stale entry keeps every live nonempty list described. |
| ListReduction.HeapAfterRemoval | provider/dynamic_serialization.py:414-428 | Pushing the changed list back, if it is not empty, describes every live nonempty list again. |
| ListReduction.Reduction.RemoveLast | provider/dynamic_serialization.py:414-428 | One effective round pops the tree and keeps heap, records and tree consistent. |
| ListReduction.Reduction.Round | provider/dynamic_serialization.py:406-428 | One round is one step of the plain policy, or it only drops a stale entry; the state stays consistent. |
| ListReduction.Reduction.Reduce | provider/dynamic_serialization.py:405-429 | The loop over the lazy heap reaches what that many plain steps reach, stopping early only when nothing is left. |
| ListReduction.SimulateListRemovals | provider/dynamic_serialization.py:367-429 | For every value and every number of removals the result equals that many steps of the plain policy. |
| EnvelopeFit.MeasureBytes | provider/dynamic_serialization.py:474-480 | Changing `bytes` changes the encoded size by exactly the difference in digits. |
| EnvelopeFit.RestAtLeast100 | provider/dynamic_serialization.py:314-323 | Every envelope takes at least a hundred bytes beside the digits of `bytes`. |
| EnvelopeFit.ThreeRoundsSettleExactly | provider/dynamic_serialization.py:474-480 | For every rest and cap, three rounds reach a fixpoint if and only if the digits of the first measured size do not carry the rest into another digit, or carry it into just one that one more than its digits reaches as well. |
| EnvelopeFit.ShortCapsHaveRoom | provider/dynamic_serialization.py:474-480 | That is so whenever the cap has no more digits than the rest has bytes. |
| EnvelopeFit.EnvelopeOfRest | provider/dynamic_serialization.py:314-323 | Every rest from 127 bytes on is the rest of some envelope in compact mode. |
| EnvelopeFit.NoRoomInAnEnvelope | provider/dynamic_serialization.py:474-480 | A real envelope does not settle: with a rest of 995 bytes under a cap of 9005 digits it is left as it is, with 999 stored and a size of 998. |
| EnvelopeFit.ShrunkMonotone | provider/dynamic_serialization.py:335-347 | The encoded envelope never grows with the number of removals, its item count included. |
| EnvelopeFit.ShrunkSaturates | provider/dynamic_serialization.py:327-330 | Removals beyond the list-element count change nothing. |
| EnvelopeFit.NoRemovalFits | provider/dynamic_serialization.py:327-333 | If the fully emptied result does not fit, no number of removals does. |
| EnvelopeFit.ReduceLists | provider/dynamic_serialization.py:325-350 | The list stage succeeds exactly when some number of removals fits, and leaves the least such reduction. |
| EnvelopeFit.FitStages | provider/dynamic_serialization.py:314-364 | The stages are tried in order; the call fails only when none of them fits. |
| EnvelopeFit.Envelope.SetReturnedCount | provider/dynamic_serialization.py:456-459 | The count is that of the top-level list, or one, or zero for null. |
| EnvelopeFit.Envelope.SetMeasuredBytes | provider/dynamic_serialization.py:474-480 | The early exit makes no difference to three full rounds. |
| EnvelopeFit.Halving | provider/dynamic_serialization.py:335-346 | A halving gap can be probed only logarithmically often. |
| EnvelopeFit.Envelope.SearchLeast | provider/dynamic_serialization.py:332-350 | The search leaves the least number of removals, at least one, that fits the cap, and 2 to the number of probes is at most twice the removals it searched. |
| EnvelopeFit.FitJsonEnvelope | provider/dynamic_serialization.py:314-364 | It returns exactly when some stage fits and leaves that stage: untouched, the least list reduction, the minimal shape, or that without fields; the stored `bytes` is at most the cap, and it is the true size if and only if there is room for three rounds, so under every cap of at most 100 digits. |
| Normalize.BoundedStringMeans | provider/dynamic_serialization.py:291-300 | A string comes back within its limit and one ellipsis, without surrogates, unchanged unless reported, and reported exactly when it was too long or held a surrogate. |
| Normalize.TakenShrinks | provider/dynamic_serialization.py:273-276 | Each failed suffix uses up one key in use, so the search ends. |
| Normalize.FreeSuffixIsFirst | provider/dynamic_serialization.py:273-277 | The suffix found is the first free one, no further on than there are keys. |
| Normalize.NormalizedFits | provider/dynamic_serialization.py:138-252 | On any object graph, cycles included, list lengths, mapping sizes, copied strings, key lengths and container nesting stay within the caps; a total count stands for a list of min(count, cap) items. |
| Normalize.UntruncatedIsComplete | provider/dynamic_serialization.py:101-135 | If nothing is reported truncated, the bounded value equals the unbounded conversion. |
| Normalize.SortValues | provider/dynamic_serialization.py:225-226 | Sorting bounded set members and then taking their values is sorting the values. |
| Normalize.EntriesSurviveExactly | provider/dynamic_serialization.py:266-288 | Of n entries all n survive if and only if no key taken over unchanged is already a name when its turn comes; the names are computed from the keys and the limit alone. |
| Normalize.NamesAreKeys | provider/dynamic_serialization.py:266-288 | The keys of the result are the names computed from the keys alone, whatever the children are. |
| Normalize.SurvivorsKeepValues | provider/dynamic_serialization.py:266-288 | When all survive, every entry keeps its own value, in order. |
| Normalize.DistinctScalarKeysSurvive | provider/dynamic_serialization.py:266-288 | Distinct keys without surrogates always meet that condition; keys within the limit keep their names. |
| Normalize.MappingKeepsEntries | provider/dynamic_serialization.py:255-288 | So exactly min(n, mapping cap) entries survive, in order, each with its normalised child. |
| Normalize.SurrogateKeysCollide | provider/dynamic_serialization.py:271-288 | With a surrogate an entry can be lost: two distinct keys become one name and the later value wins. |
| Normalize.NormalizedEncodes | provider/dynamic_serialization.py:148-153 | No surrogate and no infinite or undefined float is left anywhere, so the value can be encoded as UTF-8 JSON. |
| NormalizeLoops.Normalizer.BoundedJsonValue | provider/dynamic_serialization.py:138-252 | The recursion over shared active identities ends, restores them, and computes the bounded value. |
| NormalizeLoops.Normalizer.BoundedChildren | provider/dynamic_serialization.py:232-250 | The child loop normalises the first n children and restores the active identities. |
| NormalizeLoops.Normalizer.BoundedMapping | provider/dynamic_serialization.py:255-288 | The entry loop stops at the mapping cap, restores the active identities, and computes the bounded mapping. |
| NormalizeLoops.Normalizer.FreeName | provider/dynamic_serialization.py:271-277 | The suffix loop ends at the first free name. |
| NormalizeLoops.BoundedJson | provider/dynamic_serialization.py:51-76 | One call keeps every cap, is encodable, and is complete when it reports nothing truncated. |
| Policy.EffectiveModeMeans | provider/command_policy.py:37-56 | Deny, allow and, by exclusion, confirm, each as a statement about single capabilities: required ones and at least one alternative. |
| Policy.EvidenceIsExact | provider/execution.py:1391-1411 | Under a confirming policy, granting a set of capabilities makes the call allowed if and only if it holds every confirmed required one and, where needed, an alternative. |
| Policy.EvidenceSuffices | provider/execution.py:1391-1411 | The confirmed set is not empty when the mode is confirm, suffices when granted, and is empty when the mode is allow. |
| Policy.AuthorizedEvidence | provider/execution.py:1356-1388 | For a call that is not denied the evidence is exactly those reasons and impersonation; the fallback reason is never used. |
| Policy.HiddenNeverExecutes | provider/execution.py:277-287 | A command hidden as denied is denied whatever preflight adds. |
| Policy.AdvertisedAllowNeverPrompts | provider/execution.py:1316-1353 | A command advertised as allowed needs no evidence in a call that is not denied, if preflight adds only what the decision declares. |
| Policy.UndeclaredPrompts | provider/execution.py:1316-1353 | If the decision declares nothing, it prompts exactly when preflight adds a capability whose mode is confirm. |
| CommandPolicy.ClassificationFailsClosed | provider/command_policy.py:414-481 | Every command, nested scope and profile is hard-denied or guarded by a required or alternative capability. |
| CommandPolicy.DestructiveNamesAreGuarded | provider/command_policy.py:637-657 | A name with a destructive word is decided by the exact table, or by a read-only family, or hard-denied, or guarded by a capability that does not only read. |
| CommandPolicy.LongestFamilyAtBoundary | provider/command_policy.py:587-598 | The chosen family ends at a segment boundary of the name, and every other matching prefix is a prefix of it. |
| CommandPolicy.LongestMatchIn | provider/command_policy.py:587-598 | The chosen family is in the table, matches, and is as long as any match. |
| CommandPolicy.ScopeFamilyGuarded | provider/command_policy.py:622-634 | Through any nesting of scope tuples, columns for changes never hold a read capability. |
| CommandPolicy.FamilyDecisionGuarded | provider/command_policy.py:601-619 | A destructive name in a family or under a scope never falls back to a read column. |
| Preflight.PreflightAddsOnlyItsKind | provider/command_policy.py:489-568 | Both preflight passes add only the capabilities of their kind, whatever live configuration answers. |
| Preflight.DecisionsDeclareTheirPreflight | provider/command_policy.py:700-711 | Every decision except the favorite write declares all its preflight may add. |
| Preflight.KindOfCommand | provider/command_policy.py:438-481 | Every decision about a command that is not hard-denied has the one preflight kind of the command, whatever its scope and profile. |
| Preflight.OneKindPerCommand | provider/command_policy.py:438-481 | So the decisions of one command under any two scopes and profiles agree on it. |
| Preflight.FavoriteClearPrompts | provider/command_policy.py:707-711 | The exception at a real input: `music/favorites/set_item` without a favorite, under a policy such as Home control, is advertised as allowed and asks. |
| Preflight.HomeControlAsks | provider/policy.py:169-176 | Home control allows editing favorites and asks before deleting them. |
| Preflight.DiscoveryIsConservative | provider/execution.py:1316-1353 | For every command, on the pass that prompts are decided on and on the sealed one: hidden means denied; advertised as allowed asks for nothing in a call that is not denied, if and only if it is not the clearing of a favorite under a policy that asks before deleting favorites. |
| CallProtocol.EveryRunIsSafe | provider/execution.py:330-427 | On every run, with the world changing at every await, every event is safe: the handler is entered only through a seal that holds in that very world, that revalidated this call's own last preflight under its own last authorization, with all evidence named in prompts that the user answered yes before in this call; a handler that returned was entered right before, a postflight that passed comes right after, and a success right after that. At most one entry, two prompts and one terminal record. |
| CallProtocol.EntryIdentity | provider/execution.py:1077-1128 | The handler is entered as a freshly authenticated identity that is still exact, exactly when a final authentication answered, which it must wherever authentication is required at that moment; otherwise as the caller authorized earlier. The target authorized earlier is kept exactly then, or when there was none. |
| CallProtocol.SuccessFollows | provider/execution.py:953-969 | A recorded success stands right behind the entry, the return of the handler and the passed postflight. |
| CallProtocol.EnteredCallsAreFullyConfirmed | provider/execution.py:483-502 | Before any handler entry, the user answered yes to prompts of this call that named capabilities which, granted, would make the sealed call allowed, and impersonation when someone is impersonated. |
| CallProtocol.SealKeepsInv | provider/execution.py:1066-1145 | Entering the handler straight after the synchronous seal is safe whatever happened before, as long as the call seals its own last authorization with its own last preflight and resolved the target whenever it renewed the caller. |
| CallProtocol.StepKeepsInv | provider/execution.py:454-543 | Every block between two awaits keeps the invariant in every world. |
| CallProtocol.AuthorizeKeepsInv | provider/execution.py:1012-1022 | The first check of an authorization never enters the handler and records at most a denial. |
| CallProtocol.PreflightedKeepsInv | provider/execution.py:1038-1064 | An authorization is let through only when handler, scope, policy, target and mode hold once more in the world after preflight. |
| CallProtocol.AnsweredKeepsInv | provider/execution.py:819-867 | Evidence grows only when the user answers yes, together with an accepted record for exactly the reasons of the prompt. |
| CallProtocol.PostflightedKeepsInv | provider/execution.py:953-969 | A success record follows a postflight that passed, right after the handler returned, and nothing terminal came before it. |
| CallRuns.SealedPreflightIsLive | provider/execution.py:1082-1104 | The seal revalidates under the earlier decision and judges under the live one; under any two scopes both have one preflight kind, so the sealed preflight is the live decision's own. |
| CallRuns.AdvertisedAllowRunsWithoutPrompt | provider/execution.py:379-402 | While a command stays advertised as allowed under one policy, and preflight finds no more than is declared, no run of a call prompts. |
| CallRuns.PreflightStaysDeclared | provider/execution.py:935-951 | In a world that classifies by the tables, under any scope, and answers preflight by the command's kind, preflight finds no more than the live decision declares, for every command but the favorite write. |
| CallRuns.TabledAllowNeverPrompts | provider/execution.py:379-402 | So no run of a call of such a command prompts while the tables advertise it as allowed, through whatever scopes, configurations and answers. |
| CallRuns.EnteredIsNotHidden | provider/execution.py:1316-1353 | On every run, what is entered is not hidden under the policy and the live classification of that moment. |
| CallRuns.HiddenRunsAreDenied | provider/execution.py:904-933 | While a command stays hidden under one policy, a call of it leaves one denied record at most: no prompt, no entry. |
| CallRuns.FavoriteCallPromptsAndRuns | provider/execution.py:379-415 | A whole run for the exception: clearing a favorite is advertised as allowed, prompts once, is accepted, enters the handler and records success. |
| CallIdentity.SwitchedOffSealEntersUnchecked | provider/execution.py:1077-1163 | A whole run in which authentication is switched off after the confirmation: the handler is entered as the earlier caller, who is disabled by then, and the confirmed target is dropped. |
| LogLines.ScannedMeans | provider/debug/log_reader.py:451-481 | A scan yields exactly the nonempty lines that start after a newline inside the scanned suffix and, once the start is reached, the first line. |
| LogLines.LinesFromMeans | provider/debug/log_reader.py:451-481 | The forward split read declaratively: lines start after newlines and run to the next newline. |
| LogLines.BlockYields | provider/debug/log_reader.py:460-473 | Putting one more block in front of the buffer yields exactly the lines not yielded yet. |
| LogLines.PartOffsets | provider/debug/log_reader.py:463-467 | Every part of a block gets the byte offset it starts at. |
| LogLines.YieldBlock | provider/debug/log_reader.py:470-473 | The complete lines of a block come newest first, blank ones left out. |
| LogLines.IterLinesBackwards | provider/debug/log_reader.py:451-481 | The lines, with offsets, are those of the scan for every block size; bytes scanned are min(file size, cap); start and truncation flags are exact. |
| LogRecords.GroupByHeader | provider/debug/log_reader.py:483-502 | Every record is a header with only continuation lines; the records and what is pending give back the lines. |
| LogRecords.SurfaceHeaderless | provider/debug/log_reader.py:493-502 | Leading headerless lines become message-only records at offset 0. |
| LogRecords.IterRecordsBackwards | provider/debug/log_reader.py:483-502 | Flattening the records gives back the lines, all of them when the start was reached, and otherwise all but the continuations of an unseen header. |
| LogRecords.CollectTail | provider/debug/log_reader.py:177-219 | The loop collects the newest selected records that fit the line limit and the byte budget, always at least one, cut when oversized. |
| LogRecords.Tail | provider/debug/log_reader.py:133-242 | A page is those records in file order; the flags and the oldest offset say exactly what was left out. |
| LogRecords.HintCarriesCursor | provider/debug/log_reader.py:415-449 | The hint names an offset cursor exactly when the page stopped short. |
| LogRecords.WalkReturnsAll | provider/debug/log_reader.py:177-242 | Where selected offsets strictly descend, following the cursors returns every selected record once, in file order, for any sequence of line limits. |
| LogRecords.PagingIsLosslessExactly | provider/debug/log_reader.py:493-502 | For records of any scan, paging is lossless for all line limits if and only if at most one selected record lacks a header. |
| LogRecords.SecondHeaderlessLineIsLost | provider/debug/log_reader.py:493-502 | The loss at a real file: of two headerless lines, read one line a page, the older one is on no page. |
| LogRecords.LeadingHeaderIsLossless | provider/debug/log_reader.py:177-242 | Paging is lossless in particular when the first non-blank line is a header. |
| LogRecords.ScannedDescends | provider/debug/log_reader.py:451-481 | The lines of one scan have strictly descending offsets. |
| Encodings.Base64RoundTrip | provider/catalog_pagination.py:110-133 | Unpadded base64url gives every byte sequence back, read by the lenient decoder with the padding put back. |
| Encodings.DecodedLength | provider/catalog_pagination.py:127-133 | Whatever characters are skipped, a cursor of n characters holds at most 3n/4 bytes. |
| Encodings.Utf8RoundTrip | provider/catalog_pagination.py:119-133 | UTF-8 decoding gives the code points of every text back. |
| Encodings.DecodedWeight | provider/catalog_pagination.py:133-133 | In whichever of the detected encodings bytes are read, the text takes no more bytes in UTF-8, except that out of UTF-16 it can take half as many again. |
| JsonReader.ReadsText | provider/catalog_pagination.py:119-133 | Every string reads back from its quoted and escaped form. |
| JsonReader.LoadsObject | provider/catalog_pagination.py:133-133 | An object is read with the values its members stand for, later keys winning, for any members. |
| JsonReader.LoadedSize | provider/catalog_pagination.py:133-133 | Whatever text an object is read from, with white space, nesting, escapes and repeated keys, its strings and integers under any distinct keys take no more bytes when they are written compactly. |
| Cursor.CursorRoundTrip | provider/catalog_pagination.py:110-151 | Decoding an encoded cursor gives the same state, for every state that encodes. |
| Cursor.PayloadIsShortest | provider/catalog_pagination.py:110-151 | The compact payload of a state takes no more bytes than any text it can be read from. |
| Cursor.EncodesExactly | provider/catalog_pagination.py:110-124 | A valid state encodes exactly when query and revision hold no surrogate and its payload takes at most 1536 bytes; a surrogate raises an encoding error, a longer payload the malformed-cursor error. |
| Cursor.DecodedStatesEncode | provider/catalog_pagination.py:127-178 | For every cursor text that decodes, the encoder emits a cursor for the state exactly when query and revision hold no surrogate, whatever the text was; except for UTF-16 cursors of more than 1365 characters, where the payload can also be too long. |
| Cursor.SurrogateQueryDecodes | provider/catalog_pagination.py:110-151 | A cursor whose query is one escaped surrogate decodes, and its state cannot be encoded. |
| Cursor.WideRevisionDecodes | provider/catalog_pagination.py:127-151 | A UTF-16 cursor for a revision of 502 to 727 three-byte characters decodes, and the encoder refuses its state as malformed. |
| Cursor.ValidStatesFit | provider/catalog_pagination.py:16-24 | A valid state with a query of at most 200 characters, a 24-character revision and an offset of up to 100 digits always fits in 2048 characters: it encodes exactly when it holds no surrogate. |
| Discovery.OrderedUnique | provider/meta_discovery.py:204-205 | Two orderings of the same names by score and name are the same sequence. |
| Discovery.ResultIgnoresEnumeration | provider/meta_discovery.py:172-205 | The result list does not depend on the order in which the visible names are enumerated. |
| Discovery.SortKeeps | provider/meta_discovery.py:204-205 | Ranking is a permutation, ordered by falling score and then by name. |
| Discovery.ResolveLimit | provider/catalog_pagination.py:84-90 | An explicit limit is accepted exactly from 1 through 50 and then returned; the default is in that range. |
| Discovery.StaleCursorRefused | provider/meta_discovery.py:251-255 | Whatever text comes as a cursor, a request is answered only if the text decodes to the revision of now, to a position inside the results, and to the query that comes with it, if one does. |
| Discovery.ContinuationAnswered | provider/meta_discovery.py:218-303 | It is answered exactly when that holds, the limit is valid, and the page is the last one or the query holds no surrogate. |
| Discovery.FirstAnswered | provider/meta_discovery.py:218-303 | A first request is answered exactly when its results fit on one page or its query holds no surrogate. |
| Discovery.ContinuationEncodes | provider/meta_discovery.py:287-299 | A position inside the results has a continuation cursor exactly when the query holds no surrogate, and that cursor reads back. |
| Discovery.PageMeans | provider/meta_discovery.py:281-303 | A page fails only for a query with a surrogate that has more results behind it; any other holds the next stretch of results, and its cursor points right behind it or is absent at the end. |
| Discovery.FollowedPage | provider/meta_discovery.py:229-244 | A continuation request starts where the cursor says, with any valid limit and with the same query or none. |
| Discovery.WalkReads | provider/meta_discovery.py:218-313 | Every walk has read a prefix of the ordered results, without gap or repeat, and every continuation page is not empty. |
| Discovery.CompleteWalkReadsAll | provider/meta_discovery.py:218-313 | A walk that ends has read the whole list, in at most max(total, 1) pages. |
| Discovery.WalkGoesOn | provider/meta_discovery.py:218-313 | A walk that has not ended can always go on, with any valid limit. |
| IndexCache.EveryInterleavingIsSound | provider/meta_discovery.py:322-334 | For any interleaving over changing fingerprints: builds never overlap, whoever is done got a value of its own fingerprint, nobody builds for a current fingerprint, and the current value is the last one built. |
| IndexCache.SearchesRankTheirOwnSnapshot | provider/meta_discovery.py:322-330 | A search that is done has an index of the very snapshot it came with. |
| IndexCache.OneBuildPerGeneration | provider/execution.py:249-261 | While all callers bring one fingerprint there is at most one build, however many callers fail or are cancelled. |
| IndexCache.AbortLeavesIndexUsable | provider/meta_discovery.py:326-330 | A failed or cancelled build leaves the old value and a free lock; before that nobody else gets the lock. |
| IndexCache.WaitingMeansProgress | provider/meta_discovery.py:326-330 | Whoever waits can take the lock, or somebody holds it who can finish. |
| PolicyConfig.FromScratchIs | provider/policy_config.py:93-117 | Compiling for one token gives its own policy, or the default when it inherits or has no ID. |
| PolicyConfig.ResolverAnswersFromScratch | provider/policy.py:126-130 | A resolver compiled for other tokens answers like one compiled from scratch if and only if it knows the token or the token's policy is the default anyway. |
| PolicyConfig.OnlyExactTextGrants | provider/policy_config.py:212-256 | A capability beyond plain queries is granted if and only if the policy that applies spells out a profile or a mode that grants it; everything malformed is denied. |
| TokenIdentity.TokenIdentityRegistry.constructor | provider/token_identity.py:24-31 | A new registry is empty and within its positive capacity. |
| TokenIdentity.TokenIdentityRegistry.Bind | provider/token_identity.py:42-54 | Binding moves the entry to the end, evicts from the front down to the capacity, and notifies exactly when the identity changed or something was evicted. |
| TokenIdentity.TokenIdentityRegistry.Discard | provider/token_identity.py:56-60 | Removes one binding and notifies exactly when there was one. |
| TokenIdentity.TokenIdentityRegistry.Lookup | provider/token_identity.py:62-68 | Returns the binding and makes it the most recent, changing nothing else. |
| TokenIdentity.EveryRunIsRecent | provider/token_identity.py:42-68 | After any run the registry is within capacity, holds each bearer once with what it was last bound to, and is ordered by last use. |
| TokenIdentity.EvictsLeastRecentlyUsed | provider/token_identity.py:49-52 | Another bearer's use evicts an entry if and only if it binds a new bearer in a full registry and the entry is the least recently bound or looked-up one. |
| TokenIdentity.BindingLasts | provider/token_identity.py:42-68 | A used binding that is not discarded stays while fewer than `capacity` other bearers come up. |
| TokenIdentity.QuietUseKeepsTokenIds | provider/token_identity.py:47-54 | A use that runs no callback leaves the bound token IDs alone. |
| TokenIdentity.Runtime.BindToken | provider/server.py:79-83 | Binding compiles the resolver again exactly when the registry notifies. |
| TokenIdentity.Runtime.DiscardToken | provider/server.py:79-83 | So does discarding. |
| TokenIdentity.Runtime.ResolveRequestPolicy | provider/server.py:96-104 | No bearer gets the default, an unbound one plain queries, a bound one the policy of its token, and the lookup refreshes the binding. |
| TokenIdentity.Runtime.ApplyConfigChange | provider/server.py:153-178 | A policy-only change compiles again, any other keeps the installed resolver. |
| TokenIdentity.Runtime.RefreshPolicyResolver | provider/server.py:360-370 | Installs what the current configuration and the bound token IDs compile to. |
| TokenIdentity.AnswersAreCurrent | provider/token_identity.py:102-107 | In every run of binds, lookups, discards and policy-only changes the policy of every bearer is what the current configuration gives its token from scratch. |
| TokenIdentity.AnswersAreOfLastCompilation | provider/server.py:153-178 | After every run, changes of any kind included, a bearer is answered what the configuration of the last compilation gives its token; so the answer is right exactly when that and the current configuration agree on the token. |
| TokenIdentity.RunCompiles | provider/server.py:360-370 | After every run the installed resolver is what the configuration of the last compilation and the tokens bound now compile to. |
| TokenIdentity.RestartCanStayStale | provider/server.py:177-178 | So a withdrawn policy can stay in force across such a change. |
| QueueRemoval.PlayerQueues.RemoveItemsSafe | provider/commands/queue.py:13-42 | An error for no ids or an unknown queue changes nothing; otherwise the queue and the four buckets are those of the batch, and no other queue changes. |
| QueueRemoval.PlayerQueues.RemoveItem | provider/commands/queue.py:21-41 | One round puts the id in its bucket by where it stands now and by how the deletion was answered. |
| QueueRemoval.BucketsShareOut | provider/commands/queue.py:20-42 | The buckets together hold the requests, each as often as it was made. |
| QueueRemoval.PickedBy | provider/commands/queue.py:20-42 | An id is in a bucket exactly when one of its requests was put there. |
| QueueRemoval.ProtectedStay | provider/commands/queue.py:25-28 | Items at or before the current and the buffered position keep their positions. |
| QueueRemoval.PlayedAsBefore | provider/commands/queue.py:25-26 | Which requests count as played is decided by the queue before the batch, although indexes shift. |
| QueueRemoval.SurvivorsKeepOrder | provider/commands/queue.py:21-41 | The queue afterwards is the queue before with items left out. |
| QueueRemoval.RemovedAreAbsent | provider/commands/queue.py:36-41 | Every id reported removed is absent at the end. |
| QueueRemoval.ExactlyTheRemovedGo | provider/commands/queue.py:21-42 | With distinct ids exactly the reported items are gone, and nothing else. |

## Left out

- Reductions of results in which one list object occurs twice: `copy.deepcopy` keeps such sharing, the records here form a tree.
- EnvelopeFit.FitJsonEnvelope: the result is in JSON form already; the text of the error it raises is not modelled.
- `redact_media_previews`, `_project_fields` and the profile conversions around the envelope: each is a short walk over one value.
- NormalizeLoops.Normalizer.BoundedJsonValue: does not model exceptions raised by `to_dict`, `model_dump` or properties, after which the active identities are restored as well, nor identities that are used again after an object was freed.
- Normalize.UntruncatedIsComplete: the members of a set come in one iteration order for both conversions.
- Annotations of command decisions, which play no part in authorization.
- CallProtocol.EveryRunIsSafe: does not model the fields of audit records, the order of context variables, argument conversion, or what happens to the result after execution; exceptions outside the listed ones and timeouts before execution end the call without further events.
- Preflight.PreflightAddsOnlyItsKind: parsing of submitted values and of configuration entries is a set of answers.
- `postflight_command`: only that it passes or raises.
- LogRecords.WalkReturnsAll: no `since_seconds` window, and the file does not change between pages.
- Timestamp cursors, level parsing, redaction and message cutting inside a character, rotation and path checks of the log reader, and its statistics.
- LogLines.IterLinesBackwards: lines are bytes, without replacement of undecodable ones; a consumer that stops early sees fewer bytes scanned.
- JsonReader.LoadsObject: does not model the interpreter's limit on nesting; lists, floats and literals all read as one other value. A cursor text is a string without surrogates; one with a surrogate is refused like any text outside ASCII.
- Discovery.WalkReads: one catalog revision and fixed visible names; the digest behind the revision, the top schema of a search and the descriptions of items are not modelled.
- Search scores: tokenisation and the floating-point formula; only the order by score and name matters.
- IndexCache.EveryInterleavingIsSound: which waiting caller gets the lock next is left open, so it holds for every order.
- TokenIdentity.AnswersAreCurrent: the raw values behind the configuration change only together with it; the counter of failed resolutions and the policy-change callback are not modelled.
- PolicyConfig.OnlyExactTextGrants: white space around manual token IDs is the ASCII kind; suffix-only policies of `policy_event_buffer_enabled` are not modelled.
- Starting, stopping and mounting the server; `start` and `stop` do not touch the resolver.
- QueueRemoval.PlayerQueues.RemoveItemsSafe: nothing else plays or changes the queue during one batch, which has no await.
- HTTP bridging, the Connect Wizard, prompts, client templates, the event buffer, the performance tracker and the origin allowlist: only easy members.
