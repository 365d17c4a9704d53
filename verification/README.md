# Ohagey, modelled and proved

A Dafny model of the Ohagey Japanese input method: the romaji conversion and composition buffer of
its text service, the candidate window’s paging, the wire codec and client that talk to the
conversion engine, the sort of the candidate lists, the routing of keys, and two parts of the engine
itself, the scheduler that trains the personal language model and the cache of recent conversions.

Code that changes state is modelled as classes and loops whose contracts equate the new state with a
function of the old one; what the source promises is then proved of those functions, over every input
or every run.

| file | what it holds |
|---|---|
| `RomajiTable.dfy`, `SyllableTable.dfy`, `RomajiKana.dfy`, `RomajiLaws.dfy` | the spelling table, what it should hold, the scan, and when one more key changes what was already decided |
| `CompositionBuffer.dfy`, `FinalText.dfy`, `Morae.dfy`, `KanaInput.dfy` | the incremental buffer against the whole-string conversion, at every step and at the end, the round trip of spelled morae, all for the shipped table |
| `WireFormat.dfy`, `WireIO.dfy`, `WireMessages.dfy`, `WireParsers.dfy`, `WireSerializer.dfy`, `WireLaws.dfy`, `WireSchema.dfy` | the Protocol Buffers format as functions, the writers and the reader, the message parsers, round trips and forward compatibility, and the bytes and field numbers written out |
| `EngineClient.dfy` | framing and the exchange over a pipe that splits and fails as it likes |
| `CandidatePaging.dfy`, `CandidateWindow.dfy` | page starts and the selection as functions, and the window in 32-bit arithmetic |
| `CandidateSort.dfy` | the merge sort with overlapping halves |
| `TrainingScheduler.dfy`, `TrainingMaterial.dfy`, `PersonalLanguageModel.dfy` | the training protocol as interleaved steps, what a run reads and when one starts, and the object whose methods take the steps |
| `ErasedRuns.dfy`, `ErasedRecords.dfy`, `SchedulerTraces.dfy` | which runs an erase takes back, what can be published again after it, and traces from an empty disk that reach the protocol’s exceptions |
| `KeyRouting.dfy`, `KeyLaws.dfy`, `KeyEffects.dfy`, `PaintedRows.dfy`, `TextService.dfy` | what a key does, what every run of keys keeps, each key’s effect by its code, what is seen of a list and reported, and the handlers |
| `TypingSession.dfy` | typing, converting and committing, from the keyboard to what the engine is told |
| `RecentConversions.dfy` | the bounded cache against the conversion history |
| `MachineIntegers.dfy`, `Wrappers.dfy` | integer ranges and options |

The conversion laws take the spelling table as a parameter with the few properties they rest on;
`RomajiTable.RulesAreValid` gives those properties for the shipped table.

## Where the code and its comments part

- The comment beside the scan, and the self-test in tsf/Ohagey/tools/kana-selftest.cpp, promise
  さんにん for `sannin`. Fed whole, the converter keeps that promise; typed, the buffer has already
  closed `nn` into ん when the vowel comes, and the reading is さんいん (`KanaInput.SanninIsNotTyped`). When
  the two forms agree is settled exactly: at every step by `CompositionBuffer.IncrementalRefinesWhole`,
  for the final text by `FinalText.FinalTextAgrees`, and for the reading, which is what the promise is
  about and what the engine is asked, by `FinalText.FinalReadingAgrees`.
- tsf/Ohagey/OhageyProtocol.h says that `BadResponse` drops the connection. `Exchange` does; a reply
  that was exchanged and cannot be used leaves it open. That is so exactly when the reply does not parse,
  or parses under a status of 0 and carries no body of the call (`WireLaws.BadResponseIffUnusable`, said
  of the open connection in `EngineClient.EngineClient.Ask`), for instance a reply of the request’s own
  id and nothing else (`WireLaws.BareIdIsMatchedAndBad`, and `EngineClient.EngineClient.Exchange`, which
  keeps the connection for it).
- The request numbered 0, which comes after 2^32 others, cannot succeed: its reply leaves the id out and
  is matched to nothing (`WireLaws.ReplyMatchesUnlessZero`).
- A reply without a status is judged by the status of the call before it
  (`WireLaws.OutcomeIsOwnIffStatus`).
- `finishTraining` publishes without looking at the disk. An erase between the last move and that
  moment leaves a published generation without a directory (`TrainingScheduler.StepIsSafe`,
  `TrainingScheduler.StruckRunPublishesNothing`, reached in `SchedulerTraces.StrikeIsReached`); an erase
  at any other moment does not.
- The comment in `startTraining` says that personalisation is checked again after the wait. The
  settings are a value captured before it, so the check always passes: a run starts exactly when none is
  going and there is something to train on (`TrainingScheduler.QueuedRunIgnoresTheSwitch`,
  `SchedulerTraces.QueuedRunIsReached`).
- Erasing is meant to take the record away. Once it is over, lines read before it can be published again,
  without being read again, exactly when a whole generation of them is still on disk or the run in flight
  has read them and was spared (`ErasedRecords.EraseForgetsExactly`). A generation is still there when its
  removal failed, and the next process then publishes it (`SchedulerTraces.FailedRemovalIsReached`), or
  when it was moved into place after the erase listed what to remove
  (`ErasedRuns.MoveAfterListingSurvives`). A run is spared when it has not yet made its staging directory,
  or the directory is still there (`ErasedRuns.EraseSparesExactly`, which says whether that run itself
  still publishes in this process); so a commit outlives the erase that was to take it back
  (`ErasedRuns.ErasedCommitComesBack`, `SchedulerTraces.ErasedCommitIsReached`).
- A failed run does not look at the commits that came in during it
  (`TrainingScheduler.StepCatchesUp`, `SchedulerTraces.LossIsReached`).
- `_SetSelectionInPage` accepts a digit beside an empty row (`CandidatePaging.ApplyShows`,
  `KeyLaws.MissedDigitLosesTheChoice`, `TypingSession.MissedDigitIsReached`).
- The scan takes ん as `n'`, and the table has entries for `,` `.` `/` `[` and `]`, but the keystroke table
  has only the letter codes and the minus code: no other key adds to the buffer
  (`KeyLaws.OtherKeysNeverType`) except `?` and `*`, which the converter refuses and which go in as they
  are (`KeyLaws.WildcardIsAppended`).
- `_HandleCompositionInputWorker` means to empty a list left over; once a list has been shown, the
  presenter it goes through has no window any more (`KeyLaws.TypingStraysAfterAList`).

## Model

| member | source | states |
|---|---|---|
| RomajiTable.RulesAreValid | tsf/Ohagey/RomajiKana.cpp:21-75 | every spelling in the shipped table is one symbol, or consonants without a doubled letter and then one vowel, with n only first and only before a vowel or y; every kana is outside ASCII; every consonant begins a spelling |
| RomajiTable.LookupFinds | tsf/Ohagey/RomajiKana.cpp:94-101 | a spelling is found exactly when some entry has it, and then with that entry’s kana |
| SyllableTable.TableIsExpected | tsf/Ohagey/RomajiKana.cpp:21-75 | for every string, the table spells it exactly when it is a syllable, and then with the kana at the syllable’s place in the Unicode hiragana block: no entry is wrong, missing, or hidden |
| RomajiKana.FindKana | tsf/Ohagey/RomajiKana.cpp:94-101 | the search through the table returns the first entry with the spelling, or none |
| RomajiKana.CouldGrow | tsf/Ohagey/RomajiKana.cpp:105-117 | a tail is held back exactly when some longer spelling begins with it |
| RomajiKana.LongestSpelling | tsf/Ohagey/RomajiKana.cpp:224-238 | the loop from the longest length down finds the longest spelling at the front |
| RomajiKana.Turn | tsf/Ohagey/RomajiKana.cpp:180-250 | one turn of the scan: nn with its lookahead, n before an apostrophe or a consonant, the doubled consonant, the longest match, the held tail, the dropped stray |
| RomajiKana.Converter.Rebuild | tsf/Ohagey/RomajiKana.cpp:169-251 | after the loop the kana and the pending letters are those of the scan of the whole romaji |
| RomajiKana.Converter.Append | tsf/Ohagey/RomajiKana.cpp:128-143 | an accepted key joins the romaji in lower case; any other is refused and changes nothing |
| RomajiKana.Converter.Backspace | tsf/Ohagey/RomajiKana.cpp:145-150 | the last letter goes and the rest is scanned again |
| RomajiKana.Feed | tsf/Ohagey/RomajiKana.cpp:255-264 | a fresh converter fed the keys one by one holds the scan of the accepted ones |
| RomajiLaws.MatchIsUnique | tsf/Ohagey/RomajiKana.cpp:224-238 | because no spelling begins another, at most one length matches at any point, whatever follows |
| RomajiLaws.SpellingStep | tsf/Ohagey/RomajiKana.cpp:180-238 | a spelling at the front is consumed whole, alone or in front of anything |
| RomajiLaws.HeldIsHeld | tsf/Ohagey/RomajiKana.cpp:240-248 | what is held back, scanned again, is held back again |
| RomajiLaws.MatchIsStable | tsf/Ohagey/RomajiKana.cpp:224-248 | a match is not changed by one more letter at the far end |
| RomajiLaws.StrayIsDropped | tsf/Ohagey/RomajiKana.cpp:240-248 | a letter that neither is nor begins a spelling with what follows is dropped, and the scan goes on behind it |
| RomajiLaws.OneStepLaw | tsf/Ohagey/RomajiKana.cpp:169-251 | scanning s and then one more letter equals the kana of s followed by the scan of what s left pending and that letter, exactly unless an even run of n is followed by a vowel or y, or q by q |
| RomajiLaws.BreakScans | tsf/Ohagey/RomajiKana.cpp:180-250 | on a breaking keystroke the whole scan takes back the n or q before and goes on from there, nothing being held |
| CompositionBuffer.FindPendingStart | tsf/Ohagey/RomajiKana.cpp:281-289 | the loop finds the start of the trailing ASCII run: nothing after it is kana and what is before it is |
| CompositionBuffer.BufferAfterKeystroke | tsf/Ohagey/RomajiKana.cpp:292-315 | kana stay, the tail is replayed with the key, and a tail with a refused key keeps every key raw |
| CompositionBuffer.BufferDisplay | tsf/Ohagey/RomajiKana.cpp:317-321 | the kana and the display of the tail |
| CompositionBuffer.BufferReading | tsf/Ohagey/RomajiKana.cpp:323-327 | the kana and the reading of the tail, a lone n closed into ん |
| CompositionBuffer.KeystrokeLaw | tsf/Ohagey/RomajiKana.cpp:292-315 | one keystroke on a buffer that agrees with the whole-string conversion keeps it in agreement exactly unless it is one of the two breaking shapes |
| CompositionBuffer.IncrementalRefinesWhole | tsf/Ohagey/RomajiKana.cpp:169-315 | for every run of accepted keys, the buffer agrees with one converter fed the whole run at every step exactly when no key in the run breaks |
| FinalText.FinalTextAgrees | tsf/Ohagey/RomajiKana.cpp:169-315 | for every run of accepted keys, the buffer ends as the whole run is read exactly when no second q follows a q, no vowel follows n’s closed pairwise, with or without a y between, and the run does not stop at that y |
| FinalText.FinalReadingAgrees | tsf/Ohagey/RomajiKana.cpp:159-327 | what the buffer reads, which the engine is asked, is what the whole run reads exactly when no key departs; a last y left open does not matter |
| FinalText.FinalDisplayAgrees | tsf/Ohagey/RomajiKana.cpp:159-327 | what is shown agrees under the condition of the text |
| CompositionBuffer.InStepReadsAlike | tsf/Ohagey/RomajiKana.cpp:159-167 | in such a run the buffer’s display and reading are those of the whole-string converter |
| CompositionBuffer.UnambiguousKeys | tsf/Ohagey/RomajiKana.cpp:187-197 | a run without nn before a vowel or y and without qq never breaks |
| CompositionBuffer.BufferInvariant | tsf/Ohagey/RomajiKana.cpp:281-315 | under any interleaving of accepted keys and last-character deletions the buffer is kana and then nothing or the beginning of a spelling |
| CompositionBuffer.SplitIsRecovered | tsf/Ohagey/RomajiKana.cpp:279-289 | the split into kana and tail is recovered from the text alone |
| CompositionBuffer.ShownAndSent | tsf/Ohagey/RomajiKana.cpp:317-327 | of such a buffer the display is as long as the buffer, the reading is a prefix of the display without ASCII, and the tail has at most three letters |
| CompositionBuffer.RejectedKeyStaysRaw | tsf/Ohagey/RomajiKana.cpp:307-312 | once a refused key is in the ASCII tail, the next key is kept raw |
| CompositionBuffer.RejectedRunStaysRaw | tsf/Ohagey/RomajiKana.cpp:307-312 | and so is every run of ASCII keys after it |
| CompositionBuffer.RejectedAsciiIsHidden | tsf/Ohagey/RomajiKana.cpp:307-321 | a refused ASCII key is in the buffer but not on the display |
| CompositionBuffer.KeyIsShown | tsf/Ohagey/RomajiKana.cpp:292-321 | after a key the display has a character for each of the buffer’s exactly when the key is accepted or outside ASCII; a refused ASCII key leaves the display as it was, and a key outside ASCII shows the whole buffer |
| CompositionBuffer.KanaAndTail | tsf/Ohagey/RomajiKana.cpp:159-167 | kana with a syllable begun are shown as they are and read without the letters, but that a single n is shown and read as ん |
| CompositionBuffer.TakenKeys | tsf/Ohagey/RomajiKana.cpp:118-124 | the keys taken are the letters of either case, the six symbols and the apostrophe |
| FinalText.ShiftDoesNotMatter | tsf/Ohagey/RomajiKana.cpp:127-143 | capitals come to the same buffer and the same scan as small letters |
| Morae.SpelledMoraeReadBack | tsf/Ohagey/RomajiKana.cpp:21-75 | spelling out any sequence of table syllables, doubled syllables and ん, spelled n’, nn, or n, and scanning it gives exactly their kana with nothing pending; nn and n where no vowel, y or n follows, n not last |
| Morae.TypedMoraeReadBack | tsf/Ohagey/RomajiKana.cpp:292-315 | typing the same spelling key by key leaves exactly those kana in the buffer |
| Morae.DoubledRead | tsf/Ohagey/RomajiKana.cpp:88-91 | any letter from a to z but a, i, u, e, o and n, typed twice in front of its syllable, is っ and that syllable, whatever follows |
| Morae.DoubledTyped | tsf/Ohagey/RomajiKana.cpp:292-315 | the same typed key by key |
| Morae.NothingElseDoubles | tsf/Ohagey/RomajiKana.cpp:187-238 | a doubled vowel is read as two, a doubled n begins with ん, a doubled symbol or apostrophe is read or dropped one at a time |
| KanaInput.ShippedIncremental | tsf/Ohagey/RomajiKana.cpp:169-315 | the refinement law for the shipped table |
| KanaInput.ShippedRoundTrip | tsf/Ohagey/RomajiKana.cpp:21-75 | the round trip for the shipped table |
| KanaInput.ShippedBuffer | tsf/Ohagey/RomajiKana.cpp:281-327 | the buffer invariant for the shipped table |
| KanaInput.ShippedFinalText | tsf/Ohagey/RomajiKana.cpp:169-315 | the law of the final text for the shipped table |
| KanaInput.ShippedFinalReading | tsf/Ohagey/RomajiKana.cpp:159-327 | the law of the reading for the shipped table |
| KanaInput.SanninIsNotTyped | tsf/Ohagey/RomajiKana.cpp:187-197 | “sannin” reads さんにん whole, as the comment promises, and さんいん typed key by key |
| KanaInput.KitteDoubles | tsf/Ohagey/RomajiKana.cpp:217-222 | “kitte” is きって, whole and typed |
| WireFormat.VarintRoundTrip | tsf/Ohagey/OhageyWire.cpp:11-19 | any 64-bit value is read back from its varint, at most ten bytes, whatever follows |
| WireFormat.TagRoundTrip | tsf/Ohagey/OhageyWire.cpp:21-24 | any field number but 0 with any of the wire types is read back from its tag |
| WireFormat.FieldRoundTrip | tsf/Ohagey/OhageyWire.cpp:21-66 | any writable field is read back, whatever follows |
| WireFormat.DecodeInvertsEncode | tsf/Ohagey/OhageyWire.cpp:11-206 | fields written one after another are read back as those fields |
| WireFormat.DecodeConcat | tsf/Ohagey/OhageyWire.cpp:68-206 | reading after a whole message goes on as reading its continuation alone |
| WireSchema.VarintDigits | tsf/Ohagey/OhageyWire.cpp:11-19 | the i-th byte of a varint is the i-th digit to the base 128, with the top bit set on all but the last, and there are no more digits than it takes |
| WireSchema.VarintsAddUp | tsf/Ohagey/OhageyWire.cpp:79-99 | any varint, shortest or not, is read as the sum of its digits modulo 2^64, ten bytes at most |
| WireSchema.FieldBytes | tsf/Ohagey/OhageyWire.cpp:21-66 | the bytes of a field: eight times its number plus 0, 1, 2 or 5, and then a varint, eight bytes, bytes behind their length, or four bytes |
| WireSchema.EncodingExamples | tsf/Ohagey/OhageyWire.cpp:11-57 | 150 as field 1, “testing” as field 2, and -2, as the format’s own documentation encodes them |
| WireSchema.TagsRefused | tsf/Ohagey/OhageyWire.cpp:101-206 | a tag of field 0 or of the types 6 and 7 is refused, and so is a field of the types 3 and 4 |
| WireSchema.LowBitsKept | tsf/Ohagey/OhageyWire.cpp:127-135 | an int32 is read from the low 32 bits |
| WireIO.ByteBuffer.WriteVarint | tsf/Ohagey/OhageyWire.cpp:11-19 | the loop appends the varint |
| WireIO.ByteBuffer.WriteTag | tsf/Ohagey/OhageyWire.cpp:21-24 | appends the tag of a field |
| WireIO.ByteBuffer.WriteInt32 | tsf/Ohagey/OhageyWire.cpp:33-41 | appends the field sign-extended to 64 bits, or nothing for 0 |
| WireIO.ByteBuffer.WriteUInt32 | tsf/Ohagey/OhageyWire.cpp:26-31 | appends the field, or nothing for 0 |
| WireIO.ByteBuffer.WriteBool | tsf/Ohagey/OhageyWire.cpp:43-48 | appends the field, or nothing for false |
| WireIO.ByteBuffer.WriteString | tsf/Ohagey/OhageyWire.cpp:50-57 | appends a length-delimited field, or nothing for empty text |
| WireIO.ByteBuffer.WriteMessage | tsf/Ohagey/OhageyWire.cpp:59-64 | appends a length-delimited field even when empty |
| WireIO.VarintTurn | tsf/Ohagey/OhageyWire.cpp:79-99 | one turn of the reading loop accounts for one group of the varint |
| WireIO.Reader.ReadVarint | tsf/Ohagey/OhageyWire.cpp:79-99 | reads exactly the varint at the cursor, or latches failure on a cut or overlong one |
| WireIO.Reader.ReadTag | tsf/Ohagey/OhageyWire.cpp:101-117 | refuses field 0 and wire types above 5 |
| WireIO.Reader.ReadInt32 | tsf/Ohagey/OhageyWire.cpp:127-135 | truncates what it reads to 32 bits |
| WireIO.Reader.ReadUInt32 | tsf/Ohagey/OhageyWire.cpp:119-125 | keeps the low 32 bits |
| WireIO.Reader.ReadBool | tsf/Ohagey/OhageyWire.cpp:137-143 | any value but 0 is true |
| WireIO.Reader.ReadMessage | tsf/Ohagey/OhageyWire.cpp:159-172 | hands out the bytes after the length, or latches failure when they are not all there |
| WireIO.Reader.SkipField | tsf/Ohagey/OhageyWire.cpp:174-206 | steps over wire types 0, 1, 2 and 5 and refuses groups |
| WireParsers.ParseSegment | tsf/Ohagey/OhageyEngineClient.cpp:402-425 | the loop reads what the fields say one by one, unknown ones skipped |
| WireParsers.ParseCandidate | tsf/Ohagey/OhageyEngineClient.cpp:427-463 | the same for candidates, their segments appended in order |
| WireParsers.ParseConvert | tsf/Ohagey/OhageyEngineClient.cpp:465-493 | the same for conversion results |
| WireParsers.ParseStatus | tsf/Ohagey/OhageyEngineClient.cpp:371-400 | the same for a status |
| WireParsers.ParsePing | tsf/Ohagey/OhageyEngineClient.cpp:495-524 | the same for a ping |
| WireParsers.ReadResponse | tsf/Ohagey/OhageyEngineClient.cpp:532-573 | the outcome and the state after a reply: malformed, refused, without a body, or fine |
| WireParsers.FindRequestId | tsf/Ohagey/OhageyEngineClient.cpp:342-364 | the first request id in a reply |
| WireLaws.ParseIsFold | tsf/Ohagey/OhageyEngineClient.cpp:402-463 | parsing is the fold of the decoded fields up to the first refused one |
| WireLaws.SegmentReadBack | tsf/Ohagey/OhageyEngineClient.cpp:402-425 | every segment is read back as written |
| WireLaws.CandidateReadBack | tsf/Ohagey/OhageyEngineClient.cpp:427-463 | every candidate, any score, any segments, is read back as written |
| WireLaws.ResultReadBack | tsf/Ohagey/OhageyEngineClient.cpp:465-493 | every list of candidates with its flag is read back as written and in order |
| WireLaws.StatusReadBack | tsf/Ohagey/OhageyEngineClient.cpp:371-400 | every status is read back as written |
| WireLaws.ConvertReplyReadBack | tsf/Ohagey/OhageyEngineClient.cpp:526-573 | a reply with a status is judged by it alone, its result arrives whole, its id is found unless it is 0 |
| WireLaws.NoStatusKeepsOld | tsf/Ohagey/OhageyEngineClient.cpp:532-573 | a reply without a status leaves the one the previous call set |
| WireLaws.OutcomeIsOwnIffStatus | tsf/Ohagey/OhageyEngineClient.cpp:532-573 | for a reply that parses, the outcome ignores the previous status exactly when the reply carries one |
| WireLaws.BadResponseIffUnusable | tsf/Ohagey/OhageyEngineClient.cpp:532-573 | a reply is a bad response exactly when it does not parse, or its status, its own or else the previous one, is 0 and it carries no body of the call |
| WireSchema.ReplyIsByNumber | tsf/Ohagey/OhageyEngineClient.cpp:19-24 | a reply with the id in field 1, the status in field 2 and a body in field 3, 4, 5 or 6 answers a conversion, a commit, a registered word or a ping and no other call, and succeeds exactly when the code is 0 |
| WireSchema.SegmentByNumber | tsf/Ohagey/OhageyEngineClient.cpp:402-425 | a segment has its text in field 1 and its reading in field 2 |
| WireSchema.CandidateByNumber | tsf/Ohagey/OhageyEngineClient.cpp:427-463 | a candidate has text, reading, score and segments in the fields 1 to 4 |
| WireSchema.ConvertByNumber | tsf/Ohagey/OhageyEngineClient.cpp:465-493 | a result has its candidates in fields 1 and the flag in field 2 |
| WireSchema.StatusByNumber | tsf/Ohagey/OhageyEngineClient.cpp:371-400 | a status has its code in field 1 and its message in field 2 |
| WireSchema.PingByNumber | tsf/Ohagey/OhageyEngineClient.cpp:495-524 | a ping has version, model and backend in the fields 1 to 3 |
| WireSchema.FirstIdDecides | tsf/Ohagey/OhageyEngineClient.cpp:342-364 | the first id of a reply decides, and only its low 32 bits |
| WireLaws.BareIdIsMatchedAndBad | tsf/Ohagey/OhageyEngineClient.cpp:342-366 | a reply of the caller’s id alone is matched, so the pipe stays open, and is a bad response |
| WireLaws.ReplyMatchesUnlessZero | tsf/Ohagey/OhageyEngineClient.cpp:342-366 | a reply is matched to the request of its number and no other, and the one numbered 0 to none |
| WireLaws.NewerReplyReadsAlike | tsf/Ohagey/OhageyEngineClient.cpp:371-573 | unknown fields at any boundary and any level change neither the outcome, the state, nor the request id |
| WireLaws.InsertedUnknown | tsf/Ohagey/OhageyWire.cpp:174-206 | bytes of unknown fields put in at a field boundary are such a change, even before malformed bytes |
| WireLaws.GrownInside | tsf/Ohagey/OhageyEngineClient.cpp:402-493 | so is a nested message that has itself grown, with its length rewritten |
| WireLaws.CandidateParsesAlike | tsf/Ohagey/OhageyEngineClient.cpp:427-463 | a grown candidate parses as the one it grew from |
| WireLaws.ConvertParsesAlike | tsf/Ohagey/OhageyEngineClient.cpp:465-493 | so does a grown result |
| WireSerializer.WriteCandidate | tsf/Ohagey/OhageyWire.cpp:26-66 | the writers, called field by field, produce the bytes of the candidate |
| WireSerializer.WriteResult | tsf/Ohagey/OhageyWire.cpp:26-66 | and of the whole result |
| EngineClient.HeaderReadsBack | tsf/Ohagey/OhageyEngineClient.cpp:58-75 | a length is read back from its four little-endian bytes |
| EngineClient.FramesAreUnique | tsf/Ohagey/OhageyEngineClient.cpp:58-75 | a byte stream is cut into frames in one way |
| EngineClient.RequestReadBack | tsf/Ohagey/OhageyEngineClient.cpp:576-604 | the engine finds in a request its id unless 0, its kind and its body |
| WireSchema.ConvertRequestByNumber | tsf/Ohagey/OhageyEngineClient.cpp:576-604 | a conversion request has its id in field 1 and, in field 2, reading, number and context in the fields 1 to 3; what is 0 or empty is left out |
| WireSchema.CommitRequestByNumber | tsf/Ohagey/OhageyEngineClient.cpp:606-625 | a commit request has its id in field 1 and, in field 3, reading, text and learning in the fields 1 to 3 |
| WireSchema.HeaderIsLittleEndian | tsf/Ohagey/OhageyEngineClient.cpp:58-75 | the four header bytes are the length, least first |
| EngineClient.EngineClient.Connect | tsf/Ohagey/OhageyEngineClient.cpp:200-255 | an open connection is left alone; a new one starts with nothing exchanged |
| EngineClient.EngineClient.WriteAll | tsf/Ohagey/OhageyEngineClient.cpp:266-280 | short writes are resumed until every byte has gone, or it fails |
| EngineClient.EngineClient.ReadAll | tsf/Ohagey/OhageyEngineClient.cpp:282-296 | short reads are resumed until every byte has come, or it fails |
| EngineClient.EngineClient.Exchange | tsf/Ohagey/OhageyEngineClient.cpp:298-366 | success delivers a reply under the caller’s id and keeps the stream aligned; anything else closes the connection; on a pipe that does not break it stays open exactly when the reply carries that id |
| EngineClient.EngineClient.Envelope | tsf/Ohagey/OhageyEngineClient.cpp:588-593 | the request around a body |
| EngineClient.EngineClient.Ask | tsf/Ohagey/OhageyEngineClient.cpp:588-604 | ids advance modulo 2^32, the status is kept, and an open connection means the reply was read as the reply says: a bad response exactly when the reply is unusable |
| EngineClient.EngineClient.Convert | tsf/Ohagey/OhageyEngineClient.cpp:576-604 | the conversion request sent is the one asked for, the result is what its reply says, and a bad response on an open connection is an unusable reply |
| EngineClient.EngineClient.Commit | tsf/Ohagey/OhageyEngineClient.cpp:606-625 | the same for a commit |
| EngineClient.CountsAgree | tsf/Ohagey/OhageyEngineClient.cpp:298-366 | on an open connection, however the streams are cut into frames, as many whole replies came in as requests went out |
| CandidatePaging.PageCountIsRight | tsf/SampleIME/CandidateWindow.cpp:1382-1430 | for any n >= p >= 1 and selection < n the four formulas give pages that start at 0, grow by at most p and then by exactly p, cover the list, have at most one start past it, and include the selection |
| CandidatePaging.CurrentPage | tsf/SampleIME/CandidateWindow.cpp:1289-1328 | no page up to it but the first starts past the selection, and the next one does |
| CandidatePaging.PageFrom | tsf/SampleIME/CandidateWindow.cpp:1313-1324 | where the search for the page stops |
| CandidatePaging.PageIs | tsf/SampleIME/CandidateWindow.cpp:1313-1324 | the page found is the one page whose rows hold the selection |
| CandidatePaging.PageHoldsSelection | tsf/SampleIME/CandidateWindow.cpp:1289-1328 | it holds the selection within its p rows |
| CandidatePaging.ListSetShows | tsf/SampleIME/CandidateListUIPresenter.cpp:881-898 | a new list is laid out and its first item selected |
| CandidatePaging.RegroupedShows | tsf/SampleIME/CandidateWindow.cpp:1370-1437 | laying out around the selection keeps the layout right, short lists included |
| CandidatePaging.ApplyShows | tsf/SampleIME/CandidateWindow.cpp:1027-1223 | every operation keeps the pages laid out, and the selection in the list exactly unless a digit names an empty row |
| CandidatePaging.ApplyLays | tsf/SampleIME/CandidateWindow.cpp:1027-1223 | wherever the selection is, past the list too, every operation keeps the pages laid out over the same list |
| CandidatePaging.RunShows | tsf/SampleIME/CandidateWindow.cpp:1027-1223 | over every run of moves, selections, page turns, scrolls, digits and paints from a selection in the list, it stays in the list throughout exactly when no digit is pressed beside an empty row, and then the page found holds it |
| CandidatePaging.NewListShows | tsf/SampleIME/CandidateListUIPresenter.cpp:852-898 | so from every list put up |
| CandidatePaging.PaintingIsFelt | tsf/SampleIME/CandidateWindow.cpp:1524-1583 | twelve items, End, Page Up: the second item, or the tenth when the list was painted in between |
| CandidatePaging.FillsLastPage | tsf/SampleIME/CandidateWindow.cpp:1463-1485 | only the last page, never the first, can have empty rows to fill |
| CandidatePaging.PaintShows | tsf/SampleIME/CandidateWindow.cpp:1524-1583 | painting restores the selection and draws it; a page it fills starts a page before the end |
| CandidatePaging.PaintDrawsFrom | tsf/SampleIME/CandidateWindow.cpp:1463-1583 | painting draws from the start of the selection’s page, or from a page before the end when that page is the last, runs past the end, and may be filled |
| CandidatePaging.MoveDrawsFrom | tsf/SampleIME/CandidateWindow.cpp:1058-1075 | after a move by lines the page is drawn as it stands, short or not |
| CandidatePaging.SelectDrawsFrom | tsf/SampleIME/CandidateWindow.cpp:1083-1111 | a selected item is drawn first, or a page before the end when less than a page is left |
| CandidatePaging.PageKeepsRows | tsf/SampleIME/CandidateWindow.cpp:1129-1173 | turning the page keeps empty rows exactly when the selection headed its page at a multiple of the page size, or they were kept before |
| CandidatePaging.ScrollKeepsRows | tsf/SampleIME/CandidateWindow.cpp:1181-1223 | a line scroll moves the selection by the offset, and on a short last page keeps its empty rows |
| CandidatePaging.DigitNamesItem | tsf/SampleIME/CandidateWindow.cpp:1027-1050 | a digit selects the item that many rows below the start of the page |
| CandidatePaging.PageMoveLands | tsf/SampleIME/CandidateWindow.cpp:1129-1173 | turning pages keeps the row or stops at the last item, and reaches the page asked for exactly when it has an item and, for a short first page, the row is on it |
| CandidatePaging.SelectedHeadsPage | tsf/SampleIME/CandidateWindow.cpp:1083-1111 | a selected item heads its page when the list fills one |
| CandidatePaging.ScrollLands | tsf/SampleIME/CandidateWindow.cpp:1181-1223 | a line scroll stays in a short last page or heads the new one |
| CandidatePaging.DigitSelectsDrawnRow | tsf/SampleIME/CandidateWindow.cpp:1027-1050 | the digit painted beside an item selects that item |
| CandidatePaging.PressesWalk | tsf/SampleIME/CandidateWindow.cpp:1058-1075 | k moves down lead k places down or to the last item, whatever else stays |
| CandidateWindows.SelectionIsPainted | tsf/SampleIME/CandidateWindow.cpp:720-737 | exactly one painted row is the selected one and it carries the selected text |
| PaintedRows.RowsReadTheItems | tsf/SampleIME/CandidateWindow.cpp:714-737 | the rows painted read the items from the drawn one on, in order, as many as page and list have room for, the selected one marked |
| PaintedRows.DigitReportsShownRow | tsf/SampleIME/CandidateListUIPresenter.cpp:249-266 | a digit reports the text painted in its row, and an empty text not at all |
| PaintedRows.EnterReportsShownRow | tsf/SampleIME/CandidateListUIPresenter.cpp:32-84 | Enter reports the text of the row painted as selected |
| CandidateWindows.CandidateWindow.ClearList | tsf/SampleIME/CandidateWindow.cpp:932-944 | list, selection and pages go, the paint flag stays |
| CandidateWindows.CandidateWindow.SetPageIndex | tsf/SampleIME/CandidateWindow.cpp:1264-1281 | the page array is copied |
| CandidateWindows.CandidateWindow.SetPageIndexWithScrollInfo | tsf/SampleIME/CandidateListUIPresenter.cpp:881-898 | the loop fills in plain page starts, one more than the full pages |
| CandidateWindows.CandidateWindow.SetText | tsf/SampleIME/CandidateListUIPresenter.cpp:852-898 | a list goes behind what the window has, with pages for the new list alone; in an empty window it is shown from its first item |
| CandidateWindows.CandidateWindow.GetCurrentPage | tsf/SampleIME/CandidateWindow.cpp:1289-1362 | the loop finds the current page, or nothing without pages |
| CandidateWindows.CandidateWindow.CurrentPageHasEmptyItems | tsf/SampleIME/CandidateWindow.cpp:1463-1485 | in 32 bits, with the wrap of a short list, the test for empty rows |
| CandidateWindows.CandidateWindow.AdjustPageIndexForSelection | tsf/SampleIME/CandidateWindow.cpp:1370-1437 | the array built by the loop is the layout around the selection |
| CandidateWindows.CandidateWindow.MoveSelection | tsf/SampleIME/CandidateWindow.cpp:1058-1075 | one unsigned comparison refuses both ends |
| CandidateWindows.CandidateWindow.SetSelection | tsf/SampleIME/CandidateWindow.cpp:1083-1111 | -1 is the last item; out of range changes nothing |
| CandidateWindows.CandidateWindow.MovePage | tsf/SampleIME/CandidateWindow.cpp:1129-1173 | the page turn, from a selection past the list as well |
| CandidateWindows.CandidateWindow.SetSelectionOffset | tsf/SampleIME/CandidateWindow.cpp:1181-1223 | the line scroll |
| CandidateWindows.CandidateWindow.SetSelectionInPage | tsf/SampleIME/CandidateWindow.cpp:1027-1050 | the digit, which can take the selection past the list |
| CandidateWindows.CandidateWindow.GetSelectedCandidateString | tsf/SampleIME/CandidateWindow.cpp:1003-1019 | the selected text, or none past the list |
| CandidateWindows.CandidateWindow.AdjustPageIndex | tsf/SampleIME/CandidateWindow.cpp:1524-1583 | the rewrite before painting; its branch for the first page is never taken |
| CandidateWindows.CandidateWindow.Paint | tsf/SampleIME/CandidateWindow.cpp:714-737 | the rows drawn are the items from the drawn start on, each with its own text, at most a page |
| CandidateSort.SortedStableIsUnique | tsf/SampleIME/BaseDictionaryEngine.cpp:36-42 | a list has one sorted stable arrangement |
| CandidateSort.ArrangedIsSorted | tsf/SampleIME/BaseDictionaryEngine.cpp:36-42 | insertion from the last to the first gives it |
| CandidateSort.StableIsPermutation | tsf/SampleIME/BaseDictionaryEngine.cpp:36-42 | a stable arrangement is a permutation |
| CandidateSort.MergedSorts | tsf/SampleIME/BaseDictionaryEngine.cpp:62-86 | merging sorted lists gives a sorted list |
| CandidateSort.MergedClass | tsf/SampleIME/BaseDictionaryEngine.cpp:62-86 | and keeps elements that compare equal in order, left ones first |
| CandidateSort.OverlappedIsArranged | tsf/SampleIME/BaseDictionaryEngine.cpp:50-93 | sorting two ranges that share an element and merging all but the last element sorts the whole, stably |
| CandidateSort.Merge | tsf/SampleIME/BaseDictionaryEngine.cpp:59-86 | the merge loop over half-open ranges collects the merged list |
| CandidateSort.CopyBack | tsf/SampleIME/BaseDictionaryEngine.cpp:88-92 | the copy writes it back and nothing else |
| CandidateSort.MergeSort | tsf/SampleIME/BaseDictionaryEngine.cpp:46-110 | any range is arranged in place and the rest untouched |
| CandidateSort.SortListItemByFindKeyCode | tsf/SampleIME/BaseDictionaryEngine.cpp:34-37 | for any total preorder of keys the list ends up sorted by key, stably, a permutation of what it was |
| TrainingScheduler.CommitsPerTrainingRun | engine/Sources/OhageyEngineCore/Personalization.swift:304-307 | between 3 and 20, and in between one commit for every fifty lines |
| TrainingScheduler.NewestIsNewest | engine/Sources/OhageyEngineCore/Personalization.swift:231-241 | the generation chosen is the largest with all its files, none only if there is none |
| TrainingScheduler.StepIsSafe | engine/Sources/OhageyEngine/PersonalLanguageModel.swift:472-645 | every step of main actor, run, erase or restart keeps at most one run in flight and what is published present and whole, exactly unless an erase removes the directory a run has moved and not yet published |
| TrainingScheduler.StepKeepsOneRun | engine/Sources/OhageyEngine/PersonalLanguageModel.swift:472-554 | at most one run in flight, without exception |
| TrainingScheduler.RestartIsSafe | engine/Sources/OhageyEngine/PersonalLanguageModel.swift:97-120 | whatever is on disk, a new process starts safe, with the newest whole generation published |
| TrainingScheduler.EveryRunIsSafe | engine/Sources/OhageyEngine/PersonalLanguageModel.swift:97-703 | from any disk, over every interleaving without such a strike, the safety holds |
| TrainingScheduler.StruckRunPublishesNothing | engine/Sources/OhageyEngine/PersonalLanguageModel.swift:608-645 | after a strike, whatever happens before its end, the run publishes a generation that is not there |
| SchedulerTraces.MovedRunIsStruck | engine/Sources/OhageyEngine/PersonalLanguageModel.swift:672-703 | switching off between a run’s move and its publication strikes it, in every such state |
| SchedulerTraces.StrikeIsReached | engine/Sources/OhageyEngine/PersonalLanguageModel.swift:97-703 | a strike reached from a machine that has never run |
| TrainingScheduler.StepCatchesUp | engine/Sources/OhageyEngine/PersonalLanguageModel.swift:318-332 | every step leaves fewer commits uncounted than ask for a run, unless one is in flight or queued; a failed run breaks this exactly when enough came in during it |
| TrainingScheduler.EveryRunCatchesUp | engine/Sources/OhageyEngine/PersonalLanguageModel.swift:318-663 | from any disk, over every interleaving without such a failed run |
| SchedulerTraces.LossIsReached | engine/Sources/OhageyEngine/PersonalLanguageModel.swift:562-663 | such a failed run reached from a machine that has never run, three commits left with nothing to learn them |
| TrainingScheduler.StepSettles | engine/Sources/OhageyEngine/PersonalLanguageModel.swift:455-492 | runs and queued runs were asked for with personalisation on and the base ready |
| TrainingScheduler.QueuedRunIgnoresTheSwitch | engine/Sources/OhageyEngine/PersonalLanguageModel.swift:480-488 | the check after the wait sees the settings captured before it: a run starts exactly when none is going and there is something to train on, personalisation on or off |
| SchedulerTraces.QueuedRunIsReached | engine/Sources/OhageyEngine/PersonalLanguageModel.swift:472-492 | a run queued, personalisation switched off, the record erased, and the run started, from a machine that has never run |
| TrainingScheduler.NoFollowUpWhenOff | engine/Sources/OhageyEngine/PersonalLanguageModel.swift:647-662 | a run that finishes after the switch-off starts no other |
| ErasedRuns.StepStaysSound | engine/Sources/OhageyEngine/PersonalLanguageModel.swift:562-645 | every step, strikes included, keeps a checked or cleared staging directory, and a moved one, whole and of the run’s own lines, if it is there |
| ErasedRuns.EveryRunIsSound | engine/Sources/OhageyEngine/PersonalLanguageModel.swift:97-703 | so from any disk over every interleaving |
| ErasedRuns.UndisturbedPublishes | engine/Sources/OhageyEngine/PersonalLanguageModel.swift:562-645 | a run left alone publishes exactly the lines it was given |
| ErasedRuns.CommitIsLearned | engine/Sources/OhageyEngine/PersonalLanguageModel.swift:318-332 | the commit that reaches the threshold starts a run which, left alone, publishes a model of lines ending with it |
| TrainingScheduler.RepeatedAt | engine/Sources/OhageyEngineCore/Personalization.swift:382-386 | the training lines are the words in order, forty of each |
| TrainingScheduler.Trimmed | engine/Sources/OhageyEngineCore/Personalization.swift:414-418 | at most ten thousand lines, the newest ones |
| TrainingMaterial.BeginReadsAll | engine/Sources/OhageyEngine/PersonalLanguageModel.swift:494-554 | a run reads every registered word forty times, every import, and, when active, the newest ten thousand lines of the record, in this order and nothing else; with nothing to read there is no run |
| TrainingMaterial.EverythingIsRead | engine/Sources/OhageyEngine/PersonalLanguageModel.swift:510-512 | so each word stands at least forty times among its lines, and each import and line of the record at least once |
| TrainingMaterial.AskedRunStarts | engine/Sources/OhageyEngine/PersonalLanguageModel.swift:318-492 | what asks for a run: a commit at the threshold, changed words, changed imports, material without a model, the queued run, the end of an erase, a success with enough commits behind it; each starts one that reads all there is |
| TrainingMaterial.AskedForNothing | engine/Sources/OhageyEngine/PersonalLanguageModel.swift:513-515 | with nothing to read none starts |
| TrainingMaterial.AskedRunWaits | engine/Sources/OhageyEngine/PersonalLanguageModel.swift:472-492 | in a cooldown a run is queued instead |
| TrainingMaterial.QueueKeepsTheFirst | engine/Sources/OhageyEngine/PersonalLanguageModel.swift:476-479 | a run queued already stays as it was queued |
| TrainingMaterial.NothingElseStarts | engine/Sources/OhageyEngine/PersonalLanguageModel.swift:318-663 | nothing else starts or queues a run |
| TrainingMaterial.AskedRunPublishes | engine/Sources/OhageyEngine/PersonalLanguageModel.swift:494-645 | left alone, the run publishes a model of all there was to read |
| TrainingMaterial.RecordCounts | engine/Sources/OhageyEngine/PersonalLanguageModel.swift:318-332 | a commit is kept and counted while personalisation is on and the base is ready, and is nothing otherwise |
| TrainingMaterial.NewMaterialIsKept | engine/Sources/OhageyEngine/PersonalLanguageModel.swift:415-464 | new words and imports are taken in whether a run is asked for or not |
| TrainingMaterial.FinishReplaces | engine/Sources/OhageyEngine/PersonalLanguageModel.swift:608-645 | a success replaces the generation before, a failure leaves it |
| TrainingMaterial.WholeByName | engine/Sources/OhageyEngineCore/Personalization.swift:214-241 | a generation is whole when its directory has the five files of a model, by name |
| TrainingMaterial.CheckNeedsAllFiles | engine/Sources/OhageyEngine/PersonalLanguageModel.swift:587-595 | a run passes its check exactly when its staging directory has all five |
| TrainingMaterial.FailureCleansUp | engine/Sources/OhageyEngine/PersonalLanguageModel.swift:568-605 | a run that gives up leaves no staging directory |
| TrainingMaterial.SwitchErases | engine/Sources/OhageyEngine/ConversionService.swift:79-89 | switching off what was on begins an erase; nothing else does |
| TrainingMaterial.EraseForgets | engine/Sources/OhageyEngine/PersonalLanguageModel.swift:684-702 | an erase forgets the record, the published generation and the counts, and nothing else |
| TrainingMaterial.RestartReads | engine/Sources/OhageyEngine/PersonalLanguageModel.swift:97-120 | what a new process takes over from the disk, for each way startup can go |
| ErasedRuns.BeyondNeverPublishes | engine/Sources/OhageyEngine/PersonalLanguageModel.swift:587-645 | a run whose directory has gone between its making and its publication publishes its lines in no interleaving |
| ErasedRuns.EraseSparesExactly | engine/Sources/OhageyEngine/PersonalLanguageModel.swift:672-703 | at the end of an erase the run in flight can still publish its lines exactly when it had not made its directory, or has it, staged or moved, still there |
| ErasedRuns.ErasedCommitComesBack | engine/Sources/OhageyEngine/PersonalLanguageModel.swift:318-703 | a commit recorded, read by the run it starts, and erased, is then published as the last line of a model |
| ErasedRuns.MoveAfterListingSurvives | engine/Sources/OhageyEngine/PersonalLanguageModel.swift:597-703 | so is a model whose directory moves into place after the erase has listed what to remove, every removal succeeding |
| ErasedRecords.StepKeepsNoMore | engine/Sources/OhageyEngine/PersonalLanguageModel.swift:97-703 | no step, restart included, leaves a model or a spared run of some lines where there was none, unless it reads them anew |
| ErasedRecords.LeftComesBack | engine/Sources/OhageyEngine/PersonalLanguageModel.swift:97-120 | a whole generation left on disk, the newest or not, can be published by a later process |
| ErasedRecords.EraseForgetsExactly | engine/Sources/OhageyEngine/PersonalLanguageModel.swift:672-703 | at the end of an erase any lines can be published again, restarts allowed and nothing read anew, exactly when a whole generation of them is left or a run that read them was spared |
| ErasedRecords.EraseForgetsAll | engine/Sources/OhageyEngine/PersonalLanguageModel.swift:672-703 | so nothing comes back exactly when no whole generation is left and no run was spared |
| SchedulerTraces.ErasedCommitIsReached | engine/Sources/OhageyEngine/PersonalLanguageModel.swift:97-703 | such a commit reached from a machine that has never run |
| SchedulerTraces.FailedRemovalIsReached | engine/Sources/OhageyEngine/PersonalLanguageModel.swift:97-703 | three commits learned, erased with a removal that fails, and published again by the next process, from a machine that has never run |
| PersonalLanguageModels.NewestCompleteGeneration | engine/Sources/OhageyEngineCore/Personalization.swift:231-241 | largest first, each tried for completeness, finds the newest whole generation |
| PersonalLanguageModels.TrainingLines | engine/Sources/OhageyEngineCore/Personalization.swift:382-386 | every registered word forty times |
| PersonalLanguageModels.PersonalLanguageModel.Prepare | engine/Sources/OhageyEngine/PersonalLanguageModel.swift:97-120 | startup, with each way it can go wrong |
| PersonalLanguageModels.PersonalLanguageModel.DiscardPartialGenerations | engine/Sources/OhageyEngine/PersonalLanguageModel.swift:214-223 | of what is listed only the unfinished directories go, and of those all that can be removed |
| PersonalLanguageModels.PersonalLanguageModel.ReadCorpus | engine/Sources/OhageyEngine/PersonalLanguageModel.swift:351-363 | the newest ten thousand lines, written back when there were more |
| PersonalLanguageModels.PersonalLanguageModel.BeginTraining | engine/Sources/OhageyEngine/PersonalLanguageModel.swift:494-554 | one run over words, import and corpus, or none when there is nothing to train on |
| PersonalLanguageModels.PersonalLanguageModel.StartTraining | engine/Sources/OhageyEngine/PersonalLanguageModel.swift:472-492 | during a cooldown one run is queued |
| PersonalLanguageModels.PersonalLanguageModel.Record | engine/Sources/OhageyEngine/PersonalLanguageModel.swift:318-332 | a commit is counted and starts a run at the threshold unless one is going |
| PersonalLanguageModels.PersonalLanguageModel.UpdateRegisteredWords | engine/Sources/OhageyEngine/PersonalLanguageModel.swift:455-464 | changed words ask for a run |
| PersonalLanguageModels.PersonalLanguageModel.RefreshImportedText | engine/Sources/OhageyEngine/PersonalLanguageModel.swift:415-419 | changed imports ask for a run |
| PersonalLanguageModels.PersonalLanguageModel.TrainIfNothingPublished | engine/Sources/OhageyEngine/PersonalLanguageModel.swift:440-448 | material without a model asks for a run |
| PersonalLanguageModels.PersonalLanguageModel.RunDeferredTask | engine/Sources/OhageyEngine/PersonalLanguageModel.swift:480-488 | the queued run, once its wait is over |
| PersonalLanguageModels.PersonalLanguageModel.UpdateSettings | engine/Sources/OhageyEngine/ConversionService.swift:79-89 | switching off begins an erase of the directories then listed |
| PersonalLanguageModels.PersonalLanguageModel.EraseOne | engine/Sources/OhageyEngine/PersonalLanguageModel.swift:676-683 | one directory of the listing goes, or fails to |
| PersonalLanguageModels.PersonalLanguageModel.FinishErase | engine/Sources/OhageyEngine/PersonalLanguageModel.swift:684-702 | corpus, published generation and counts go |
| PersonalLanguageModels.PersonalLanguageModel.StageFolder | engine/Sources/OhageyEngine/PersonalLanguageModel.swift:568-573 | the staging directory is made afresh |
| PersonalLanguageModels.PersonalLanguageModel.CheckComplete | engine/Sources/OhageyEngine/PersonalLanguageModel.swift:589-595 | an incomplete set is not published |
| PersonalLanguageModels.PersonalLanguageModel.MoveIntoPlace | engine/Sources/OhageyEngine/PersonalLanguageModel.swift:597-605 | the directory moves as a unit or the run fails |
| PersonalLanguageModels.PersonalLanguageModel.FinishTraining | engine/Sources/OhageyEngine/PersonalLanguageModel.swift:608-663 | publication, removal of the generation before, and the follow-up run |
| KeyLaws.Routed | tsf/SampleIME/CompositionProcessorEngine.cpp:1585-1822 | which functions a key can be routed to with no list up, and with one |
| KeyRouting.RowOf | tsf/SampleIME/CompositionProcessorEngine.cpp:1525-1543 | digits 1 to 9 and 0 name the ten rows |
| KeyLaws.PressSettles | tsf/SampleIME/KeyHandler.cpp:55-103 | every key press keeps the two modes, the list answering the last question, and one commit at most for each composition |
| KeyLaws.EveryRunIsSteady | tsf/SampleIME/KeyHandler.cpp:55-687 | so over every run of keys and paints from activation; the other modes are never reached |
| KeyLaws.RepaintKeeps | tsf/SampleIME/CandidateWindow.cpp:1524-1583 | painting changes the pages of a list and nothing else |
| KeyLaws.EndsEmpty | tsf/SampleIME/KeyHandler.cpp:55-103 | every completion or cancellation leaves no list, an empty buffer and no composition |
| KeyEffects.ClosedDoesNothing | tsf/SampleIME/KeyEventSink.cpp:68-140 | with the keyboard closed no key does anything |
| KeyEffects.LetterTypes | tsf/SampleIME/KeyHandler.cpp:113-189 | a letter goes into the buffer, begins a composition if there is none, and the composition reads the display |
| KeyEffects.BackspaceShortens | tsf/SampleIME/KeyHandler.cpp:625-687 | Backspace takes the last character, and the composition with the only one |
| KeyEffects.EscapeClears | tsf/SampleIME/KeyHandler.cpp:94-103 | Escape takes the composition away unreported, list or no list |
| KeyEffects.CursorKeysKeep | tsf/SampleIME/KeyStateCategory.cpp:230-294 | the cursor and paging keys leave a composition alone |
| KeyEffects.EnterEnds | tsf/SampleIME/KeyHandler.cpp:310-435 | Enter reports what is shown under its reading and ends the composition |
| KeyEffects.OtherCharactersEnd | tsf/SampleIME/CompositionProcessorEngine.cpp:1585-1822 | a key for nothing here that types a character ends the composition as Enter does, list or no list |
| KeyEffects.PunctuationClears | tsf/SampleIME/KeyStateCategory.cpp:230-294 | punctuation and wide characters take the composition away unreported |
| KeyEffects.NothingToDo | tsf/SampleIME/CompositionProcessorEngine.cpp:1585-1822 | without a composition the editing keys find nothing to do |
| KeyEffects.SpaceWithoutAnswer | tsf/SampleIME/KeyHandler.cpp:540-617 | without candidates the question is all that happens |
| KeyEffects.SpaceLists | tsf/SampleIME/KeyHandler.cpp:540-617 | with candidates all of them are listed, the first one selected |
| KeyEffects.LetterOverAList | tsf/SampleIME/KeyStateCategory.cpp:309-315 | a letter over a list reports the selected candidate and begins the next composition |
| KeyEffects.EnterChooses | tsf/SampleIME/CandidateListUIPresenter.cpp:32-84 | Enter puts the selected candidate into the document and reports it |
| KeyEffects.LineKeysMove | tsf/SampleIME/CandidateListUIPresenter.cpp:1207-1244 | Space, Down, Up, Home and End, by code, move the selection as they should |
| KeyEffects.PageKeysTurn | tsf/SampleIME/CandidateListUIPresenter.cpp:1207-1244 | Page Down and Page Up, by code, turn the page and keep the row |
| KeyLaws.PressTells | tsf/SampleIME/KeyHandler.cpp:310-435 | a key sends at most one message, about the reading in the buffer before it, and a commit ends its composition |
| KeyLaws.ReadingIsTheOneConverted | tsf/SampleIME/CandidateListUIPresenter.cpp:32-84 | however a converted composition ends, at most one commit reports it, under the reading last sent to be converted |
| KeyLaws.SpaceConverts | tsf/SampleIME/KeyHandler.cpp:540-617 | the conversion key sends the reading and puts up the list of the answer |
| KeyLaws.SpaceAsks | tsf/SampleIME/KeyHandler.cpp:540-617 | the question is asked exactly when there is a reading and the engine is reached |
| KeyLaws.SpacesWalk | tsf/SampleIME/KeyStateCategory.cpp:317-337 | pressed again, paints in between, it walks down the list or stops at its end; buffer, mode and log stay |
| KeyLaws.EnterCommits | tsf/SampleIME/CandidateListUIPresenter.cpp:32-84 | Enter reports the selected candidate and ends the composition |
| KeyLaws.WalkThenCommit | tsf/SampleIME/KeyStateCategory.cpp:317-337 | convert, k presses more, Enter: the engine hears the question and then the candidate k places down, or the last |
| KeyLaws.DigitCommitsDrawnText | tsf/SampleIME/CandidateListUIPresenter.cpp:249-266 | a digit commits the text painted beside it |
| KeyLaws.MissedDigitLosesTheChoice | tsf/SampleIME/CandidateListUIPresenter.cpp:249-266 | a digit beside an empty row commits nothing, and Enter after it ends the composition unreported |
| TypingSession.MissedDigitIsReached | tsf/SampleIME/CandidateWindow.cpp:1027-1050 | such a digit is reached from activation: any morae spelled and converted, more answers than a page and fewer than two, Page Down, a digit past the last |
| TypingSession.TwelveAndSixCommitsNothing | tsf/SampleIME/CandidateWindow.cpp:1027-1050 | with the shipped table: a, convert, twelve candidates, Page Down, 6, Enter; the engine hears the question and nothing more |
| KeyLaws.TypingStraysAfterAList | tsf/SampleIME/KeyHandler.cpp:238-246 | typing calls into a window that is gone exactly when there has been a list since activation |
| KeyLaws.PressKeepsShape | tsf/SampleIME/CompositionProcessorEngine.cpp:265-322 | a key press keeps the buffer kana and then at most a syllable begun |
| KeyLaws.RunKeepsShape | tsf/SampleIME/CompositionProcessorEngine.cpp:265-322 | so over every run of keys and paints whose typed keys the table takes |
| KeyLaws.OtherKeysNeverType | tsf/SampleIME/CompositionProcessorEngine.cpp:1491-1513 | no key but those with a letter or minus code and the two wildcard characters adds to the buffer |
| KeyLaws.WildcardIsAppended | tsf/SampleIME/CompositionProcessorEngine.cpp:1604-1612 | a wildcard character in mid-composition goes into the buffer as it is |
| KeyLaws.ListKeysMove | tsf/SampleIME/CandidateListUIPresenter.cpp:1207-1244 | the arrow and paging keys move the selection as their names say and change nothing else |
| KeyLaws.ListKeysCancel | tsf/SampleIME/KeyHandler.cpp:94-103 | Escape and Backspace drop the list and the composition unreported |
| KeyLaws.RunShowsBuffer | tsf/SampleIME/CompositionProcessorEngine.cpp:472-509 | over such a run the composition shows the buffer |
| KeyLaws.EnterReportsTheKana | tsf/SampleIME/KeyHandler.cpp:366-434 | Enter on unconverted kana reports at most thirty characters of what is shown, under its reading, or nothing without a finished syllable |
| TextServices.CompositionProcessorEngine.AddVirtualKey | tsf/SampleIME/CompositionProcessorEngine.cpp:265-297 | the buffer is replaced by the one after the keystroke; no character, no change |
| TextServices.CompositionProcessorEngine.RemoveVirtualKey | tsf/SampleIME/CompositionProcessorEngine.cpp:309-322 | the shift in place deletes that character, or the last |
| TextServices.CompositionProcessorEngine.PurgeVirtualKey | tsf/SampleIME/CompositionProcessorEngine.cpp:437-451 | the buffer is empty |
| TextServices.CompositionProcessorEngine.GetReadingString | tsf/SampleIME/CompositionProcessorEngine.cpp:472-509 | the display of the buffer, none for an empty one |
| TextServices.CompositionProcessorEngine.GetCandidateList | tsf/SampleIME/CompositionProcessorEngine.cpp:343-402 | the reading is sent if the engine is reachable and there is one |
| TextServices.CompositionProcessorEngine.NotifyCommitted | tsf/SampleIME/CompositionProcessorEngine.cpp:413-435 | the commit is sent under the reading of the buffer, unless text or reading is empty |
| TextServices.TextService.DeleteCandidateList | tsf/SampleIME/KeyHandler.cpp:55-70 | the buffer goes, and the window if there has been a presenter |
| TextServices.TextService.HandleComplete | tsf/SampleIME/KeyHandler.cpp:78-86 | and the composition |
| TextServices.TextService.HandleCancel | tsf/SampleIME/KeyHandler.cpp:94-103 | and its text |
| TextServices.TextService.HandleCompositionInput | tsf/SampleIME/KeyHandler.cpp:113-189 | a list up is settled, a composition started if there is none, the key added and shown |
| TextServices.TextService.HandleCompositionInputWorker | tsf/SampleIME/KeyHandler.cpp:199-249 | the kana are shown and a list left over is emptied |
| TextServices.TextService.HandleCompositionFinalize | tsf/SampleIME/KeyHandler.cpp:310-435 | the selected candidate, or the kana, are reported before the buffer goes |
| TextServices.TextService.HandleCompositionConvert | tsf/SampleIME/KeyHandler.cpp:540-617 | candidates put up a new list; none leaves things as they are |
| TextServices.TextService.HandleCompositionBackspace | tsf/SampleIME/KeyHandler.cpp:625-687 | the last character goes, with the composition when it was the only one |
| TextServices.TextService.AdviseUIChangedByArrowKey | tsf/SampleIME/CandidateListUIPresenter.cpp:1207-1244 | the arrow keys move the window’s selection |
| TextServices.TextService.PaintWindow | tsf/SampleIME/CandidateWindow.cpp:714-737 | painting, when there is a window |
| TextServices.TextService.HandleCandidateFinalize | tsf/SampleIME/CandidateListUIPresenter.cpp:32-84 | the selected candidate is reported before the buffer goes |
| TextServices.TextService.HandleCandidateWorker | tsf/SampleIME/CandidateListUIPresenter.cpp:103-216 | without phrases it finalizes |
| TextServices.TextService.HandleCandidateSelectByNumber | tsf/SampleIME/CandidateListUIPresenter.cpp:249-266 | a digit selects a row and finalizes |
| TextServices.TextService.ComposingState | tsf/SampleIME/KeyStateCategory.cpp:230-294 | the dispatch while composing |
| TextServices.TextService.CandidateState | tsf/SampleIME/KeyStateCategory.cpp:296-355 | the dispatch while a list is up |
| TextServices.TextService.PhraseState | tsf/SampleIME/KeyStateCategory.cpp:357-387 | the dispatch of the phrase list |
| TextServices.TextService.PressKey | tsf/SampleIME/KeyEventSink.cpp:309-379 | one key event: routed, escape forced to the composition, handled |
| TypingSession.TypingFillsTheBuffer | tsf/SampleIME/CompositionProcessorEngine.cpp:265-297 | keys typed from nothing leave what the incremental form says and ask the engine nothing |
| TypingSession.TypedIsAskedWhole | tsf/SampleIME/CompositionProcessorEngine.cpp:343-402 | what is typed and then converted is asked of the engine as the whole-string converter reads it exactly when that is a reading and no key departs |
| TypingSession.SpellConvertCommit | tsf/SampleIME/KeyHandler.cpp:113-189 | spell some morae, convert, k presses more, Enter, the list painted at any time: the engine is asked for exactly their kana and told exactly the candidate k places down, or the last |
| TypingSession.SpellConvertType | tsf/SampleIME/KeyStateCategory.cpp:309-315 | spell some morae, convert, k presses more, a letter: the engine is asked for their kana and told the candidate k places down or the last, and the letter begins the next composition |
| RecentConversions.ConversionService.Remember | engine/Sources/OhageyEngine/ConversionService.swift:315-321 | the reading’s entry is dropped, the new one put first, the ninth removed |
| RecentConversions.ConversionService.Match | engine/Sources/OhageyEngine/ConversionService.swift:270-272 | the first entry of the reading, and in it the first candidate with the text |
| RecentConversions.FirstWithIsFirst | engine/Sources/OhageyEngine/ConversionService.swift:270-272 | the candidate matched is the first with the text |
| RecentConversions.CacheIsLatest | engine/Sources/OhageyEngine/ConversionService.swift:315-321 | after any history the cache is the front of the list of all readings ever converted, most recent first |
| RecentConversions.StandsBehind | engine/Sources/OhageyEngine/ConversionService.swift:315-321 | in that list a reading’s latest conversion stands behind exactly the readings converted since |
| RecentConversions.CommitFindsRecent | engine/Sources/OhageyEngine/ConversionService.swift:249-291 | a commit is matched against the latest conversion of its reading exactly when fewer than eight other readings were converted since |
| RecentConversions.CommitMissesUnknown | engine/Sources/OhageyEngine/ConversionService.swift:270-288 | a reading never converted is not found |

## Left out

- TSF and COM objects, edit sessions, focus, document text and its ranges: document calls are taken to succeed and to cover the composition; what the application then shows is not modelled.
- A composition ended from outside (focus or selection changes): it can leave the buffer unpurged, so no agreement is claimed there.
- The SEH guards: a call into a window that is gone is counted and otherwise has no effect, as the guard would leave it.
- A candidate window that cannot be created: the mode would then stay with a list that is not there.
- Direct2D and GDI drawing, window creation, scroll bar notifications (the desktop one is null), the language bar, icons, registry, logging and the settings app.
- Connecting and launching the engine: both are nondeterministic; so are how many bytes the pipe takes or gives and when it fails.
- Text encodings: text on the wire is bytes, so the UTF-8 and UTF-16 conversions of WriteString and ReadString are left to the system; in the buffer it is characters outside the surrogate range.
- RegisterWord and Ping requests: built from the same writers as the two that are modelled.
- EngineClient.EngineClient.Connect: finding, launching and awaiting the engine, and the second attempt, are one free choice of success or failure.
- EngineClient.EngineClient.Exchange: requires a payload shorter than 2^32 - 4 bytes, where the source narrows the length without a check.
- EngineClient.EngineClient.Envelope: requires a request that fits a frame, for the same reason.
- EngineClient.EngineClient.Ask: requires a request that fits a frame, for the same reason.
- EngineClient.EngineClient.Convert: requires a reading and context whose request fits a frame, for the same reason.
- EngineClient.EngineClient.Commit: requires a reading and text whose request fits a frame, for the same reason.
- WireIO.ByteBuffer.WriteString: takes the UTF-8 bytes; the conversion from UTF-16 is the system’s.
- The bitwise or in the codec is modelled as an addition of disjoint bits.
- CandidateWindows.CandidateWindow.Valid: lists and pages together stay below 2^29 items, where the source narrows counts to int.
- CandidateWindows.CandidateWindow.MovePage: the sum of page and offset is not cut to 32 bits, where overflow is undefined in the source.
- Setting the page index or the selection from outside through the candidate list interfaces: the host may pass anything.
- CandidateSort.MergeSort: the debug assertion that the right end is not negative, which an empty list fails, is not modelled; without it the empty range is left alone.
- CandidateSort.SortListItemByFindKeyCode: the system’s string comparison is a parameter, a total preorder of keys.
- trainNGram and what it writes: a run writes any of the model’s files in any order, or too few.
- ErasedRuns.BeyondNeverPublishes: assumes that trainNGram does not make its output directory again once an erase has removed it; the source does not say.
- ErasedRuns.EraseSparesExactly: rests on the same assumption where it says that a run’s lines are gone; a restart is no continuation of the run it speaks of, and is covered by ErasedRecords.EraseForgetsExactly.
- ErasedRecords.EraseForgetsExactly: rests on the same assumption where it says that a run’s lines are gone.
- Removing or moving a directory is one step; the removals of an erase are one step each, and a removal may fail except that of a staging directory or of the corpus.
- The clock: whether a cooldown is still on is a parameter of each call, so nothing is claimed about its length.
- TrainingScheduler.RepeatedAt: registered words are taken as corpusLine leaves them, those it drops not being words here.
- PersonalLanguageModels.TrainingLines: the same.
- PersonalLanguageModels.PersonalLanguageModel.Record: a text that corpusLine drops is no call here, since the source returns before counting it.
- TextServices.TextService.HandleCompositionInput: the exit for a selection outside the composition is left out with the document.
- TextServices.TextService.HandleCompositionBackspace: the same exit.
- TextServices.TextService.HandleCompositionFinalize: the document is taken to cover the composition and its calls to succeed.
- TextServices.TextService.HandleCompositionConvert: the candidate window is taken to be created.
- TextServices.TextService.ComposingState: the punctuation and full-width handlers end the composition; the character they then write into the document is not modelled.
- TextServices.TextService.PressKey: the test for a key and the key itself, two events of the system, are one step with one state.
- Base model generation, personalizationMode, and the parsing and limits of imported text; lines that corpusLine drops are not recorded.
- TrainingScheduler.EveryRunCatchesUp: commits behind a failed run are the exception it names, since finishTraining returns before counting them.
- The dictionary parser, the wildcard search and the punctuation tables; whether a character is punctuation or has a wide form is part of the key.
- Keyboard modifiers beyond none or some, key-up events, soft-keyboard page keys and packet keys.
- The phrase, incremental and next-composition modes are modelled where keys are routed and handled, and proved unreachable; _CreateAndStartCandidate has no caller and is not modelled.
- The converter, Zenzai and the learning store: a commit is followed up to the candidate it is matched with.
