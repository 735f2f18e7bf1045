# ole-voice ASR server, modelled in Dafny

ole-voice is a local dictation tool. Its speech-recognition back end,
`asr_server.py`, is a daemon on a Unix domain socket. A client sends one
request per connection: a 4-byte big-endian length, then that many bytes of
16 kHz mono PCM audio. The server looks up a model in its one-slot model
cache (`load_model`), reads the hotword file if it has changed
(`load_hotwords`), and asks the recognition engine for a transcript, passing
the first twenty hotwords as a context prompt. It post-processes the text and
replies with a length-prefixed JSON object: `{"success": true, "text": …}` or
`{"success": false, "error": …}`.

The repository holds two copies of the server, and both are modelled:

- `VoiceOverlay/asr_server.py` runs five text stages in this order:
  - phonetic correction;
  - filler-word removal;
  - Chinese-numeral conversion;
  - sentence polish;
  - punctuation cleanup.
- `oleVoice.app/Contents/Resources/asr_server.py` is an older copy. Its first
  243 lines (configuration, caches, correction table) are the same as the
  other copy's. Its pipeline runs phonetic correction only.

The modules follow the program's parts:

| module | models |
|---|---|
| `Text` | the string operations the stages share: `str.replace`, `\s`, `str.strip`, runs of whitespace, tables of literal replacements, `", ".join` |
| `Phonetic` | `PHONETIC_CORRECTIONS` and `apply_phonetic_corrections` |
| `Filler` | `FILLER_WORDS` and `remove_filler_words` |
| `Numerals` | `convert_chinese_numbers`, including `_parse_cn` |
| `Polish` | `polish_sentence` |
| `Punctuation` | `clean_punctuation` |
| `Files` | the file system as a function from path to entry, and "first existing path" |
| `Settings` | `CONFIG` and the language map |
| `ModelCache` | `get_model_path` and `load_model`, as a class `Cache` over the two module globals |
| `Hotwords` | `load_hotwords`, as a class `Store` over its two globals, and the context prompt |
| `Framing` | the length header, a socket as a class `Connection`, the receive loop and the reply frames |
| `Service` | `transcribe_audio` and `handle_client`, with the post-processing stage as a parameter |
| `VoiceOverlayServer` | the five-stage pipeline plugged into `Service` |
| `OleVoiceServer` | the phonetic-only pipeline plugged into `Service` |

How the model is built:

- Pure stages are functions. Each has lemmas that tie it to an independent
  statement: what it keeps, what it removes, when it changes nothing, and
  concrete examples.
- Where the source loops and updates variables, the model has a method with a
  `while` loop, proved equal to the function:
  - the phonetic table loop;
  - the filler passes;
  - the numeral accumulator;
  - the polish substitutions;
  - the payload receive loop;
  - the search over candidate paths.
- Module-level globals that the server updates are class fields:
  - `_current_model` and `_current_model_key` belong to `ModelCache.Cache`;
  - `_hotwords` and `_hotwords_mtime` belong to `Hotwords.Store`;
  - the socket is `Framing.Connection`.
- Their methods are specified by a transition function on the old state
  (`ModelCache.Step`, `Hotwords.Refresh`, `Framing.Take`).
- Ghost logs record what the outside world saw:
  - `loads` holds the paths passed to the model loader;
  - `fileReads` holds the hotword files opened;
  - `recvs` holds each `recv` call: the size asked for and the size returned.
- Things the server only calls are parameters:
  - the model loader;
  - the recognition engine;
  - writing the WAV file;
  - `json.dumps(...).encode()`;
  - the file system;
  - the home and script directories.

## Model

| member | source | states |
|---|---|---|
| Text.ReplaceAllRemoves | VoiceOverlay/asr_server.py:236 | after a literal replacement whose replacement shares no character with the pattern, the pattern does not occur in the output |
| Text.ReplaceAllKeepsAbsent | VoiceOverlay/asr_server.py:236 | a replacement cannot create a phrase that was absent, if the replacement shares no character with that phrase |
| Text.ApplyTableAppend | VoiceOverlay/asr_server.py:230-236 | applying a concatenated table is the same as applying its first part, then its second: the entries act on each other's output |
| Text.TableFixesText | VoiceOverlay/asr_server.py:230-236 | a text that contains no key of the table comes back unchanged |
| Text.EmptyStaysEmpty | VoiceOverlay/asr_server.py:227-228 | the empty text comes back empty |
| Text.TrimCollapseShape | VoiceOverlay/asr_server.py:293-296 | collapsing whitespace runs to one space, then trimming a class of characters, leaves a single-spaced text with no trimmed character at either end |
| Text.JoinHas | VoiceOverlay/asr_server.py:478 | each joined term occurs in the joined string |
| Phonetic.TableValid | VoiceOverlay/asr_server.py:135-223 | every key of the correction table is non-empty |
| Phonetic.TableShape | VoiceOverlay/asr_server.py:135-223 | the table is its eight groups in source order, and it ends with the 西艾, 西迪, 西艾西迪 entries |
| Phonetic.ApplyPhoneticCorrections | VoiceOverlay/asr_server.py:225-242 | the loop applies the table entries in order, each replacing every non-overlapping occurrence in the output of the previous one |
| Phonetic.ForeignKeysFix | VoiceOverlay/asr_server.py:227-236 | a text that shares no character with any key is returned unchanged |
| Phonetic.CiCdEntryNeverFires | VoiceOverlay/asr_server.py:220-222 | after the whole table, 西艾 never occurs, and the final 西艾西迪 entry changes nothing |
| Phonetic.CiCdExample | VoiceOverlay/asr_server.py:220-222 | 西艾西迪 is corrected to CICD, not CI/CD |
| Phonetic.CiCdHeadFixes | VoiceOverlay/asr_server.py:135-219 | the entries before the CI/CD group leave 西艾西迪 untouched |
| Phonetic.CiCdTailExample | VoiceOverlay/asr_server.py:220-222 | the last three entries turn 西艾西迪 into CICD |
| Filler.FillerOrderNonEmpty | VoiceOverlay/asr_server.py:246-262 | every word of an iteration order of the filler set is non-empty |
| Filler.RemoveFillerWords | VoiceOverlay/asr_server.py:264-301 | the three-pass loop with early stop, whitespace collapse and edge strip computes `Fillers` |
| Filler.ScanShrinks | VoiceOverlay/asr_server.py:283-284 | one substitution never lengthens the text, and it shortens the text whenever it changes it |
| Filler.ScanChanges | VoiceOverlay/asr_server.py:283-285 | a substitution that leaves the text as it was found no bounded match anywhere |
| Filler.RemoveWordUnchanged | VoiceOverlay/asr_server.py:283-287 | removing a word changes the text exactly when the word occurs between two boundaries |
| Filler.RemoveWordAlone | VoiceOverlay/asr_server.py:283-284 | a text that is only the filler word becomes empty |
| Filler.RemoveWordBetween | VoiceOverlay/asr_server.py:283-284 | a filler between two boundary characters is deleted, and both boundaries are kept |
| Filler.PassesSettled | VoiceOverlay/asr_server.py:279-290 | once a pass changes nothing, further passes change nothing |
| Filler.EarlyStopSound | VoiceOverlay/asr_server.py:279-290 | stopping after an unchanged pass gives the same text as always running all three passes |
| Filler.FillersShape | VoiceOverlay/asr_server.py:292-296 | the result is single-spaced and starts and ends with neither a space nor a boundary mark |
| Filler.FillersUnbounded | VoiceOverlay/asr_server.py:246-262 | no filler word occurs bounded in 这个人 or in error |
| Filler.ZheGeRenSurvives | VoiceOverlay/asr_server.py:283 | 这个 inside 这个人 is not removed, because it is not followed by a boundary |
| Filler.ErrorSurvives | VoiceOverlay/asr_server.py:283 | the filler er inside error is not removed |
| Numerals.ParseCn | VoiceOverlay/asr_server.py:328-372 | a parsed value is positive, unless the run is one zero digit; an empty run does not parse |
| Numerals.ReadNumerals | VoiceOverlay/asr_server.py:345-365 | the `total`/`temp`/`last_unit` loop ends in the state the step function reaches |
| Numerals.ParseChineseNumber | VoiceOverlay/asr_server.py:328-372 | the imperative parser agrees with `ParseCn` |
| Numerals.DecimalRoundTrip | VoiceOverlay/asr_server.py:325 | `str(n)` is a string of ASCII digits, with a leading zero only for 0, that reads back as n |
| Numerals.ParseReading | VoiceOverlay/asr_server.py:328-372 | the standard Chinese reading of any n with 0 < n < 10^8 parses back to n |
| Numerals.ConvertReading | VoiceOverlay/asr_server.py:311-377 | in running text, a reading of n becomes `str(n)`, with a leading 第 reattached |
| Numerals.ConvertRun | VoiceOverlay/asr_server.py:376-377 | a maximal numeral run is replaced by its rewrite, and the rest of the text is converted after it |
| Numerals.ConvertOrdinalRun | VoiceOverlay/asr_server.py:318-377 | 第 followed by a run keeps the 第 in front of the rewritten run |
| Numerals.NoNumeralsUnchanged | VoiceOverlay/asr_server.py:376-377 | a text without numeral characters is unchanged |
| Numerals.DigitRunValue | VoiceOverlay/asr_server.py:350-372 | a run of two or more digits reads as its last digit, and does not parse when that digit is 0 |
| Numerals.ExampleTwelve | VoiceOverlay/asr_server.py:342-343 | 十二 is 12 (a leading 十 reads as 一十) |
| Numerals.ExampleTen | VoiceOverlay/asr_server.py:342-343 | 十 is 10 |
| Numerals.ExampleTwenty | VoiceOverlay/asr_server.py:355-364 | 二十 is 20 |
| Numerals.ExampleNinetyNine | VoiceOverlay/asr_server.py:353-367 | 九十九 is 99 |
| Numerals.ExampleOneTwentyThree | VoiceOverlay/asr_server.py:353-367 | 一百二十三 is 123 |
| Numerals.ExampleTwelveThousand | VoiceOverlay/asr_server.py:357-359 | 一万二千 is 12000 |
| Numerals.ExampleHundredThousand | VoiceOverlay/asr_server.py:342-359 | 十万 is 100000 |
| Numerals.ExampleZero | VoiceOverlay/asr_server.py:318-339 | a lone 零 parses to 0, and the text 零 becomes 0 |
| Numerals.ExampleOrdinal | VoiceOverlay/asr_server.py:318-325 | 第十二个 becomes 第12个 |
| Numerals.OneBefore | VoiceOverlay/asr_server.py:376-377 | 一 followed by a non-numeral character becomes 1 |
| Numerals.Unparsed | VoiceOverlay/asr_server.py:318-372 | 百, 万 and 零零 total zero, do not parse, and come back from number conversion as they were |
| Numerals.UnparsedKept | VoiceOverlay/asr_server.py:323-326 | a numeral run that does not parse is returned by number conversion unchanged |
| Polish.PolishSentence | VoiceOverlay/asr_server.py:428-459 | the substitutions, applied in source order, compute `Polish` |
| Polish.UnitAtFindsUnitWords | VoiceOverlay/asr_server.py:454 | the unit matcher finds exactly the unit words of the alternation, trying them in source order |
| Polish.JoinUnitsJoins | VoiceOverlay/asr_server.py:454 | a digit, whitespace and a unit word become the digit next to the unit |
| Polish.JoinUnitsKeepsGap | VoiceOverlay/asr_server.py:454 | whitespace after a digit stays when no unit word follows it |
| Polish.JoinUnitsNoGap | VoiceOverlay/asr_server.py:454 | a text with no digit directly followed by whitespace is unchanged |
| Polish.JoinUnitsKeepsText | VoiceOverlay/asr_server.py:454 | joining units removes only whitespace |
| Polish.PolishFixes | VoiceOverlay/asr_server.py:436-454 | a text with none of the patterns is unchanged |
| Polish.NumeralWordsRestored | VoiceOverlay/asr_server.py:438-439 | 1些 becomes 一些 and 1下 becomes 一下 |
| Polish.HalveRepeat | VoiceOverlay/asr_server.py:450-451 | replacing ww by w in n copies of w leaves ceil(n/2) copies |
| Polish.MarkerRunHalved | VoiceOverlay/asr_server.py:442-451 | n copies of 那个 polish to ceil(n/2) copies, so a single pass does not reduce a run to one copy |
| Punctuation.DropRun | VoiceOverlay/asr_server.py:398 | `n+` consumes the whole leading run of n |
| Punctuation.CollapseRun | VoiceOverlay/asr_server.py:398-410 | a mark, whitespace and a run of the repeated mark become one replacement mark |
| Punctuation.CollapseOnce | VoiceOverlay/asr_server.py:400-401 | a mixed full-width and half-width comma pair becomes one full-width comma |
| Punctuation.SameMarkRun | VoiceOverlay/asr_server.py:398-410 | a run of one mark collapses to that mark, under a rule for that mark |
| Punctuation.MarkRunsCollapse | VoiceOverlay/asr_server.py:398-410 | under each repeat rule of the stage, any run of its mark, 3 or more included, collapses to one mark |
| Punctuation.CollapseAllFixes | VoiceOverlay/asr_server.py:398-410 | a text missing one of the two marks of every rule is not touched by the rules |
| Punctuation.HalfWidthQuestionKept | VoiceOverlay/asr_server.py:398-410 | the rules have no entry for the half-width `?`: a text whose only marks are `?` passes them unchanged, runs of `??` included |
| Punctuation.UnifyFixes | VoiceOverlay/asr_server.py:394-395 | a text with no half-width comma or period is not touched by step 1 |
| Punctuation.CleanShape | VoiceOverlay/asr_server.py:385-425 | the result starts with no lead mark, ends with no comma or whitespace, and is single-spaced |
| Punctuation.CleanKeeps | VoiceOverlay/asr_server.py:385-425 | the characters outside the lead class are kept, in order |
| Punctuation.CleanCommasOnly | VoiceOverlay/asr_server.py:385-425 | for a comma-only text whose comma collapse is already clean, cleaning is that collapse |
| Punctuation.EdgesFixed | VoiceOverlay/asr_server.py:413-420 | steps 5 to 7 leave an already clean text unchanged |
| Punctuation.CleanNotIdempotent | VoiceOverlay/asr_server.py:398 | x，， ，y cleans to x， ，y, and that cleans to x，y: a second cleanup can change the result |
| Files.FirstExisting | VoiceOverlay/asr_server.py:47-51 | none exactly when no candidate exists; otherwise the earliest existing candidate |
| Files.FindFirst | VoiceOverlay/asr_server.py:48-51 | the loop with `break` finds `FirstExisting` |
| Settings.LanguageName | VoiceOverlay/asr_server.py:470-471 | English exactly for `en`, otherwise Chinese, including for unknown codes |
| ModelCache.ModelPathChoice | VoiceOverlay/asr_server.py:98-114 | with 0.6B in the table, the path is the first existing cache directory for the key's name (unknown keys use 0.6B's), else the name itself |
| ModelCache.UnknownKeyFallsBack | VoiceOverlay/asr_server.py:100 | an unknown key resolves as 0.6B does |
| ModelCache.MissingFallbackFails | VoiceOverlay/asr_server.py:100 | without 0.6B in the table, every lookup fails with KeyError('0.6B'), because the default is evaluated first |
| ModelCache.DotlessNameOneDir | VoiceOverlay/asr_server.py:103-106 | for a name without dots, both candidate directories are the same |
| ModelCache.HitReturnsCached | VoiceOverlay/asr_server.py:120-122 | a loaded model with the same key is returned, with no load and no state change |
| ModelCache.MissLoadsOnce | VoiceOverlay/asr_server.py:126-132 | a miss loads once from the resolved path, and on success holds the new model under the new key |
| ModelCache.FailureChangesNothing | VoiceOverlay/asr_server.py:126-129 | a failed resolve or load leaves model and key as they were |
| ModelCache.SecondLoadHits | VoiceOverlay/asr_server.py:116-132 | after a successful load, loading the same key again returns the same model and loads nothing |
| ModelCache.Cache.LoadModel | VoiceOverlay/asr_server.py:116-132 | the new fields and the result are `Step` of the old fields, and the loader log grows by exactly the loads `Step` performs |
| Hotwords.StrippedTerm | VoiceOverlay/asr_server.py:63 | a stripped non-blank line is a term: non-empty, with no whitespace at either end |
| Hotwords.KeepLines | VoiceOverlay/asr_server.py:63 | every kept entry is a term, and the list is no longer than the file |
| Hotwords.KeepLinesIff | VoiceOverlay/asr_server.py:63 | a term is kept exactly when some non-blank line that does not start with `#` strips to it |
| Hotwords.KeepLinesAppend | VoiceOverlay/asr_server.py:63 | lines are filtered independently and in file order |
| Hotwords.CommentDropped | VoiceOverlay/asr_server.py:63 | a line starting with `#` is dropped |
| Hotwords.IndentedCommentKept | VoiceOverlay/asr_server.py:63 | an indented `#` line is kept, as the stripped comment text |
| Hotwords.BlankDropped | VoiceOverlay/asr_server.py:63 | a whitespace-only line is dropped |
| Hotwords.NoFileNoWords | VoiceOverlay/asr_server.py:53-54 | with no candidate file, the result is none, the cache is unchanged and nothing is read |
| Hotwords.UnchangedFileFromCache | VoiceOverlay/asr_server.py:57-60 | an unchanged modification time with a cached list returns the cache without reading the file |
| Hotwords.ChangedFileReread | VoiceOverlay/asr_server.py:57-71 | a new modification time, or no cached list, rereads the file and stores the list with its time |
| Hotwords.FailureKeepsCache | VoiceOverlay/asr_server.py:72-74 | when no list is returned, the cache is unchanged |
| Hotwords.RefreshSettles | VoiceOverlay/asr_server.py:56-71 | after a successful load, an immediate second load returns the same list without reading the file |
| Hotwords.Store.LoadHotwords | VoiceOverlay/asr_server.py:36-74 | the new cache fields and the result are `Refresh` of the old ones, and the read log grows by the file read, if any |
| Hotwords.FirstTerms | VoiceOverlay/asr_server.py:478 | `hotwords[:20]`: a prefix of at most 20 terms, and the whole list when it is shorter |
| Hotwords.BuildContext | VoiceOverlay/asr_server.py:475-478 | a context exists exactly when the list is present and non-empty, and it starts with 重要术语: |
| Hotwords.ContextIgnoresLaterTerms | VoiceOverlay/asr_server.py:478 | terms after the twentieth do not affect the context |
| Hotwords.ContextNamesTerms | VoiceOverlay/asr_server.py:478 | each of the first twenty terms occurs in the context |
| Hotwords.ContextOneTerm | VoiceOverlay/asr_server.py:478 | one term gives the prefix followed by that term |
| Framing.EncodeLength | VoiceOverlay/asr_server.py:573 | `struct.pack('!I', n)` is four bytes |
| Framing.DecodeLength | VoiceOverlay/asr_server.py:541 | an unpacked length is below 2^32 |
| Framing.DecodeEncode | VoiceOverlay/asr_server.py:541-573 | unpacking a packed length gives the length back |
| Framing.EncodeDecode | VoiceOverlay/asr_server.py:541-573 | packing an unpacked header gives the header back |
| Framing.Pack | VoiceOverlay/asr_server.py:573 | packing succeeds exactly for lengths below 2^32, and otherwise fails with struct's message |
| Framing.Unpack | VoiceOverlay/asr_server.py:541 | unpacking succeeds exactly for four bytes, and otherwise fails with struct's message |
| Framing.PackUnpack | VoiceOverlay/asr_server.py:541-573 | the two checked conversions are inverse on their successes |
| Framing.TakeSplits | VoiceOverlay/asr_server.py:537-546 | one `recv(k)` returns at most k bytes, returns nothing only at end of stream, and loses no byte |
| Framing.Prefix | VoiceOverlay/asr_server.py:544-549 | the payload read is a prefix of the stream, at most the declared length, and the whole stream when shorter |
| Framing.Connection.Recv | VoiceOverlay/asr_server.py:537-546 | the chunk and the remaining input are `Take` of the old input, and the size asked for and the size returned are logged |
| Framing.Connection.Send | VoiceOverlay/asr_server.py:573-574 | a send succeeds exactly on a connection whose peer is still there, and only then appends the data |
| Framing.Parse | VoiceOverlay/asr_server.py:537-549 | the audio of a request is never longer than its declared length |
| Framing.ParseHeader | VoiceOverlay/asr_server.py:537-541 | no bytes means no request; a header of 1 to 3 bytes is an unpack error |
| Framing.ParseFramed | VoiceOverlay/asr_server.py:537-549 | a well-framed stream, however it is segmented, parses to exactly its payload, empty payload included |
| Framing.ReceivePayload | VoiceOverlay/asr_server.py:544-549 | the loop reads `Prefix(stream, length)` and leaves the rest unread; each receive asks for exactly `min(4096, length - bytes received before it)` (`Want`, `AsksFollow`), and the bytes the receives return add up to the payload (`Received`) |
| Framing.ReceiveRequest | VoiceOverlay/asr_server.py:536-549 | the header read and the payload loop compute `Parse` of the incoming segments |
| Framing.SendError | VoiceOverlay/asr_server.py:576-583 | the error reply is framed, and a failing send is swallowed |
| Framing.SendReply | VoiceOverlay/asr_server.py:571-583 | a successful reply, or when packing it fails the error reply, is added to what was sent |
| Framing.FramesFramed | VoiceOverlay/asr_server.py:572-574 | each frame is a header that packs its payload's length, followed by the payload |
| Framing.ErrorFramesFramed | VoiceOverlay/asr_server.py:578-581 | the error frames are framed and carry the encoded failure |
| Framing.ReplyFramesFramed | VoiceOverlay/asr_server.py:571-583 | whatever is sent is framed, and it carries the encoded result or an encoded failure |
| Framing.ReplySent | VoiceOverlay/asr_server.py:572-574 | on a healthy connection, a reply under 2^32 bytes is sent as exactly header then body |
| Framing.BrokenGetsNothing | VoiceOverlay/asr_server.py:573-583 | a peer that has gone gets nothing, and no exception escapes |
| Service.TranscribeAudio | VoiceOverlay/asr_server.py:461-531 | the model and hotword caches and the reply are `Transcription` of the old caches |
| Service.LoadFailureReported | VoiceOverlay/asr_server.py:466-531 | a failed model load is reported as a failure with its message, and neither cache changes |
| Service.SuccessIsPostProcessed | VoiceOverlay/asr_server.py:467-525 | a successful reply is the post-processed, stripped engine text, for the loaded model, the mapped language and the hotword context |
| Service.ModelReused | VoiceOverlay/asr_server.py:116-122 | after a successful transcription, the next one with the same key loads nothing |
| Service.OutputFramed | VoiceOverlay/asr_server.py:571-583 | every byte sent on the connection is in length-prefixed frames |
| Service.HandleClient | VoiceOverlay/asr_server.py:533-585 | the connection is always closed. No bytes in gets no reply and no state change. A bad header or a spool failure gets an error reply and no state change. Otherwise the transcription result is sent and the caches advance |
| VoiceOverlayServer.PostProcessShape | VoiceOverlay/asr_server.py:509-525 | the five-stage output has no lead mark at its start, no comma or whitespace at its end, and no double space |
| VoiceOverlayServer.NumeralWordsSurvive | VoiceOverlay/asr_server.py:438-439 | 一些 and 一下 come out of numeral conversion and polish unchanged |
| VoiceOverlayServer.TranscribeAudio | VoiceOverlay/asr_server.py:461-531 | `Service.TranscribeAudio` with the five stages, in source order, as the post-processing |
| VoiceOverlayServer.HandleClient | VoiceOverlay/asr_server.py:533-585 | `Service.HandleClient` with the five-stage pipeline |
| OleVoiceServer.PhoneticOnly | oleVoice.app/Contents/Resources/asr_server.py:290-293 | post-processing is phonetic correction alone: 西艾西迪 becomes CICD, and a text in which no correction key can occur comes back unchanged |
| OleVoiceServer.ReplyIsCorrected | oleVoice.app/Contents/Resources/asr_server.py:244-301 | a successful reply is the phonetic correction of a stripped engine text |
| OleVoiceServer.TranscribeAudio | oleVoice.app/Contents/Resources/asr_server.py:244-301 | `Service.TranscribeAudio` with phonetic correction as the post-processing |
| OleVoiceServer.HandleClient | oleVoice.app/Contents/Resources/asr_server.py:303-355 | `Service.HandleClient` with the phonetic-only pipeline |

## Behaviour of the code worth knowing

Each item below is a place where a reader might expect different behaviour
from a socket server of this kind. The model follows the code in each case.

- **Punctuation cleanup is not idempotent.** Running a cleanup stage twice
  usually gives the same result as running it once. Here it does not. The
  pattern `，\s*，+` matches only at a comma followed by whitespace and then
  commas, and it resumes after each match. So x，， ，y cleans to x， ，y,
  and cleaning that again gives x，y (`Punctuation.CleanNotIdempotent`).
- **A short payload is still transcribed.** A length-prefixed protocol would
  normally treat a connection that closes before the declared length as a
  truncated read and send no reply. The code instead leaves its receive loop
  on an empty chunk and transcribes the bytes it has (`Framing.Prefix`,
  `Framing.ReceivePayload`).
- **A short header is answered.** The header is read with a single `recv(4)`,
  not a loop that waits for four bytes. A 1- to 3-byte result makes
  `struct.unpack` raise, and the client gets an error reply
  (`Framing.ParseHeader`).
- **The caches have no lock.** The model cache checks for a loaded model and
  then loads it, with no lock around the two steps. The model describes one
  request at a time, which is what the synchronous accept loop does.
- **An indented comment is a hotword.** A hotword line that begins with `#`
  is skipped, but the test is made on the unstripped line. So a line with
  spaces before its `#` is kept as a term (`Hotwords.IndentedCommentKept`).
- **Stage order.** Light polish runs before punctuation cleanup, so the
  cleanup sees the polished text (`VoiceOverlayServer.PostProcessShape` is
  about this order).
- **The table must contain 0.6B.** One might expect a model key that is
  present to load whatever else the table holds. But
  `CONFIG['models']['0.6B']` is evaluated eagerly as the `.get` default, so a
  table without 0.6B fails every lookup, even for a key that is present
  (`ModelCache.MissingFallbackFails`).

## Left out

- Socket set-up, the accept loop, `start_server` and `warmup_model`: process
  I/O. The model is one connection, handled by `HandleClient`.
- Threads and concurrency: the server runs one request at a time, and no
  interleaving is modelled.
- Writing the WAV file, the temporary files and `os.unlink`: these are I/O.
  The spool step is a parameter that returns the audio path or an error.
- `json.dumps(...).encode('utf-8')`: a parameter `encode`. The JSON layout of
  the reply is not modelled.
- `load_config` and its YAML merge into `CONFIG`: the configuration is a
  parameter. `Settings.Defaults` holds the built-in values.
- `print` logging and `traceback.print_exc`: output only.
- Service.Transcription: the `str(result)` fallback for an engine result with
  no `text` attribute is not modelled, because the engine is a parameter that
  returns text.
- Service.Transcription: an exception thrown by a post-processing stage is not
  modelled, because the stages are total functions.
- ModelCache.Step: a loader that returns `None` is not modelled, because the
  loader returns a model or an error. With `None` the source would store the
  key and reload on the next call.
- Framing.Connection.Recv: a `recv` that raises, such as a
  `ConnectionResetError` from the header or payload read, is not modelled.
  The model's `recv` returns bytes or the end of the stream. In the source
  such an exception reaches the handler's `except`, which tries to send an
  error reply and then closes the connection.
- Service.Transcription: the import of the recognition engine comes before
  `load_model`. An import that fails answers with a failure before any model
  is loaded. The model always steps the model cache first, because the
  engine is a parameter that is always present.
- Framing.Connection.Send: sends are all or nothing. A partial `send` that
  accepts fewer bytes is not modelled.
- Framing.SendReply: the peer goes away before the first send or not at all.
  A connection that breaks between the two sends of one reply is not
  modelled.
- Polish.JoinUnits: `\d` is modelled as ASCII and full-width digits. Other
  Unicode decimal digits are not.
- Text.IsSpace: `\s` and `str.strip()` are modelled as Python's whitespace
  set. Paths are plain strings, with no `pathlib` normalisation.
- Filler.Fillers: the order in which `set` yields words of equal length is a
  parameter, constrained by the longest-first sort (`Filler.IsFillerOrder`).
- Hotwords.Refresh: modification times are reals compared for equality, and
  the file is read as a list of lines, with UTF-8 decoding left out.
- The end-to-end example with a stub engine is not stated as one concrete
  lemma. Its parts are the stage lemmas above and
  `Service.SuccessIsPostProcessed`.
