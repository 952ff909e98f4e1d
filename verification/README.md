# Verified models of sphere's algorithms and concurrent components

This project models the parts of the sphere repository whose correctness is hard to see by
reading: an encoder for arbitrary alphabets, a glob matcher, two concurrent task supervisors and
three stores whose answers depend on time or history. To verify it, run
`dafny verify dfyconfig.toml`.

## How the models are built

- **Sequential code** (`BaseConv`, `NumConv`, `Cors`, `CorsOrigins`, `Captcha`, `MCache`, the lock regions of
  `Queue`, `Group`, `Manager`, and `TaskErrors`) keeps its loops and its mutable fields. Each method
  is proved equal to a specification function or predicate, and the theorems are proved about that
  specification: the number that the input denotes, the language of a pattern, the history of
  writes or sends.
- **Concurrent code** (`Group`, `Manager`, `Queue`) is a transition system with one step for each
  lock region, channel operation and wait-group operation. A run is any sequence of steps, by any
  number of tasks and callers; a step that is not enabled does nothing, so every sequence is a run.
  When a task's own Start or Stop returns and with what, which ready case a `select` takes, and when
  a context expires are all arbitrary. The lock regions are also methods of classes whose contracts
  are the functions that the steps apply.
- **Time** is a parameter. Theorems about it ask only that it does not go backwards.

| file | source |
|---|---|
| `Common.dfy`, `Digits.dfy` | shared types; positional numbers and their uniqueness |
| `BaseConv.dfy`, `BaseConvLaws.dfy`, `Rfc4648.dfy` | `utils/encoding/baseconv` |
| `NumConv.dfy` | `utils/encoding/numconv` |
| `Cors.dfy`, `CorsOrigins.dfy` | `server/middleware/cors` |
| `TaskErrors.dfy`, `Group.dfy`, `GroupRuns.dfy`, `GroupCalls.dfy`, `Manager.dfy`, `ManagerRuns.dfy`, `ManagerProgress.dfy`, `ManagerWork.dfy`, `ManagerCalls.dfy` | `core/task` |
| `Captcha.dfy` | `utils/exp/captcha` |
| `MCache.dfy` | `cache/mcache` |
| `Queue.dfy` | `mq/memory` |

## Where the code and its documentation differ

The models follow the code.

- `AlphabetBase32` is documented as excluding L (`utils/encoding/baseconv/basenum.go:5`) but contains
  it, so it has 33 symbols: base 33 by repeated division, not 5-bit groups
  (`NumConv.StandardEncoders`). The encoders documented as padded with `=`
  (`utils/encoding/baseconv/basenum.go:16` and line 23) therefore never pad
  (`NumConv.RawNeverPads`; `BaseConvLaws.PadByteInText` says exactly which encodings do).
- Decoding is documented without exception, but on bases that are not a power of two n >= 1 zero
  bytes come back as n + 2 (`BaseConvLaws.ZeroInput`), so `Base62ToInt64(Int64ToBase62(0))` is an
  error (`NumConv.Int64RoundTrip`).
- A pad character of 0x80 or more is appended as one byte but trimmed as the two bytes of its UTF-8
  form. `BaseConvLaws.RoundTrip` gives the exact condition under which padded text is still decoded;
  `BaseConvLaws.WidePaddingFails` and `BaseConvLaws.PadRuneFails` are inputs that fail.
- The doc comment of `NewCORS` says that all origins are allowed by default
  (`server/middleware/cors/cors.go:61`); the default list holds one empty entry, which admits no
  origin (`CorsOrigins.DefaultAdmitsNothing`). `CorsOrigins.AdmittedIff` says when a list does.
- `StopAll` promises to return when the caller's context expires first
  (`core/task/manager.go:185`). It looks at its context only once it holds opsMu, and a `Wait` holds
  opsMu until every task has exited: `ManagerProgress.StopAllIgnoresItsContext` is a run in which
  StopAll hangs behind Wait with no timeout enabled, `ManagerProgress.StopAllIsHeldUp` shows that only
  the return of the task or a StopTask gets it out (cancelling the context that was given to StartTask
  is a way to make the task return), `ManagerProgress.TimesOutIff` says exactly when a context is
  looked at, and `ManagerProgress.HeldUpIff` that nothing but such a Wait holds calls up.
- `Group.Start` promises an error if any task fails (`core/task/group.go:101`). When a stop request or
  the parent's cancellation is seen first, every start failure is dropped; `GroupRuns.FailureIsDropped`
  says exactly when the result is nil although a task failed.
- `TryConsume` promises a nil error when it finds no message (`mq/mq.go:19-21`). On a closed queue, or
  when its context is done, it returns false together with an error; `Queue.TryConsumeFails` says
  exactly when.
- The limits of the captcha store are named after the minute and the day, but accepted sends form
  batches of the limit's size, and a full batch blocks until a window after its last send. So sends
  can be refused with a single send in the last minute (`Captcha.StricterThanPerMinute`,
  exactly when: `Captcha.RefusalsAreExact`).

## Model

| member | source | states |
|---|---|---|
| BaseConv.NewBaseEncodingWithPadding | utils/encoding/baseconv/baseconv.go:31-60 | Succeeds exactly for two or more distinct symbols with the pad character not among them; says which error otherwise; the decode map inverts the alphabet |
| BaseConv.Absorb | utils/encoding/baseconv/baseconv.go:86-88 | Shifting in new bits keeps the buffer's pending low bits equal to the tail of the number read so far, although the 32-bit shift drops the rest |
| BaseConv.Emit | utils/encoding/baseconv/baseconv.go:90-94 | The symbol taken from the buffer is the next digit of the number read so far |
| BaseConv.Flush | utils/encoding/baseconv/baseconv.go:97-101 | The last symbol is the remaining bits filled up with zero bits |
| BaseConv.EncodeBitwise | utils/encoding/baseconv/baseconv.go:77-121 | The streaming encoder with its wrapping 32-bit buffer yields the base 2^k digits of the whole input's number, zero-filled to a whole symbol, plus padding |
| BaseConv.PaddingFor | utils/encoding/baseconv/baseconv.go:103-118 | The pad characters are the ones that the number of symbols calls for, none without a pad character |
| BaseConv.DivideDigits | utils/encoding/baseconv/baseconv.go:136-145 | One pass of long division: quotient digits without leading zeros, and the remainder |
| BaseConv.ChangeBase | utils/encoding/baseconv/baseconv.go:128-149 | Repeated division terminates and yields the one digit string of that value in the new base without leading zeros |
| BaseConv.EncodeMathematical | utils/encoding/baseconv/baseconv.go:123-173 | One zero symbol per leading zero byte, then the digits of the input's number; the fallback for an empty result is never needed |
| BaseConv.EncodeToString | utils/encoding/baseconv/baseconv.go:64-75 | Chooses the codec by whether the base is a power of two and yields the specified text for every input |
| BaseConv.DecodeBitwise | utils/encoding/baseconv/baseconv.go:206-224 | The streaming decoder yields the leading whole bytes of the number that the symbols denote |
| BaseConv.DecodeMathematical | utils/encoding/baseconv/baseconv.go:226-265 | One zero byte per leading zero symbol, then the bytes of the number |
| BaseConv.TrimRight | utils/encoding/baseconv/baseconv.go:183-186 | Removes the longest run of the pad character's UTF-8 bytes from the end and nothing else |
| BaseConv.DecodeString | utils/encoding/baseconv/baseconv.go:178-204 | Yields the specified bytes, or the first invalid symbol and its position, for every input |
| BaseConvLaws.LogIsExact | utils/encoding/baseconv/baseconv.go:69-74 | The codec is chosen by whether some k from 1 to 8 has 2^k symbols, and that k is the symbol width |
| BaseConvLaws.SymbolsSpellData | utils/encoding/baseconv/baseconv.go:77-121 | For every k from 1 to 8 and base 2^k: the text is the digits of the data's number, shifted by fewer than k bits, followed by pad characters only |
| BaseConvLaws.PaddingFillsGroup | utils/encoding/baseconv/baseconv.go:103-118 | Padding completes the text to a multiple of 8 symbols of 5 bits or 4 of 6 bits, with fewer than a group of pad characters, and no other text is padded |
| BaseConvLaws.DecodedSpells | utils/encoding/baseconv/baseconv.go:206-265 | Every text that decodes gives the number it spells, less the bits that do not fill a byte, with its leading zeros |
| BaseConvLaws.RefusedIff | utils/encoding/baseconv/baseconv.go:183-196 | A text is refused if and only if some byte before the padding is not in the alphabet, and the error names the first one |
| BaseConvLaws.RuneIsUtf8 | utils/encoding/baseconv/baseconv.go:184-186 | What trimming looks for is the UTF-8 form of the pad character's code point |
| BaseConvLaws.RebasedInverse | utils/encoding/baseconv/baseconv.go:123-173 | Off the all-zero strings, converting there and back between any two bases is the identity, leading zeros included |
| BaseConvLaws.BitRoundTrip | utils/encoding/baseconv/baseconv.go:206-224 | For every symbol width from 1 to 8 bits the streaming decoder undoes the streaming encoder |
| BaseConvLaws.BitCanonical | utils/encoding/baseconv/baseconv.go:206-224 | Encoding again gives the same digits if and only if fewer than k bits were dropped and all of them were zero |
| BaseConvLaws.TruncatedBody | utils/encoding/baseconv/baseconv.go:178-204 | Symbols missing at the end of the text are always noticed: what is left never decodes to the same data |
| BaseConvLaws.DecodesIsFunctional | utils/encoding/baseconv/baseconv.go:178-204 | The decoding specification allows one result for each text |
| BaseConvLaws.RoundTrip | utils/encoding/baseconv/baseconv.go:64-204 | For every encoding, pad character and input: decoding the encoded text gives the input if and only if the input is empty, or the base is a power of two or some byte is non-zero, and the pad character is absent or ASCII, or no padding is written and the last two digits do not spell the UTF-8 form of a pad character above 0xBF |
| BaseConvLaws.PadRuneOfDigits | utils/encoding/baseconv/baseconv.go:183-186 | Which texts end in the two-byte form of the pad character: none for 0x80 to 0xBF; above, those whose last two digits are the places of 0xC3 and of the pad character minus 0x40 in the alphabet |
| BaseConvLaws.WidePaddingFails | utils/encoding/baseconv/baseconv.go:103-118 | With 64 symbols and the pad character 0x80 no single byte survives the round trip |
| BaseConvLaws.PadRuneFails | utils/encoding/baseconv/baseconv.go:183-186 | With the alphabet of 0xC3 and 0x80 and the pad character 0xC0 the byte 1 does not survive the round trip |
| BaseConvLaws.PadByteInText | utils/encoding/baseconv/baseconv.go:103-118 | For every encoding with a pad character: the text holds it if and only if the symbols are 5 or 6 bits wide and their number is not a multiple of 8 or 4 |
| BaseConvLaws.RoundTripAscii | utils/encoding/baseconv/baseconv.go:64-204 | With no or an ASCII pad character the round trip holds for every input of a power-of-two base and every input with a non-zero byte of any other |
| BaseConvLaws.ZeroInput | utils/encoding/baseconv/baseconv.go:147-166 | On other bases, whatever the pad character, n zero bytes encode to n + 1 zero symbols, which decode to n + 2 zero bytes |
| BaseConvLaws.EncodedInjective | utils/encoding/baseconv/baseconv.go:64-173 | Different inputs have different texts, all-zero inputs and any padding included |
| BaseConvLaws.ReencodeMathematical | utils/encoding/baseconv/baseconv.go:226-265 | On other bases every text with a non-zero digit is the encoding of what it decodes to |
| BaseConvLaws.ReencodeBitwise | utils/encoding/baseconv/baseconv.go:178-224 | On power-of-two bases, without or with an ASCII pad character, a text is the encoding of what it decodes to if and only if its body is canonical and is followed by exactly the padding that the data calls for |
| BaseConvLaws.BitwiseImage | utils/encoding/baseconv/baseconv.go:77-121 | The texts that the streaming encoder can produce are exactly those |
| BaseConvLaws.CanonicalUnpadded | utils/encoding/baseconv/baseconv.go:77-101 | Without a pad character they are the texts of symbols whose dropped bits are fewer than a symbol and all zero |
| Rfc4648.EncodesBase64 | utils/encoding/baseconv/baseconv.go:77-121 | With 64 symbols and a pad character the encoder is the 24-bit-group definition of section 4 of RFC 4648 on every input, with zero fill bits and one or two pad characters |
| Rfc4648.BitEncodedConcat | utils/encoding/baseconv/baseconv.go:86-95 | The bit buffer carries nothing over a quantum boundary: encoding a concatenation is concatenating the encodings |
| NumConv.NewStd32Encoding | utils/encoding/baseconv/basenum.go:3-18 | Building the encoder of the base 32 alphabet cannot fail |
| NumConv.NewStd62Encoding | utils/encoding/baseconv/basenum.go:3-25 | Building the encoder of the base 62 alphabet cannot fail |
| NumConv.NewStdRaw32Encoding | utils/encoding/baseconv/basenum.go:16-17 | Building the padded base 32 encoder cannot fail |
| NumConv.NewStdRaw62Encoding | utils/encoding/baseconv/basenum.go:23-24 | Building the padded base 62 encoder cannot fail |
| NumConv.Int64ToBytes | utils/encoding/numconv/numconv.go:13-24 | Fills a fresh 8-byte array with the big-endian two's complement of the number |
| NumConv.BytesToInt64 | utils/encoding/numconv/numconv.go:26-37 | Fails on more than 8 bytes, otherwise reads the zero-extended bytes as a signed number, wrap-around included |
| NumConv.BytesSpell | utils/encoding/numconv/numconv.go:13-24 | The bytes spell the number itself, or the number and 2^64 when it is negative |
| NumConv.Int64ToText | utils/encoding/numconv/numconv.go:41-49 | The text of a number is the encoding of its 8 bytes |
| NumConv.TextToInt64 | utils/encoding/numconv/numconv.go:53-69 | Passes on the decoder's error, or reads the decoded bytes |
| NumConv.BytesAreRead | utils/encoding/numconv/numconv.go:26-37 | More than 8 bytes are refused; fewer are read, zero-extended, as the number whose bytes spell the same |
| NumConv.ParseErrors | utils/encoding/numconv/numconv.go:53-69 | A text is refused with the decoder's error, or as too long when it decodes to more than 8 bytes, and is read otherwise |
| NumConv.StandardEncoders | utils/encoding/baseconv/basenum.go:6-25 | The four standard encoders have base 33 and base 62, neither of which is a power of two |
| NumConv.RawNeverPads | utils/encoding/baseconv/basenum.go:13-25 | The texts of the padded encoders hold no pad character on any input and are those of the encoders without padding |
| NumConv.Int64RoundTrip | utils/encoding/numconv/numconv.go:41-69 | Parsing the text of n gives n for every non-zero n, the too-long error for zero, and nothing else |
| NumConv.Int64TextInjective | utils/encoding/numconv/numconv.go:41-49 | Different numbers, zero included, have different texts |
| NumConv.Int64TextLength | utils/encoding/numconv/numconv.go:41-49 | Texts have 8 to 11 characters in base 62 and 8 to 13 with the 33-symbol alphabet |
| Cors.WildcardMatch | server/middleware/cors/cors.go:208-236 | True exactly when the pattern is non-empty and the value is the pattern with some byte string in place of each star; fewer than (value length + 1) * (pattern length + 1) iterations |
| Cors.MatchesIsLanguage | server/middleware/cors/cors.go:208-236 | The recursive reading of a pattern, star by star, and the substitution reading agree |
| Cors.FirstOccurrenceSuffices | server/middleware/cors/cors.go:225-228 | Why forgetting earlier stars is complete: once the text up to a later star has been matched as early as possible, any match there is also found from here |
| Cors.SkipStars | server/middleware/cors/cors.go:232-235 | After the value is used up the rest of the pattern matches exactly when it is all stars |
| CorsOrigins.NewConfig | server/middleware/cors/cors.go:97-122 | The list in force is the given one, or one empty entry when none or an empty one was given |
| CorsOrigins.OriginMatches | server/middleware/cors/cors.go:187-206 | True exactly when origin and entry are not empty and the whole origin, for an entry with a scheme, or else its non-empty host is in the language of the entry, or equal to it up to case when it has no star |
| CorsOrigins.ResolveOrigin | server/middleware/cors/cors.go:169-185 | The first entry that is a lone star or matches decides, and nothing is answered when there is none |
| CorsOrigins.AdmittedIff | server/middleware/cors/cors.go:169-206 | For every list, origin and library: an origin is answered if and only if some entry is a lone star or matches it, and the answer is a star or the origin itself |
| CorsOrigins.AnswerIs | server/middleware/cors/cors.go:173-183 | A lone star that decides answers a star, unless credentials are allowed and the request names an origin; in every other case the answer is the request's own origin |
| CorsOrigins.NoStarWithCredentials | server/middleware/cors/cors.go:173-183 | With credentials allowed, a named origin is answered by itself or not at all, never by a star |
| CorsOrigins.PlainEntryIff | server/middleware/cors/cors.go:190-205 | An entry without a star admits the origin that it spells up to case, or, without a scheme separator, exactly the origins whose host it spells |
| CorsOrigins.PrefixEntryIff | server/middleware/cors/cors.go:190-205 | An entry whose only star is at its end admits exactly the origins, or hosts, that start like it |
| CorsOrigins.DefaultAdmitsNothing | server/middleware/cors/cors.go:97-122 | The default list, and any list of empty entries, admits no origin |
| CorsOrigins.ResolvedOnce | server/middleware/cors/cors.go:169-185 | The answer is unique: the specification of ResolveOrigin allows one value for each list and origin |
| CorsOrigins.NoOriginIff | server/middleware/cors/cors.go:169-190 | A request without an origin is answered if and only if the list holds a lone star |
| CorsOrigins.MatchKeepsScheme | server/middleware/cors/cors.go:191-194 | A value that matches a pattern with a scheme separator has one itself |
| CorsOrigins.HostlessOriginIff | server/middleware/cors/cors.go:187-206 | An origin with neither host nor scheme separator is admitted if and only if the list holds a lone star, for every library that keeps separators when lower-casing and comparing |
| CorsOrigins.EveryOriginIff | server/middleware/cors/cors.go:18-23 | With such a library and origin, a list admits every named origin if and only if it holds a lone star |
| TaskErrors.CollectedInAnyOrder | core/task/multierr/error.go:13-37 | Collecting the errors of several tasks in any order, none twice, gives each error as often as it occurred |
| TaskErrors.MultiError.Add | core/task/multierr/error.go:13-20 | Appends an error and ignores nil |
| TaskErrors.MultiError.Unwrap | core/task/multierr/error.go:30-37 | Nil when nothing was added, otherwise all of it in order |
| Group.Group.FirstNil | core/task/group.go:107-112 | Finds the first nil task, if any |
| Group.Group.EnterStartRegion | core/task/group.go:114-133 | The first Start gets in and sets the fields up; a later one gets the error of the state it finds |
| Group.Group.BeginStopRegion | core/task/group.go:166-168 | Only the state changes, to stopping |
| Group.Group.PublishRegion | core/task/group.go:228-232 | Result, state and stop channel are published together |
| Group.Group.StopRegion | core/task/group.go:246-291 | What Stop goes on with in each state |
| GroupRuns.StartedSinceCalled | core/task/group.go:275-279 | In every run of a group without nil tasks, the state that IsStarted tests for is reached if and only if Start has been called |
| GroupRuns.StoppedSincePublished | core/task/group.go:282-286 | In every run, the state that IsStopped tests for is reached if and only if the step that publishes the result has been taken, and doneCh is closed if and only if its closing step has |
| Group.StepInv | core/task/group.go:102-300 | Every step of Start, of its goroutines and of any caller keeps the invariant that ties the state field, the channels, the two sets of goroutines, the error accumulators and the callers together |
| Group.RunInv | core/task/group.go:102-300 | So every reachable state satisfies it, for any number of tasks and callers |
| GroupRuns.StateMoves | core/task/group.go:114-133 | The state moves only from init to running, from running to stopping or stopped, and from stopping to stopped |
| GroupRuns.NothingIsUndone | core/task/group.go:228-233 | Along every run the state never goes back, and the published result, the closed done channel and the shutdown reason never change again |
| GroupRuns.DoneClosesOnce | core/task/group.go:194-233 | The done channel is closed at most once, and only after every task's Start has returned and its result was received |
| GroupRuns.StoppedMeansStoppedOnce | core/task/group.go:161-216 | In the stopped state each task's Stop has been called and has returned exactly once if shutdown was begun, and was never called otherwise |
| GroupRuns.StopCalledAtMostOnce | core/task/group.go:161-191 | In every state each Stop has been called at most once, and only after shutdown was begun |
| GroupRuns.ReasonIsFirstTrigger | core/task/group.go:161-212 | Of all task failures, manual stops and parent cancellations that the loop sees, the first is the shutdown reason |
| GroupRuns.FinalErrorContents | core/task/group.go:218-232 | As multisets: the published error is all non-cancelled start failures and all stop failures of all tasks if the first trigger was a task failure, all stop failures if it was a stop request or the parent, and nothing if there was none |
| GroupRuns.FinalErrorInOrder | core/task/group.go:218-226 | In order: the start failures as their results came in, and then the stop failures as they were recorded |
| GroupRuns.FailureIsDropped | core/task/group.go:201-226 | After a task has failed, and not by being cancelled, the result is nil if and only if a stop request or the parent was seen first and no task failed to stop |
| GroupRuns.StartErrorMeansShutdown | core/task/group.go:201-211 | A recorded start error means that shutdown was begun, so the default branch returns nil |
| GroupRuns.OneResultForAll | core/task/group.go:228-300 | Start and every Stop caller that gets a result get the same one, whenever they get it |
| GroupRuns.RefusedCalls | core/task/group.go:114-130 | Exactly the first Start gets in, and exactly the Stops before it are refused |
| GroupRuns.ResultSendsNeverBlock | core/task/group.go:141-151 | A task goroutine never waits to send its result: the channel has room for all of them |
| GroupRuns.StopsAreHeard | core/task/group.go:256-265 | No stop request is lost: while any caller of Stop waits, a request is in the channel, or shutdown has begun, or the loop is over |
| GroupRuns.LaterTriggersStutter | core/task/group.go:197-200 | After the first trigger, another stop request or the parent's cancellation changes nothing but the request channel |
| GroupRuns.StepWork | core/task/group.go:141-233 | Each step of the supervisor or its goroutines lowers the remaining work, and no other step raises it |
| GroupRuns.ProductiveStepsAreBounded | core/task/group.go:141-233 | However requests, cancellations and callers interleave, a run holds at most as many productive steps as there was work at its start |
| GroupRuns.SomeStepIsEnabled | core/task/group.go:194-233 | No deadlock: until Start returns, a productive step is enabled in every reachable state |
| GroupRuns.CanFinish | core/task/group.go:194-235 | From every reachable state after Start was entered the run can be completed within the remaining work |
| GroupRuns.WaitersAreReleased | core/task/group.go:288-300 | Once the done channel is closed a waiting Stop returns the published result after two steps of its own |
| GroupCalls.StartAnswers | core/task/group.go:107-130 | In every reachable state: a nil task is reported first, the first Start gets in, and later ones are told that the group was started, or stopped once its result is published |
| GroupCalls.StopAnswers | core/task/group.go:246-271 | In every reachable state: a new Stop is refused before Start, goes on to ask while the group runs, waits while it shuts down, and gets the published error afterwards; nothing else changes |
| GroupCalls.SendingAsks | core/task/group.go:256-263 | Asking never waits and leaves exactly one manual stop request in the channel, and the caller waits |
| GroupCalls.WaitingEnds | core/task/group.go:288-300 | A waiting caller is woken if and only if doneCh is closed, and its own context gives it the context's error |
| GroupCalls.TriggersAreSeen | core/task/group.go:195-200 | While results are awaited a request and a cancelled parent can be received, a request is consumed, and without an earlier reason they become the reason |
| GroupCalls.ManualStopWorks | core/task/group.go:196-263 | Three steps after Stop was called on a running group, shutdown has begun for that reason and the caller waits |
| GroupCalls.RecordsAreTrue | core/task/group.go:143-186 | In every run the outcomes from which the final error is computed are those with which the tasks' Start and Stop returned, and the counter of Stop counts its calls |
| GroupCalls.StopIsCalledOnce | core/task/group.go:161-191 | No run calls a task's Stop more than once |
| GroupCalls.ReasonsAreReal | core/task/group.go:195-211 | Shutdown is begun only after a Stop asked for it, the parent was cancelled or a task failed, as its reason says |
| GroupCalls.AnswersFit | core/task/group.go:102-300 | In every run each caller's place and answer belongs to the call that it made |
| Manager.Manager.InsertRegion | core/task/manager.go:121-134 | Refuses a name whose entry is not nil and not done, otherwise maps the name to the new entry |
| Manager.Manager.RemoveTaskIfSame | core/task/manager.go:295-302 | Removes the name only if it still maps to the expected entry |
| Manager.Manager.GetTask | core/task/manager.go:271-279 | Finds the entry of a name unless it is missing or nil |
| Manager.Manager.SnapshotTasks | core/task/manager.go:281-293 | Copies every mapping to a non-nil entry and no other |
| Manager.Manager.NoteStart | core/task/manager.go:145-147 | The start accumulator grows by the failure, unless it is a cancellation |
| Manager.Manager.NoteStop | core/task/manager.go:321-323 | The stop accumulator grows by the failure |
| Manager.Manager.ResultErr | core/task/manager.go:338-340 | All start errors followed by all stop errors |
| Manager.StepInv | core/task/manager.go:104-350 | Every step keeps the invariant on the map, the entries, opsMu and the callers, and the books of the wait group and the two error accumulators |
| Manager.RunInv | core/task/manager.go:104-350 | So every reachable state satisfies both, for any number of tasks and callers |
| Manager.StopperRemovesNothing | core/task/manager.go:179-215 | By the time StopTask or StopAll calls removeTaskIfSame, the entry's own goroutine has already removed it |
| ManagerRuns.OneTaskPerName | core/task/manager.go:121-152 | At most one entry of a name has a Start that has not returned, and it is the one in the map |
| ManagerRuns.MappedEntriesAreOpen | core/task/manager.go:122-131 | Every entry in the map has an open doneCh |
| ManagerRuns.StartTaskDecides | core/task/manager.go:115-152 | StartTask is refused exactly when the name is in the map; otherwise it adds one entry and one mapping and replaces nothing |
| ManagerRuns.OnlyItsGoroutineRemoves | core/task/manager.go:149-302 | A name leaves the map only by the removal of its current entry's own goroutine after its Start has returned |
| ManagerRuns.StopIsCalledOnce | core/task/manager.go:304-329 | However many StopTask and StopAll calls race, an entry's Stop is called at most once |
| ManagerRuns.StopTaskMeans | core/task/manager.go:160-181 | When StopTask has waited to the end, Start and Stop of an entry of the requested name have both returned, and its answer is nil if and only if Stop gave nil, otherwise it is Stop's error |
| ManagerRuns.StopTaskStopsTheNamed | core/task/manager.go:165-181 | In every run the entry that a StopTask stops and answers about is the one that the map held for its name when it was called |
| ManagerRuns.MutualExclusion | core/task/manager.go:115-233 | At most one of StartTask, StopAll and Wait is in its critical section |
| ManagerRuns.WaitWaitsForAll | core/task/manager.go:228-233 | Wait gets through if and only if every goroutine started so far has exited |
| ManagerRuns.JoinedMeans | core/task/manager.go:188-233 | When Wait, or a StopAll without a timeout, is about to return and still holds opsMu, the map is empty, every Start has returned and the answer holds each non-cancelled start failure as often as it occurred |
| ManagerRuns.WaitReportsFailures | core/task/manager.go:228-233 | An error is among the start errors of Wait's answer if and only if some Start failed with it and it is not a cancellation |
| ManagerRuns.StopErrorsAreRead | core/task/manager.go:338-340 | The stop errors in an answer of Wait or StopAll are exactly the failures of Stop noted by then, each as often as it occurred |
| ManagerRuns.StopErrorsReachWait | core/task/manager.go:226-233 | An error that StopTask has returned is in the answer of every Wait and StopAll that reads later |
| ManagerRuns.StopAllReportsItsStops | core/task/manager.go:201-223 | A StopAll without a timeout has waited for every entry of its snapshot to stop and to exit, and its answer holds the error of each Stop |
| ManagerProgress.GoesOnIff | core/task/manager.go:160-350 | A call without an answer can go on, with no timeout, new call or return of a task, unless it or the holder of opsMu it queues behind is a stopper all of whose open waits are for a task inside Stop, or inside Start after its Stop, or a Wait all of whose remaining tasks are inside Start with no stop goroutine about to begin; and only then not |
| ManagerProgress.HeldUpIff | core/task/manager.go:188-233 | When tasks return from Stop, and from Start once their context is done, by their stop or by its parent, a call cannot go on if and only if it is a Wait, or queues for opsMu behind one, and every task left is inside Start with no stop requested and with the context that StartTask was given not done |
| ManagerProgress.TimesOutIff | core/task/manager.go:342-349 | A caller's context is looked at if and only if the caller, or a worker of its StopAll, awaits an entry's signal; never at opsMu |
| ManagerProgress.OwnStepIff | core/task/manager.go:188-233 | No expired context helps a call if and only if it is at an opsMu that is held, or in Wait with a goroutine left |
| ManagerProgress.StopAllIgnoresItsContext | core/task/manager.go:183-233 | A run after which StopAll is behind Wait and nothing is enabled but a new call, the cancellation of StartTask's context or the return of a Start that nobody has cancelled |
| ManagerProgress.StopAllIsHeldUp | core/task/manager.go:188-233 | From every such state, any number of further steps leaves StopAll where it is, until the task returns or StopTask is called for it |
| ManagerWork.StepWork | core/task/manager.go:104-350 | Every step but a new call lowers a measure over the stages of the entries, the workers and the callers |
| ManagerWork.StepsAreBounded | core/task/manager.go:104-350 | Between new calls at most as many steps can be taken as there is work at hand, in any order |
| ManagerWork.CallsCompleteWithoutWait | core/task/manager.go:104-223 | While no Wait is under way, tasks that return from Stop, and from Start once cancelled, let every call be answered within the work at hand and without a timeout |
| ManagerWork.CallsCompleteIfTasksReturn | core/task/manager.go:104-233 | With a Wait under way the same holds if tasks also return from Start of themselves |
| ManagerWork.ExpiredCallReturns | core/task/manager.go:160-224 | Once a StopAll has got opsMu, or a StopTask its entry, an expired context lets it be answered by its own steps alone |
| ManagerCalls.StopTaskFinds | core/task/manager.go:165-170 | In every reachable state StopTask fails with ErrTaskNotFound if and only if no entry of the name is before its removal; otherwise it turns to that entry and its next step has a stop requested for it |
| ManagerCalls.OtherCalls | core/task/manager.go:104-115 | StartTask refuses a nil task and an empty name, in that order, and otherwise queues for opsMu; StopAll and Wait queue at once |
| ManagerCalls.SnapshotIsComplete | core/task/manager.go:196-216 | StopAll starts one worker for each entry that is before its removal, and no other |
| ManagerCalls.StartErrorsAreRead | core/task/manager.go:338-340 | The start errors in every answer of StopAll and Wait, timeouts or not, are exactly the failures noted by the time they are read |
| ManagerCalls.StartErrorsAreKept | core/task/manager.go:219-233 | What was collected and read, with the stop errors of that moment, is the answer that the caller gets |
| ManagerCalls.CollectedErrors | core/task/manager.go:207-223 | Each wait that is cut short adds the context's error to StopAll's answer, and nothing else does |
| ManagerCalls.TimedOutOnce | core/task/manager.go:211-213 | A wait that is cut short is over for its worker alone |
| ManagerCalls.RecordsAreTrue | core/task/manager.go:136-329 | In every run the outcomes from which answers are computed are those with which the tasks' Start and Stop returned, and the counter of Stop counts its calls |
| ManagerCalls.StopIsBegunOnce | core/task/manager.go:304-329 | No run calls an entry's Stop more than once |
| ManagerCalls.AnswersFit | core/task/manager.go:104-233 | In every run each caller's place and answer belongs to the call that it made, for the name that it gave |
| Captcha.VerificationSystem.CleanExpiredFor | utils/exp/captcha/verification.go:41-51 | Keeps exactly the number's codes that expire later than now, in order |
| Captcha.VerificationSystem.SaveCode | utils/exp/captcha/verification.go:85-124 | The whole new state and the outcome, with a minute counter that was reset before a daily refusal staying reset |
| Captcha.VerificationSystem.Verify | utils/exp/captcha/verification.go:129-142 | True exactly when a code left after the cleaning is the given one |
| Captcha.VerificationSystem.CleanExpired | utils/exp/captcha/verification.go:146-153 | Cleans every number |
| Captcha.SlidingWindows | utils/exp/captcha/verification.go:85-124 | In every run any minuteLimit + 1 consecutive accepted sends span a minute and any dailyLimit + 1 span 24 hours |
| Captcha.RefusalsAreExact | utils/exp/captcha/verification.go:91-111 | In every run a limit refuses a send if and only if the number of accepted sends is a positive multiple of the limit and the last of them lies less than the window back; the minute's limit answers first |
| Captcha.StricterThanPerMinute | utils/exp/captcha/verification.go:91-100 | With two sends a minute, sends at zero and after an hour make one a second later refused, with one send in the last minute |
| Captcha.StoreShowsAccepted | utils/exp/captcha/verification.go:41-51 | From any moment on the store and the full list of accepted codes show the same unexpired codes |
| Captcha.VerifyIsExact | utils/exp/captcha/verification.go:118-153 | Verify is true if and only if some accepted send of that code to that number has not expired, whatever was cleaned before |
| Captcha.CleaningRemoves | utils/exp/captcha/verification.go:129-153 | CleanExpired leaves no expired code, and Verify none of its number |
| Captcha.SavingRemoves | utils/exp/captcha/verification.go:85-124 | SaveCode leaves no expired code of its number, and an accepted one adds its code with its own lifetime at the end |
| MCache.Map.Set | cache/mcache/cache.go:46-53 | Writes without a deadline |
| MCache.Map.SetWithTTL | cache/mcache/cache.go:55-66 | Writes with a deadline, or without one for a negative lifetime |
| MCache.Map.MultiSet | cache/mcache/cache.go:68-77 | The loop writes every pair and nothing else |
| MCache.Map.MultiSetWithTTL | cache/mcache/cache.go:79-93 | The loop writes every pair with the same deadline |
| MCache.Map.Get | cache/mcache/cache.go:95-107 | Answers the value unless it is past its deadline, and then evicts it |
| MCache.Map.GetDel | cache/mcache/cache.go:109-125 | Answers like Get and leaves the key deleted |
| MCache.Map.MultiGet | cache/mcache/cache.go:127-147 | The loop answers exactly the keys that Get would and evicts the expired ones, repeated keys included |
| MCache.Map.Del | cache/mcache/cache.go:149-156 | Forgets the key |
| MCache.Map.MultiDel | cache/mcache/cache.go:158-167 | The loop forgets exactly the keys |
| MCache.Map.DelAll | cache/mcache/cache.go:169-176 | Forgets everything |
| MCache.Map.Count | cache/mcache/cache.go:178-190 | The sweep removes exactly the expired keys and counts the rest |
| MCache.Map.Trim | cache/mcache/cache.go:192-194 | The same sweep |
| MCache.Map.Exists | cache/mcache/cache.go:196-199 | Whether Get would find the key, with the same eviction |
| MCache.EvictionIsInvisible | cache/mcache/cache.go:46-199 | After any operations at non-decreasing times every operation answers what a history of writes that never evicts would answer |
| MCache.CountAgrees | cache/mcache/cache.go:178-190 | What a sweep leaves are exactly the keys whose last write is neither deleted nor past its deadline |
| MCache.SweepFrees | cache/mcache/cache.go:178-194 | After Count and Trim exactly the live keys are stored |
| MCache.ReadFrees | cache/mcache/cache.go:95-147 | A read frees the keys that it looks at and finds expired, GetDel the key that it finds, and every other key stays as it is |
| MCache.ExpirationsHaveEntries | cache/mcache/cache.go:46-199 | Every key with a deadline has an entry |
| Queue.Queue.GetOrCreateQueue | mq/memory/queue.go:132-145 | Finds the topic's channel or makes one, and fails on a closed queue |
| Queue.Queue.GetQueue | mq/memory/queue.go:147-156 | Finds the topic's channel without making one |
| Queue.Queue.Close | mq/memory/queue.go:119-130 | The loop closes every channel once and drops no message |
| Queue.Queue.PurgeQueue | mq/memory/queue.go:92-117 | Without interference the loop drains the channel, or stops with the context's error and leaves the rest in order when the select takes that branch; it reports a closed queue |
| Queue.MessagesAreConserved | mq/memory/queue.go:34-156 | In every interleaving the messages accepted for a topic are the ones taken by consumers and purges, in order, followed by the ones waiting, of which there are at most queueSize |
| Queue.EventsAreRight | mq/memory/queue.go:34-117 | Messages are discarded by purges only and delivered by Consume and TryConsume only, each of which ends with one; an accepted message ends its own Publish; every error and every empty answer has its cause |
| Queue.AcceptedAreDelivered | mq/memory/queue.go:34-90 | In every run without PurgeQueue the accepted messages are exactly the delivered ones, in order, followed by those waiting |
| Queue.CallsAreAsMade | mq/memory/queue.go:34-103 | A call under way is for the topic, of the kind and with the message that it was made with |
| Queue.StepsOfCalls | mq/memory/queue.go:40-116 | Which channel operations a call can take is decided by the state of its topic alone, a direct hand-over included |
| Queue.ReportsOfCalls | mq/memory/queue.go:40-116 | And what it reports when it takes one: a receiver the oldest waiting message |
| Queue.LookupAnswers | mq/memory/queue.go:34-103 | A new call fails on a closed queue, Publish and Consume always get a channel on an open one, and TryConsume and PurgeQueue find nothing on an unused topic |
| Queue.CloseCloses | mq/memory/queue.go:119-130 | Close closes the queue and every channel at once and drops no message |
| Queue.ChannelsAreForLife | mq/memory/queue.go:132-145 | A topic keeps its channel for the rest of the run and a closed queue stays closed |
| Queue.HandlesStayCurrent | mq/memory/queue.go:34-117 | A channel handle that a call took earlier is still the channel of its topic and of no other |
| Queue.NothingAcceptedAfterClose | mq/memory/queue.go:34-46 | No Publish succeeds once the queue is closed |
| Queue.PurgeSawItEmpty | mq/memory/queue.go:105-116 | When TryConsume finds nothing, or PurgeQueue returns nil, on an existing topic, every message accepted so far has been taken |
| Queue.CloseWakesEveryCall | mq/memory/queue.go:119-130 | After Close every pending call has an enabled step of its own; for a Publish that step is the panic of a send on a closed channel |
| Queue.TryConsumeFails | mq/memory/queue.go:66-90 | TryConsume fails with the closed-queue error if and only if the queue is closed at the lookup, or its channel is closed and drained later; an expired context fails it too |

## Left out

- Scheduling fairness: the progress theorems say that a step is enabled and that only finitely many can be taken, not that a scheduler takes them. A Group whose parent is done may take the `ctx.Done()` branch again and again; that step is a stutter.
- Panics, logging and task identifiers: a panic of a task is one of the failures it may return with (`core/task/exec.go`).
- Contexts: the automatic stop timeout only influences when a task's Stop returns, which is arbitrary here. A nil context is not modelled.
- `errors.Join` is modelled by the list of its leaves, and `errors.Is(err, context.Canceled)` by a flag of the error.
- A task that calls back into its own Manager while StopAll or Wait holds opsMu would wait for itself; tasks here do not.
- Group's select loop and Manager's goroutines are steps of a transition system, not one method, because other goroutines run between their operations; only their lock regions are methods.
- The Manager's queries (`IsRunning`, `GetRunningTasks`, `GetTaskCount`) read the map and would add only easy members.
- Data races of `Verify`, `Get` and `MultiGet`, which mutate under a read lock: these two types are modelled as sequential operations.
- Publish on a channel that was closed after the lookup panics in Go: a separate outcome of that step that adds no message.
- Queue.Queue.PurgeQueue: models the loop without other goroutines in between; the interleaved loop is part of the transition system.
- Allocation: channels, entries and stores are created with the sizes that the options give; the options themselves are not modelled, and the first allocation of a map is its empty value.
- `math.Log2` is replaced by the test that the base is 2^k; for the bases from 2 to 256 that a byte alphabet can have, that is when the logarithm is a whole number.
- Shifts, masks and ors on `uint32` and `int64` are written as arithmetic with explicit wrap-around.
- `int` lengths and counters are unbounded.
- `encodeMathematical`'s fallback for an empty result cannot be reached and is not written out; the two copies of the division loop share one method.
- The base 32 and base 16 groupings of RFC 4648; base 64 is the one with both fill bits and both pad counts.
- `extractHost`, lower-casing and comparison up to case are library code and parameters of `CorsOrigins`; the headers other than the allowed origin are not modelled.
- `GetCaptchaCount`, random codes, random texts, JSON forms.
- Adapters to Redis, Badger, Ristretto, S3, Qiniu, Meilisearch, SQLite and zap, URL and path handling, HTTP handlers and middleware plumbing, access control, pubsub and the delegating caches.
