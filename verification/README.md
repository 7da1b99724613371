# Horse64: a verified model of the runtime's self-contained algorithms

Horse64 is a language runtime in C. This project models, in Dafny, the parts of it that carry properties over whole
runs or whole inputs, and proves these properties.

| file | what it is about |
|---|---|
| `ItemSort.dfy` | the in-place quick sort that works through a first-in first-out queue of ranges |
| `ThreadEvent.dfy` | the wake-up event of a thread: a flag, a mutex and a socket pair |
| `AsyncJobs.dfy`, `AsyncProgress.dfy` | the queue of asynchronous system jobs, its six workers and their events; what they get done |
| `WideChar.dfy`, `Letters.dfy` | UTF-8 to UTF-32 and back with escaped bytes; the letter scanners over both |
| `NonLocale.dfy`, `Json.dfy`, `JsonGrammar.dfy`, `JsonRoundTrip.dfy` | integer reading, the JSON parser and printer, which texts are accepted, and what survives both |
| `Words.dfy`, `Bytecode.dfy`, `BytecodeImage.dfy`, `BytecodeFormat.dfy` | the bytecode image: fields, programs, dump and restore, and its bytes |
| `PoolAlloc.dfy` | the pool allocator with doubling areas and an emergency reserve |
| `PakChain.dfy` | resource paks appended to a binary, and the reader that finds them again |
| `SendBuffer.dfy` | the send buffer of a socket, with partial and blocked writes |
| `HashMap.dfy`, `Interning.dfy` | the chained hash map, and the interning of attribute names built on it |
| `ClassAttributes.dfy`, `KeywordArgs.dfy` | the attribute index of a class; keyword arguments sorted by name id |
| `Uri.dfy` | percent encoding of paths and the in-place decoder |
| `Options.dfy` | a value or nothing |

Code that works step by step is modelled as methods over arrays, fields and linked nodes. Each such method is proved
equal to a specification function, and the lemmas are about those functions. The two concurrent protocols are state
machines whose steps are what one thread does between two points where another can interfere.

What the outside world does is an input everywhere: the pivots a random source draws, whether memory can be had and
where it lies, what the operating system answers to a write or a poll, which threads and events could be created, the
Unicode table of grapheme breaks, the hash function, and the comparison of two items.

Some properties hold only under a condition. They are stated as equivalences, or the condition is shown to be needed:

* JSON text comes back from printing and parsing if and only if the value is at most 20 deep and no string in it holds
  a control character: the parser drops the backslash of an escape and keeps what follows, so `\n` reads back as `n`.
  `JsonRoundTrip.RoundTrip` is this equivalence, for all 7-bit strings and all 64-bit integers.
* A path survives percent encoding if and only if it holds no code point 0, which reads back as a question mark.
* Appending a pak extends the chain if and only if the pak is not empty; an empty pak hides every older one.
* A wake-up is lost only when the send of its byte ends in a hard socket error. While the owner polls an empty socket,
  it stays blocked if and only if no setter's send succeeded.
* A request that signals the workers can get past a send if and only if the socket has room or its worker will drain it
  before it needs the mutex that the request holds. Otherwise both are stuck for ever, and that state is reachable.
* Rebuilding the attribute buckets of a class succeeds if and only if its tables name nothing twice.
* Text of digits is read as the number it stands for if and only if that number fits 64 bits.
* A text is parsed as JSON if and only if it is in the grammar of `JsonGrammar.dfy`, which allows more than the standard
  in some places and less in others: `[1,]` is a list and `[ ]` is not.

Where code and comments part ways, the model follows the code:

* The letter rule reads the code point it calls the one before last from the same index as the last one
  (horse64/widechar.c:350-355).
* So from three code points on, the check for an uneven number of regional indicators always lets them join; a text that
  begins with something else that joins them has all of them in one letter.
* Digits in front of another character are read as their value times the base (horse64/nonlocale.c:77-84): `5x` in base
  10 is 50, and the percent escape `%1z` is 16.
* A negative number below the smallest 64-bit one is read as the largest (horse64/nonlocale.c:107-108).
* A carriage return and a line feed are two letters unless the break table makes the line feed a mark: only the break is
  spared, nothing joins them (horse64/widechar.c:312-317).
* A sort whose job queue cannot grow returns 0 without setting the out-of-memory flag (horse64/itemsort.c:44-48), and
  every push beyond 32 ranges allocates again.
* The first hexadecimal digit of a percent escape may be `a` but no other small letter, while `A` to `Z` are accepted
  (horse64/uri32.c:30-43).
* The id of the name `on_cloned_name_index` is tracked, that of `on_cloned` is not (horse64/debugsymbols.c:211-213).
* A job of type NONE that a worker picks up stays in progress for ever.

## Model

| member | source | states |
|---|---|---|
| ItemSort.Do | horse64/itemsort.c:63-220 | on every way to end the array is a permutation of the input; a return of 1 under any total preorder means it is sorted; the rounds of the call are a run that its comparisons and draws fix, and the end is the one the next round has; an error return is justified by a comparison that reports it or by memory refused; with u unlucky draws at most 2n-1+u rounds are begun and at most n-2+u draw a pivot |
| ItemSort.Round | horse64/itemsort.c:99-214 | one pass adds exactly the round that the front of the queue, the comparisons and the next draw make, uses a draw exactly for a long range, and otherwise ends the call the way that round ends |
| ItemSort.SettleJob | horse64/itemsort.c:104-137 | a range of at most two items is settled and leaves the queue, or the call ends with the error its comparison reports |
| ItemSort.SortPair | horse64/itemsort.c:108-137 | two items end up in compared order with all others in place, or an error is reported with the items kept |
| ItemSort.SplitJob | horse64/itemsort.c:138-213 | a longer range is split by the pivot its draw picked and its parts are queued, or the call ends with the error of a comparison |
| ItemSort.Partition | horse64/itemsort.c:145-209 | pulling the pivot through the range leaves nothing above it below and nothing below it above, touches no other position, and keeps the items even when a comparison fails |
| ItemSort.MoveAcross | horse64/itemsort.c:171-207 | item and pivot go where the inner loop puts them, next to each other or around the neighbour of the pivot |
| ItemSort.PullBelow | horse64/itemsort.c:184-205 | pivot, its upper neighbour and the item change places in a cycle, everything else stays |
| ItemSort.Swap | horse64/itemsort.c:175-183 | two items change places, all others stay |
| ItemSort.MovedKeeps | horse64/itemsort.c:171-207 | moving one item across the pivot keeps everything passed so far on its side and touches nothing outside the range |
| ItemSort.PartitionWorks | horse64/itemsort.c:145-209 | the inner loop, from any state it can be in, partitions the range around the item it started with or stops at a comparison that reports an error, and only rearranges the range |
| ItemSort.SettleWorks | horse64/itemsort.c:104-137 | a short range ends up as its comparison says, or is kept with the error, exactly if the comparison of its two items reports one |
| ItemSort.PendingValid | horse64/itemsort.c:99-213 | on every legal run the queued ranges are non-empty, disjoint and inside the array |
| ItemSort.WorkPaid | horse64/itemsort.c:99-213 | on every legal run rounds made and work left add up to at most 2n-1 plus the unlucky draws, draws made and draws left to at most n-2 plus those |
| ItemSort.RunBound | horse64/itemsort.c:99-213 | so for every comparison and every sequence of draws at most 2n-1 rounds plus the unlucky draws are begun, and at most n-2 plus those draw a pivot |
| ItemSort.RunIsUnique | horse64/itemsort.c:99-213 | comparisons and draws fix the run: two runs of one length are the same |
| ItemSort.RunRearranges | horse64/itemsort.c:99-213 | after every run the items are a permutation of the input |
| ItemSort.RunKeepsInversions | horse64/itemsort.c:99-213 | after every run, for every total preorder, each pair that is out of order lies inside one queued range |
| ItemSort.FinishedRunSorts | horse64/itemsort.c:216-219 | a run that leaves nothing queued has sorted the items |
| ItemSort.EndIsJustified | horse64/itemsort.c:114-126 | every way a call ends leaves a permutation, and an error was reported by comparing two of the items |
| ItemSort.EndIsBounded | horse64/itemsort.c:99-219 | the bounds on rounds and draws hold for every way a call ends, the round it ends in included |
| ItemSort.AnyCanBePicked | horse64/itemsort.c:139-144 | any position of a range can be drawn as pivot, and draws that differ by a multiple of its length draw the same one |
| ItemSort.DrawsCount | horse64/itemsort.c:138-144 | the number of draws in the bounds is the number of rounds that split |
| ItemSort.UnluckyCount | horse64/itemsort.c:210-212 | the number of unlucky ones is the number of rounds whose pivot ended at the start of its range |
| ItemSort.PushJob | horse64/itemsort.c:24-55 | a non-empty range goes to the end of the queue, an empty one is dropped, and a push fails exactly beyond 32 ranges without memory |
| ItemSort.PushBoth | horse64/itemsort.c:210-212 | both follow-up ranges are queued exactly if neither push lacks memory beyond 32 ranges |
| ItemSort.OrderKeptAcrossRange | horse64/itemsort.c:145-213 | rearranging the first pending range breaks the order of no pair that is not inside it |
| ItemSort.SettleRange | horse64/itemsort.c:104-137 | after a range is sorted, the other pending ranges still hold every inversion |
| ItemSort.SplitRange | horse64/itemsort.c:145-213 | after a range is partitioned, the other pending ranges and the two follow-ups hold every inversion |
| ItemSort.SplitKeepsQueueValid | horse64/itemsort.c:210-213 | pending ranges stay non-empty, disjoint and inside the array |
| ItemSort.EmptyQueueMeansOrdered | horse64/itemsort.c:216-219 | with no range pending the array is ordered, and an ordered array has no inversion to account for |
| ItemSort.SplitWork | horse64/itemsort.c:210-213 | a split lowers the remaining work by one unless the pivot ended first, which leaves it unchanged |
| ItemSort.SettlingRound | horse64/itemsort.c:104-137 | a settling round keeps every inversion inside a queued range |
| ItemSort.SplittingRound | horse64/itemsort.c:138-213 | a splitting round keeps every inversion inside a queued range |
| ThreadEvent.RunKeepsWakeUp | horse64/threading.c:760-905 | no run of setter and owner steps leaves a polling owner with the flag up and neither a byte, a sender nor a failed send |
| ThreadEvent.NoLostWakeUp | horse64/threading.c:797-905 | on every run without a hard send error, an owner in the poll whose flag is up, with no setter between flag and send, has a byte to read |
| ThreadEvent.HardErrorLosesWakeUp | horse64/threading.c:806-818 | the condition is needed: a run with one hard error leaves the owner blocked under a raised flag |
| ThreadEvent.BlockedUntilDelivery | horse64/threading.c:797-839 | an owner polling an empty socket stays blocked if and only if no send of any setter succeeded |
| ThreadEvent.DrainReturns | horse64/threading.c:876-893 | draining the socket and looking at the flag takes every byte and ends the wait with success |
| ThreadEvent.WakeUpReturns | horse64/threading.c:862-893 | a polling owner with a raised flag and a byte returns by its own steps alone, the flag cleared if asked |
| ThreadEvent.NothingIsLost | horse64/threading.c:777-839 | over any run bytes in the socket and received are those there and sent, and every raised flag has a send under way, done or failed |
| ThreadEvent.FlagIsUpUntilTaken | horse64/threading.c:760-771 | over any run the flag is up exactly if it was raised since an unset, or a look that was to clear it, last took it |
| ThreadEvent.UnsetIsUndisturbed | horse64/threading.c:788-794 | on every run the flag stays down from when an unset clears it until it has emptied the socket |
| ThreadEvent.UnsetAndFlush | horse64/threading.c:777-794 | both leave the socket empty; an unset leaves the flag down, a flush leaves it as it was |
| ThreadEvent.FindsFlagUp | horse64/threading.c:760-851 | a wait or a look that finds the flag up returns at once, clears it only if asked and leaves the socket alone |
| ThreadEvent.TimesOut | horse64/threading.c:853-903 | a wait for a flag that stays down polls again while there is time and then returns with nothing changed |
| AsyncJobs.ScanKeepsRest | horse64/asyncsysjob.c:136-165 | a scan frees only abandoned jobs that are not in progress and keeps all others in request order |
| AsyncJobs.ScanTakesOldest | horse64/asyncsysjob.c:136-165 | it takes the oldest waiting job, or leaves none waiting, and frees exactly the abandoned jobs not in progress that it comes past |
| AsyncJobs.SpawningAll | horse64/asyncsysjob.c:572-593 | with every event there, spawning succeeds only with the first thread started and counts all six |
| AsyncJobs.FirstRequest | horse64/asyncsysjob.c:509-605 | a request that finds workers missing, whatever memory, events and threads it gets, keeps the invariant and, if accepted, leaves all workers counted |
| AsyncJobs.LaterRequest | horse64/asyncsysjob.c:519-604 | a request with all workers there, whether the array of jobs grows or not, keeps the invariant while it holds the mutex |
| AsyncJobs.SignalKeeps | horse64/asyncsysjob.c:594-604 | every step of signalling the events one after another, with the mutex held, keeps the invariant |
| AsyncJobs.ScanKeeps | horse64/asyncsysjob.c:136-165 | one pass of a worker over the queue keeps the invariant |
| AsyncJobs.FinishKeeps | horse64/asyncsysjob.c:405-410 | marking a job done keeps the invariant |
| AsyncJobs.AbandonKeeps | horse64/asyncsysjob.c:607-613 | abandoning a job that is not freed, at any time and any number of times, keeps the invariant |
| AsyncJobs.WaitKeeps | horse64/asyncsysjob.c:485-488 | every step a worker makes inside its wait keeps the invariant, the wake-up of its event included |
| AsyncJobs.StepKeeps | horse64/asyncsysjob.c:133-613 | every step that can happen, sends into a full socket included, keeps ownership, order, events and sleepers right |
| AsyncJobs.RunKeeps | horse64/asyncsysjob.c:133-613 | every run of steps of requesters, workers and abandoners keeps the invariant |
| AsyncJobs.ReachableStep | horse64/asyncsysjob.c:133-613 | what can happen in a reachable state leads to a reachable state |
| AsyncJobs.SleepHappens | horse64/asyncsysjob.c:485-613 | a worker that did the only job and sleeps is reachable, so the results about sleepers are not empty |
| AsyncJobs.JobOwnership | horse64/asyncsysjob.c:133-165 | in every reachable state a typed job is in progress exactly while one worker holds it, is started at most once and freed at most once, only after being abandoned and never while held; the queue is the unfreed jobs in request order without duplicates |
| AsyncJobs.HistoryIsFinal | horse64/asyncsysjob.c:133-613 | no run takes back that a job was started, done, abandoned or freed |
| AsyncJobs.FirstComeFirstServed | horse64/asyncsysjob.c:139-164 | a started job means that every older one was started or abandoned |
| AsyncJobs.NoStrandedJob | horse64/asyncsysjob.c:136-165 | a worker that scanned, found nothing, has its event unset and will not be signalled means that no job waits |
| AsyncJobs.BlockedWorkerMeansNothingToDo | horse64/asyncsysjob.c:485-604 | an idle worker blocked in its poll, with no request under way and no byte lost to a socket error, means that no job waits |
| AsyncJobs.AllWorkersAtOnce | horse64/asyncsysjob.c:536-602 | after one accepted request all six workers count and all six events exist |
| AsyncJobs.ScanStartsOldest | horse64/asyncsysjob.c:136-165 | any scan with the mutex free starts the oldest waiting job |
| AsyncJobs.AbandonedNeverStarts | horse64/asyncsysjob.c:607-613 | a job not freed can be abandoned whenever the mutex is free, and no run starts it afterwards |
| AsyncJobs.AbandonedIsFreed | horse64/asyncsysjob.c:139-152 | on every run after that, once no worker is at the job, the next scan that finds nothing or takes a younger job leaves it freed, once |
| AsyncJobs.HolderFinishes | horse64/asyncsysjob.c:405-410 | a worker that holds a job can finish it whenever the mutex is free; the job is then done and the worker scans again |
| AsyncJobs.SendEnds | horse64/threading.c:797-839 | while a request sends, the send may fail or be repeated at any time, succeeds exactly if there is room, and is over unless it is repeated |
| AsyncJobs.RequestOutcome | horse64/asyncsysjob.c:509-605 | a request is accepted exactly if the array of jobs grows and either the workers are there or tables, six events and the first thread can be had; what it then changes, and that refused it changes neither queue, jobs nor workers |
| AsyncJobs.UntypedJobNeverEnds | horse64/asyncsysjob.c:153-166 | a job of no type, once picked up, is never done and never freed |
| AsyncJobs.JobQueue.Append | horse64/asyncsysjob.c:534-535 | the job joins behind every older one under a name no job ever had, and the queue stays the list of all jobs not freed |
| AsyncJobs.JobQueue.Disown | horse64/asyncsysjob.c:584-588 | giving a job back undoes the append exactly |
| AsyncJobs.JobQueue.MakeEvents | horse64/asyncsysjob.c:559-571 | the loop makes the missing events it can and gives up only if there is no worker yet |
| AsyncJobs.JobQueue.SpawnThreads | horse64/asyncsysjob.c:572-593 | the loop counts workers as far as there are events and gives up only if the first thread does not start |
| AsyncJobs.JobQueue.RequestAsync | horse64/asyncsysjob.c:509-605 | a request leaves all shared variables as the step of the state machine does, and one that is refused leaves queue and jobs as they were |
| AsyncJobs.JobQueue.AbandonJob | horse64/asyncsysjob.c:607-613 | abandoning leaves the shared variables as the step of the state machine does |
| AsyncJobs.JobQueue.FinishJob | horse64/asyncsysjob.c:405-410 | so does finishing |
| AsyncJobs.JobQueue.Visit | horse64/asyncsysjob.c:140-163 | one look at one job frees it, takes it or passes it, as the scan does |
| AsyncJobs.JobQueue.PickUp | horse64/asyncsysjob.c:136-165 | the loop over the array leaves array and flags as the scan does |
| AsyncProgress.SleeperIsCalled | horse64/asyncsysjob.c:485-604 | a worker asleep over a waiting job has its flag up and, if it polls, a byte to read |
| AsyncProgress.SleeperStartsOldest | horse64/asyncsysjob.c:485-604 | with the mutex free, a job waiting, and a worker anywhere in its wait after a scan that found nothing, the steps of that worker alone, no poll running out of time, start the oldest waiting job |
| AsyncProgress.StuckForEver | horse64/asyncsysjob.c:594-603 | once a request sends to a full socket that its worker will not drain, no run without a hard send error requests, starts, finishes or abandons anything |
| AsyncProgress.FreeingWorks | horse64/threading.c:797-839 | in every other state of such a send, at most three steps of the worker and the send get the request past it |
| AsyncProgress.RequestGetsOn | horse64/asyncsysjob.c:594-603 | a request can get past a send if and only if the socket has room or its worker will receive before it next needs the mutex |
| AsyncProgress.StuckHappens | horse64/asyncsysjob.c:594-603 | the stuck state is reachable: one request more than the socket holds while the worker is busy |
| WideChar.GetAfterPut | horse64/widechar.c:369-539 | a written code point is read back, with its size, unless a continuation byte follows |
| WideChar.PutAfterGet | horse64/widechar.c:369-539 | what reads as a code point is written back as the same bytes, and a byte that does not read is above 127 |
| WideChar.ByteKinds | horse64/widechar.c:171-190 | which bytes continue a sequence, which begin one, and the length each of those announces |
| WideChar.OneTooManyRefused | horse64/widechar.c:472-539 | with one continuation byte too many behind it, what was written is not read, ASCII aside |
| WideChar.WrittenSizes | horse64/widechar.c:369-438 | how many bytes each code point takes, which are written as escaped bytes, and what becomes of those above 0x1FFFFF |
| WideChar.SurrogateNotRead | horse64/widechar.c:497-501 | a surrogate is written in three bytes that are not read back |
| WideChar.StrayBytesDecode | horse64/widechar.c:590-622 | bytes that begin nothing become 0xFFFD, or 0xDC80 plus the byte, or end the decoding, by mode |
| WideChar.DecodingIsLossless | horse64/widechar.c:590-684 | for every byte string, decoding with escapes succeeds and encoding with unescaping gives the bytes back |
| WideChar.DecodingIsInjective | horse64/widechar.c:590-622 | no two byte strings decode to the same text |
| WideChar.EncodingRoundTrips | horse64/widechar.c:590-684 | every text of non-surrogate code points below 0x200000 encodes and decodes to itself in every mode, in no fewer bytes than code points |
| WideChar.StrictDecodesValid | horse64/widechar.c:590-622 | what the strict decoder accepts is valid and is the encoding of what it returns |
| WideChar.StrictDecodesExactly | horse64/widechar.c:590-684 | the strict decoder returns a text if and only if it is valid and the input is its encoding |
| WideChar.StrictDecodesAsOthers | horse64/widechar.c:590-622 | on input the strict decoder accepts, the escaping and replacing modes agree with it |
| WideChar.Utf8ToUtf32 | horse64/widechar.c:562-653 | the loop fills a buffer of one code point per byte with exactly the decoded text, or aborts exactly when it must |
| WideChar.WriteBytes | horse64/widechar.c:374-438 | bytes go where the output ends, with a terminator behind them if there is room |
| WideChar.EncodeUpTo | horse64/widechar.c:664-681 | the encoding of a text grows code point by code point and never shrinks |
| WideChar.Utf32ToUtf8 | horse64/widechar.c:655-684 | succeeds exactly when all code points can be written and the bytes fit, and then the buffer starts with the encoding |
| Letters.Utf32LetterLen | horse64/widechar.c:301-367 | the loop finds the length of the first letter |
| Letters.LetterEndsAtFirstBreak | horse64/widechar.c:309-365 | a letter ends at the first place where two code points do not join |
| Letters.LetterOfPrefix | horse64/widechar.c:309-365 | cutting a text short cuts its first letter short and does nothing else to it |
| Letters.LetterLenIsStable | horse64/widechar.c:301-367 | what a longer text adds behind a complete letter does not matter |
| Letters.MarksStayWithBase | horse64/widechar.c:338-345 | a base that is neither control nor line feed and any number of extending, joining and spacing marks behind it are in one letter |
| Letters.PrependedStays | horse64/widechar.c:342-345 | any number of prepended code points and the one behind them are in one letter |
| Letters.HangulSyllable | horse64/widechar.c:321-337 | leading consonants, vowels or a syllable, and trailing consonants are in one letter |
| Letters.BreaksAtLineAndControl | horse64/widechar.c:312-320 | a letter ends before a carriage return, after a line feed, before a line feed not behind a carriage return, and on both sides of a control character |
| Letters.LineFeedAsMark | horse64/widechar.c:312-345 | a line feed behind a carriage return is in its letter if the table makes it a mark |
| Letters.HangulBreaks | horse64/widechar.c:321-337 | a letter ends between Hangul parts in any other order |
| Letters.OthersBreak | horse64/widechar.c:338-365 | without a mark, something prepended, Hangul on both sides or a pair of regional indicators a letter ends |
| Letters.RegionsJoin | horse64/widechar.c:346-363 | two regional indicators without a break class join unless they are the second and third of a text that begins with one |
| Letters.RegionsPairUp | horse64/widechar.c:346-363 | a text of regional indicators begins with a letter of two |
| Letters.RegionsRunOn | horse64/widechar.c:346-363 | behind something prepended, any number of regional indicators are one letter |
| Letters.ReadsEncoded | horse64/widechar.c:245-276 | on encoded text the scanner reads the code point that was encoded, code point 0 included |
| Letters.ReadsStrayByte | horse64/widechar.c:258-270 | a byte that begins nothing is read alone, as the code point of a negative number |
| Letters.ScansEncoded | horse64/widechar.c:245-291 | of encoded text the scanner reads exactly the code points, each from its own bytes |
| Letters.FirstLetterOfValid | horse64/widechar.c:206-292 | on valid UTF-8 the reads of the first letter are the bytes of the first letter of the decoded text |
| Letters.NextLetterBytesLen | horse64/widechar.c:206-292 | on any text the incremental scanner returns the bytes of those of its reads that make up the first letter of all of them; on valid UTF-8 this is the encoded length of the first letter of the decoded text, for any break table |
| NonLocale.StrToULL | horse64/nonlocale.c:64-92 | the loop reads as its specification, wrap-around and overflow check included |
| NonLocale.StrToLL | horse64/nonlocale.c:94-120 | signs and saturation at both ends |
| NonLocale.ReadsExactlyFrom | horse64/nonlocale.c:75-89 | digits whose value fits are read exactly from any intermediate result |
| NonLocale.ReadsExactlyWhatFits | horse64/nonlocale.c:64-92 | digits are read as their value if and only if it fits 64 bits |
| NonLocale.ReadsExactlyWhatFitsSigned | horse64/nonlocale.c:94-120 | signed digits are read as their value if and only if it fits, INT64_MIN included |
| NonLocale.SaturatesSigned | horse64/nonlocale.c:102-118 | 64-bit numbers that do not fit the sign come out as the largest one, behind a minus sign too |
| NonLocale.DigitsAreDigits | horse64/nonlocale.c:53-62 | thirty-six digits with letters in either case, and nothing else |
| NonLocale.DigitsBeforeOther | horse64/nonlocale.c:75-89 | digits in front of a character that is no digit are read as their value times the base, so as their value only for zero |
| Json.SkipWhitespace | horse64/json.c:19-34 | the loop skips exactly white space and line comments |
| Json.ReadNumber | horse64/json.c:52-106 | the number loop accepts one dot between digits and ends only before what may follow a number |
| Json.ReadString | horse64/json.c:149-191 | the string loop reads up to the unescaped closing quote and drops backslashes |
| Json.ParseEx | horse64/json.c:36-369 | the recursive parser computes the value and the consumed length of its specification at every depth |
| Json.ParseListBody | horse64/json.c:210-252 | the list loop collects the values of its specification in order, a trailing comma accepted |
| Json.ParseObjectBody | horse64/json.c:277-360 | the object loop accepts only strings as keys and keeps the members in order, a trailing comma accepted |
| Json.JsonParse | horse64/json.c:399-410 | a text is accepted only if the parser consumes all of it within depth 20 |
| Json.DumpStringValue | horse64/json.c:610-653 | the buffer loop writes the escaped string between quotes |
| Json.JsonDump | horse64/json.c:607-763 | the recursive printer builds its specification |
| Json.DumpList | horse64/json.c:654-688 | the loop writes the values with commas between them and none behind the last |
| Json.DumpObject | horse64/json.c:689-744 | the loop writes keys and values with commas between members and none behind the last |
| JsonRoundTrip.StringComesBack | horse64/json.c:148-198 | a 7-bit string comes back from its escaped form if and only if it holds no control character |
| JsonRoundTrip.ScanDumpedString | horse64/json.c:159-191 | an escaped string inside any text is read up to its own closing quote |
| JsonRoundTrip.ScanDigits | horse64/json.c:57-98 | a run of digits before a legal follower is read whole |
| JsonRoundTrip.IntegerComesBack | horse64/nonlocale.c:64-120 | every 64-bit integer is read back from its decimal form |
| JsonRoundTrip.ParseDumped | horse64/json.c:36-369 | a printed value inside any text, before a comma, a closing bracket or the end, is parsed to what comes back for it, consuming exactly the printed text, if its height is within the depth, and rejected otherwise |
| JsonRoundTrip.ParseDumpedItems | horse64/json.c:211-251 | the rest of a printed list inside any text is parsed to what comes back for its values, consuming exactly that text, if they are within the depth, and rejected otherwise |
| JsonRoundTrip.ParseDumpedEntries | horse64/json.c:278-359 | the rest of a printed object inside any text is parsed to what comes back for its members in order, consuming exactly that text, if they are within the depth, and rejected otherwise |
| JsonRoundTrip.ParseOfDump | horse64/json.c:399-410 | parsing a dump gives what comes back for the value, or nothing if it is more than 20 deep |
| JsonRoundTrip.ValueComesBack | horse64/json.c:148-198 | what comes back is the value if and only if it holds no control character |
| JsonRoundTrip.RoundTrip | horse64/json.c:399-410 | a value equals the parse of its dump if and only if it is at most 20 deep and holds no control character |
| JsonRoundTrip.LineFeedIsLost | horse64/json.c:161-182 | the string of a line feed reads back as the letter n |
| JsonRoundTrip.TwentyOneIsTooDeep | horse64/json.c:399-410 | twenty lists inside each other are read back, twenty-one are rejected |
| JsonRoundTrip.DumpIsInjective | horse64/json.c:607-763 | values that survive have different dumps |
| JsonGrammar.SkipsExactly | horse64/json.c:19-34 | what is passed over between tokens is all the blanks, tabs, line breaks and // comments there are, and nothing else |
| JsonGrammar.ParsesExactly | horse64/json.c:36-369 | from any place and at any depth the parser accepts exactly what is written there by a grammar given character by character, as the value it is written for |
| JsonGrammar.TextIsParsed | horse64/json.c:399-410 | a whole text is parsed as a value if and only if it is a text of that value, at most 20 deep, and nothing else |
| JsonGrammar.OneMeaning | horse64/json.c:36-369 | no text is a text of two values |
| JsonGrammar.CommaButNoBlank | horse64/json.c:210-252 | a comma may stand in front of the closing bracket of a list, but in an empty list not even a blank |
| JsonGrammar.PrintedAsStandard | horse64/json.c:610-653 | a printed string means the string by section 7 of RFC 8259, control characters included |
| JsonGrammar.PrintedFits | horse64/json.c:613-617 | the buffer for a printed string is never overrun |
| Words.IntRoundTrip | horse64/bytecodeserialize.c:37-37 | an integer of 8, 16, 32 or 64 bits is loaded as it was dumped |
| Words.ImageRoundTrip | horse64/bytecodeserialize.c:286-286 | loaded bytes are in range and dump as the same bytes |
| Words.EncodedDigit | horse64/bytecodeserialize.c:16-37 | fields have 1, 2, 4 and 8 bytes, least significant first, negative numbers as two's complement |
| Words.FieldsRoundTrip | horse64/bytecodeserialize.c:16-37 | a row of fields followed by anything is loaded back, leaving that rest |
| Words.FieldsStable | horse64/bytecodeserialize.c:245-253 | bytes added behind the input change neither the fields nor what is consumed |
| BytecodeImage.ClassRoundTrip | horse64/bytecodeserialize.c:52-82 | every persisted field of a class comes back |
| BytecodeImage.ClassStable | horse64/bytecodeserialize.c:324-357 | loading a class consumes the same with more bytes behind |
| BytecodeImage.AttachRestores | horse64/bytecodeserialize.c:406-436 | the out-of-line constant attaches to the instruction it came from, equal but for the memory address |
| BytecodeImage.ConstsRoundTrip | horse64/bytecodeserialize.c:118-158 | walking the restored stream reads each constant at the instruction that was dumped with it |
| BytecodeImage.ConstsStable | horse64/bytecodeserialize.c:394-438 | bytes behind the input do not change the walk |
| BytecodeImage.FuncRoundTrip | horse64/bytecodeserialize.c:88-162 | a function comes back, a missing lookup name as an empty one |
| BytecodeImage.FuncStable | horse64/bytecodeserialize.c:365-442 | loading a function consumes the same with more bytes behind |
| BytecodeImage.GlobalRoundTrip | horse64/bytecodeserialize.c:189-240 | a global comes back, with the content its type keeps in an image |
| BytecodeImage.KindsComeBack | horse64/bytecodeserialize.c:190-239 | type by type: integers, floats, booleans, function and class references, short and long strings and bytes, and globals without content come back as they were |
| BytecodeImage.GlobalsComeBack | horse64/bytecodeserialize.c:189-525 | a program whose globals are all of these types comes back with its globals unchanged |
| BytecodeImage.FuncComesBack | horse64/bytecodeserialize.c:88-162 | a function comes back with its lookup name, an empty one if it had none, and its instructions without pointers |
| BytecodeImage.RestoredExactly | horse64/bytecodeserialize.c:555-576 | a dump is restored exactly if no class names anything twice and no name id is negative |
| BytecodeImage.GlobalStable | horse64/bytecodeserialize.c:472-524 | loading a global consumes the same with more bytes behind |
| BytecodeImage.ProgramRoundTrip | horse64/bytecodeserialize.c:40-525 | a well-formed program followed by any bytes is loaded back and those bytes are left |
| BytecodeImage.ProgramStable | horse64/bytecodeserialize.c:288-525 | success and consumption do not change when bytes are added behind |
| BytecodeImage.RestoreOfDump | horse64/bytecodeserialize.c:288-576 | restore consumes a dump exactly and returns the program exactly when the attribute buckets of its classes can be rebuilt |
| BytecodeImage.TruncationRefused | horse64/bytecodeserialize.c:245-286 | no strict prefix of a dump is accepted |
| BytecodeImage.TrailingBytesIgnored | horse64/bytecodeserialize.c:288-576 | bytes behind an accepted image change nothing |
| BytecodeImage.SecondGeneration | horse64/bytecodeserialize.c:40-576 | a restored program dumps and restores to itself |
| BytecodeImage.AddressComesBack | horse64/bytecodeserialize.c:535-549 | a restored C function gets the address of the function it was dumped from unless a later C function has the same name |
| BytecodeImage.AddressMissing | horse64/bytecodeserialize.c:535-549 | it gets no address if and only if there is no C function of its name |
| BytecodeImage.CStringStops | horse64/bytecodeserialize.c:538-543 | names are compared up to their first zero byte |
| BytecodeImage.LoadedNames | horse64/bytecodeserialize.c:381-385 | every restored function has a lookup name |
| BytecodeImage.MapCFuncs | horse64/bytecodeserialize.c:527-553 | the loops map every C function by name to the last C function of that name |
| BytecodeImage.WalkStream | horse64/bytecodeserialize.c:397-438 | the loop over the instruction stream, stepping by the size of each instruction, is the specified walk |
| BytecodeImage.RestoreClasses | horse64/bytecodeserialize.c:317-358 | the class loop loads as many classes as counted, or refuses where the input ends |
| BytecodeImage.RestoreFunc | horse64/bytecodeserialize.c:366-442 | one function is loaded, with instructions and constants only if it is no C function |
| BytecodeImage.RestoreFuncs | horse64/bytecodeserialize.c:359-443 | the function loop loads as many functions as counted, or refuses where the input ends |
| BytecodeImage.RestoreGlobals | horse64/bytecodeserialize.c:466-525 | the loop over globals loads as many as counted, or refuses where the input ends |
| BytecodeImage.RestoreProgram | horse64/bytecodeserialize.c:306-525 | the whole load: header, classes, functions, indexes, globals, in this order |
| BytecodeImage.DumpFields | horse64/bytecodeserialize.c:16-37 | fields are appended to the output, which keeps what it held |
| BytecodeImage.DumpRaw | horse64/bytecodeserialize.c:16-35 | raw bytes are appended to the output, which keeps what it held |
| BytecodeImage.DumpClass | horse64/bytecodeserialize.c:52-83 | the image of a class is appended to the output |
| BytecodeImage.DumpConsts | horse64/bytecodeserialize.c:119-158 | the loop over a stream appends each out-of-line constant behind its length, in the order of the instructions |
| BytecodeImage.DumpFunc | horse64/bytecodeserialize.c:90-161 | the image of a function is appended to the output, stream and constants only if it is no C function |
| BytecodeImage.DumpGlobal | horse64/bytecodeserialize.c:190-239 | the image of a global is appended to the output according to its type |
| BytecodeImage.DumpProgram | horse64/bytecodeserialize.c:40-243 | the dump is the image of the program |
| BytecodeFormat.SizeIsStructSize | horse64/bytecode.c:620-714 | the size of each instruction is that of its packed struct, field by field |
| BytecodeFormat.ConstOfSetConst | horse64/bytecode.h:118-125 | where in an instruction that sets a constant its type and length are, and which two types lead to bytes elsewhere |
| BytecodeFormat.PointerIsCleared | horse64/bytecodeserialize.c:406-436 | of such an instruction a load keeps everything but the pointer |
| BytecodeFormat.SetConstComplete | horse64/bytecode.h:118-125 | with which bytes elsewhere such an instruction is complete |
| BytecodeFormat.BeginsWithHeader | horse64/bytecodeserialize.c:45-46 | an image begins with thirteen fixed bytes |
| BytecodeFormat.OtherHeaderRefused | horse64/bytecodeserialize.c:306-316 | an input that begins otherwise is refused |
| BytecodeFormat.SizeOfClass | horse64/bytecodeserialize.c:52-82 | how many bytes a class takes |
| BytecodeFormat.SizeOfFunc | horse64/bytecodeserialize.c:88-162 | how many bytes a function takes, its instructions and their constants included |
| BytecodeFormat.SizeOfIndexes | horse64/bytecodeserialize.c:164-185 | the indexes take 112 bytes |
| BytecodeFormat.SizeOfGlobal | horse64/bytecodeserialize.c:187-239 | how many bytes a global of each type takes |
| PoolAlloc.ChooseFindsFreeSlot | horse64/poolalloc.c:153-206 | the search finds a slot if and only if the count of free items is positive, so its last assertion cannot fail |
| PoolAlloc.AddAreaKeeps | horse64/poolalloc.c:33-82 | a new area doubles the last one and all counts stay right; without memory nothing changes |
| PoolAlloc.NewIsValid | horse64/poolalloc.c:99-112 | a new pool has 256 free slots and nothing live |
| PoolAlloc.SlotsApart | horse64/poolalloc.c:165-199 | different slots never overlap |
| PoolAlloc.LiveMemoryApart | horse64/poolalloc.c:165-199 | memory handed out at two live addresses never overlaps |
| PoolAlloc.OwnerOfAddress | horse64/poolalloc.c:114-128 | the address of a slot leads back to that slot |
| PoolAlloc.MallocCorrect | horse64/poolalloc.c:143-207 | a normal allocation adds an area exactly if fewer than ten slots are free and memory can be had, and fails exactly if it cannot be had then; an emergency adds none and fails exactly if every slot is used; any other makes exactly one new address live |
| PoolAlloc.FreeCorrect | horse64/poolalloc.c:114-141 | freeing a live address always succeeds, trips no assertion and ends exactly that one |
| PoolAlloc.FreeRefuses | horse64/poolalloc.c:114-141 | an address freed before, or outside of all areas, trips an assertion |
| PoolAlloc.FreedIsNext | horse64/poolalloc.c:132-168 | an address just given back is the next one handed out, unless an area is added first |
| PoolAlloc.NewAreaIsUsedFirst | horse64/poolalloc.c:143-168 | the allocation that adds an area returns its first slot |
| PoolAlloc.NewPoolStartsAtBase | horse64/poolalloc.c:99-112 | the first allocation of a new pool returns the start of its area |
| PoolAlloc.NextInRow | horse64/poolalloc.c:157-168 | two allocations in a row return neighbouring slots if the second one is free and no area is added |
| PoolAlloc.LowestOtherwise | horse64/poolalloc.c:169-201 | with the remembered slot in use, the lowest free slot of the area last used is taken, else the lowest of the first area with one |
| PoolAlloc.ApartSharesNoByte | horse64/poolalloc.c:53-59 | memory for an area is apart from the others exactly if it shares no byte with them |
| PoolAlloc.RunsAreSafe | horse64/poolalloc.c:33-207 | over any run the live addresses are those handed out and not given back, they never overlap, free items count the unused slots, and areas have 256 slots and then twice as many each |
| PoolAlloc.RunKeeps | horse64/poolalloc.c:114-207 | from any valid pool, every run keeps it valid and its live addresses are those handed out and not given back |
| PoolAlloc.EnoughFree | horse64/poolalloc.c:143-151 | emergencies succeed without a new area as long as there are no more of them than free items |
| PoolAlloc.ReserveOfNine | horse64/poolalloc.c:143-151 | after a successful normal allocation the next nine emergency allocations succeed without a new area |
| PoolAlloc.PoolAllocator.AddAreaAt | horse64/poolalloc.c:33-82 | the method adds the area of its specification, or changes nothing without memory |
| PoolAlloc.PoolAllocator.ScanArea | horse64/poolalloc.c:169-182 | the scan of one area finds its first free slot or the end |
| PoolAlloc.PoolAllocator.TakeSlot | horse64/poolalloc.c:192-198 | a slot is marked, counted and remembered, and its address returned |
| PoolAlloc.PoolAllocator.Allocate | horse64/poolalloc.c:143-207 | trying the hint, the area last used and then all areas ends in the pool and address of the specification; the final assertion is unreachable |
| PoolAlloc.PoolAllocator.Release | horse64/poolalloc.c:114-141 | the scan for the owner of an address ends in the specified pool |
| PakChain.ReadAfterAppend | tools/append-datapak.py:35-41 | after an append the reader finds the new pak in front of what it found before, or nothing at all if the pak is empty |
| PakChain.AppendExtendsChain | horse64/vfspak.c:213-219 | an append extends the chain if and only if the pak is not empty |
| PakChain.EmptyPakHidesOlder | horse64/vfspak.c:213-219 | an empty pak behind a pak with data leaves the reader with nothing |
| PakChain.AppendedBytes | tools/append-datapak.py:35-41 | an append adds the pak, its two offsets in eight bytes each, least significant first, and twenty-one fixed bytes |
| PakChain.NoMarkNoPaks | horse64/vfspak.c:195-212 | a file that does not end with those has no paks |
| PakChain.ReadAfterAppendAll | horse64/vfspak.c:161-241 | any list of non-empty paks is found with exactly its data ranges, newest first, before what the base held |
| PakChain.RangesHoldPaks | tools/append-datapak.py:35-41 | those ranges hold the bytes of the paks |
| PakChain.RangesOrdered | horse64/vfspak.c:161-241 | on any file the ranges are non-empty, inside the file and, footers included, disjoint with falling positions |
| PakChain.ReadsPrefixOnly | horse64/vfspak.c:182-241 | what lies behind the end position does not matter |
| SendBuffer.DeliveredInOrder | horse64/sockets.c:818-1011 | at every point of every run the bytes delivered, followed by the buffer, are the bytes accepted, in order |
| SendBuffer.WriteDelivers | horse64/sockets.c:940-1011 | a write that takes bytes delivers exactly as many, the next ones accepted; a blocked one delivers nothing; a failed one closes the socket |
| SendBuffer.SendAccepts | horse64/sockets.c:818-851 | a send puts its bytes behind all others if the socket can be registered, and changes nothing if not |
| SendBuffer.RetryOffersTheSame | horse64/sockets.c:935-938 | after a blocked write every repetition offers the same bytes, whatever is queued meanwhile |
| SendBuffer.RetryDeliversOffered | horse64/sockets.c:935-981 | a repetition that succeeds delivers a front part of what was offered first, next after what was delivered then |
| SendBuffer.CloseDropsTheRest | horse64/sockets.c:776-806 | on every run nothing is delivered after a close, and the bytes not yet written stay where they are |
| SendBuffer.ClosedIsSilent | horse64/sockets.c:776-798 | a closed socket delivers nothing and stays closed |
| SendBuffer.Copy | horse64/sockets.c:847-847 | new bytes follow the buffered ones |
| SendBuffer.MoveToFront | horse64/sockets.c:964-968 | the bytes not written move to the front, in place |
| SendBuffer.Socket.Send | horse64/sockets.c:818-851 | bytes are queued exactly when there are some and the socket can be registered |
| SendBuffer.Socket.Close | horse64/sockets.c:776-806 | closing changes nothing of the buffer |
| SendBuffer.Socket.ProcessSend | horse64/sockets.c:928-1011 | what is offered, what stays, what is to be retried and what is returned, for every answer to the write |
| HashMap.Map.Lookup | horse64/hash.c:135-151 | walking a chain finds the first entry of the key |
| HashMap.Map.Attach | horse64/hash.c:117-130 | a node is linked behind the last one of its chain and no other chain changes |
| HashMap.Map.Bypass | horse64/hash.c:168-173 | the writes close the forward and the backward link around a node and leave all other buckets and nodes alone |
| HashMap.Map.Locate | horse64/hash.c:160-182 | the walk stops at the first node of the key and knows the one before it |
| HashMap.Map.Link | horse64/hash.c:103-132 | the entry is added at the end of its bucket, linked forwards and backwards |
| HashMap.Map.Relink | horse64/hash.c:168-173 | a node is taken out of its chain, both links around it closed, and no other chain changes |
| HashMap.Map.Unlink | horse64/hash.c:154-183 | the first entry of the key is removed, and the call says whether there was one |
| HashMap.Map.Change | horse64/hash.c:186-195 | setting is removing and adding |
| HashMap.Map.CopyOut | horse64/hash.c:216-256 | the copied entries are those of all buckets in order |
| HashMap.Map.Iterate | horse64/hash.c:203-274 | callbacks see the entries of the starting map, whatever they change, up to the first that stops |
| HashMap.ApplyKeepsGood | horse64/hash.c:186-195 | entries stay in the bucket of their key and no chain holds a key twice |
| HashMap.ApplyAnswers | horse64/hash.c:186-195 | a call changes the answer for its own key and for no other |
| HashMap.RunRefines | horse64/hash.c:93-195 | after any run of sets and unsets, for any hash function and bucket count, the table is the finite map after that run and stores each key at most once |
| HashMap.IntKeysApart | horse64/hash.c:377-401 | different integers have different keys |
| HashMap.IntKeyBytes | horse64/hash.c:377-401 | the key of an integer is its eight bytes, least significant first |
| HashMap.SnapshotIsMap | horse64/hash.c:216-256 | what is iterated over is that map, every entry once |
| Interning.IdsAreForever | horse64/debugsymbols.c:151-236 | names and dense ids stay inverse to each other over any run, and an id once given stays |
| Interning.AddedIsKnown | horse64/debugsymbols.c:151-236 | a name asked for with permission to add it has an id from then on |
| Interning.PutKeepsInverse | horse64/debugsymbols.c:162-195 | adding a name to array and map keeps them inverse |
| Interning.AddKeepsTracks | horse64/debugsymbols.c:197-230 | the id fields of the program hold the ids of exactly the built-in names seen so far |
| Interning.BuiltinNames | horse64/debugsymbols.c:197-230 | which ten names have an id field, by their bytes |
| Interning.NameTable.constructor | horse64/debugsymbols.c:403-421 | a new table knows no name |
| Interning.NameTable.NameToId | horse64/debugsymbols.c:151-236 | the id of a known name, the next id for a new one that may be added, else -1; array, map and id fields stay in step |
| Interning.NameTable.FieldsHoldIds | horse64/debugsymbols.c:197-230 | the program's field of a built-in name is set exactly if the name was seen, to its id |
| ClassAttributes.DistinctIndexes | horse64/bytecode.c:431-438 | in tables without repetition every variable is found at i and every method at offset plus i |
| ClassAttributes.FindWithEntry | horse64/bytecode.c:235-264 | an entry put where the end mark was answers for its own name only |
| ClassAttributes.AddedFind | horse64/bytecode.c:431-438 | adding a name to its bucket changes the answer for that name only |
| ClassAttributes.AddingKeepsAgreement | horse64/bytecode.c:347-438 | a new variable or method keeps buckets and tables in agreement |
| ClassAttributes.KnownNames | horse64/bytecode.c:248-252 | the buckets know exactly the names in the tables |
| ClassAttributes.RangesDisjoint | horse64/bytecode.c:350-386 | the limits keep the answers for variables and methods apart and within 16 bits |
| ClassAttributes.AnswersFit | horse64/bytecode.c:313-315 | the answers of tables longer than registration allows fit 16 bits if and only if the methods fit behind the offset |
| ClassAttributes.RegistrationsAgree | horse64/bytecode.c:321-439 | any run of registrations keeps buckets and tables in agreement and free of repetition |
| ClassAttributes.RegisterTakes | horse64/bytecode.c:321-439 | a registration is taken exactly if the name is new and its table has fewer than 8189 entries, and goes to the end of its table |
| ClassAttributes.RegisteredIsKnown | horse64/bytecode.c:321-439 | every name registered in a run of at most 8189 registrations is known afterwards |
| ClassAttributes.LookupAfterRun | horse64/bytecode.c:321-459 | after any run on a new class a lookup gives i for variable i, 8189 plus i for method i and -1 for anything else |
| ClassAttributes.ClassTables.constructor | horse64/bytecode.c:1317-1354 | empty buckets agree with empty tables |
| ClassAttributes.ClassTables.FreeSlot | horse64/bytecode.c:247-252 | the scan finds the end of a bucket or that the name is taken |
| ClassAttributes.ClassTables.Store | horse64/bytecode.c:430-438 | the entry goes where the end mark was, with a new one behind it |
| ClassAttributes.ClassTables.Register | horse64/bytecode.c:321-439 | a registration is refused exactly for a taken name or a full table, and otherwise extends one table by one entry |
| ClassAttributes.ClassTables.Lookup | horse64/bytecode.c:441-459 | the bucket scan answers as the tables do |
| ClassAttributes.ClassTables.Rebuild | horse64/bytecode.c:266-319 | rebuilding from the tables succeeds if and only if they name nothing twice; the buckets then answer as the tables do in 16 bits, and exactly so if the methods fit behind the offset |
| KeywordArgs.InsertAllSorts | horse64/bytecode.c:1066-1116 | the keywords come out sorted by id, each with its own name, none lost and none doubled |
| KeywordArgs.FilledMeans | horse64/bytecode.c:1042-1117 | what filled arrays hold: each id is that of the name beside it, the ids rise, and the names are those given |
| KeywordArgs.FindSlot | horse64/bytecode.c:1081-1094 | the search finds the place behind all ids not larger, and its assertion never fails |
| KeywordArgs.ShiftUp | horse64/bytecode.c:1096-1111 | everything from a slot on moves up by one place |
| KeywordArgs.InsertKeyword | horse64/bytecode.c:1081-1115 | ids and names are inserted at the same place |
| KeywordArgs.AddKeyword | horse64/bytecode.c:1067-1116 | one round interns a name and inserts it |
| KeywordArgs.SortKeywords | horse64/bytecode.c:1042-1117 | all keyword names are interned in the order given; the two arrays hold each of them once, beside its id, with the ids rising, behind empty slots for the other arguments |
| Uri.WriteOne | horse64/uri32.c:896-931 | one code point is written as itself or as three characters, inside a buffer of three per code point |
| Uri.UriEncode | horse64/uri32.c:885-936 | the buffer holds the encoded path and is never overrun |
| Uri.CollectBytes | horse64/uri32.c:83-94 | the bytes of the escapes that follow, or nothing if one of them is no escape |
| Uri.ExtractUtf8UriEscape | horse64/uri32.c:55-106 | escaped UTF-8 is read as one code point together with the length of its escapes |
| Uri.TwoEscapesAtLeast | horse64/uri32.c:142-145 | a code point read this way takes at least two escapes, as the code asserts |
| Uri.EscapeOfDigits | horse64/uri32.c:24-53 | which two digits make an escape and what it stands for, digits beyond hexadecimal ones and zero included |
| Uri.OthersAreNoEscape | horse64/uri32.c:27-45 | without a percent sign and two letters or digits there is no escape |
| Uri.SequenceIsJoined | horse64/uri32.c:134-145 | the escapes of the UTF-8 bytes of a code point beyond ASCII are read as that code point, whatever follows |
| Uri.StrayEscapeKept | horse64/uri32.c:146-150 | an escaped byte above 127 that begins no such sequence becomes 0xDC80 plus the byte, alone |
| Uri.EscapedUtf8Decodes | horse64/uri32.c:108-163 | any text without code point 0, as UTF-8 with every byte escaped, decodes to itself |
| Uri.Shift | horse64/uri32.c:153-159 | the rest of the buffer moves down unchanged, in place |
| Uri.ParsePath | horse64/uri32.c:108-187 | the in-place loop decodes the text from front to back and looks at nothing twice |
| Uri.HexReadsBack | horse64/uri32.c:46-49 | two hexadecimal digits are read as the number they were printed from |
| Uri.EncodedOneDecodes | horse64/uri32.c:24-53 | one encoded code point decodes to itself, code point 0 to a question mark, whatever follows |
| Uri.EncodedDecodes | horse64/uri32.c:108-163 | an encoded path decodes to the path with every code point 0 replaced |
| Uri.RoundTrip | horse64/uri32.c:885-936 | an encoded path decodes to the path if and only if it holds no code point 0 |
| Uri.ZeroIsLost | horse64/uri32.c:46-49 | a path of one code point 0 comes back as a question mark |
| Uri.SlashEnforced | horse64/uri32.c:164-185 | a slash is put in front exactly where neither slash nor backslash is, and nothing else changes |
| Uri.RoundTripWithSlash | horse64/uri32.c:164-185 | with a leading slash enforced this holds if and only if the path also begins with a slash or backslash |
| Uri.EncodedIsPlain | horse64/uri32.c:897-908 | encoded text holds none of the code points that need an escape but its percent signs |
| Uri.EscapedExactly | horse64/uri32.c:897-931 | which code points are written as escapes, and how; all others are written as they are |

## Left out

- ItemSort.Do: termination is not claimed without a bound on the draws, because a draw whose pivot ends first queues the same range again; the run is cut where the list of draws ends.
- AsyncJobs.StepKeeps: the protocol is a state machine over values; jobs are named by the order of their requests, so reuse of a freed job's memory is not modelled, and a caller that abandons a job already freed is excluded. Every socket pair holds the same number of bytes, which may be any.
- AsyncProgress.SleeperStartsOldest: this is about one worker left to itself; that every job is done in the end is not claimed, because requests can get stuck.
- AsyncJobs.JobQueue.Visit: the gap in the array is closed by removal, as for AsyncJobs.JobQueue.PickUp.
- AsyncJobs.JobQueue.PickUp: the array is a sequence field, so the overlapping copy with which the code closes a gap is modelled as the removal it is meant to be.
- The event that tells a supervisor a job is done, and the work of the jobs themselves.
- ThreadEvent.NoLostWakeUp: time is not modelled; a poll may end at any moment, with or without a byte, and a retry of a blocked send is one step.
- Json.ParseEx: where the code frees an unterminated list or object and goes on, the model rejects; bytes above 127 are not modelled.
- Json.ParseListBody: an unterminated list is rejected, where the code frees it and goes on.
- Json.ParseObjectBody: an unterminated object is rejected, where the code frees it and goes on.
- Json.JsonDump: the text of a floating point number is not modelled, so no claim covers numbers with a fraction.
- BytecodeImage.RestoreProgram: an image whose counts are negative or whose allocation of zero bytes fails is not modelled; floats are 64-bit words; debug symbols and the fields that are not persisted. A short string or short bytes constant longer than its slot is refused, where the code copies it past the slot (horse64/bytecodeserialize.c:486-505).
- BytecodeImage.RestoreGlobals: a short string or short bytes constant longer than its slot is refused, where the code copies it past the slot.
- BytecodeImage.RestoreOfDump: the addresses of C functions are not part of the program it speaks of; BytecodeImage.MapCFuncs and the lemmas beside it are about them.
- BytecodeImage.ProgramRoundTrip: globals of types that dump only reports as unsupported keep their type and flags and lose their content.
- ClassAttributes.ClassTables.Rebuild: name ids below 0, which no interned name has, are excluded; the counters of the loops do not wrap.
- PoolAlloc.MallocCorrect: integer overflow of area sizes, and the case where the slot flags of an area cannot be allocated once its memory was, which ends like the case without memory.
- HashMap.Map.Link: out-of-memory paths, and calls without a map or key; the backward link of a first entry is not specified, because removing the one before it leaves it stale and nothing reads it.
- SendBuffer.Socket.ProcessSend: leaving the list of sockets that need sending once a TLS buffer is empty.
- SendBuffer.Socket.Send: the list of sockets that need sending and the worker that serves it; the byte count of a write is assumed to be at most what was offered.
- KeywordArgs.SortKeywords: the rest of the registration of a C function.
- Uri.ParsePath: the Windows branches, and path lengths beyond 31 bits.
- Letters.NextLetterBytesLen: the growth of its temporary buffer, which can fail for lack of memory.
- PakChain.ReadAfterAppendAll: offsets from 2 to the 63 on, which the writer cannot express, and read errors.
- Out-of-memory paths elsewhere, except where the state after the failure is part of a claim above.
- UTF-16 conversions, one of which is not implemented in the repository.
- horse64/vmlist.c and horse64/vmmap.c: insertion and removal there lose blocks and counts, so a refinement would be about a repaired program.
- horse64/vmschedule.c and path normalisation in horse64/filesys32.c: thread exclusivity rests on code outside these files, and normalisation restarts at a different component start.
- File system access, archives, the compiler, the virtual machine's instructions, the command line and debug output.
