# Verified model of the Fortunata lottery service

The service keeps an archive of lottery draws, proposes tickets, and updates the archive every day. This
project models its four kernels in Dafny and proves what they promise, for all inputs and over whole runs.

**Sampler** (`Sampling`, `TicketKeys`, `Batch`, `Generate`, `GenerateApi`). The random source is arbitrary: it
answers the argument `n` with any number below `n`. Weighted picking without replacement is then a matter of
counting outcomes. The sampling law says that a given order of picks and a given bonus are produced by exactly
as many tuples of outcomes as the product of count+1 over all of them, and by none if a pick is repeated. A
batch is proved to be a function of the stream of attempted tickets.

**Model answers** (`Json`, `Grammar`, `Answers`, `Combinations`, `Decoder`, `Extract`, `Render`, `RoundTrip`,
`Documents`, `AnswerSearch`, `AnswerLaws`, `Prompt`, `PromptReading`, `Propose`). Text is taken character by
character. The streaming JSON decoder is a class with the states of Go's `json.Decoder`, over a reader that is
proved to accept exactly the texts of RFC 8259, sections 2 to 7. The main theorems: a list of valid tickets
printed in the answer format is extracted exactly, through harmless text and closed reasoning blocks in front
and anything behind (and any list of tickets as its playable ones); cut at any character it yields exactly the
tickets whose closing brace survived; reading any JSON document as a stream agrees with reading it whole; the
search returns the decoding at the earliest of the first ten braces that yields anything. The refill loop runs
against an arbitrary server and an arbitrary time budget.

**Scheduler** (`Calendar`, `Scheduler`). Civil dates are computed as Go's `time` package does and proved
correct for every day. The loop runs in a world whose waits may end late, whose calls take any time and fail
at will, and whose clock moves between any two readings. Runs are proved not to drift, not to succeed twice
between two slots, and to serve every slot in time.

**Ingest** (`Decimal`, `Digits`, `Pages`, `Timelottery`, `Archive`, `LimitedReader`, `Store`, `Frequency`,
`Draws`, `Sync`). The archive page is a given node tree; its rows are classified by content. The table is a map
keyed by draw number under the schema's CHECK constraints, each statement atomic and free to fail. Racing
synchronisations are a state machine over interleaved inserts of any number of runs, each free to fail.

Code that loops or updates state in the source is a method or a class here, proved equal to a specification
function; the theorems are lemmas about those functions. `Ints`, `Options`, `Texts` and `Tickets` hold what
several kernels share, among it the three validators and the CHECK constraints.

`dafny verify dfyconfig.toml` checks the whole project.

## Where the code and its words differ

- The comment on the too-big error (`internal/api/sync.go`, lines 20 to 23) says that a page of exactly the
  limit is always refused. The code accepts it when the source returns EOF together with its last bytes:
  `LimitedReader.AcceptedAtLimit` is such a run, `LimitedReader.RefusedAtLimit` one of the other kind, and
  `LimitedReader.EndingAtLimit` says exactly when which of them happens.
- A proposal may hold more tickets than were asked for: an answer is taken whole. `Propose.ProposeTooMany` is
  such a run, and `Propose.OvershootIff` says exactly when it happens.
- The extraction round trip fails for the empty list when something that decodes stands behind it
  (`AnswerLaws.EmptyAnswerOverruled`). `AnswerLaws.WorthlessAnswerIff` says exactly when it holds, for the empty
  list and for any other without a playable ticket.

## Model

| member | source | states |
|---|---|---|
| `Tickets.Validate` | internal/timelottery/timelottery.go:98-113 | the archive validator reports the first number that is out of range or repeats an earlier one, else a bad bonus, else nothing |
| `Tickets.ValidateDraw` | internal/api/draws.go:101-119 | the edit validator reports a wrong count first, then as the archive validator |
| `Tickets.ValidTicket` | internal/llm/parse.go:101-118 | the answer validator returns the ticket with its seven sorted exactly when the edit validator finds no fault |
| `Tickets.PageFaultIff` | internal/timelottery/timelottery.go:96-113 | no fault is found if and only if all numbers are in 1..35 and distinct and the bonus is in 1..54, for any count of numbers |
| `Tickets.ReportedFault` | internal/timelottery/timelottery.go:98-113 | which fault is reported: that of the first number that is out of range or repeats an earlier one, with that number, the range before the repetition; the bonus only when all numbers are right |
| `Tickets.ValidatorsAgree` | internal/api/draws.go:101-119 | all three validators accept exactly the playable combinations; the answer validator's tickets are ascending |
| `Tickets.ValidatedMeetsSchema` | internal/store/store.go:31-45 | a combination is accepted if and only if its sorted form meets the table's range and strict-increase CHECKs |
| `Tickets.SchemaIsIssuable` | internal/store/store.go:31-45 | the CHECKs hold of a row if and only if its number is at least one and it is a valid ticket with its seven ascending |
| `Ints.SortPrefix` | internal/timelottery/timelottery.go:66-72 | sorting a slice in place leaves the rest of the backing array untouched, the aliased bonus cell included |
| `Ints.SortedUnique` | internal/timelottery/timelottery.go:71 | two ascending arrangements of the same numbers are equal, so sorting has one result |
| `Decimal.UsualNumerals` | internal/llm/prompt.go:55 | `Itoa` writes the usual decimal numerals, digit by digit, with a sign for negative numbers only |
| `Decimal.ParseIntIff` | internal/timelottery/timelottery.go:51 | `ParseInt` accepts exactly an optional sign, zeros and the numeral of a number that fits 64 bits, and returns that number |
| `Generate.Frequencies` | internal/generate/generate.go:40-56 | each counter holds how often its number occurs in all draws, numbers out of range ignored |
| `Generate.WeightedPick` | internal/generate/generate.go:58-80 | one call below the total weight of the free indices, and the pick is the index whose share holds the answer; the panic at the end is unreachable |
| `Sampling.PickUnique` | internal/generate/generate.go:69-78 | an outcome inside an index's share of the total picks that index |
| `Sampling.PreimageCount` | internal/generate/generate.go:58-80 | per step each free index has exactly count+1 outcomes, each taken one none |
| `Sampling.OutcomesAreTheRuns` | internal/generate/generate.go:85-95 | a tuple of outcomes is counted for an order of picks if and only if every outcome is below its step's total and the picks come out in that order |
| `Sampling.OutcomeCount` | internal/generate/generate.go:85-95 | the number of such tuples is the product of count+1, none for a repeated pick |
| `Sampling.SamplingLaw` | internal/generate/generate.go:82-95 | the same with the bonus: product of count+1 over the picks, times the bonus's count+1, and the tuples counted are exactly those that lead to these picks and this bonus |
| `Sampling.RunIsDistinct` | internal/generate/generate.go:86-92 | a legal run picks distinct indices of the table |
| `Sampling.CumOfNoneTaken` | internal/generate/generate.go:60-67 | the first total is the sum of the counts plus one per number |
| `Generate.LiveIsRun` | internal/generate/generate.go:85-95 | drawing from a live source is a run on the outcomes drawn, so the sampling law speaks of it |
| `Generate.LiveIsLegal` | internal/generate/generate.go:85-92 | with at least as many numbers as picks no pick runs dry and every call is made with a positive argument |
| `Generate.PickSeven` | internal/generate/generate.go:86-92 | the picking loop draws seven numbers in the order of the live run, one call each |
| `Generate.GenerateTicket` | internal/generate/generate.go:82-95 | the ticket is that of the eight calls from the current one on, and exactly those eight calls are made |
| `Generate.TicketAtIsProper` | internal/generate/generate.go:82-95 | such a ticket has seven strictly ascending numbers of the table and a bonus of its own |
| `Generate.TicketHasTuple` | internal/generate/generate.go:82-95 | every ticket drawn from any source comes from one of the tuples of outcomes that the sampling law counts |
| `Generate.TupleIsDrawn` | internal/generate/generate.go:82-95 | every such tuple is drawn by some source, so the law counts nothing that cannot happen |
| `Generate.TicketSaysPicks` | internal/generate/generate.go:82-95 | the ticket's numbers are those of the indices picked by its tuple, each one above its index, in ascending order, and its bonus is one above the bonus index |
| `Generate.BonusLaw` | internal/generate/generate.go:94 | whatever the archive and the seven calls before, exactly count+1 outcomes of the eighth call give a ticket with a given bonus |
| `Generate.CallsArePositive` | internal/generate/generate.go:29-32 | none of the eight calls of a ticket can panic on its argument |
| `TicketKeys.KeyInjective` | internal/generate/generate.go:120-124 | equal keys mean equal tickets, for numbers of any count, sign and size |
| `TicketKeys.KeysAreTickets` | internal/generate/generate.go:103-111 | a key is among those seen exactly when its ticket is among those taken |
| `Generate.NextTicket` | internal/generate/generate.go:106-115 | the inner loop stops at the first unseen ticket or at the twentieth attempt, eight positive calls an attempt |
| `Generate.GenerateBatch` | internal/generate/generate.go:100-118 | exactly `count` tickets, eight calls per attempt, all positive, between 8 and 160 calls a ticket; every position is filled as the relation `BatchRun` says |
| `Batch.BatchDetermined` | internal/generate/generate.go:102-118 | that relation leaves no choice: the stream of attempts fixes tickets and attempts accepted |
| `Batch.BatchBounds` | internal/generate/generate.go:97-111 | at most twenty attempts a position; a duplicate is accepted only when all twenty gave tickets already taken |
| `Batch.TwentyAttempts` | internal/generate/generate.go:97-115 | each position is filled by the first unseen ticket of at most twenty attempts made for it, or by the twentieth, and no attempt is made for two positions |
| `Generate.BatchTicketsProper` | internal/generate/generate.go:100-118 | with counters of 35 and 54 numbers every ticket of a batch is valid and sorted |
| `Json.ValueExtends` | internal/llm/parse.go:51-55 | a value that does not end in a number at the end of the text is read the same off any longer text; what makes truncation harmless |
| `Grammar.ReadsTree` | internal/llm/parse.go:57 | every JSON text by the grammar of RFC 8259, with any white space, any spelling of its strings and numbers and up to 10000 open containers, is read as what it means, and the reading stops right behind it |
| `Grammar.TreeOf` | internal/llm/parse.go:57 | and nothing else is: whatever is read was such a text behind white space, and is read as what that text means |
| `Grammar.ReaderIsGrammar` | internal/llm/parse.go:57 | a whole document, white space around its value, is read with nothing but white space left |
| `Decoder.Decoder.HasMore` | internal/llm/parse.go:77 | `More` is false at the end of the text and before any closing bracket |
| `Decoder.Decoder.DecodeValue` | internal/llm/parse.go:79 | `Decode` consumes the separator its state asks for and one whole value, in every state a value may stand in, and fails in the others |
| `Decoder.Decoder.NextToken` | internal/llm/parse.go:63 | `Token` yields the delimiter or member name its state allows, in the positions the code uses it |
| `Extract.FirstDelim` | internal/llm/parse.go:90-98 | the next token is a given opening delimiter exactly when the text goes on with it |
| `Extract.DecodeTicket` | internal/llm/parse.go:77-84 | one array element: its ticket if it decodes to a valid one, nothing if it decodes to an invalid one, a stop if it does not decode |
| `Extract.TicketsOfArray` | internal/llm/parse.go:77-85 | the inner loop yields the valid tickets up to the end of the array or the first element that does not decode |
| `Extract.DecodeTickets` | internal/llm/parse.go:51-88 | the whole stream decoder equals its specification over the text: only the first `combinations` array is read, and what was complete is kept |
| `Answers.DecodedIssuable` | internal/llm/parse.go:56-88 | whatever the text, everything decoded is a valid ticket with its seven ascending |
| `Extract.CleanHasNoTag` | internal/llm/parse.go:14-19 | cleaned text holds no opening tag |
| `Extract.CleanIsIdentity` | internal/llm/parse.go:36 | text without an opening tag is left alone |
| `Extract.CleanIsIdempotent` | internal/llm/parse.go:36 | cleaning twice is cleaning once |
| `Extract.CleanDropsBlock` | internal/llm/parse.go:17 | a closed block is removed up to its first closing tag, whatever follows |
| `Extract.ClosedThought` | internal/llm/parse.go:14-19 | a closed `<think>` block, the first of the text, disappears up to the first `</think>`, and the cleaning goes on behind it |
| `Extract.OpenThought` | internal/llm/parse.go:14-19 | a `<think>` without a `</think>` behind it takes the rest of the text along |
| `Extract.CleanPastFree` | internal/llm/parse.go:36 | text in front in which no opening tag starts, whatever follows it, passes through unchanged |
| `Extract.SearchCandidates` | internal/llm/parse.go:37-48 | the loop over attempts and positions equals the search specification |
| `Extract.SearchIsEarliest` | internal/llm/parse.go:27-49 | the search returns the decoding at the earliest of the first ten braces that decodes to any ticket, or nothing when none does |
| `Extract.ExtractedLaw` | internal/llm/parse.go:27-49 | what is extracted is the decoding at the earliest of the first ten braces of the cleaned text that yields a ticket, or nothing |
| `Extract.ExtractTickets` | internal/llm/parse.go:32-49 | clean, then search |
| `Extract.ExtractedIssuable` | internal/llm/parse.go:32-34 | every extracted ticket is valid and ascending |
| `Render.ReadTicket` | internal/llm/prompt.go:34 | a ticket printed as in the prompt is read back as its own JSON object, whatever follows |
| `Render.PrintableDecodes` | internal/llm/parse.go:78-84 | a printed ticket of any 64-bit numbers decodes to itself with its seven sorted if it is playable, and to nothing otherwise |
| `Render.IssuableDecodes` | internal/llm/parse.go:78-84 | a valid ticket decodes to itself |
| `Combinations.NumbersNameIff` | internal/llm/parse.go:23 | the field of the numbers is named `numbers` in any case, the long s included |
| `Combinations.BonusNameIff` | internal/llm/parse.go:24 | the field of the bonus likewise |
| `Combinations.CombinationLaw` | internal/llm/parse.go:78-79 | an object denotes no combination if a member of these names has a value that does not fit, and otherwise the numbers of the last such member and the last bonus that is not null; all other members are ignored, whatever their names, values and places |
| `Combinations.OtherValues` | internal/llm/parse.go:78-79 | null is an empty combination, which holds no ticket; any value but an object or null ends the list |
| `Combinations.HeldTicket` | internal/llm/parse.go:78-84 | an object that says seven numbers and a bonus, in either order and among any other members, is decoded to that ticket if it can be played and to none if not |
| `Combinations.LackingTicket` | internal/llm/parse.go:78-84 | an object without numbers or without a bonus holds no ticket and does not end the list |
| `Combinations.MismatchedTicket` | internal/llm/parse.go:79-81 | one with a value that does not fit does end it |
| `RoundTrip.CutTicketFails` | internal/llm/parse.go:79-81 | a printed ticket cut before its closing brace is no readable value |
| `AnswerSearch.TicketIsNoAnswer` | internal/llm/parse.go:56-76 | a ticket's own object, tried as a candidate, decodes to nothing, whatever stands behind it |
| `Documents.ObjectAgrees` | internal/llm/parse.go:56-88 | the fields of any object, read one by one, give what the same object read as a whole document holds: the tickets of its first `combinations` member up to the first item that is no combination |
| `Documents.DocumentDecodes` | internal/llm/parse.go:56-88 | so any JSON document that is an object decodes to the tickets it holds, at any nesting depth and whatever stands behind it |
| `Documents.OnlyFirstNamed` | internal/llm/parse.go:67-73 | members in front of the first `combinations` and behind it, later ones of the same name included, play no part |
| `Documents.NoneNamed` | internal/llm/parse.go:67-73 | an object without a member of that exact name holds no ticket |
| `Documents.ItemsUpToBad` | internal/llm/parse.go:77-81 | an item that is no combination ends the list: those in front of it are kept, those behind it are lost |
| `Documents.LayoutIsIrrelevant` | internal/llm/parse.go:56-88 | two documents whose first `combinations` members hold the same value decode alike, however they are laid out |
| `Documents.ListGoesOn` | internal/llm/parse.go:77-85 | in any text, well-formed or not: a list goes on from an item that is a combination to whatever stands behind it |
| `Documents.ListStops` | internal/llm/parse.go:77-81 | it ends, keeping what it has, where no value begins: at a bracket, a missing comma, a comma too many, anything unreadable |
| `Documents.ObjectGoesOn` | internal/llm/parse.go:62-76 | an object goes on from a readable member of another name; the first `combinations` decides, and nothing is read behind it |
| `Documents.ObjectStops` | internal/llm/parse.go:62-66 | it ends where no name with its colon begins |
| `Documents.NothingWithoutBrace` | internal/llm/parse.go:59-61 | a text that does not start with a brace holds no ticket |
| `Documents.DecodedGrows` | internal/llm/parse.go:51-55 | for any text whatever, a longer text decodes to the same tickets and perhaps more behind them: cutting never changes or reorders a completed ticket |
| `RoundTrip.FirstArrayOnly` | internal/llm/parse.go:62-86 | once the first `combinations` array has ended nothing behind it is read, not even a second such array in the same object |
| `RoundTrip.DecodeAnswer` | internal/llm/prompt.go:17 | a printed answer decodes to what its tickets are worth, whatever stands behind it |
| `RoundTrip.CutAnswer` | internal/llm/parse.go:51-55 | a printed answer cut at any character decodes to exactly what the tickets whose closing brace survived are worth |
| `RoundTrip.OneBraceIsNoAnswer` | internal/llm/parse.go:27-30 | a text with no brace after its first character yields no ticket |
| `AnswerLaws.AnswerLaw` | internal/llm/parse.go:32-49 | any list of tickets of any 64-bit numbers, printed, behind text without `{` in which no opening tag starts and closed reasoning blocks and in front of anything, is extracted as its playable tickets, each sorted, in order; if there are none the search goes on behind it with one candidate spent on the answer and one on each ticket |
| `AnswerLaws.AnswerRoundTrip` | internal/llm/parse.go:32-49 | so any non-empty list of valid tickets is extracted exactly |
| `AnswerLaws.DocumentLaw` | internal/llm/parse.go:32-49 | any JSON object in which no opening tag starts, behind harmless text and reasoning and in front of anything, is extracted as the tickets it holds; if there are none the search goes on behind its first brace |
| `AnswerLaws.OrdinaryAnswer` | internal/llm/parse.go:32-88 | a JSON object whose first `combinations` lists objects that say tickets, each among any other members, behind harmless text and in front of anything, is extracted as those that can be played, each sorted, in order |
| `AnswerLaws.WrittenAnswer` | internal/llm/parse.go:32-88 | the same for the text itself, written from any such object by the grammar with any layout |
| `AnswerLaws.CutLaw` | internal/llm/parse.go:32-88 | the same list cut at any character is extracted as the playable tickets among those that survived, none included |
| `AnswerLaws.CutRoundTrip` | internal/llm/parse.go:32-88 | for valid tickets: exactly the surviving prefix, the empty one included |
| `AnswerLaws.EmptyAnswerGoesOn` | internal/llm/parse.go:43-47 | behind an empty answer the search goes on with nine candidates; the exact result for the empty list |
| `AnswerLaws.WorthlessAnswerIff` | internal/llm/parse.go:37-49 | a list without playable tickets, the empty one included, is extracted as nothing if and only if none of the candidate braces left behind it decodes to a ticket |
| `AnswerLaws.EmptyAnswerOverruled` | internal/llm/parse.go:43-47 | so an empty answer followed by another yields the other: the round trip does not hold for the empty list |
| `Prompt.ExcludeLinesInjective` | internal/llm/prompt.go:31-36 | the exclude lines determine the list of tickets, so no exclusion is lost or confused in the prompt |
| `Prompt.FrequenciesInjective` | internal/llm/prompt.go:42-49 | a frequency list determines all its counts, whatever follows it |
| `Prompt.PromptInjective` | internal/llm/prompt.go:19-40 | the prompt determines everything that went into it: the number of tickets asked for, both statistics, the number of draws and the tickets excluded, in order |
| `PromptReading.PromptSpelled` | internal/llm/prompt.go:23-40 | the whole prompt word for word, each statistic in its place and one line for each excluded ticket |
| `PromptReading.ListIsJoined` | internal/llm/prompt.go:42-49 | a frequency list is the entries `number:count` from number one on, joined by commas, and a line end |
| `PromptReading.ListSays` | internal/llm/prompt.go:42-49 | scanned for numbers, it gives each number from one on and behind it that number's count |
| `PromptReading.PromptReads` | internal/llm/prompt.go:23-40 | the line behind the heading for the main numbers tells the main counts, the one behind the heading for the bonus the bonus counts, and the text ends by asking for `count` combinations |
| `Propose.Absorb` | internal/llm/llm.go:168-175 | deduplication by key is the order-preserving deduplication of the tickets |
| `Propose.DedupeOrder` | internal/llm/llm.go:168-175 | what remains are the first occurrences, in their order |
| `Propose.FoundAppends` | internal/llm/llm.go:168-175 | one more answer adds exactly its tickets that were not found before nor earlier in it, behind the others and in their order |
| `Propose.FoundIsProper` | internal/llm/llm.go:136-142 | everything found is valid, and nothing is found twice |
| `Propose.OversizedAnswerIsKept` | internal/llm/llm.go:168-175 | all distinct valid tickets of one printed answer are found, in order |
| `Propose.OvershootIff` | internal/llm/llm.go:148-178 | more tickets are found than were asked for if and only if the last answer holds more new ones than the remainder; before the last answer there are always fewer |
| `Propose.ProposeTooMany` | internal/llm/llm.go:143-178 | a run: a server that answers with a list longer than asked for has the whole list proposed |
| `Propose.Propose` | internal/llm/llm.go:136-178 | at most three requests, each for the positive remainder and excluding everything found so far; what is proposed is the order-preserving dedupe of all texts; a list too short is returned only after three answers or when time is up with something found; the error cases; too many only as in `OvershootIff` |
| `Calendar.CivilCorrect` | internal/scheduler/scheduler.go:61-62 | every day number has a valid civil date, and that date has this number |
| `Calendar.CivilOfDayNumber` | internal/scheduler/scheduler.go:61-62 | and the other way round for every valid date |
| `Calendar.NextDayIsTomorrow` | internal/scheduler/scheduler.go:75 | raising the day by one is the next day of the calendar over month ends, year ends and leap days |
| `Calendar.UsualCalendar` | internal/scheduler/scheduler.go:61-62 | day zero is 1 January 1970, and the months have their usual lengths, February by the Gregorian rule |
| `Scheduler.NextRunIsLeast` | internal/scheduler/scheduler.go:69-78 | the next run is the least instant strictly after now at hour:min UTC, and it is today or tomorrow |
| `Scheduler.NextRunOnTheClock` | internal/scheduler/scheduler.go:69-78 | in nanoseconds of Unix time, the next run is the first instant after now that lies hour and minute behind a multiple of 86400 seconds |
| `Scheduler.InitialDelayIsCatchUp` | internal/scheduler/scheduler.go:58-67 | no wait if today's slot has come, otherwise the wait until the next run |
| `Scheduler.Run` | internal/scheduler/scheduler.go:39-56 | the loop produces a run: catch-up, a retry interval after a failure, the next slot after a success, until the context ends |
| `Scheduler.FirstCall` | internal/scheduler/scheduler.go:41-46 | the first call starts at once when today's slot has come and at the next slot when not, plus the lateness of its wait |
| `Scheduler.RetryFollows` | internal/scheduler/scheduler.go:47-51 | after a failure the next call starts one retry interval behind the end of the failed one, plus its lateness |
| `Scheduler.NoDrift` | internal/scheduler/scheduler.go:52-53 | after a success the next call starts at the least slot behind the first clock reading plus the lateness of that wait, whatever the gap before the second reading, while the slot is still ahead |
| `Scheduler.RunIsMonotone` | internal/scheduler/scheduler.go:41-56 | calls of a run never overlap and never start before they are planned |
| `Scheduler.NonRepetition` | internal/scheduler/scheduler.go:41-56 | no two successes are observed within the same day from slot to slot, however late the waits end |
| `Scheduler.Coverage` | internal/scheduler/scheduler.go:41-78 | the first call observed to end at or after a slot starts behind it by at most its own wait's lateness and one retry interval or, right after a success, the gap between the two clock readings after that success |
| `Scheduler.Progress` | internal/scheduler/scheduler.go:43-55 | two rounds move a run forward by at least a retry interval or a day |
| `Scheduler.EverySlotIsServed` | internal/scheduler/scheduler.go:39-56 | so in a run that is long enough every slot after the start is served |
| `Digits.RunsAreMaximal` | internal/timelottery/timelottery.go:158-159 | the runs found are all the maximal digit runs, each once, from left to right |
| `Digits.ExtractNumbers` | internal/timelottery/timelottery.go:158-179 | the one-pass scanner returns the saturated values of exactly those runs |
| `Digits.NumbersAre` | internal/timelottery/timelottery.go:169-176 | each number is the decimal value of its run, or 2^63-1 when that is larger |
| `Digits.SplitGivesRuns` | web/parse.js:5 | splitting at the gaps and dropping empty pieces leaves the same runs |
| `Digits.ParseCombination` | web/parse.js:4-26 | a count other than eight is refused with that count, a playable combination accepted with its seven sorted, any other refused with the fault the validators report |
| `Digits.TwinsAgree` | web/parse.js:1-26 | the form's parser accepts a text exactly when the scanner finds eight numbers in it that pass the archive validator, with the same sorted seven and bonus |
| `Digits.FormRoundTrip` | web/admin.js:201 | the padded, comma-joined rendering of any numbers is scanned back as those numbers |
| `Digits.FormShape` | web/admin.js:201 | the rendering of numbers below a hundred, character by character: two digits each, a comma and a blank between |
| `Digits.EditFormRoundTrip` | web/admin.js:201 | so the edit form starts from a text that parses back to the stored draw |
| `Pages.TextBuilder.Visit` | internal/timelottery/timelottery.go:142-156 | the recursive visit appends the text nodes of the subtree in document order |
| `Pages.RowCells` | internal/timelottery/timelottery.go:131-140 | the texts of a row's own cells, in order |
| `Pages.TableRows` | internal/timelottery/timelottery.go:115-129 | the cell texts of every row, an outer row before those nested in it |
| `Pages.NodeByNode` | internal/timelottery/timelottery.go:115-156 | what a node adds: an element `tr` its row, in front of the rows inside it; an element `td` or `th` its text as a cell of the row it is a child of; a text node its text |
| `Pages.SameTablesSameRows` | internal/timelottery/timelottery.go:115-156 | trees that differ only in the markup inside cells have the same rows |
| `Pages.ExchangeAnywhere` | internal/timelottery/timelottery.go:115-156 | nodes with equal text and equal rows (and equal cells, where they are children of a row) may be exchanged at any place, at any depth, without changing text, rows or cells around them |
| `Pages.ExchangeInCell` | internal/timelottery/timelottery.go:131-156 | done somewhere below a cell of a page, such an exchange is a difference in the markup inside cells only |
| `Pages.Wrapping` | internal/timelottery/timelottery.go:142-156 | wrapping any nodes at any place of a document in an element that is no row keeps the document's rows; among the cells of a row, if neither element nor nodes are cells |
| `Pages.Splitting` | internal/timelottery/timelottery.go:142-156 | splitting a text node at any place of a document keeps its rows |
| `Timelottery.NumbersCell` | internal/timelottery/timelottery.go:80-94 | how many cells hold exactly eight numbers, and the numbers of the first in a fresh slice |
| `Timelottery.JudgeNumbers` | internal/timelottery/timelottery.go:66-72 | the eight numbers of the one cell; the bonus is read intact from the array whose first seven cells were sorted in place |
| `Timelottery.ParseRow` | internal/timelottery/timelottery.go:47-73 | one row's verdict |
| `Timelottery.Parse` | internal/timelottery/timelottery.go:36-78 | draws and issues of all rows in order; the structural error exactly when there are neither |
| `Archive.RowNoIff` | internal/timelottery/timelottery.go:51-54 | a row is numbered exactly by a text that spells an integer from 1 to 2^63-1, an optional plus sign and leading zeros allowed, with any Unicode white space around it |
| `Archive.RowLaw` | internal/timelottery/timelottery.go:47-73 | a numbered row is ignored when no later cell holds exactly eight numbers, an issue that gives their count when several do, and when one does a draw under the row's own number if the eight can be played, an issue with their fault if not |
| `Archive.UnnumberedRow` | internal/timelottery/timelottery.go:48-54 | a row without such a number, or without cells, is ignored |
| `Archive.PrintedRow` | internal/timelottery/timelottery.go:51-72 | a printed number with white space around it and eight printed numbers make the draw, or the issue, of just that number, seven and bonus |
| `Archive.PageRows` | internal/timelottery/timelottery.go:115-156 | from a table of rows of `td` and `th` cells exactly these rows are read, from top to bottom, each as its cells' texts |
| `Archive.PageRoundTrip` | internal/timelottery/timelottery.go:36-78 | a page of a heading and rows that show draws is parsed as exactly these draws, in order, without an issue; one without such rows as the structural error |
| `Archive.PageLists` | internal/timelottery/timelottery.go:43-78 | from any page the draws and the issues, each in the order of their rows, and the structural error if and only if there is neither |
| `Timelottery.DrawIff` | internal/timelottery/timelottery.go:5-9 | a row is a draw if and only if its first cell is an integer from one on, exactly one other cell holds eight numbers, and they are playable |
| `Timelottery.IssueIff` | internal/timelottery/timelottery.go:55-70 | it is an issue if and only if it is numbered and the eight numbers are ambiguous or unplayable, and ignored otherwise |
| `Timelottery.DrawIsAcceptable` | internal/timelottery/timelottery.go:66-72 | a draw holds its cell's numbers, the seven sorted, and meets the table's CHECKs |
| `Timelottery.VerdictByContent` | internal/timelottery/timelottery.go:47-73 | the verdict depends only on the first cell's number and the multiset of eight-number cells |
| `Timelottery.PermutedCells` | internal/timelottery/timelottery.go:4-9 | permuting the cells behind the first changes no verdict |
| `Timelottery.IrrelevantCell` | internal/timelottery/timelottery.go:80-94 | adding or removing, anywhere behind the first, a cell without exactly eight numbers changes no verdict |
| `Timelottery.SpacedNumber` | internal/timelottery/timelottery.go:51 | white space around the draw number changes no verdict |
| `Timelottery.MarkupIsIrrelevant` | internal/timelottery/timelottery.go:47-156 | trees that differ only in the markup inside any number of cells parse alike |
| `Timelottery.ExchangeIsIrrelevant` | internal/timelottery/timelottery.go:36-156 | exchanging alike nodes anywhere in a document changes nothing that is parsed from it |
| `Timelottery.WrappingIsIrrelevant` | internal/timelottery/timelottery.go:142-156 | in particular wrapping any part of a cell's content, at any depth, changes no draw, no issue and no structural error of the page |
| `Timelottery.SplittingIsIrrelevant` | internal/timelottery/timelottery.go:142-156 | nor does splitting any text |
| `Timelottery.OneBucketEach` | internal/timelottery/timelottery.go:47-77 | draws, issues and ignored rows add up to the rows, in order |
| `Timelottery.DrawsAreAcceptable` | internal/timelottery/timelottery.go:66-72 | every draw of a page is one the table accepts |
| `Timelottery.FormAndArchiveAgree` | web/parse.js:4-26 | the form accepts a text exactly when the same text makes a numbered row a draw, with the same numbers |
| `LimitedReader.LimitedReader.Read` | internal/api/sync.go:33-43 | at most the rest of the limit is read, the source's own bytes and error pass through, and the too-big error comes exactly when nothing of the limit is left |
| `LimitedReader.Consume` | internal/api/sync.go:26-43 | however source and consumer chop the stream: what arrives is a prefix of it, all of it at EOF and exactly the limit at the too-big error; unless a call fails, which of the two comes, or that the buffers run out before either, is exactly the ending computed from the arguments |
| `LimitedReader.ConsumePage` | internal/api/sync.go:26-43 | with enough buffers and a source that never fails or idles: a page below the limit passes through whole with its own EOF, a page above it gives exactly the limit and then the too-big error, a page of the limit arrives whole with one of the two |
| `LimitedReader.EndingOffLimit` | internal/api/sync.go:26-43 | off the limit enough reads always reach the end: EOF below it, too big above it |
| `LimitedReader.EndingAtLimit` | internal/api/sync.go:20-43 | at exactly the limit the page is accepted if and only if the read that delivers the last byte comes with EOF, refused if and only if it does not and the consumer reads on |
| `LimitedReader.AcceptedAtLimit` | internal/api/sync.go:20-43 | a run on any non-empty page of exactly the limit that is accepted |
| `LimitedReader.RefusedAtLimit` | internal/api/sync.go:20-43 | the same page, read the same way, refused because its EOF comes in a read of its own |
| `Store.Normalize` | internal/store/store.go:97-105 | exactly seven numbers, sorted in a copy |
| `Store.Store.Create` | internal/store/store.go:75-95 | the outcome by the rules of the game (wrong length, refused, duplicate, done, in that order) and the whole new table; the CHECKs stay satisfied |
| `Store.Store.Update` | internal/store/store.go:139-156 | the row is replaced if it is there and the new one is accepted; nothing else changes |
| `Store.Store.Delete` | internal/store/store.go:158-168 | the row is gone; not found if it was not there |
| `Store.Store.List` | internal/store/store.go:107-137 | every row once, the highest number first |
| `Store.ListingUnique` | internal/store/store.go:109-110 | there is only one such list |
| `Store.RunsStayLegal` | internal/store/store.go:31-45 | no sequence of operations, failing or not, breaks a CHECK |
| `Store.RowsAreIndependent` | internal/store/store.go:75-168 | a row neither affects nor is affected by operations on other numbers |
| `Store.DeleteUndoesCreate` | internal/store/store.go:75-168 | deleting undoes creating, whatever was done to other numbers in between |
| `Store.UpdateUndoesUpdate` | internal/store/store.go:139-156 | updating with the old numbers in any order restores the row |
| `Frequency.Query` | internal/store/store.go:199-215 | one group per value with its count, by count descending and number ascending |
| `Frequency.RanksUnique` | internal/store/store.go:207 | that order leaves no choice |
| `Frequency.MainFrequency` | internal/store/store.go:199-213 | the ranked groups of all seven columns of the table |
| `Frequency.BonusFrequency` | internal/store/store.go:215-221 | the ranked groups of the bonus column |
| `GenerateApi.ArchiveFrequencies` | internal/api/generate.go:32-45 | the weights: how many rows of the table hold each number, and how many have it as the bonus |
| `Frequency.ColumnsAreRows` | internal/store/store.go:199-207 | the seven columns together hold the same numbers as the draws one by one |
| `Frequency.MainIndexAgrees` | internal/store/store.go:209-213 | after any operations the main index is exactly the non-zero counters of the plain scan, its counts sum to seven per row, and the sampler's first total is 7 rows + 35 |
| `Frequency.BonusIndexAgrees` | internal/store/store.go:217-221 | the same for the bonus: one per row, first total rows + 54 |
| `Frequency.CountersAreRows` | internal/generate/generate.go:40-56 | the counters over any listing of the table are the numbers of rows that hold each number |
| `GenerateApi.GenerateTickets` | internal/api/generate.go:12-30 | for any archive the generator's demands on its weights are met, and exactly `count` valid tickets come out, the batch of the archive's counters; nothing is drawn for a count outside 1..100 |
| `Draws.CreateDraw` | internal/api/draws.go:27-52 | bad request exactly for a bad number or an unplayable combination, an internal error only when the statement fails, conflict exactly for a taken number; the payload is sorted in place and stored |
| `Draws.UpdateDraw` | internal/api/draws.go:54-80 | the same for replacing, not found for a missing number |
| `Draws.DeleteDraw` | internal/api/draws.go:82-98 | the row is removed exactly on success |
| `Sync.RunSync` | internal/api/sync.go:66-90 | over any page and any failures: the table gets exactly the page's draws that went in, under their own numbers, each by its first mention; the report gives the page's issues, then the number of each draw that did not go in, in order, and counts the rows that came; an unreadable page changes nothing |
| `Sync.Accounting` | internal/api/sync.go:50-55 | added, skipped and issues add up to the total, for any page and any outcomes |
| `Sync.InsertsOnlyAdd` | internal/api/sync.go:1-2 | no run changes or removes a row that is there |
| `Sync.ParsedIsAcceptable` | internal/api/sync.go:77-78 | every parsed draw is accepted by the table and stored as parsed |
| `Sync.SyncLaw` | internal/api/sync.go:77-88 | a run without failures adds exactly the new numbers, each with the row of its first mention on the page |
| `Sync.SyncIsIdempotent` | internal/api/sync.go:66-90 | repeating it adds nothing, changes nothing and reports every draw as skipped |
| `Sync.RaceKeepsInv` | internal/api/sync.go:77-88 | whatever the interleaving and whichever inserts fail, every step keeps the old rows, adds only rows of the page, and counts each insert once |
| `Sync.RaceWithFaults` | internal/api/sync.go:66-90 | so at any moment the reported additions account for every row that came, and one more run without failures completes the numbers of the page |
| `Sync.RaceInStep` | internal/api/sync.go:77-88 | without failures the table is that of a single run up to the furthest runner's position |
| `Sync.RaceIsOneSync` | internal/api/sync.go:66-90 | when all have finished without failures the table is that of a single run and the reported additions sum to the number of new draw numbers |
| `Sync.RaceStoresPage` | internal/api/sync.go:66-90 | after a finished race without failures the table holds the old rows and every number of the page with the seven and the bonus of its first mention |
| `Sync.RaceKeepsToPage` | internal/api/sync.go:66-90 | at any moment of any race, failing or not, it holds the old rows and beside them only draws of the page, each under its own number |
| `Sync.RaceInFlight` | internal/api/sync.go:66-90 | broken off at any moment without failures, old rows are unchanged, only numbers of the page have come, and one more run leads where one alone would have |

## Left out

- HTTP routing, request and response bodies, authentication, cookies, status pages, configuration, logging, Docker and the rest of `web/`: plumbing over libraries.
- `Complete`, the archive fetch, `html.Parse`, SQLite and `crypto/rand` are foreign: an arbitrary oracle, byte stream, node tree, atomic table with CHECKs and primary key, and any source that answers below its argument.
- The SQL engine is modelled by what its statements promise: CHECKs before the primary key, GROUP BY and ORDER BY as a ranking.
- The regular expressions of `internal/llm/parse.go`, `strings.Index`, `strings.TrimSpace`, `strconv` and `String.split` are functions on text; `sort.Ints` is an insertion sort over the same slice.
- Text is a sequence of Unicode code points instead of bytes. Every character the code looks for is ASCII, so positions differ but decisions do not; a cut inside a character is a cut before it.
- Surrogate pairs written as `\u` escapes decode to U+FFFD each; they can only occur inside names and strings whose text is then irrelevant.
- A second `numbers` member of one object reuses the slice of the first in Go, so a `null` element there keeps the earlier value; here it counts as zero.
- Once the Go decoder has failed it keeps failing; the code stops reading at its first failure, so the model does not keep the error.
- The widths of totals and counters: Go's `int` could overflow only with far more draws than a table can hold. Draw numbers and scanned numbers keep their 64-bit bounds and saturation.
- JavaScript's `Number` rounds beyond 2^53; values of that size are out of range before and after rounding.
- The wording of messages; only which reason is given is kept.
- The size of the limit on a page, 5 MB at the one place a reader is made, is a parameter here.
- `created_at` and `updated_at`.
- The slot channel for proposals, the lock around the last report and the shutdown wait group: single-branch mutual exclusion.
- `Scheduler.Run` ends when its script of rounds does, which stands for the cancelled context; every finite prefix of an endless run is such a run. The hour and minute are taken in 0..23 and 0..59 as `New` demands.
- Decoder.Decoder.NextToken: states the token in the states in which the code asks for one (before the object, before a member name, behind a name); other states are modelled in its body but not specified.
- Extract.FirstDelim: states when the delimiter is the one its caller asks for; the callers treat every other outcome alike.
- Loops and loop bodies of one source function are set apart in methods of their own to keep the proofs short: `Generate.CountNumbers`, `Generate.CountBonus`, `Generate.PickSeven`, `Generate.SortSeven`, `Generate.NextTicket`, `Extract.DecodeTicket`, `Extract.TicketsOfArray`, `Extract.SearchCandidates`, `Propose.Ask`, `Propose.AskMore`, `Propose.Round`, `Sync.InsertAll`, `Sync.PageIssues`, `Digits.CombineNumbers`, `Timelottery.JudgeNumbers` and `Timelottery.ParseRow`.
- `Frequency.MainFrequency`, `Frequency.BonusFrequency` and `GenerateApi.ArchiveFrequencies` take the store as an argument; in the source they are methods of the store and of the handler.
