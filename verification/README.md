# The media core, modelled

These Dafny modules model the parts of the appliance's Python media core that keep state, splice streams,
code formats or search, and prove what those parts promise. Code that changes things in place is modelled
by classes and methods with loops; each such method is proved to leave exactly what a function on values
says, and the promises are proved about those functions, over every input and every run.

| component | source | modules |
|---|---|---|
| session manager | `media/proxy/session.py` | `SessionProtocol` (the sections run under the lock, as transitions), `SessionRuns` (the invariant), `SessionGuarantees`, `SessionUse` (the idle clock and what is left of a session), `SessionIndex`, `SessionSections` (runs with the sections of `stop` and `attach` apart), `SessionSplitIndex`, `SessionSplitReaders`, `SessionSplitPipes`, `SessionSplit`, `SessionManager` (the classes) |
| relay | `media/proxy/relay.py` | `HttpRange`, `Relay` |
| stream requests | `media/stremio/adapter.py` | `StreamAsks` (the protocol), `StreamGathering` (the classes and the listing) |
| home and search screens | `media/stremio/adapter.py` | `FanOut`, `HomeScreen` |
| watched field | `media/stremio/watched.py` | `Watched` |
| library record | `media/stremio/library_state.py` | `LibraryProtocol`, `LibraryRecord` (the class), `LibraryGuarantees`, `ContinueWatching` |
| search index | `media/stremio/local_search.py` | `EditDistance`, `SearchCorpus` (the answer by definition), `SearchIndex` (the class) |
| ranking | `media/policy/ranking.py` | `Ranking` |
| screen tools | `tools/ui-frame-integrity.py` | `FloodFill`, `DiffBox` |
| browser protocol | `tools/cdp.py` | `WebSocketFrames` |
| capture registration | `scripts/writeback-registration.py` | `Correlation` |

`Wrappers`, `Collections`, `Bytes`, `Decimals`, `Strings`, `Sorting`, `Sums`, `Iteration` and `PlaybackPolicy` hold what
several of them share. A run is a sequence of states, each the one before it after one step; a step is a
section the source runs under its lock, or a call made of such sections. Clocks, children that exit, bytes
that arrive, answers of addons and the order in which workers get their turn are arguments of the steps,
any value of which is allowed. Times are integers: in the session manager any at all, in the table of stream
requests of a clock that never goes back.

## Where the code does less than it means to

Each of these is stated exactly by the members named, as a condition met or as a run that shows it.

- `create` plays an advised-against source in the mode it would be played in, but builds the command from the
  decision as it was made, which has none. Which choices get a session, the ones without a track to encode or
  without ffmpeg included: `SessionGuarantees.CreateSucceedsIff`, and over every run
  `SessionGuarantees.EverySessionWasGranted`.
- A session whose start failed still takes its key out of the index when it is stopped, and puts nothing back
  when it is started again: `SessionIndex.IndexKeptIff`, over runs `SessionIndex.RunIndexedIff`. One failed start
  is enough for two live sessions of one source and mode: `SessionIndex.FailedStartSplitsTheKey`.
- A relay generator that is closed before its first turn never reaches its `finally`, and its session is never
  idle again: `SessionGuarantees.CloseUncountsIff`, `SessionGuarantees.LostReaderHolds`.
- `stop` lets its lock go while it waits on the child. A child is lost exactly if the second section finds it in
  the record, still to be waited on, and no other call is going to: `SessionSections.LostIff`. A reader attached
  meanwhile makes it so, and nothing does unless a child is started meanwhile:
  `SessionSplit.AttachInsideStopOrphans`, `SessionSections.InTurnLosesNothing`.
- With the sections apart exactly three leave a live session unindexed: the beginning of a stop of one that is not
  live while a live one has its key; and, while its key does not lead to it, a rewind of a session being stopped, or
  a restart of one whose start failed: `SessionSplitIndex.SplitRunIndexedIff`. So a second stop takes away a
  successor's entry, exactly when: `SessionSplit.SecondStopUnindexesIff`; and the rewind of an attach that comes into
  a stop leads to two live sessions of a key with no failed start and no second stop:
  `SessionSplit.AttachInsideStopSplitsTheKey`.
- A reader may come to be alone on a child that has been read, when its attach found another reader there that left
  before it was admitted: `SessionSplit.LateReaderMissesTheStart`; exactly where it begins:
  `SessionSplitPipes.FirstTurnBegins`.
- A session claimed after the reaper looked is ended all the same, exactly when: `SessionSplit.ClaimedThenReapedIff`.
- `_open` asks what is left of its budget before a try and not after, so a try that runs long is followed by one
  past the budget; exactly when: `Relay.PastBudgetIff`, `Relay.AskedPastBudget`. Tries held to their timeouts as a
  whole would keep to it: `Relay.HeldToTimeouts`.
- `_fan_out` copies its results and then its flags, "once" by its comment but in two reads. A catalogue that answers
  between them is left out without a word: `HomeScreen.TwoCopiesLoseIff`, `HomeScreen.TwoCopiesLose`.
- A stored watched field reads back as it was exactly when its marks repeat as far on as the last marked id occurs
  earlier in the list, which without bits past the list they only do if it does not occur earlier; and any field
  moves with its episodes exactly when the buffer has no bit past the list where those behind come to lie:
  `Watched.RoundTripIff`, `Watched.RealignmentIff`.
- The loop that moves a record on over watched episodes goes round for good with some lists that repeat an id, and
  marking a season then never returns: `LibraryGuarantees.EndsIff`, `LibraryGuarantees.RepeatedIdsCycle`.
- The ranking is that of the renditions and not of the order they come in exactly when no two different ones share
  a key, which identities rule out; but a third rendition may make two others change places, exactly when:
  `Ranking.OrderIndependentIff`, `Ranking.ThirdReordersIff`.
- The WebSocket client's pong carries nothing, where section 5.5.3 of RFC 6455 wants the ping's payload:
  `WebSocketFrames.PongAnswersIff`. It also disregards the mask bit of the frames it receives, where section
  5.1 has a client fail the connection, and takes their key for payload: `WebSocketFrames.ReadAsLaidOutIff`.
- A range with neither end, which section 14.1.2 of RFC 9110 has no room for, is answered with all of the file
  as a part unless the file is empty: `HttpRange.AnswerRange`, `HttpRange.NeitherEndIsRead`.

## Model

| member | source | states |
|---|---|---|
| `SessionGuarantees.NoOrphanChild` | media/proxy/session.py:428-485 | in every run of calls a spawned child has not been waited on exactly if one session, which is running, has it as its process |
| `SessionGuarantees.ShutdownLeavesNothing` | media/proxy/session.py:561-565 | right after shutdown every child ever spawned has been waited on and no session is live, in every run |
| `SessionGuarantees.StoppedIsFinal` | media/proxy/session.py:462-511 | a stopped session stays stopped and without a process, or is forgotten for good, whatever is called afterwards |
| `SessionGuarantees.ClientsAreReaders` | media/proxy/session.py:601-635 | a live session's client count is its number of readers not yet let go, in every run; a direct session's are its counted streams, each open or closed and none lost |
| `SessionUse.ReapIsJust` | media/proxy/session.py:526-551 | the reaper ends a live session exactly if nobody holds it, no reader is on it and no call has used it for longer than its allowance, four times as long for a direct one, or its child has exited; it says which, and every other record is as it was |
| `SessionUse.LastSeenIsLastUse` | media/proxy/session.py:247-426 | in every run the time a session was last seen is that of the last call that used it: a `create` that returned it, the admission of a reader, a reader's turn, a reader's letting go, or a release |
| `SessionUse.OwnerIsHolder` | media/proxy/session.py:247-351 | in every run its owner is whom the last `create` that returned it and named somebody named, and nobody once it was released since |
| `SessionUse.SparedWithinAllowance` | media/proxy/session.py:526-551 | on a clock that does not go back the reaper leaves a session whose child runs as it was within its allowance of any call that used it, the end of its last reader included |
| `SessionUse.RecordStaysIff` | media/proxy/session.py:475-511 | in every run a record stays, stopped since the call that stopped it, exactly until stopped records of an age it has reached are forgotten |
| `SessionGuarantees.CloseUncountsIff` | media/proxy/session.py:396-426 | closing a reader lowers the count exactly if it is a direct one or has taken a turn |
| `SessionGuarantees.LostForGood` | media/proxy/session.py:396-418 | a reader lost that way is never uncounted by any later call |
| `SessionGuarantees.LostReaderHolds` | media/proxy/session.py:526-547 | and its session is never idle to the reaper again |
| `SessionGuarantees.AttachedReader` | media/proxy/session.py:305-394 | taken as one call: a reader `attach` admits finds a running child: unread if it is alone, and otherwise the very child its companions read, at the position they left it |
| `SessionGuarantees.OnlyReadersAdvance` | media/proxy/session.py:396-418 | a pipe moves only by a turn of a reader of the running session that has it as its process, by what that turn read |
| `SessionGuarantees.LoneReaderSeesTheStart` | media/proxy/session.py:353-418 | with `attach` taken as one call, over every run: until another reader is admitted, the first turn of a reader that arrived alone reads its stream from the first byte, unless the session was ended before |
| `SessionGuarantees.CreateSucceedsIff` | media/proxy/session.py:224-293 | `create` returns a session exactly if the source is allowed and playable and there is a live one or the choice, as it was decided, can be given one: played as it is, or with a command that names a video, for an encode a track to encode too, and could be built |
| `SessionGuarantees.CreatedPlays` | media/proxy/session.py:243-261 | what `create` returns is live, plays the source asked for in the mode the choice is played in, and is its caller's from then on |
| `SessionGuarantees.CreateRefusesWith` | media/proxy/session.py:238-293 | the error of a `create` that refuses names the first thing against it |
| `SessionGuarantees.AttachRefusesIff` | media/proxy/session.py:305-324 | in each state of the invariant whether `attach` refuses, and why: no such session, a direct one, one that has ended, or a child needed that could not be started |
| `SessionGuarantees.SessionsKeepTheirKeys` | media/proxy/session.py:247-293 | no call changes what a session plays and how, and only a `create` that can makes one |
| `SessionGuarantees.EverySessionWasGranted` | media/proxy/session.py:266-293 | in every run each session goes back to a `create` of its id, source and mode whose choice could be given one, so none stands for a choice advised against that needs a child |
| `SessionRuns.StepKeeps` | media/proxy/session.py:199-565 | every call keeps the whole invariant: the shape of each record, children owned by one running session, readers counted, an unread child for a reader alone |
| `SessionIndex.IndexKeptIff` | media/proxy/session.py:247-293 | every call leaves each index entry on a record of that key that has not ended, and leaves every live session indexed exactly if it is not one of the two that displace an entry |
| `SessionIndex.BeginIndexed` | media/proxy/session.py:464-473 | the first section of a stop, of a session in any state, keeps the index complete exactly if the session is live or no live one has its key |
| `SessionIndex.StopIndexed` | media/proxy/session.py:462-485 | and so does the whole of it, a second stop of a stopping session included |
| `SessionIndex.RunIndexedIff` | media/proxy/session.py:247-293 | in every run every state so far has every live session indexed exactly if no call so far displaced an entry |
| `SessionIndex.NoFailureNoDisplacing` | media/proxy/session.py:428-485 | none does in a run without a failed start |
| `SessionIndex.OneLiveSession` | media/proxy/session.py:247-261 | in every run, as long as nothing displaced an entry, there is at most one live session of a source and mode, and `create` returns it and makes no other |
| `SessionIndex.FailedStartSplitsTheKey` | media/proxy/session.py:428-485 | a run with one failed start reaches two live sessions of one source and mode |
| `SessionSections.PartsAreTheStop` | media/proxy/session.py:462-485 | from every state the two sections and the wait between them, with nothing in between, are the stop of the other runs |
| `SessionSections.PartsAreTheAttach` | media/proxy/session.py:305-394 | and those of an attach, the look that may rewind, wait, start and admission, are the attach of the other runs, refusals included |
| `SessionSections.PartLoses` | media/proxy/session.py:462-485 | whatever the sections of however many stops and attaches and the other calls find, one step loses a child exactly if it is a second section of a stop that lets go of it |
| `SessionSections.LostIff` | media/proxy/session.py:353-485 | over every run with the sections of stops and attaches apart: a child is neither waited on nor anybody's to wait on exactly if the second section of some stop so far found it in the record, unwaited, with no other call still to wait on it |
| `SessionSections.InTurnLosesNothing` | media/proxy/session.py:353-485 | over every such run in which no child is started for a session while a stop of it is under way none is lost, however the sections are interleaved otherwise |
| `SessionSplitIndex.SplitRunIndexedIff` | media/proxy/session.py:247-485 | over every run with the sections apart every moment so far has every live session indexed exactly if none so far began a stop that overlooks a live session of the key, rewound a session its key does not lead to, or started such a one again after a failed start |
| `SessionSplitIndex.PartIndexedIff` | media/proxy/session.py:247-485 | and so of each section by itself, which also leaves each index entry on a record of that key that has not ended |
| `SessionSplitIndex.OrderlyDisturbsNothing` | media/proxy/session.py:353-485 | none of the three comes in such a run as long as every start succeeds and nobody stops or rewinds a session a stop of which is under way |
| `SessionSplitIndex.OneLiveSessionApart` | media/proxy/session.py:247-261 | as long as none came there is at most one live session of a source and mode, and `create` returns it |
| `SessionSplitReaders.StoppedIsFinalApart` | media/proxy/session.py:462-511 | over every such run too a stopped session stays stopped and without a process, or is forgotten for good |
| `SessionSplitReaders.ClientsAreReadersApart` | media/proxy/session.py:305-426 | over every such run too the client count of a session that has not ended is its number of readers not yet let go |
| `SessionSplitPipes.KeepsItsChildIff` | media/proxy/session.py:353-485 | over every such run a session has its child at a later moment exactly if no attach rewound it and no stop of it ended in between, and a child it lost never comes back |
| `SessionSplitPipes.AdmittedFindsItsChildIff` | media/proxy/session.py:305-324 | so the reader an attach admits finds the child that attach started, or found running, exactly if neither came between its sections |
| `SessionSplitPipes.BytesAddUp` | media/proxy/session.py:396-418 | over every such run a pipe stands at where it stood and all that its readers' turns took off it since |
| `SessionSplitPipes.TakersAreItsOwn` | media/proxy/session.py:396-418 | and a child that a session has is read by that session's readers alone |
| `SessionSplitPipes.FirstTurnBegins` | media/proxy/session.py:353-418 | whatever runs between the look of an attach and a first turn of a reader of the session, that turn begins at what was taken off its child since the look, and further on by the child's position if the look found other readers on that same child |
| `SessionSplitPipes.FromTheStartIff` | media/proxy/session.py:353-418 | so a reader whose attach found nobody reads from the first byte exactly if no turn since that look took anything off its child |
| `SessionSplit.StopEndOrphansNothingIff` | media/proxy/session.py:475-485 | of any state in which no child is orphaned or shared: the second section leaves it so exactly if the record has the captured child, none, or one waited on |
| `SessionSplit.AttachInsideStopOrphans` | media/proxy/session.py:382-394 | a run in which one attach, its own wait on the old child included, runs between the first section of a stop and its last, and its new child is lost |
| `SessionSplit.AttachInsideStopSplitsTheKey` | media/proxy/session.py:382-389 | a run in which an attach rewinds a session being stopped and a `create` then makes a second live one of its key, without a failed start or a second stop |
| `SessionSplit.LateReaderMissesTheStart` | media/proxy/session.py:382-394 | a run in which an attach looks while another reads, that one leaves, and the new reader is admitted alone on a child that has been read |
| `SessionSplit.SecondStopUnindexesIff` | media/proxy/session.py:464-473 | from every state in which no stop is under way: of the `create` calls made while a session is then being stopped, a second stop unindexes a live session exactly if the call made one of the same source and mode |
| `SessionSplit.ClaimedThenReapedIff` | media/proxy/session.py:526-551 | from every state: the session `create` returns between the reaper's look and its stops is live and its caller's, and is ended by them exactly if its key led to a live session the reaper had a verdict on |
| `SessionManager.Manager.Create` | media/proxy/session.py:224-293 | the manager's dictionaries and records end exactly as the transition proved about above, and the outcome is its outcome |
| `SessionManager.Manager.Replace` | media/proxy/session.py:261-293 | the entry of an ended session goes even if the command is then refused, for any of its reasons; otherwise a fresh record is held and indexed |
| `SessionManager.Manager.Attach` | media/proxy/session.py:305-324 | rewind, start and admission leave the transition's state, refusals included |
| `SessionManager.Manager.RewindForANewReader` | media/proxy/session.py:353-394 | only a reader alone on a served child ends it, and the record is as newly made |
| `SessionManager.Manager.Start` | media/proxy/session.py:428-460 | a running child is left, an ended session refused, a failed spawn recorded, a new child started at its first byte |
| `SessionManager.Manager.ReadDirect` | media/proxy/session.py:326-338 | one client more and one counted stream more |
| `SessionManager.Manager.Next` | media/proxy/session.py:396-418 | one turn of either kind of reader leaves the transition's state |
| `SessionManager.Manager.Close` | media/proxy/session.py:628-635 | closing lets go once, and not at all for a generator not yet started |
| `SessionManager.Manager.Detach` | media/proxy/session.py:420-426 | one client less, never below none, and the time noted; a forgotten session is no error |
| `SessionManager.Manager.Release` | media/proxy/session.py:344-351 | the owner goes, whether or not there was one |
| `SessionManager.Manager.StopBegin` | media/proxy/session.py:464-473 | the first section: the record is stopping, its key unindexed, its child captured |
| `SessionManager.Manager.StopEnd` | media/proxy/session.py:475-485 | the second section: the captured child is waited on, the record stopped, empty and without a process |
| `SessionManager.Manager.Stop` | media/proxy/session.py:462-485 | both together, and nothing for a session that has stopped |
| `SessionManager.Manager.Judge` | media/proxy/session.py:533-547 | one session, as the reaper looks at it, gets the verdict `ReapIsJust` is about |
| `SessionManager.Manager.FindDoomed` | media/proxy/session.py:526-547 | exactly the sessions the reaper has a verdict on, each once with its reason |
| `SessionManager.Manager.ReapOnce` | media/proxy/session.py:526-551 | all of those are stopped, and nothing else changes |
| `SessionManager.Manager.Active` | media/proxy/session.py:491-497 | exactly the live sessions, each once |
| `SessionManager.Manager.ForgetStopped` | media/proxy/session.py:499-511 | exactly the sessions stopped for longer than `age` are forgotten, and named |
| `SessionManager.Manager.Shutdown` | media/proxy/session.py:561-565 | every live session is stopped |
| `HttpRange.RangeLengthIff` | media/proxy/relay.py:330-338 | a header is accepted, with a start and a length, exactly if it is a content range as section 14.4 of RFC 9110 writes it, of a known size or not, in order |
| `HttpRange.RangeIff` | media/proxy/relay.py:45-46 | the player's range is read exactly if it is the text of one, and then into the ends it was written with |
| `HttpRange.ContentRangeReadsBack` | media/proxy/relay.py:330-338 | a written one reads back as its start and length, and as nothing when out of order, for every start, end and size, and for an unknown size |
| `HttpRange.AnswerRange` | media/proxy/relay.py:102-130 | the answer is the one section 14.1.2 of RFC 9110 has for the range, bounded, open-ended or a suffix, cut to the file and refused if no byte of it is in it, exactly if the range has an end or the file is empty; without one it is all of the file, as a part |
| `HttpRange.NeitherEndIsRead` | media/proxy/relay.py:45-45 | the header without an end is read as a range, and selects nothing |
| `HttpRange.RelayFile` | media/proxy/relay.py:82-143 | the whole file without a range, a refusal for one that cannot be read, and otherwise that answer |
| `HttpRange.FileChunks` | media/proxy/relay.py:132-141 | the blocks put together are exactly the part of the file from `start`, none empty or longer than the limit |
| `Relay.RequestReadsBack` | media/proxy/relay.py:322-327 | the `Range` of a resume reads back as the position and the end it was made of |
| `Relay.Chunks` | media/proxy/relay.py:406-447 | however the upstreams cut, the blocks put together are a prefix of the promised bytes, never more than promised, and as many exactly if the reply is complete; each resume asks for the very byte the reply had come to; it ends short only when resumes ran out, one failed, or one answered from elsewhere; each connection opened is closed |
| `Relay.RelaySource` | media/proxy/relay.py:343-453 | of a 206 that says in order which bytes it is, and of a whole file of a declared length, the reply carries just those bytes of the file, all of them exactly if it ends complete; each resume asks for the next byte up to the end the player's own range was written with, openly if with none; anything else is passed on as it is and not resumed |
| `Relay.Open` | media/proxy/relay.py:226-275 | as many tries as follow one another, each followed one having told of the host and not of the request, and the last not, or no longer within the budget; what the caller sees is what the last was answered with, a 404 or 416 as a refusal |
| `Relay.PastBudgetIff` | media/proxy/relay.py:231-275 | a try is begun past the budget exactly if the first took over 19.5 s, or under 15 s and with the second over 18 s, each being worth another |
| `Relay.AskedPastBudget` | media/proxy/relay.py:231-275 | a first try of 25 s is followed by another at 25.5 s |
| `Relay.HeldToTimeouts` | media/proxy/relay.py:236-245 | were each try held to its timeout as a whole, all would end within the budget and every answer worth another try get one, up to three |
| `Relay.Redirects.OpenSource` | media/proxy/relay.py:285-310 | a kept address that answers, or refuses the range, is the answer and the table stands; otherwise it is taken out, the source's own answer given, and where it leads is the newest entry, in place of the oldest if the table is full, with all others in their order |
| `Relay.Redirects.Keep` | media/proxy/relay.py:303-309 | never more than 64 addresses, the oldest going first |
| `StreamAsks.OneRequestPerKey` | media/stremio/adapter.py:972-989 | in every run at most one unfinished request per addon, type and title, which is the one the next caller is given |
| `StreamAsks.RunKeeps` | media/stremio/adapter.py:920-1010 | in every interleaving each unfinished request is the table's, and each finished one still in the table was outlived by a reply and has an answer |
| `StreamAsks.ReplyAccountsForAll` | media/stremio/adapter.py:954-963 | each request of a reply is answered in it, or loading and given to the next caller, or failed and asked anew |
| `StreamAsks.LoadingIsUnanswered` | media/stremio/adapter.py:954-970 | named as loading are exactly the requests without an answer, in addon order |
| `StreamAsks.AnswerStands` | media/stremio/adapter.py:995-1005 | what a request answered stays its answer through every run |
| `StreamAsks.LateAnswerArrives` | media/stremio/adapter.py:977-1005 | an answer that came after a reply went without it is in the next reply that asks within 120 seconds, whatever happens in between |
| `StreamAsks.GivenIff` | media/stremio/adapter.py:954-1005 | in every run the next caller for a title is given a request that has finished exactly if a reply had gone without it and it did not fail, no reply has carried it since, and nobody at all has asked 120 seconds after it or later, this caller included |
| `StreamAsks.OutlivedIff` | media/stremio/adapter.py:954-958 | a request that runs is marked as outlived exactly if a reply has named it as loading |
| `StreamAsks.HandedOverOnce` | media/stremio/adapter.py:959-962 | after that the next caller's request is a new one |
| `StreamAsks.SettleAllTable` | media/stremio/adapter.py:954-963 | a reply takes an entry out of the table exactly if it handed its answer over |
| `StreamGathering.AskTable.AskForStreams` | media/stremio/adapter.py:972-1010 | the shared request objects and the table end as the protocol has it: the held request is returned itself, or a new one is put in the table |
| `StreamGathering.AskTable.Finished` | media/stremio/adapter.py:995-1005 | the end of a request, answered or failed, as the protocol has it |
| `StreamGathering.AskTable.Reply` | media/stremio/adapter.py:954-963 | results and loading are those of the state the reply found, for each request in order, the same request twice included |
| `StreamGathering.Listing` | media/stremio/adapter.py:888-918 | every stream exactly once, in the order of addons and of their answers, under the first addon that has it |
| `FanOut.TakenOnce` | media/stremio/adapter.py:632-669 | in every schedule no two workers have one job, an answered job is nobody's and is never written again, and only the worker that has a job writes its slot |
| `FanOut.FinishedIsComplete` | media/stremio/adapter.py:651-669 | when all workers are done every job is answered with its own outcome |
| `FanOut.SchedulesEnd` | media/stremio/adapter.py:651-678 | no schedule runs on: what is left falls by one a step, from three a job and one a worker |
| `HomeScreen.WorkList` | media/stremio/adapter.py:464-478 | the work list is each addon's first allowed catalogues, in order |
| `HomeScreen.JobsAreThoseOf` | media/stremio/adapter.py:464-478 | of each addon, in order, none if it has failed lately and else exactly the first four catalogues of a wanted kind that need nothing more, in their order |
| `HomeScreen.RowSays` | media/stremio/adapter.py:515-528 | a catalogue has a row exactly if it answered with something: its addon's, under its own name or else the addon's and its kind, of the first twenty items |
| `HomeScreen.Screen` | media/stremio/adapter.py:494-528 | the rows and penalties made of any copies of results and flags |
| `HomeScreen.PenalisedAre` | media/stremio/adapter.py:504-513 | penalised are exactly the addons of a catalogue not answered in time |
| `HomeScreen.FanOutMakesTheSerialScreen` | media/stremio/adapter.py:444-528 | for every schedule in which the workers finish, the home screen is row for row the one asking the catalogues one by one makes, and nobody is penalised |
| `HomeScreen.CopyIsPartOfTheSerialScreen` | media/stremio/adapter.py:657-681 | at every moment of every schedule, the deadline's included, the rows are those of the serial screen whose catalogues were written by then, in its order, and a later copy only has more of them in between |
| `HomeScreen.OneCopySays` | media/stremio/adapter.py:562-587 | copied at one moment of any schedule, a catalogue is in the search with the first twenty of what it answered, left out exactly if that was nothing, and said not to have answered if it has not or has failed |
| `HomeScreen.TwoCopiesLoseIff` | media/stremio/adapter.py:562-579 | a catalogue with results is shown with them, or as not having answered, except exactly if it was written between the two copies; never if they were one |
| `HomeScreen.TwoCopiesLose` | media/stremio/adapter.py:679-681 | a run in which that happens |
| `Watched.SetGet` | media/stremio/watched.py:90-102 | setting a position, past the buffer's end too, changes that position and no other |
| `Watched.BitIsPower` | media/stremio/watched.py:83-102 | bit i of a buffer is that of 2 to the i modulo 8 in byte i / 8 as a number |
| `Watched.BlankFits` | media/stremio/watched.py:52-55 | a new field has no marks, in as few bytes as hold the list |
| `Watched.MovedGet` | media/stremio/watched.py:57-88 | realigning carries each bit by the offset and leaves the rest unset |
| `Watched.SerializedParts` | media/stremio/watched.py:57-88 | a stored field comes apart into its anchor, length and bits, whatever characters the anchor's id has |
| `Watched.ParsesMoved` | media/stremio/watched.py:57-125 | read back against any list, a field marks exactly what its anchor's move gives, and nothing if the anchor is gone |
| `Watched.TextSays` | media/stremio/watched.py:57-92 | whoever wrote it, a text of anchor, place and bits says nothing of a list without the anchor, and of one with it that each position has the bit as far from that place, counted from 1, as it is from the anchor |
| `Watched.WithShiftedOne` | media/stremio/watched.py:94-102 | the shifted mask sets or clears one bit of a byte |
| `Watched.RoundTripIff` | media/stremio/watched.py:57-125 | any field reads back against its list with the marks it had exactly if they repeat as far on as the last marked id occurs earlier in the list, and if no bit is set past the list, as far again, exactly if that id does not occur earlier |
| `Watched.RoundTrip` | media/stremio/watched.py:57-125 | with distinct ids, which may hold the separator, the round trip is exact |
| `Watched.RealignmentIff` | media/stremio/watched.py:57-125 | with episodes added in front and behind, exactly the same episodes are marked, if and only if no stray bit lies where the ones behind come |
| `Watched.MarkingIsExact` | media/stremio/library_state.py:239-247 | marking through the stored string, and reading that back, changes the episodes marked and no other |
| `Watched.WatchedBitField.SetAt` | media/stremio/watched.py:94-102 | the buffer is changed in place as `SetGet` is about, growing if it must |
| `Watched.WatchedBitField.GetVideo` | media/stremio/watched.py:104-108 | an episode is watched if it is listed and its first position is marked |
| `Watched.WatchedBitField.SetVideo` | media/stremio/watched.py:110-112 | its first position is marked, and an episode not listed is passed over |
| `Watched.WatchedBitField.WatchedIds` | media/stremio/watched.py:114-115 | exactly the ids of the marked positions |
| `Watched.WatchedBitField.ToText` | media/stremio/watched.py:117-125 | the string the theorems above are about |
| `Watched.LastMarked` | media/stremio/watched.py:117-125 | the anchor is the last marked position, or the first when none is |
| `Watched.Realign` | media/stremio/watched.py:75-88 | the realigning loop builds the field `MovedGet` is about |
| `Watched.Read` | media/stremio/watched.py:57-88 | `parse` makes a fresh field, an empty one for a string it cannot take apart or place |
| `LibraryRecord.TitleRecord.New` | media/stremio/library_state.py:50-75 | a new record is temporary and removed, with nothing watched |
| `LibraryRecord.TitleRecord.AdvanceTo` | media/stremio/library_state.py:126-132 | the record moves to another episode as the protocol has it |
| `LibraryRecord.TitleRecord.Progress` | media/stremio/library_state.py:150-199 | one update changes the record in place as the function on values does |
| `LibraryRecord.TitleRecord.Closed` | media/stremio/library_state.py:202-213 | closing does |
| `LibraryRecord.TitleRecord.MarkTitleWatched` | media/stremio/library_state.py:219-227 | marking a title changes the record in place as the function `MarksAddUp` is about |
| `ContinueWatching.MarksAddUp` | media/stremio/library_state.py:219-227 | over any run of marking, closing, rewinding, adding and removing, a title counts as watched as often as it was marked since it was last marked unwatched |
| `LibraryRecord.TitleRecord.MarkVideosWatched` | media/stremio/library_state.py:230-278 | marking episodes or a season does, whenever its loop ends |
| `LibraryRecord.WalkOn` | media/stremio/library_state.py:264-278 | the loop over watched episodes ends at the last value its turn has, whenever it ends |
| `LibraryRecord.TitleRecord.SetInLibrary` | media/stremio/library_state.py:284-287 | adding or removing changes it as the function `RemovedStaysAway` is about |
| `ContinueWatching.RemovedStaysAway` | media/stremio/library_state.py:202-292 | a removed title is not in continue-watching and stays out over any run of everything but adding it again, until an update of it leaves a position |
| `ContinueWatching.AddedWatchesIff` | media/stremio/library_state.py:284-287 | an added title is in it exactly if it has a position, removed before or not |
| `LibraryRecord.TitleRecord.Rewind` | media/stremio/library_state.py:290-292 | rewinding changes it as the function `RewoundGoesOn` is about |
| `ContinueWatching.RewoundGoesOn` | media/stremio/library_state.py:290-292 | a rewound title is out until the next update of its video, which goes on counting from the beginning |
| `LibraryGuarantees.ProgressCounts` | media/stremio/library_state.py:150-199 | what one update of the video on record does to every count |
| `LibraryGuarantees.WatchingRun` | media/stremio/library_state.py:150-199 | over any run of updates of the video on record, wherever the record stood, the time watched grows by the sum of the steps forward that were no jumps; the video is marked exactly if it was or what was watched by then ever passed 70 % of the length, and counted once more exactly if it was not marked and that came to pass |
| `LibraryGuarantees.NewRun` | media/stremio/library_state.py:126-199 | a video playback moves on to, by itself from position 1 or by its first update from 0, is marked and counted exactly if its own time in the run passes 70 %, and what the one before had is in the total |
| `LibraryGuarantees.RunAgain` | media/stremio/library_state.py:150-213 | a film played again after it was closed past its credits runs on as one rewound: its time goes on, and it is counted exactly if it had not been and the time of all its runs passes 70 % |
| `LibraryGuarantees.RunStanding` | media/stremio/library_state.py:196-199 | over any run of updates a title in the library stays, a removed one stays removed and becomes temporary, and a temporary one not removed becomes removed exactly if its first update leaves it never counted as watched |
| `LibraryGuarantees.FirstCounts` | media/stremio/library_state.py:162-199 | which is exactly if it was never counted, and is marked already or does not pass 70 % with that update |
| `LibraryGuarantees.RunDates` | media/stremio/library_state.py:161-170 | a title was last watched when the last update of it came |
| `LibraryGuarantees.SeeksFinishIff` | media/stremio/library_state.py:171-190 | jumps alone come to pass 70 % exactly if one says a length of which what was watched before is more, so never if nothing was |
| `LibraryGuarantees.SwitchLoads` | media/stremio/library_state.py:162-170 | an update of another video starts a run with nothing watched, with the time watched so far in the total |
| `LibraryGuarantees.ProgressWatchesIff` | media/stremio/adapter.py:93-100 | whatever the record was, an update leaves the title in continue-watching exactly if it is past the beginning, or is no jump and finds the same video with a position |
| `LibraryGuarantees.CloseKeepsWatchingIff` | media/stremio/library_state.py:202-213 | closing a title being watched takes it out exactly if it was past 90 % without an allowed next episode; with one the record points at it, at its beginning with counts restarted; short of 90 % nothing changes |
| `LibraryGuarantees.FlagMarksTheEpisode` | media/stremio/library_state.py:183-194 | finishing an episode marks it in the stored field, and no other |
| `LibraryGuarantees.NextFollows` | media/stremio/library_state.py:100-117 | a next episode is the one listed right after, and allowed |
| `LibraryGuarantees.NextIff` | media/stremio/library_state.py:100-117 | and there is one exactly if the one after the first of that id is out by now and is no special, unless that one is |
| `LibraryGuarantees.WalkAdvances` | media/stremio/library_state.py:264-278 | with distinct ids each turn of the loop is one place further, over watched episodes by allowed steps |
| `LibraryGuarantees.DistinctEnds` | media/stremio/library_state.py:264-278 | so it ends within as many turns as there are episodes |
| `LibraryGuarantees.EndsIff` | media/stremio/library_state.py:264-278 | with any list it ends exactly if it comes to no id twice within as many turns as there are episodes and one |
| `LibraryGuarantees.RepeatedIdsCycle` | media/stremio/library_state.py:248-278 | with a list of three that repeats an id, marking the season watched enters the loop and the loop never ends |
| `LibraryGuarantees.SeasonResumes` | media/stremio/library_state.py:248-278 | marking a season watched returns, and the record comes to point at the first unwatched episode that allowed steps reach, or has its position cleared and points where it did |
| `LibraryGuarantees.SeasonMovesIff` | media/stremio/library_state.py:248-263 | marking a season touches where the record points only if that is an episode of it in the description that is marked now or was before |
| `LibraryGuarantees.EpisodeMovesOn` | media/stremio/library_state.py:230-247 | marking the one episode the record points at moves it on to the next with counts restarted, or clears its position; marking another leaves it, and unmarking always does |
| `LibraryGuarantees.EpisodesDate` | media/stremio/library_state.py:135-147 | marking dates a title by the release of the last episode marked unless it was later; unmarking does not |
| `LibraryGuarantees.TitleMarkLeaves` | media/stremio/library_state.py:219-227 | marking a title as a whole dates it and takes it out of continue-watching; unmarking does neither |
| `LibraryGuarantees.SeasonMarksExactly` | media/stremio/library_state.py:230-278 | and the stored field has those episodes marked, or unmarked, and no other changed |
| `LibraryGuarantees.BitsAreInOrder` | media/stremio/watched.py:36-45 | the bits are those of the videos in the order of season, episode and date, a missing one first, and of those with all three in common in the order listed |
| `LibraryGuarantees.OrderKeepsDistinct` | media/stremio/watched.py:36-45 | the order of the bits keeps ids distinct |
| `LibraryGuarantees.OrderKeepsIds` | media/stremio/watched.py:36-45 | and keeps all of them |
| `EditDistance.WithinOneEdit` | media/stremio/local_search.py:128-146 | the one scan gives the Levenshtein distance if it is at most one, and nothing otherwise |
| `EditDistance.NearIff` | media/stremio/local_search.py:128-146 | different words are at distance one exactly if one insertion, deletion or change leads from one to the other |
| `SearchIndex.Index.constructor` | media/stremio/local_search.py:150-179 | the postings, buckets, sorted words and boosts hold the corpus and nothing else |
| `SearchIndex.PostAll` | media/stremio/local_search.py:150-179 | a word's postings count it in every title, and each word is met once |
| `SearchIndex.RunIsAll` | media/stremio/local_search.py:189-195 | the words that begin with a prefix are one run of the sorted words, from its bisection on |
| `SearchIndex.NearWords` | media/stremio/local_search.py:181-188 | three length buckets hold every word within one edit |
| `SearchIndex.RelatedWords` | media/stremio/local_search.py:181-195 | exactly the words within one edit or beginning with the query's, with their distance and ratio |
| `SearchIndex.Index.ScoreAll` | media/stremio/local_search.py:197-212 | exactly the titles with a related word have a score, which is the sum over every word of the query and every word of the corpus |
| `SearchIndex.Index.Search` | media/stremio/local_search.py:197-218 | the suggestions answer the query by definition, without the index: the best scores, at most so many, all above 48 % of the best and no title above that left out for a worse one |
| `SearchCorpus.ShareIs` | media/stremio/local_search.py:197-212 | what a word of the query earns a title by one of its words: the title's boost, times 7.5 for the word itself, 1 and half as much again of the part it begins, or 1 for one edit, times one more than the word's frequency in the title weighed by how few titles have it |
| `SearchCorpus.AsItIsCountsMost` | media/stremio/local_search.py:197-212 | so the word itself counts at least three times what any other related to it does |
| `SearchCorpus.ScoreAdds` | media/stremio/local_search.py:197-212 | and each word of a query counts by itself |
| `SearchIndex.BoostIs` | media/stremio/local_search.py:150-169 | a title's own boost goes by how near its rating is to the best and its popularity to the greatest, and is 1 for what it lacks |
| `SearchCorpus.ScoresIff` | media/stremio/local_search.py:197-212 | a title's score is positive exactly if one of its words is related to one of the query's |
| `SearchCorpus.SuggestsIff` | media/stremio/local_search.py:197-218 | something is suggested exactly if some title has a related word |
| `Strings.BisectLeft` | media/stremio/local_search.py:189-190 | the first place not before the word |
| `Strings.LessIff` | media/stremio/local_search.py:189-190 | of words in the order of dictionaries |
| `Ranking.RankSources` | media/policy/ranking.py:101-130 | the list sorted in place is the one order the lemmas below are about |
| `Ranking.RankingIsStrict` | media/policy/ranking.py:101-130 | with distinct identities it is a permutation of the renditions, each with its key, in strictly rising order |
| `Ranking.IdentitiesTellApart` | media/policy/ranking.py:90-98 | renditions of different identities never share a key |
| `Ranking.OrderIndependentIff` | media/policy/ranking.py:101-130 | the result is the same for every reordering of the input exactly if no two different renditions share a key |
| `Ranking.PrecedesIff` | media/policy/ranking.py:90-130 | of two renditions, decided upon in any way, the one with the lesser key comes first |
| `Ranking.ComesFirstIff` | media/policy/ranking.py:37-130 | which of two renditions comes first without their keys: the one whose playing costs less, by mode, sound and the presence of a safe one in high range; of two alike the larger picture, then the wider range, more channels, the higher rate and the lesser name |
| `Ranking.SafePrecedes` | media/policy/ranking.py:75-98 | a safe rendition comes before a risky or unsupported one of the same title, were they alike in size and rate |
| `Ranking.SafeFirst` | media/policy/ranking.py:75-98 | no risky or unsupported rendition comes before a safe one, no unsupported one before any other, and no remux before a safe one that is none |
| `Ranking.ThirdReordersIff` | media/policy/ranking.py:75-130 | one rendition more turns two others over exactly if it brings the first in high range, the first of the two is demoted for it, the second needs no remux, and if demoted too is better in all but the tier |
| `Ranking.ThirdReorders` | media/policy/ranking.py:101-130 | two renditions that a third makes change places |
| `FloodFill.Group` | tools/ui-frame-integrity.py:162-177 | the grouping loop ends, whichever block it takes, with every connected component of the blocks once and nothing else |
| `FloodFill.Grow` | tools/ui-frame-integrity.py:166-176 | a group is all that can be walked to from its first block, and touches nothing that is left |
| `FloodFill.ClosedIsComponent` | tools/ui-frame-integrity.py:162-177 | such a group is a connected component |
| `FloodFill.SameComponent` | tools/ui-frame-integrity.py:162-177 | being connected groups the blocks without overlap |
| `DiffBox.Edge` | tools/ui-frame-integrity.py:238-250 | halving finds the first, or the last, byte that differs of a stretch that does |
| `DiffBox.DiffBox` | tools/ui-frame-integrity.py:253-278 | nothing exactly if the captures agree; otherwise the smallest rectangle with every differing pixel in it, and the span from the first to the last |
| `DiffBox.TouchedIsSmallest` | tools/ui-frame-integrity.py:261-278 | a rectangle that covers every differing pixel and is touched on each side by one is the smallest |
| `WebSocketFrames.ReadFrameIff` | tools/cdp.py:88-110 | a frame is read off a stream exactly if the stream begins with its head, as section 5.2 of RFC 6455 lays it out in any of the three length forms, and as much payload as it says |
| `Bytes.FirstCountsMost` | tools/cdp.py:88-98 | of the bytes of a length the first counts most |
| `WebSocketFrames.FirstByteSays` | tools/cdp.py:88-110 | a frame is final from 128 on, and of the last four bits 8 is a close, 9 a ping, 10 a pong and the rest data, as section 5.2 has it |
| `WebSocketFrames.ReadAsLaidOutIff` | tools/cdp.py:88-100 | of a frame laid out as section 5.2 has it, key and mask included, that is the frame meant exactly if it has no mask |
| `WebSocketFrames.MaskIsMisread` | tools/cdp.py:88-100 | of a masked one the payload read begins with the key |
| `WebSocketFrames.ReceivedIff` | tools/cdp.py:88-110 | a message is received exactly if the stream begins with frames up to a final data frame: it is their data payloads together, each ping is answered, the rest is left; a close ends it too, and otherwise the stream ended |
| `WebSocketFrames.MaskTwice` | tools/cdp.py:71-86 | masking undoes itself, as section 5.3 has it |
| `WebSocketFrames.MaskedInFours` | tools/cdp.py:71-86 | each four bytes of the payload are masked with the key's four |
| `WebSocketFrames.ServerReadsBack` | tools/cdp.py:71-86 | a masked frame, read as a server must, gives back head and payload and leaves what follows |
| `WebSocketFrames.TextHeadSays` | tools/cdp.py:71-86 | the head written is that of a final masked text and says the payload's length in the shortest form that can |
| `WebSocketFrames.PongAnswersIff` | tools/cdp.py:100-104 | the pong sent for a ping answers it with its payload exactly if it had none |
| `WebSocketFrames.WebSocket.RecvExact` | tools/cdp.py:62-69 | however the stream is cut, exactly the next bytes are taken and the unread ones stay, or the stream was too short |
| `WebSocketFrames.WebSocket.RecvHead` | tools/cdp.py:88-98 | the head the stream begins with, and what follows it is left |
| `WebSocketFrames.WebSocket.RecvFrame` | tools/cdp.py:88-100 | the frame it begins with |
| `WebSocketFrames.WebSocket.Recv` | tools/cdp.py:88-110 | the reading `ReceivedIff` is about, off any pieces, with one pong sent for each ping |
| `WebSocketFrames.WebSocket.Send` | tools/cdp.py:71-86 | one frame which a server reads as a final text frame of that payload, unless the payload is too long for any |
| `Correlation.CauchySchwarz` | scripts/writeback-registration.py:80-92 | the square of the shared sum never exceeds the product of the two spreads |
| `Correlation.Correlate` | scripts/writeback-registration.py:80-92 | the accumulating loop computes the likeness the lemmas are about |
| `Correlation.Ncc` | scripts/writeback-registration.py:67-92 | with its early answers, and its division by nothing |
| `Correlation.LikenessIsOneIff` | scripts/writeback-registration.py:80-92 | a likeness is 1 exactly if one side is not flat and is the other in other units, stretched upwards and moved |
| `Correlation.LikenessInSums` | scripts/writeback-registration.py:80-92 | it is 0 where a side is flat, and else of the sign of what the sides share, which it is that part of in squares, in sums over the values with no mean taken |
| `Correlation.ScoreIsBounded` | scripts/writeback-registration.py:67-92 | no score is beyond 1 either way, it is 0 over less than a quarter, and none is missing but a profile's shorter than 4 pushed exactly aside |
| `Correlation.ScoreIsOneIff` | scripts/writeback-registration.py:67-92 | a shift scores 1 exactly if the profiles match over a long enough overlap |
| `Correlation.OverlapIs` | scripts/writeback-registration.py:67-79 | of a shift the score is over exactly the columns both profiles have there |
| `Correlation.BestOf` | scripts/writeback-registration.py:108-116 | the first of the greatest scores within the limit, and the greatest outside its neighbourhood, or 0 when there is none |
| `Correlation.BestIsOneIff` | scripts/writeback-registration.py:108-116 | the best score is 1 exactly if some shift within the limit matches, the first of which is named; the runner-up is 1 exactly if another match lies outside the neighbourhood |
| `Correlation.DisplacementIsFound` | scripts/writeback-registration.py:108-116 | a profile displaced within the limit scores 1, is named unless a lower shift matches too, and is held confident exactly if no shift beyond its neighbourhood scores 0.98, so never beside another match |
| `Correlation.ColumnProfile` | scripts/writeback-registration.py:31-39 | the loops give each column's mean, and fail exactly for an empty band or one not all in the picture |
| `Correlation.SumSplits` | scripts/writeback-registration.py:31-39 | a column's sum over a band is that over its parts |
| `Correlation.SumOfOne` | scripts/writeback-registration.py:31-39 | which are pixels in the end |
| `Correlation.AlikeRows` | scripts/writeback-registration.py:31-39 | so a band of rows that are alike has any of them for its profile |
| `Correlation.PicturesDisplaced` | scripts/writeback-registration.py:31-39 | pictures whose rows are displaced have profiles displaced as far |

## Left out

- `media/policy/audio.py`, `media/policy/decide.py` and `media/policy/video.py`: which track and mode a source gets, `select_audio` with its filters, order and overrides included; decisions are any values here, so what is proved holds whatever the policy decides.
- `tools/live-trace.py`: reports on recorded traces, `cadence` over many frames included; they diagnose the television's pipeline, no part of which is modelled.
- `ink_width`, and which box `find_locator` chooses among its groups: a single maximum over what is proved about the groups.
- `LocalSearch`: its cache, refresh and file; the tokenizer, `exp` and `log10` are any functions with the signs the scores need.
- SearchIndex.Index.Search: does not say in which order titles of equal score come, because the source's order is that of a dictionary filled from others.
- Waiting in `_gather_streams` and joining in `_fan_out`: when a reply is made, or the results are copied, is any moment of a run.
- Sockets underneath `_open`: how long a try takes is any number, its timeout bounding each wait and not the try.
- Relay.Chunks: supposes that an upstream sends the bytes its `Content-Range` says it does, because nothing in the reply could show otherwise.
- Sockets, DNS, TLS, HTTP handling, subprocesses and signals: outcomes given as arguments. A child is ended by one step that always waits on it.
- SessionGuarantees.AttachedReader: takes `attach` as one step, because with its sections apart the child may go in between; `SessionSplitPipes` proves exactly when.
- SessionGuarantees.LoneReaderSeesTheStart: takes `attach` as one step, because with its sections apart it is false; `SessionSplitPipes` proves exactly where the reader begins.
- SessionGuarantees.NoOrphanChild: takes `stop` and `attach` each as one step, because with their sections apart it is false; `SessionSections` proves when.
- Record fields that only report (process id, exit code, stderr, playback address, tracks): nothing reads them back.
- WebSocketFrames.WebSocket.Recv: leaves payloads as bytes, because decoding them is the standard library's UTF-8.
- Unicode digits and spaces in headers: characters are compared as ASCII.
- Watched.RoundTrip: takes compression and base64 together as a pair that loses nothing and writes no separator, because zlib is foreign code.
- Dates: moments are milliseconds, and a stored date is missing, unreadable or a moment.
- LibraryGuarantees.ProgressWatchesIff: is about titles that are not live, because live ones are looked up in their description.
- Correlation.ScoreIsBounded: is about exact reals and an exact root, because rounding is not the point of the measure.
- Correlation.ColumnProfile: is about bands given by numbers that are not negative, because the others address rows from the end of the picture.
- `row_profile`, `is_flat` and `coherence`: the same sums and correlations over other slices.
