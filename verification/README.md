# Countdown jobs, their shutdown and their identities: a Dafny model

The service runs countdown jobs. A job is one goroutine that counts down and appends ticks to a
preallocated buffer under a mutex; any number of subscribers read that buffer, each from its own
position, and block on a channel that the next append closes; any number of callers stop the job. A
registry mints job ids and can be shut down once and for all. The server stops every job before it
drains its streams. Agents and the server are told apart by SPIFFE IDs in certificates that chain to a
trust bundle.

The project proves that this works for every interleaving: no tick is lost, repeated or reordered, no
subscriber is left asleep or spins, every job ends with exactly one sentinel of the right kind
whatever panics, every Stop call gets the same answer, no job escapes a shutdown, and a drain always
ends. For identities it proves the SPIFFE ID parser exact against the grammar of the standard
(sections 2, 2.1 and 2.2 of the SPIFFE-ID standard), agent ids and agent URIs in bijection, and the
loop over the trust bundle conservative.

How the files hang together:

- `Ticks`, `JobState`: ticks, statuses, and the two sections a job runs under its mutex.
- `JobProtocol`: one job as a transition system. The events are the steps of the goroutine, of every
  Stop call and of every reader, the clock, the end of a context, and a panic wherever no lock is held.
- `JobInvariant`, `JobTheorems`, `JobOutcomes`: its inductive invariant, what holds of every run, what
  its ticks and exits tell, and which outcomes there are.
- `Job` (module `Jobs`): the job object over its array. Each locked method is proved to be the step of
  `JobState` of the same name; `Jobs.GoroutineMeetsContracts` shows that no run of the protocol breaks
  what those methods require.
- `Wire`: what a stream sends.
- `JobIds`, `RegistryModel`, `Registry` (module `Registries`): ids, the registry as a value with its
  histories, and the registry objects proved to be that value.
- `ServerProtocol`, `ServerInvariant`, `ServerTheorems`, `ServerProgress`, `ServerOwnership`: registry,
  jobs, concurrent Shutdown calls, stream handlers, `Serve` and its drain goroutine as one transition
  system; what holds of every run, how much a shutdown has to wait for, and whose calls reach what. Each
  of its jobs goes through a run of `JobProtocol` (`ServerTheorems.JobsRun`), so the theorems about one
  job apply to every job of the server.
- `Text`, `SpiffeId`, `AgentIdentity`, `X509Svid`, `TrustBundle`, `BundleTheorems`, `BundleReading`:
  parsing, identities, certificate chains and trust bundles.

## Where code and documentation differ

The model follows the code.

- The comment on `finish` (`internal/worker/job.go:231-233`) says that a job's end is logged exactly
  once. A panic inside the audit call itself loses the record for good, because the recovery's attempt
  to record FAILED loses the transition. `JobTheorems.RecordCanBeLost` has a job that completes and is
  never recorded; `JobTheorems.AuditedIff` says that a worker that has left has recorded its job's end
  if and only if no panic cut the audit call off.
- `beginMarkers` is there to notice a dropped block (`internal/authn/trustbundle.go:100-104`). It counts
  markers at the start of a line, while the loop trims white space and so also reads a block behind
  spaces. Such a block can make up for a dropped one: a begin line without its closing dashes, the block
  of one root and the block of another behind a space are accepted as a bundle of two roots
  (`BundleTheorems.IndentedBlockHidesAnother`). `BundleTheorems.NothingSkippedIff` gives the exact
  condition under which nothing is lost, and `BundleTheorems.NothingSkippedByText` the same as a condition
  on the text alone.
- `earliestExpiry` uses the zero time for "none yet". `BundleTheorems.EarliestExpiryExact` says exactly
  when the value reported is the minimum, and `BundleTheorems.ZeroTimeHidesExpiry` has accepted bundles
  for which it is not.
- The design (`README.md:317`) calls the output buffer unbounded; the code, and the model, bound it by
  count + 1 entries.

## Model

| member | source | states |
|---|---|---|
| JobState.ReportProgressKeeps | internal/worker/job.go:219-229 | Emitting a tick keeps the shape of the buffer and of the channels, takes nothing back, and does nothing to a job that has finished. |
| JobState.SetTerminalKeeps | internal/worker/job.go:242-260 | The terminal transition and its sentinel are one unit: the shape is kept, the job has finished afterwards, and a second transition changes nothing. |
| JobState.SentinelIsLast | internal/worker/tick.go:22-51 | A tick of a buffer of the right shape is terminal exactly if the job has finished and the tick is the last. |
| JobState.StatusAndTicksSettle | internal/worker/job.go:219-260 | Where the buffer and the channels have their shape, the status and the buffer settle which channel is current and which channels are closed. |
| JobInvariant.ApplyKeeps | internal/worker/job.go:118-260 | The invariant over goroutine, Stop calls, readers and channels survives every event that can happen. |
| JobInvariant.ApplyExtends | internal/worker/job.go:219-260 | No event takes back a tick, and none changes the buffer, the status or the channels of a finished job. |
| JobTheorems.InvHolds | internal/worker/job.go:60-96 | The invariant holds in every state of every run that starts from a positive count. |
| JobTheorems.RejectionExact | internal/worker/job.go:67-77 | NewJob takes exactly the counts from 1 to 100 with an interval above zero, and of two faults reports the count. |
| JobTheorems.BufferShape | internal/worker/job.go:185-260 | In every reachable state the buffer announces a prefix of count, count - 1, ..., 1, then at most one sentinel: present exactly if the job has finished, last, of the kind its status asks for, and after a whole countdown if COMPLETED. |
| JobTheorems.ElapsedInOrder | internal/worker/job.go:185-202 | Progress starts at elapsed zero and never goes back while the clock does not. |
| JobTheorems.AppendOnly | internal/worker/job.go:137-140 | Between any two states of a run ticks are only appended, and a finished job stays as it is. |
| JobTheorems.WorkerExit | internal/worker/job.go:169-217 | finished is closed only when the status is terminal, whatever panics; the loop never falls through, no channel is closed twice, and changed is open exactly while the job runs. |
| JobTheorems.WorkerExitNeedsPositiveCount | internal/worker/job.go:67-69 | That every exit of the worker leaves a finished job holds of exactly the counts from one upwards: NewJob's lower bound is what it depends on. |
| JobTheorems.WorkerTerminates | internal/worker/job.go:169-217 | The goroutine always has a step until it has left, and takes at most 3 * count + 12 of them, panics included. |
| JobTheorems.AuditedOnce | internal/worker/job.go:231-240 | The transition is recorded at most once and as the status it led to; a finished job without a record is about to write it or panicked in the audit call. |
| JobTheorems.LostStaysLost | internal/worker/job.go:174-183 | After a panic that cuts the audit call off the job is finished and unrecorded in every later state: the recovery's attempt records nothing. |
| JobTheorems.AuditedIff | internal/worker/job.go:231-240 | When the worker has left, the job's end is recorded, once and as its status, if and only if no panic cut the audit call off; otherwise nothing is. |
| JobTheorems.RecordCanBeLost | internal/worker/job.go:169-240 | There is a run in which the job completes, the worker leaves and nothing is recorded. |
| JobTheorems.StoppedNeedsCancellation | internal/worker/job.go:211-214 | A job becomes STOPPED only after an earlier cancellation, by a Stop call or by the context it was started under. |
| JobTheorems.StopAgreement | internal/worker/job.go:111-123 | All Stop calls of a run, repeated or concurrent, answer the same terminal status, never RUNNING. |
| JobOutcomes.CancellationIsSeen | internal/worker/job.go:118-214 | Once a Stop call has cancelled or the parent context has ended, a worker in its select can always take the end of its context, and then goes to STOPPED. |
| JobOutcomes.StopReachesWorker | internal/worker/job.go:118-121 | While a Stop call waits for the worker, a worker in its select can see the cancellation. |
| JobOutcomes.ExitReleases | internal/worker/job.go:170-171 | A worker that has left has released the context of its job. |
| JobOutcomes.TicksSayWhatHappened | internal/worker/job.go:174-216 | Every tick of every run is the first one, or carries the time from the start of the countdown to a firing of the timer with the count left there, or the cause of the first cancellation, or the message of a panic of the worker. |
| JobOutcomes.NowIsTheClock | internal/worker/job.go:187-202 | The time a run reads is what its clock was last set to. |
| JobOutcomes.WorkerChoices | internal/worker/job.go:197-215 | In every run, a worker in its select can take the timer at any time and the end of its context exactly once it was cancelled, and elsewhere goes on until it has left. |
| JobOutcomes.PanicsAnywhere | internal/worker/job.go:174-183 | A worker can panic exactly where it has not panicked before and has not come to its deferred closing; behind a written record exactly in the audit call. |
| JobOutcomes.OutcomesExact | internal/worker/job.go:169-217 | A job that counts down from count can end COMPLETED behind count progress ticks, STOPPED behind any number from 1 to count, FAILED behind any from 0 to count, and in no other way. |
| JobTheorems.NoLostWakeup | internal/worker/job.go:134-164 | A reader that has taken no sentinel, blocked or about to block: if its channel is open it is the current one, the reader has taken the whole buffer and the job runs; the channel is closed exactly if there is a tick to take. |
| JobTheorems.BlockedIff | internal/worker/job.go:160-164 | A live reader cannot move exactly while it waits, with a live context, on a running job whose ticks it has yielded to the last. |
| JobTheorems.WakeIsNeverSpurious | internal/worker/job.go:155-164 | The snapshot that follows a wake is never empty, whatever happens in between. |
| JobTheorems.PollingBound | README.md:56-57 | Over any interleaving a reader takes at most 2 * (count + 1) snapshots. |
| JobTheorems.ReadsBound | internal/worker/job.go:130-167 | Over any interleaving, with the job running or finished, a reader takes at most 6 * (count + 1) + 4 steps of any kind. |
| JobTheorems.Delivery | internal/worker/job.go:125-167 | What a reader has yielded is a growing prefix of the buffer; one that saw the sentinel has yielded the final buffer, one whose context ended all of its last snapshot, and a live one has yielded no sentinel. |
| JobTheorems.ReadersAgree | internal/worker/job.go:125-129 | Any two readers that saw the sentinel, whenever they did, yielded the same ticks. |
| JobTheorems.UnlockedRead | internal/worker/job.go:136-153 | A tick read after unlocking is the tick the slice held when it was taken under the lock. |
| JobOutcomes.ContextDoneIff | internal/worker/job.go:160-164 | The context of a reader is done exactly if it has been ended. |
| JobOutcomes.ReaderChoices | internal/worker/job.go:134-164 | In every run, a reader can hand over exactly what is left of its slice, to a consumer that goes on or stops; wake exactly if there is a tick it has not taken; and leave exactly if its context was ended. |
| JobOutcomes.ExitsTell | internal/worker/job.go:145-164 | A reader has returned for its consumer exactly if the consumer stopped the range, and for its context exactly if it left its select for it, with the context ended before. |
| JobTheorems.DrainTerminates | internal/worker/job.go:134-166 | Once a job has finished each reader always has a step until it returns, and takes at most 4 * (count + 1) + 3 of them. |
| JobTheorems.NoWedge | internal/worker/job.go:118-217 | Where neither the worker, nor a Stop call, nor a reader can move, the worker has left, every Stop call has the answer and every reader has returned. |
| Jobs.GoroutineMeetsContracts | internal/worker/job.go:185-214 | In every run the goroutine brings to the locked sections only what the methods of Jobs.Job require. |
| Jobs.Job.constructor | internal/worker/job.go:79-91 | A new job runs, has no ticks, has room for exactly count + 1 of them, and has two different open channels. |
| Jobs.Job.Append | internal/worker/job.go:225 | Go's append: the tick lands behind the others, in the same array while there is room and in a new one otherwise. |
| Jobs.Job.ReportProgress | internal/worker/job.go:219-229 | The locked section is the step of JobState: every channel object there has been is open or closed as the model has it and changed is the current one; the array is never replaced, no slot below the old length is written, and the channel readers hold is closed. |
| Jobs.Job.SetTerminal | internal/worker/job.go:242-260 | The same for the terminal transition, with whether this call made it; the current channel is left closed and no other is made. |
| Jobs.Job.Snapshot | internal/worker/job.go:135-143 | The slice bounds are those of the abstract buffer, and the captured channel is closed exactly if the job has finished. |
| Jobs.Job.TakeTurn | internal/worker/job.go:197-215 | One turn of the loop adds exactly the tick of what the select came to, ends the job exactly if it was cancelled, panicked or reached zero, and moves one tick from those to come to those emitted. |
| Jobs.Job.CountDown | internal/worker/job.go:189-216 | The loop only ends by returning, with the job finished, its array in place, and the transcript of its turns behind the ticks there were. |
| Jobs.Job.RunCountdown | internal/worker/job.go:169-217 | Left to itself the countdown always finishes the job, closes finished once, never replaces its array, and leaves the first tick followed by the transcript of its turns. |
| Jobs.TranscriptEnds | internal/worker/job.go:189-216 | That transcript is one progress tick for each turn that fires, with its elapsed time and remaining count, down to the first that does not or to zero, then the sentinel of the status the last turn leads to, with its elapsed time, cause or message. |
| Jobs.Job.Ticks | internal/worker/job.go:130-167 | The reader's loop yields a prefix of the buffer, tick by tick, stops exactly where the consumer does, returns on the sentinel only with the final buffer, and blocks only on a drained running job. |
| Wire.ProtoTickFaithful | internal/server/service.go:270-301 | A tick keeps its kind, and its elapsed time with the sign of seconds and nanoseconds; its remaining count and terminality too, wherever the count fits 32 bits. |
| Wire.ToInt32Exact | internal/server/service.go:278-281 | The conversion to int32 keeps the value modulo 2^32, and so every value that fits. |
| Wire.FailureSaysNothing | internal/server/service.go:264-309 | Whatever a job panicked with, its failure tick carries the one text "unexpected error". |
| Wire.CausesStayBehind | internal/server/service.go:264-309 | Buffers that differ in causes and messages alone have the same image on the wire: nothing of a cause reaches a client. |
| Wire.StreamsSayTheSame | internal/server/service.go:169-188 | Two streams that were handed ticks alike but for causes have sent the same messages. |
| Wire.SentIsWhatWasSent | internal/server/service.go:169-186 | A stream has sent one message for each send that succeeded and none for one that failed. |
| Wire.StreamRefinesBuffer | internal/server/service.go:169-188 | What a handler has sent is, message by message and without loss, the image of a prefix of the buffer, with a fixed text for every failure; a message is terminal exactly if it is the image of the sentinel; a stream that ended on the sentinel sent the image of the final buffer. |
| JobIds.DecimalReadsBack | internal/registry/record.go:36 | The decimal of a counter has digits only, at least one, and reads back as the counter. |
| JobIds.ValueWritesBack | internal/registry/record.go:36 | There is one numeral for each number: digits without a leading zero are the decimal of their value. |
| JobIds.MintedForm | internal/registry/record.go:36 | A string is an agent's id for a count exactly if it is the agent's identifier, a slash, and the numeral of that count. |
| JobIds.MintInjective | internal/registry/record.go:36 | Two minted ids are equal exactly if both agent and counter are, whatever characters the agent's identifier has. |
| RegistryModel.MintedInOrder | internal/registry/record.go:33-47 | Over every history an agent's successful creates return agent/0, agent/1, ... without a gap, and its record holds exactly those jobs under those ids, or does not exist when there are none. |
| RegistryModel.CreateExact | internal/registry/registry.go:67-90 | A create succeeds exactly on an open registry with a count from 1 to 100; a closed registry is reported first, any other count as invalid, a failure changes nothing, and what was created is found under the id returned. |
| RegistryModel.FoundIffMinted | internal/registry/registry.go:99-109 | An agent finds a job under an id exactly if it was that agent that minted that id for that job. |
| RegistryModel.FindPersists | internal/registry/registry.go:99-109 | What an agent finds under an id it finds after any further history, the same job. |
| RegistryModel.OneOwner | internal/registry/registry.go:93-98 | Whoever finds anything under an id at a later moment is the agent that found it before, and finds the same job. |
| RegistryModel.IdsAreUnique | internal/registry/record.go:33-47 | No id is minted twice, by whatever agents. |
| RegistryModel.JobsAreMinted | internal/registry/registry.go:116-124 | The jobs a Shutdown lists are exactly the jobs of the successful creates. |
| RegistryModel.FailureLeavesNoTrace | internal/registry/registry.go:79-88 | A create that fails consumes nothing: every history goes on as if it had not been made. |
| RegistryModel.ClosedForGood | internal/registry/registry.go:67-72 | After a Shutdown has taken the lock nothing is created, ever, and the registry no longer changes. |
| Registries.Record.Create | internal/registry/record.go:33-47 | It succeeds exactly for counts from 1 to 100. A rejected count changes nothing; otherwise a running job with that count carries and is stored under the agent's next id, and the counter moves by one. |
| Registries.Record.AllJobs | internal/registry/record.go:55-57 | The list holds exactly the stored jobs. |
| Registries.Registry.Create | internal/registry/registry.go:59-91 | It succeeds exactly if the registry is open and the count is from 1 to 100, and says which of the two was wrong. The objects move as the value does: refused without a change, otherwise a fresh running job with that count under the agent's next id and nothing else touched. |
| Registries.Registry.OneChanged | internal/registry/registry.go:74-88 | Where one agent's record has changed and no other, the registry is well formed and its value is the old one with that record exchanged. |
| Registries.Registry.Find | internal/registry/registry.go:99-109 | An agent finds what the value says, and a job found carries the id it was asked for. |
| Registries.Registry.Close | internal/registry/registry.go:116-124 | The locked part of Shutdown closes the registry, keeps all records, and lists exactly the registered jobs. |
| ServerInvariant.ApplyKeeps | internal/server/server.go:184-259 | The invariant over registry, jobs, Shutdown calls, handlers, Serve and drain survives every event. |
| ServerTheorems.JobsRun | internal/registry/registry.go:59-91 | Every job of the server, in every state of every run, has gone through a run of the job protocol from an accepted count. |
| ServerTheorems.JobsGoOn | internal/registry/registry.go:59-134 | Jobs are never removed, keep their ids and only append; a closed registry stays closed and starts no further job. |
| ServerTheorems.FindsItsOwn | internal/server/service.go:206-235 | What an agent finds is the only job of the server with that id and carries that id; the agent finds it ever after, and no other agent finds anything under that id at any later time. |
| ServerTheorems.ShutdownComplete | internal/registry/registry.go:111-134 | For every interleaving, once any Shutdown call has returned every job ever registered has finished, and from then on no job changes and none is added. |
| ServerTheorems.NoCreateAfterLock | internal/registry/registry.go:67-72 | A create behind the lock of a Shutdown is refused as not accepting jobs. |
| ServerTheorems.StoppedJobWasStopped | internal/server/service.go:71-75 | In the server a job is STOPPED only if a Stop call of an RPC or of a Shutdown has cancelled it: the RPC that started it cannot. |
| ServerOwnership.StartedIsReachable | internal/server/service.go:56-61 | From the return of Start on and for good the agent finds, under the id it was given, the job it started, with the count it asked for. |
| ServerOwnership.StopRpcExact | internal/server/service.go:103-118 | A Stop RPC calls Stop on the job the agent owns under the id, or on none, and changes nothing else. |
| ServerOwnership.StopsAreOwners | internal/server/service.go:206-235 | In every run whoever called Stop on a job over the service is an agent that finds it. |
| ServerOwnership.StoppedByOwnerOrShutdown | internal/server/service.go:103-118 | A job is STOPPED only if an agent that finds it called Stop, or a Shutdown had been called. |
| ServerOwnership.StreamsAreOwners | internal/server/service.go:140-189 | Every stream is of the job that the agent that asked for it finds under the id it asked for, and a request is turned away only if that agent found nothing. |
| ServerOwnership.ListeningExact | internal/server/server.go:194-204 | Serve can leave its select exactly if its context or the transport has ended. |
| ServerOwnership.ShutdownHasReason | internal/server/server.go:194-204 | No shutdown begins before the context or the transport has ended. |
| ServerOwnership.ServedIff | internal/server/server.go:185-204 | What Serve judges is what the transport came back with, the one time it did. |
| ServerOwnership.ReceivesOnce | internal/server/server.go:194-204 | Serve receives the transport's result once: where its select did, it never waits for another. |
| ServerOwnership.ShutdownBegins | internal/server/server.go:194-238 | Whichever way Serve leaves its select it starts the one drain, with a Shutdown of the registry yet to take the lock. |
| ServerOwnership.GraceCuts | internal/server/server.go:239-257 | Until the drain is seen the grace can run out at any moment; then the transport is cut and admits no more RPCs. |
| ServerTheorems.ServeReturns | internal/server/server.go:179-259 | Whenever Serve returns, on either branch and with or without grace left, every job has finished and the registry is closed; if it returns nil no handler is left, and every stream sent the image of the final buffer with its sentinel unless its context ended or its send failed. |
| ServerTheorems.ServeResultExact | internal/server/server.go:206-217 | Serve fails exactly if the transport broke; otherwise it reports the grace elapsed exactly if it cut the transport off, and nil exactly if it did not. |
| ServerProgress.ServeNeverWedges | internal/server/server.go:220-258 | From the start of a shutdown to the return of Serve a step that Serve waits for where it stands is open: of its own Shutdown, of a Stop without an answer or the worker it stops, of an admitted handler or a stream, or of Serve itself. It need not wait for the grace, nor for GracefulStop to give up on handlers once the transport is cut. |
| ServerProgress.ShutdownNeverWedges | internal/registry/registry.go:111-134 | No Shutdown call wedges, whoever made it and however many there are: until it returns a step of it, or one a Stop of it waits for, is open. |
| ServerProgress.ShutdownBound | internal/server/server.go:184-259 | The steps that Serve waits for in a whole run are at most 12, and 316 for each job, and 611 for each handler. |
| ServerProgress.ShutdownEnds | internal/server/server.go:220-259 | Once the registry is closed and the transport drains, that bound is fixed, however long the run goes on. |
| ServerProgress.HandlersDrain | internal/server/server.go:232-237 | Once the transport drains no handler comes, streams begin only for handlers it had admitted, each at most once, and such a handler can always go on. |
| ServerProgress.DrainEnds | internal/server/server.go:220-237 | After any Shutdown has returned each stream, open or opened later, always has a step until it returns, and takes at most 4 * (count + 1) + 3 of them. |
| Text.IndexOf | internal/authn/spiffeid/id.go:46 | The first place of a character, or the length when there is none. |
| Text.JoinSplit | internal/authn/spiffeid/id.go:84 | Joining the parts of a split gives back the text, and no part holds the separator. |
| Text.SplitJoin | internal/authn/spiffeid/id.go:84 | Splitting a join gives back the parts when none holds the separator. |
| SpiffeId.ParseSound | internal/authn/spiffeid/id.go:34-64 | Whatever is accepted is in the grammar, as the trust domain and path components that were read. |
| SpiffeId.ParseComplete | internal/authn/spiffeid/id.go:34-64 | Whatever is in the grammar is accepted, and read as the trust domain and components that make it up. |
| SpiffeId.ParseExact | internal/authn/spiffeid/id.go:34-64 | Parse accepts exactly the strings of sections 2, 2.1 and 2.2 of the SPIFFE-ID standard, in their own letters and limits, each of which decomposes in one way only. |
| SpiffeId.ParseErrors | internal/authn/spiffeid/id.go:37-44 | A string without the scheme is refused for that, and else one over 2048 bytes for its length. |
| SpiffeId.ParseErrorsBehindScheme | internal/authn/spiffeid/id.go:46-61 | Otherwise it is refused for a trust domain over 255 bytes, then for the letters of its trust domain or their absence, then for its path, each exactly when that is the first thing wrong. |
| SpiffeId.RoundTrip | internal/authn/spiffeid/id.go:46-90 | Scheme, trust domain and path rebuild the input, joining the components rebuilds the path, and the rebuilt string parses to the same ID. |
| AgentIdentity.AgentBijection | internal/authn/identity.go:60-80 | A URI names an agent exactly if the agent's id is 1 to 64 letters, digits, hyphens and underscores, and the URI is spiffe://fizzled.internal/client/agent/ followed by that id. |
| AgentIdentity.ServerUri | internal/authn/identity.go:82-96 | Exactly one URI names the server: spiffe://fizzled.internal/server. |
| AgentIdentity.IdentitiesApart | internal/authn/identity.go:60-96 | No URI is both client and server, no agent has two URIs and no URI names two agents. |
| AgentIdentity.ClientErrors | internal/authn/identity.go:60-80 | An ID that names no agent is refused for its trust domain, then its shape, then its agent id, each exactly when that is the first thing wrong. |
| AgentIdentity.ServerErrors | internal/authn/identity.go:82-96 | The same for the server. |
| X509Svid.ClampToValidity | internal/authn/x509svid/verifier.go:133-149 | The clamped instant is within skew of now, in the leaf's window exactly if now is in the window widened by skew, and then the instant of the window nearest to now. |
| X509Svid.ValidateChain | internal/authn/x509svid/verifier.go:151-175 | A chain is valid exactly if its first certificate is no CA, signs no certificates and no CRLs, signs digitally and has one URI, a SPIFFE ID with a path, and every other is a CA that signs certificates and has no URI or one, a SPIFFE ID without a path in the leaf's trust domain; the verdict is the leaf's or the error of the first certificate at fault. |
| X509Svid.LeafVerdictExact | internal/authn/x509svid/verifier.go:177-215 | A leaf is valid exactly by those fields, with the ID of its URI, and is refused for the first thing wrong with it. |
| X509Svid.SignerExact | internal/authn/x509svid/verifier.go:217-291 | A signing certificate suits a leaf exactly by those fields, and is refused for the first thing wrong with it. |
| X509Svid.FirstObjectionExact | internal/authn/x509svid/verifier.go:167-172 | The error of a chain with a good leaf is exactly that of the first certificate at fault, with all before it suiting. |
| X509Svid.ObjectionOfConcat | internal/authn/x509svid/verifier.go:167-172 | Where a chain is put together from two parts the first objection is that of the first part that has one. |
| TrustBundle.ParseTrustBundle | internal/authn/trustbundle.go:59-121 | The loop ends and reads what ParseBundle says; the roots of an accepted bundle are at least one, pairwise distinct, and as many as the markers of the text, and its expiry is that of its roots. |
| BundleReading.TrimExact | internal/authn/trustbundle.go:65 | Trimming takes white space off both ends, all of it, and nothing else. |
| BundleReading.BlockExact | internal/authn/trustbundle.go:170-207 | A block is taken exactly if it is a CERTIFICATE block without headers that holds a CA that signs certificates with no URI or the one URI spiffe://fizzled.internal, and is refused for the first thing wrong with it. |
| BundleReading.AcceptedExactly | internal/authn/trustbundle.go:59-121 | A bundle is accepted with these roots exactly if there is a chain of decoder calls from its trimmed text to its end, each at a begin marker and yielding a block that holds the next root, the roots are one or more, pairwise distinct and as many as the markers. |
| BundleReading.RefusedExactly | internal/authn/trustbundle.go:59-121 | It is refused exactly for the first place where such a chain cannot go on, for the reason there, or for being empty, or for a marker that no call read. |
| BundleTheorems.CountIsMarks | internal/authn/trustbundle.go:156-168 | Counting separate occurrences of the marker finds every place where it begins a line. |
| BundleTheorems.Accounting | internal/authn/trustbundle.go:72-94 | Reading conserves the text: the pieces the calls consumed and the gaps between them rebuild it, there is one piece per root, and the text's markers are those shown to the decoder less one for each block that does not begin a line. |
| BundleTheorems.AcceptedIff | internal/authn/trustbundle.go:72-113 | A bundle is accepted exactly if it reads as one certificate or more and as many blocks were passed over as do not begin a line. |
| BundleTheorems.NothingSkippedIff | internal/authn/trustbundle.go:100-113 | An accepted bundle lost no block, each call consuming exactly one marker, if and only if every block of it begins a line. |
| BundleTheorems.NothingSkipped | internal/authn/trustbundle.go:93-113 | An accepted bundle in whose text no marker stands behind white space on its line lost no block. |
| BundleTheorems.NothingSkippedByText | internal/authn/trustbundle.go:93-113 | The same read off the text before the call, for a decoder whose certificate blocks hold no marker between their lines: an accepted bundle lost no block if and only if no marker of its text stands behind white space on its line. |
| BundleTheorems.IndentedBlockHidesAnother | internal/authn/trustbundle.go:72-113 | The condition is needed: around the base64 of any two roots there is a text of three begin lines, the first without its closing dashes and the last indented, that is accepted with two roots whatever decoder passes the malformed line over, though its first call consumed two markers. |
| BundleTheorems.HidingTextIsReadable | internal/authn/trustbundle.go:130-154 | There is a decoder within its contract that reads that text so. |
| BundleTheorems.EarliestExpiryExact | internal/authn/trustbundle.go:89-91 | The expiry reported is the earliest of the roots' if and only if that earliest is not the zero time or the last root carries it. |
| BundleTheorems.ExpiryBehindZero | internal/authn/trustbundle.go:89-91 | Where the zero time is the earliest and not the last, the expiry reported is the earliest of the roots behind the last one with the zero time. |
| BundleTheorems.ZeroTimeHidesExpiry | internal/authn/trustbundle.go:59-121 | The blocks of any two roots, the first expiring at the zero time and the second later, are accepted as a bundle whose reported expiry is not its earliest. |
| BundleTheorems.OrdinaryTextIsReadable | internal/authn/trustbundle.go:130-154 | There is a decoder within its contract that reads those blocks so. |
| BundleTheorems.BundleAnchors | internal/authn/trustbundle.go:170-207 | Every root of an accepted bundle is a CA that signs certificates and has no URI or the one URI spiffe://fizzled.internal. |
| BundleTheorems.RootExact | internal/authn/trustbundle.go:195-204 | The checks on a certificate of a bundle come to exactly those fields. |
| BundleTheorems.RootsChangeNothing | internal/authn/x509svid/verifier.go:154-175 | Roots of an accepted bundle, presented in any number and anywhere behind a leaf of this trust domain, change neither the verdict on the chain nor the leaf. |

## Left out

- gRPC, TLS configuration, interceptors and keepalive: GracefulStop is modelled by its contract (it admits no more RPCs and waits for the stream handlers, or may return at any moment once the transport is cut), Stop as that cut, and the transport's own serve loop as something that can always come back.
- Unary handlers in GracefulStop: its wait covers the stream handlers only; GetStatus, status conversions and the error codes of the RPCs are not modelled.
- Fairness: that a wait ends is stated as an open step in every state plus a bound on all such steps; that a scheduler takes open steps is not modelled.
- Locked sections are single steps, and do not panic.
- A second panic inside the recovery's own audit call, and runtime.Goexit.
- The exponential interval and the wall clock: the timer may fire at any moment, and a job's clock may show any value that does not go back. Each job has a clock of its own.
- Integers are unbounded for counters and durations; only the int32 conversion of the wire is written out.
- The stopping half of the registry's Shutdown and all of Serve are transitions over values in ServerProtocol, since they are goroutines that wait for one another; the objects in Registries stop at the lock.
- Jobs.Job.Ticks: runs on a job that nobody else moves, with the end of the context fixed at the start; readers interleaved with the writer are in JobProtocol.
- Jobs.Job.TakeTurn: a panic is one outcome of the select; in JobProtocol it can come wherever no lock is held.
- Jobs.Job.CountDown: runs alone, with a panic only as the outcome of a turn, for the same reason.
- Jobs.Job.RunCountdown: runs without Stop calls and readers beside it, and a panic is one outcome of a turn; every interleaving and every place of a panic are in JobProtocol.
- Jobs.Job.Append: the capacity a growing append ends with is Go's choice; the model takes one above double, and no run grows the buffer.
- Wire.ProtoTickFaithful: has no case for a tick of an unknown type, because the three kinds are a closed datatype; durations beyond the range of int64 are not cut off.
- Certificates are the fields the checks read. Path building, signatures, Verify, NewVerifier, the issuance policy on leaves, and the re-serialisation of a URI by url.URL are not modelled; a nil certificate is excluded by the type.
- pem.Decode and x509.ParseCertificate are a parameter of TrustBundle: a decoder that reads a prefix ending at the end of a line or of the text, with a certificate or none in its block.
- TrustBundle.ParseTrustBundle: white space is the ASCII white space of bytes.TrimSpace, without NEL and NBSP, and the text is a sequence of bytes.
- BundleTheorems.NothingSkippedByText: asks of the decoder that a certificate block read with one marker holds no other, the source's reason being base64 (`internal/authn/trustbundle.go:157-160`).
- BundleTheorems.NothingSkippedIff: that a marker shown to the decoder is a block is the source's own reading, since a marker cannot occur inside base64.
- Logs, error texts, the ordinals in bundle errors, file reading, command line and client.
