# Verified model of the benchmark actor's coordination core

The project models the parts of labview-benchmark-actor whose correctness is hard to see from one function:

* **The resource lease** (`LeaseProtocol`, `LeaseSafety`, `LeaseRace`, `LeaseStore`). Any number of agents race on one
  lease file. Every open, read, decision, truncation, write, close, delete and rename is a step of its own; any other
  agent's step, the clock, the death of a process or a crash may fall between two steps. Safety is proved for every
  run, with the exact condition on releases and renewals and the runs that break it. `LeaseStore` holds the commands
  themselves, statement by statement on a shared store, with any harmless interference between statements.
* **The bus** (`Framing`, `LineFormat`, `BlankPayload`, `ParsedLine`, `Lines`, `Listener`, `StreamSend`, `McpStdin`,
  `Candidates`, `ClosedLoop`).
  Length-prefixed frames on a byte stream with short reads, the printed line and the regular expression that parses it
  (run by a backtracking matcher in the order of ECMAScript), the line splitters, and the whole way from a sent
  envelope to a staged candidate. The listener's two threads are a step machine over the shared counter, peer set and
  stop signal.
* **The release rules** (`RiskEvidence`, `ReleaseRisk`, `Closeout`, `Composite`, on `Sorting`): the risk counters, the
  closeout that resolves every and only missing proof, and the composite decision that binds all gates to one candidate.
* **The measuring instruments** (`Dhash`, `Fiducial`, `Corroboration`) and the **stamped instructions** (`Stamp`).

## What the proofs show about the code

* Acquire attempts alone never give two agents good leases at once, wherever agents crash. With releases and renewals
  this holds exactly as long as no delete or rename does harm, that is, lands on a good lease which another agent holds
  or has read for a release or renewal of its own (`LeaseSafety.HarmlessExactly`); after any harm the two agents can
  go on to hold good leases at once (`LeaseSafety.HarmfulRunBreaks`). Landing before the lease one read goes stale does
  no harm; landing later need not, but can, for releases and for renewals (`LateReleaseReachable`, `LateRenewReachable`,
  `LateNeedNotHarm`).
* A crash between creating and writing the lease file leaves it held for ever: no later acquire, release or renewal
  changes it (`LeaseSafety.TornForever`).
* On a lease that has expired, or whose process every probe finds dead, exactly one racer wins if some racer gets the
  exclusive handle, and otherwise all report Held (`LeaseRace.StaleRaceExactly`). Whatever the lease and the probes,
  what counts is whether a racer that has the handle judges it stale (`LeaseRace.RaceExactly`). While an agent is inside a plain read, an exclusive open fails; without readers in
  the way there is exactly one winner. With them there may be none: `LeaseRace.ReadersCanHideTheThief` is a race of
  two in which each goes to open the file while the other is inside a read, the second time the read at
  Resource.cs:396 that only names the holder. The comment at Resource.cs:389-393 promises exactly one winner without
  this proviso, and says that the rest fail to open the file; a loser may also open it later and be turned away by
  the re-check.
* `--count C` may handle C + 1 messages when both transports are listened on, for every C, and `--count-distinct N` may
  record N + 1 peers, for every N (`Listener.CountBoundIsTight`, `Listener.PeersBoundIsTight`).
* A message whose payload is there but shows as blank is printed as a line the awaiter does not recognize; every other
  message with a well-formed head is read back field by field (`BlankPayload.RecognizedExactly`). Altogether the awaiter
  recognizes exactly the lines of the listener's form, with any white space (`ParsedLine.RecognizedIsLine`,
  `ParsedLine.LineIsRecognized`).
* `agents --check` accepts what `agents --out` wrote exactly when the body does not begin with a line break (or is
  blank); after a conversion to CR LF it must also hold no CR LF pair of its own up to its last visible character.
* The frame numbers of a streaming send are consecutive exactly when the last one fits in 32 bits; beyond that they wrap.
* `assembleComposite` throws on a proven round without a candidate. Such rounds exist: they are those whose frame names
  the text "undefined" in all four fields and whose other pieces read as that text, because the fields are it or are
  missing (`Composite.ProvenWithoutCandidate`, `Composite.ProvenWithoutCandidateExists`).
* A completion of 100 percent is reported as soon as at most one proof in 2000 is missing (`RiskEvidence.TenthsMean`).
* `Acquire` prints an expiry taken from the clock after the attempt, which is later than the one it published; the model
  speaks of the published one.

## Assumptions

* A handle opened with `FileShare.None` excludes every other open, read, delete and rename. Agent ids are distinct. Pids
  are not used again. The clock does not go back. The text of a lease deserializes to that lease, and a torn text to nothing.
* A plain read keeps every other agent from opening the file exclusively, deleting it or renaming over it until it is
  over. A liveness probe that is not permitted counts its pid as alive.
* JSON, SHA-256, the gates behind `gateReleaseWithReview` and the lower-casing of characters are parameters. JSON of
  envelopes is decoded back by its decoder; SHA-256 is taken to be injective only where a check is said to accept
  nothing else.
* A connection delivers the bytes written to it in order, any number at a time, and then its end.

## Model

| member | source | states |
|---|---|---|
| LeaseProtocol.StaleForever | tools/collab-cli/Resource.cs:110-126 | a stale lease is stale after every step, whoever makes it |
| LeaseProtocol.StaleMeans | tools/collab-cli/Resource.cs:110-126 | a lease is stale from its expiry on, and before it exactly if it names a process known dead and this host, whatever the case of the host's letters |
| LeaseProtocol.InvStep | tools/collab-cli/Resource.cs:152-246 | a step of any agent keeps the invariant (only the handle's owner is inside the file, and whatever lease an agent relies on is there unless stale) exactly if it is not a delete or rename that lands on a good lease another agent relies on |
| LeaseProtocol.TimelyIsHarmless | tools/collab-cli/Resource.cs:399-448 | a delete or rename that lands before the lease its agent read is stale does no harm |
| LeaseSafety.ExclusionWhenHarmless | tools/collab-cli/Resource.cs:321-448 | with acquires, releases, renewals, readers and crashes in any order, no two agents hold good leases in any run without harm |
| LeaseSafety.HarmlessExactly | tools/collab-cli/Resource.cs:321-448 | the runs without harm are exactly those that keep the invariant throughout |
| LeaseSafety.HarmBreaks | tools/collab-cli/Resource.cs:399-448 | after any harm the agents concerned can go on, undisturbed, until both hold good leases |
| LeaseSafety.HarmfulRunBreaks | tools/collab-cli/Resource.cs:399-448 | so every run with harm can be cut off at the first and continued to a breach of mutual exclusion |
| LeaseSafety.ExclusionOfAcquires | tools/collab-cli/Resource.cs:361-397 | in every interleaving of acquire attempts with crashes, expiries and deaths anywhere, no two agents hold granted leases that are both good |
| LeaseSafety.ExclusionWhenTimely | tools/collab-cli/Resource.cs:361-448 | the same with releases and renewals, in every run in which each delete or rename that lands does so before the lease its agent read is stale |
| LeaseSafety.LandsOnOwnLease | tools/collab-cli/Resource.cs:399-448 | a delete or rename that lands in good time, in any run without harm, finds in the file exactly the lease its agent read, which is that agent's own, and no other agent holds a good lease |
| LeaseSafety.LateReleaseBreaks | tools/collab-cli/Resource.cs:406-420 | whenever a delete lands on another agent's good lease it is late, and after it a third agent's acquire makes two good leases |
| LeaseSafety.LateRenewBreaks | tools/collab-cli/Resource.cs:431-447 | a late rename over another agent's good lease makes two good leases at that step |
| LeaseSafety.LateReleaseReachable | tools/collab-cli/Resource.cs:399-422 | a run from a free resource in which a late release leads to two good leases |
| LeaseSafety.LateRenewReachable | tools/collab-cli/Resource.cs:424-448 | and one in which a late renewal does |
| LeaseSafety.LateNeedNotHarm | tools/collab-cli/Resource.cs:399-422 | deleting one's own expired lease is late and does no harm |
| LeaseSafety.LeaseLasts | tools/collab-cli/Resource.cs:328-364 | in every run a lease made for T seconds, T at least 1, is stale from 1000 T ms after its making on, and before that exactly if it names a process that has died; for T below 1 it is made for one second |
| LeaseSafety.AcquireFree | tools/collab-cli/Resource.cs:152-167 | an undisturbed acquire of a free resource publishes its lease and is granted it |
| LeaseSafety.AcquireStale | tools/collab-cli/Resource.cs:192-222 | an undisturbed acquire over a lease it knows to be stale takes the file over in place, in ten steps |
| LeaseSafety.AcquireHeld | tools/collab-cli/Resource.cs:383-387 | an undisturbed acquire over a lease it takes to be good reports Held in four steps and changes nothing |
| LeaseSafety.TornForever | tools/collab-cli/Resource.cs:375-381 | a torn file nobody is inside stays as it is in every run, nobody is granted anything more, and every acquire that ends reports Held |
| LeaseSafety.CrashLeavesTorn | tools/collab-cli/Resource.cs:157-160 | one crash between create and write leads there |
| LeaseRace.FreeRaceHasOneWinner | tools/collab-cli/ci/LbaBus.Ci.Stress/Program.cs:134-154 | of any number of single attempts on a free resource, none crashing or expiring, exactly one is Acquired and all others report Held; the file holds the lease granted to the winner, which is its own |
| LeaseRace.RaceExactly | tools/collab-cli/Resource.cs:110-222 | over any lease left in the file, with plain reads by anybody under way and each agent's probes reporting what they like, exactly one attempt steals it and all others report Held if and only if some attempt, having the handle, judges it stale; otherwise all report Held and nothing has changed |
| LeaseRace.StaleRaceExactly | tools/collab-cli/Resource.cs:192-222 | on a lease that has expired, or whose pid every probe reports dead, exactly one attempt steals it and all others report Held if and only if some attempt gets the exclusive handle; otherwise all report Held and nothing has changed |
| LeaseRace.StaleRaceHasOneThief | tools/collab-cli/ci/LbaBus.Ci.Stress/Program.cs:156-175 | with no reader inside the file whenever an attempt goes to open it, exactly one attempt steals such a lease and all others report Held |
| LeaseRace.ReadersCanHideTheThief | tools/collab-cli/Resource.cs:371-396 | a race of two in which each open falls on the other's plain read, so that both report Held |
| LeaseRace.RacesEnd | tools/collab-cli/Resource.cs:361-397 | no attempt takes more than ten steps, and a race is finished exactly when no racer can go on |
| LeaseStore.Store.TryCreate | tools/collab-cli/Resource.cs:152-167 | true exactly when the file was absent; then the lease is granted, under any harmless interference |
| LeaseStore.Store.TryReclaimInPlace | tools/collab-cli/Resource.cs:192-222 | true only if nobody had the file open, and with the new lease granted; otherwise the agent's grants are as before |
| LeaseStore.Store.TryAcquireOnce | tools/collab-cli/Resource.cs:361-397 | Acquired exactly if there was no file; a result other than Held grants the very lease made, which expires 1000 ms times the larger of ttl and 1 after the call began, and no other agent's grant is good unless it has itself gone stale |
| LeaseStore.Store.Acquire | tools/collab-cli/Resource.cs:321-359 | exits 0 only from an attempt that published its lease, for the ttl asked counted from some moment of the call, 5 only without --wait, 2 only past the deadline; at most 5T + 1 attempts |
| LeaseStore.Store.Release | tools/collab-cli/Resource.cs:399-422 | 6 exactly if it found another agent's lease, and then the grant is left alone; 0 gives it up, and it deletes exactly if it found its own; a delete leaves no file unless somebody had it open, and keeps the store sound exactly if it does no harm |
| LeaseStore.Store.Renew | tools/collab-cli/Resource.cs:424-448 | 5 exactly if it found no lease, 6 exactly if it found another agent's; 0 means the agent's lease is in the file and expires the ttl asked after some moment of the call; 5, 6 and the rethrown error leave the grant alone; the store stays sound exactly if the rename does no harm |
| Framing.PrefixRoundTrip | tools/collab-cli/Net.cs:97-152 | the four bytes of any 32-bit length are its digits in base 256, the most significant first, and give that length back |
| Framing.ReadBack | tools/collab-cli/Net.cs:68-111 | reading the concatenation of any frames of 1 to 1048576 bytes gives exactly them in order, then a clean end |
| Framing.ReadCut | tools/collab-cli/Net.cs:84-111 | a stream cut anywhere gives the frames whole before the cut, then the end if the cut is on a boundary, a truncated prefix within four bytes of one, and a truncated body beyond |
| Framing.LengthGuard | tools/collab-cli/Net.cs:99-103 | a length is refused exactly when it is 0 or above 1048576 |
| Framing.Source.Read | tools/collab-cli/Net.cs:129-144 | the stream's short reads: any number of the remaining bytes from 1 to what is asked, 0 only at the end |
| Framing.ReadExact | tools/collab-cli/Net.cs:129-144 | whatever the short reads, fills the buffer with the next bytes, fewer only at the end of the stream |
| Framing.ReadFrame | tools/collab-cli/Net.cs:84-111 | one frame, the end or a refusal, as ReadOne says of the remaining bytes |
| Framing.WriteFrame | tools/collab-cli/Net.cs:68-82 | appends prefix and body, or refuses a body over the limit and writes nothing |
| Framing.ReadFrames | tools/collab-cli/Net.cs:360-374 | the receive loop yields exactly what ReadAll says of the stream |
| StreamSend.StreamOne | tools/collab-cli/Net.cs:539-582 | if sent, the other end reads back exactly the ordered frames and DONE, then a clean end; a frame too large leaves exactly the frames before it; not connected exactly when the retries do not outlast the refusals |
| StreamSend.StreamNumbers | tools/collab-cli/Net.cs:553-562 | frames carry what was ordered and are numbered from S on modulo 2^32, so S to S + N - 1 exactly when that fits in 32 bits; DONE carries the last frame's number, and what follows final= reads as N |
| LineFormat.DecimalReads | tools/collab-cli/Net.cs:126 | a printed number reads as that number, negative ones too |
| LineFormat.ParseInvertsPrint | reviewer-workstation/await-agent-reply.mjs:49-58 | parsing a printed line gives the reply with every field, its numbers reading as those sent, whatever line end follows |
| LineFormat.SeenIsSent | reviewer-workstation/await-agent-reply.mjs:51-58 | field by field that reply is the message: numbers read as those sent, absent fields are null, and the payload is cut to 400 characters and an ellipsis and trimmed |
| LineFormat.TrimIs | reviewer-workstation/await-agent-reply.mjs:52 | trimming takes white space from both ends, and all of it |
| ParsedLine.RecognizedIsLine | reviewer-workstation/await-agent-reply.mjs:49-58 | conversely, whatever line is recognized is, trimmed, exactly the parts its reply holds, in their order and with their marks, with white space in between |
| ParsedLine.LineIsRecognized | reviewer-workstation/await-agent-reply.mjs:49-58 | and every line of that form is recognized, with those parts, whatever the white space |
| LineFormat.ShownWhenTrimmed | tools/collab-cli/Net.cs:121-127 | a payload with no outer white space comes back as itself or as its first 400 characters and an ellipsis |
| BlankPayload.BlankIsNotRecognized | reviewer-workstation/await-agent-reply.mjs:49-53 | a payload that shows as blank makes the whole line unrecognized: no way of matching succeeds |
| BlankPayload.RecognizedExactly | reviewer-workstation/await-agent-reply.mjs:49-58 | for every payload: the line is recognized exactly when the payload is absent or shows something, and then all fields come back, the numbers reading as those sent |
| Lines.SplitJoin | reviewer-workstation/await-agent-reply.mjs:113-116 | the lines and the tail put together are the text, and hold no newline |
| Lines.SplitUnique | reviewer-workstation/await-agent-reply.mjs:113-116 | no other lines and tail do |
| Lines.SplitAppend | reviewer-workstation/await-agent-reply.mjs:112-116 | a further chunk continues the tail and changes nothing before it |
| McpStdin.Server.OnData | src/mcp/runBenchmarkActorMcpServer.ts:184-193 | after any chunk the dispatched lines are the newline split of all that arrived; joined with the buffer they give it back, and the buffer holds no newline |
| McpStdin.Server.OnEnd | src/mcp/runBenchmarkActorMcpServer.ts:194-198 | a tail that is not blank is dispatched once |
| McpStdin.Feed | src/mcp/runBenchmarkActorMcpServer.ts:180-198 | the lines depend on the input only, not on how it is cut into chunks |
| Listener.InvStep | tools/collab-cli/Net.cs:271-325 | every step of either thread keeps the counter, the peers, the stop reasons and the ACKs consistent |
| Listener.CountBound | tools/collab-cli/Net.cs:271-325 | with --count C at most C + 1 messages are printed or handled, at most C with one transport, and the count stops the listener only after C |
| Listener.CountBoundIsTight | tools/collab-cli/Net.cs:360-398 | for every C a run handles C + 1 messages |
| Listener.PeersBound | tools/collab-cli/Net.cs:342-350 | with --count-distinct N at most N + 1 peers are recorded, at most N with one transport, each heard, none of them ourselves or nameless; it stops the listener only after N peers |
| Listener.PeersBoundIsTight | tools/collab-cli/Net.cs:342-398 | for every N a run records N + 1 peers |
| Listener.AcksAnswer | tools/collab-cli/Net.cs:376-394 | ACK numbers strictly increase and ACK n answers the n-th message |
| Listener.AllAnswered | tools/collab-cli/Net.cs:376-394 | with --echo, if no ACK fails to be written, the ACK numbers are those the counter gave the TCP messages, in order, but for the one being worked on; without --echo there is none |
| Listener.AllRecorded | tools/collab-cli/Net.cs:342-350 | with --count-distinct every sender heard, but ourselves and the nameless, is recorded once its message is past that point |
| ClosedLoop.HandleTcpClient | tools/collab-cli/Net.cs:352-398 | prints a line, and with --echo writes back an ACK, for exactly the envelopes on the stream before the first refusal, the end, or the first look that finds the stop signal set |
| ClosedLoop.AcksReadBack | tools/collab-cli/Net.cs:379-394 | the sender reads back one ACK for each message heard, in order: type ACK, numbered by the counter, answering the message's own number, with its session and task, from the host, saying what was received from whom |
| ClosedLoop.Awaiter.OnData | reviewer-workstation/await-agent-reply.mjs:112-125 | after any chunk the frames are the lines so far that parse, and the match is the first correlated one, never replaced |
| ClosedLoop.FirstMatchAppend | reviewer-workstation/await-agent-reply.mjs:120-123 | a match once made is not changed by what comes later, and without one the later frames decide |
| ClosedLoop.CorrelatedIs | reviewer-workstation/await-agent-reply.mjs:60-123 | the message correlated is the first heard with the wanted type and task that does not show as blank, and there is none exactly if there is no such message |
| ClosedLoop.AllRecognized | reviewer-workstation/await-agent-reply.mjs:51-53 | all messages are recognized exactly when none shows a blank payload |
| ClosedLoop.AwaiterSees | reviewer-workstation/await-agent-reply.mjs:112-119 | the printed text of any well-formed messages parses back to exactly the recognized messages, in order, with nothing left over |
| ClosedLoop.Await | reviewer-workstation/await-agent-reply.mjs:91-127 | end to end, for any short reads, any chunks, any stop and the listener killed at the match: the match is the first recognized message heard with the wanted type and task, or null; the frames are the recognized messages in order, at least up to the match; each message heard is answered |
| ClosedLoop.AwaitAndStage | reviewer-workstation/record-release-stage.mjs:21-43 | from the messages on the connection to the stage: a candidate is staged exactly when the first wanted message heard is from WIN and its payload names the requested candidate; without one, or when its payload names none or another, it fails with the error for that; whatever is staged comes from a message WIN sent and carries its frame |
| ClosedLoop.StageExactly | reviewer-workstation/record-release-stage.mjs:21-43 | for any readback: not correlated, no stage payload, and staged exactly when the correlated reply is from WIN with a payload that names the requested candidate |
| Candidates.ParseStagedCandidate | reviewer-workstation/release-with-review-drive.mjs:49-59 | it returns the candidate of exactly the stage payloads with the right schema and all four fields as non-empty texts |
| Candidates.FieldReads | reviewer-workstation/release-with-review-drive.mjs:39-45 | a field that holds a text reads as that text and an absent one as "undefined", and a diff shows what the field holds, or null |
| Candidates.OthersRead | reviewer-workstation/release-with-review-drive.mjs:39-45 | null, booleans and objects read as their names, arrays as their items with commas between them |
| Stamp.StripsStamp | tools/collab-cli/Agents.cs:207-216 | stripping removes the stamp and the line breaks after it, and nothing else |
| Stamp.HeaderLineIsPlain | tools/collab-cli/Agents.cs:86-90 | the header holds no earlier end mark and is one line |
| Stamp.ToLfOfToCrLf | tools/collab-cli/Agents.cs:218 | turning line feeds into pairs and back is the identity on every text |
| Stamp.TrimEndToLf | tools/collab-cli/Agents.cs:218 | trimming and unifying line breaks commute |
| Stamp.CheckAcceptsOut | tools/collab-cli/Agents.cs:55-79 | --check accepts what --out wrote exactly when the body does not begin with a line break, or is blank |
| Stamp.CheckAcceptsCrLf | tools/collab-cli/Agents.cs:55-79 | and after LF became CR LF exactly when, besides, the body's text holds no CR LF pair |
| Stamp.CheckSeesDrift | tools/collab-cli/Agents.cs:59-71 | a file written for one body passes for another only if both normalize to the same text |
| Stamp.CheckSeesOverlay | tools/collab-cli/Agents.cs:93-94 | the overlay is in the body: a file written with one passes for another on the same base and role exactly when the two normalize alike |
| Stamp.HeaderNames | tools/collab-cli/Agents.cs:86-90 | the stamp begins with the version, the role if there is one, and the digest |
| Stamp.BodyStartsClean | tools/collab-cli/Agents.cs:93-94 | base alone or with an overlay, the guard comes down to the first character of the base text |
| Stamp.SanitizeRole | tools/collab-cli/Agents.cs:166-177 | a result is lower-case letters, digits and inner dashes, so it can stand in the stamp; a role name gives itself |
| Stamp.SlugJoins | tools/collab-cli/Agents.cs:169-173 | character by character: letters, digits and dashes stay, a space, underscore, slash or dot becomes a dash, and anything else goes |
| Dhash.SampleInside | experiments/mprr-capture-ring/vbox-sdk-capture.py:30-35 | for all w, h >= 1 every sampled byte lies inside the buffer |
| Dhash.LumaInRange | experiments/mprr-capture-ring/vbox-sdk-capture.py:35 | the integer luma stays in 0..255 and keeps grey levels |
| Dhash.GrayIs | experiments/mprr-capture-ring/vbox-sdk-capture.py:30-35 | the grey of a sample is the weighted luma of the pixel at row oy h / 8 and column ox w / 9, which the buffer has |
| Dhash.GradientReads | experiments/mprr-capture-ring/vbox-sdk-capture.py:36-39 | bit 8 oy + ox is 1 exactly when the sample is brighter than the one to its right |
| Dhash.HexReads | experiments/mprr-capture-ring/vbox-sdk-capture.py:40-43 | digit k of the hash writes bits 4k to 4k + 3 in base 2, the first highest |
| Dhash.HexValueIs | experiments/mprr-capture-ring/vbox-sdk-capture.py:83 | a hex digit of either case reads as its place in the alphabet |
| Dhash.DhashHex | experiments/mprr-capture-ring/vbox-sdk-capture.py:26-43 | the loops compute the hex text of the 64 gradient bits |
| Dhash.HammingHex | experiments/mprr-capture-ring/vbox-sdk-capture.py:80-87 | the shift loop computes the digit-wise distance up to the shorter text, of either case of hex digits, and raises at any other character |
| Dhash.DistanceCountsBits | experiments/mprr-capture-ring/vbox-sdk-capture.py:36-43 | the distance of two hex texts is the number of differing bits |
| Dhash.HashMetric | experiments/mprr-capture-ring/vbox-sdk-capture.py:80-87 | a metric bounded by 64, zero exactly on equal hashes, which are equal exactly for equal bits |
| Dhash.FrameDistance | experiments/mprr-capture-ring/vbox-sdk-capture.py:26-87 | hashing two frames of any sizes and comparing counts their differing gradient bits |
| Fiducial.MakeRow | experiments/mprr-capture-ring/in-guest-fiducial.py:33-44 | each pixel is the grey of its band, opaque |
| Fiducial.RowBytes | experiments/mprr-capture-ring/in-guest-fiducial.py:26-44 | byte for byte: opaque, 230 in the fifth band and in the bands whose bit of the tick is set, 20 elsewhere; bands 0 to 3 stand for bits 0 to 3 and the last three for 4 to 6 |
| Fiducial.DecodeRow | experiments/mprr-capture-ring/in-guest-fiducial.py:26-44 | any one pixel of each band decodes the tick modulo 128, for every width from 8 |
| Fiducial.RowsEqual | experiments/mprr-capture-ring/in-guest-fiducial.py:26-44 | two rows of one width are equal exactly when the low seven bits of their ticks agree |
| Corroboration.LcsAttained | experiments/corroboration-confidence-reference.mjs:16-17 | some common subsequence has the length Lcs |
| Corroboration.LcsLargest | experiments/corroboration-confidence-reference.mjs:16-17 | and none is longer |
| Corroboration.CorroborationConfidence | experiments/corroboration-confidence-reference.mjs:29-51 | succeeds exactly on texts of the shape hh:mm:ss.cc; the matched count is the longest common subsequence, full confidence means subsequence, the tail is matched exactly if the text ends in a dot and the digits, and that forces full confidence |
| Corroboration.GreedyIsLcs | experiments/corroboration-confidence-reference.mjs:36-44 | the greedy scan is optimal for two digits |
| Corroboration.GreedyNeedsTwoDigits | experiments/corroboration-confidence-reference.mjs:36-44 | for three digits it would not be |
| Sorting.SortComparesMultisets | reviewer-workstation/release-risk-closeout.mjs:44-50 | sorted id lists are equal exactly when one is a permutation of the other |
| Sorting.SortedSet | reviewer-workstation/release-risk-closeout.mjs:46-49 | the set is as large as the sorted list exactly when no id repeats |
| RiskEvidence.FindRowIs | extension-tasks/release-risk.mjs:20 | the row found for a gate is the first with that gate, and none is found exactly if there is none |
| ReleaseRisk.AssessReleaseRisk | extension-tasks/release-risk.mjs:3-111 | ok exactly when the baseline is sound and a score baseline, if given, agrees with it; total and present count the proofs, and the present proofs, in the first rows of the six gates; READY exactly when none there is missing, BLOCKED exactly when one is in the first row of the definition of done; the rows are as RowsAre says |
| ReleaseRisk.GateReasons | extension-tasks/release-risk.mjs:19-71 | no reason exactly when the gate is sound; one row exactly if the first row of the evidence with that gate has proofs, and it counts them |
| RiskEvidence.RowsAre | extension-tasks/release-risk.mjs:57-71 | one row for each gate with proofs, in the order of the gates, with the numbers of present, missing and all proofs, the percentage rounded to the nearest tenth, the status, and the ids of the missing proofs in order |
| RiskEvidence.RowsOnly | extension-tasks/release-risk.mjs:57-71 | and no other rows do so |
| ReleaseRisk.ScoreReasons | extension-tasks/release-risk.mjs:88-107 | no reason exactly when scores, confidences, gates and raw hash of the score baseline agree, a missing score agreeing with a missing one |
| RiskEvidence.TenthsMean | extension-tasks/release-risk.mjs:66-83 | the percentage is rounded to the nearest tenth, halves up, and what 100 and 0 say about the missing proofs |
| RiskEvidence.ReadyMeansNothingMissing | extension-tasks/release-risk.mjs:67-85 | READY exactly when no first row of a gate in the evidence has a missing proof, BLOCKED exactly when that of the definition of done has one |
| RiskEvidence.CountAll | extension-tasks/release-risk.mjs:58-65 | present and missing add up to the total exactly when every status is one of the two |
| Closeout.CoverageFindings | reviewer-workstation/release-risk-closeout.mjs:44-50 | no finding exactly when the resolved ids are the missing ids, each once, in any order |
| Closeout.AllProofsAre | reviewer-workstation/release-risk-closeout.mjs:60-61 | the proofs counted are those of all rows, each once and in order |
| Closeout.MissingIdsAre | reviewer-workstation/release-risk-closeout.mjs:21-24 | the ids to resolve are those of the proofs with status missing, wherever in the evidence |
| Closeout.ValidateCloseout | reviewer-workstation/release-risk-closeout.mjs:42-79 | ok exactly when the closeout is valid, with the counters of the baseline |
| Closeout.AfterPresentIsTotal | reviewer-workstation/release-risk-closeout.mjs:61-78 | what was present plus what is resolved is the total exactly when every status is present or missing |
| Closeout.ClosedCompletely | reviewer-workstation/release-risk-closeout.mjs:42-79 | for such a baseline a valid closeout's afterPresent is the total, and the missing ids are distinct |
| Closeout.CloseoutMakesReady | reviewer-workstation/release-risk-closeout.mjs:21-79 | marking a valid closeout's resolutions present in a valid baseline makes it READY with present equal to total, and valid again if the cited artifacts resolve |
| Closeout.AssessAfterCloseout | extension-tasks/release-risk.mjs:73-131 | the assessment of the marked baseline reports everything present and READY, and is ok, which is all the governed check asks, if the cited artifacts resolve |
| Closeout.SealIsValid | reviewer-workstation/release-risk-closeout.mjs:26-33 | sealing a closing input makes it valid unless the input carries another schema; with an injective digest no other body passes under the seal |
| Composite.ComputeDecision | reviewer-workstation/composite-release-decision.mjs:32-69 | proven exactly when both gates publish, the staged frame, the target and the consensus name the candidate; reasons are empty exactly then |
| Composite.ProvenExactly | reviewer-workstation/composite-release-decision.mjs:32-69 | proven exactly when one candidate, named by four non-empty texts in the frame WIN staged, is what the requested candidate, the staged one and verdict.target of the signed verdict read as, the consensus of quorumVerdict reads as its version and commit, and both gates, asked about these very pieces, publish |
| Composite.BuildThenValidate | reviewer-workstation/composite-release-decision.mjs:101-157 | a freshly built receipt validates exactly when proven; with an injective digest no other content ever validates under its digest |
| Composite.ValidateReceipt | reviewer-workstation/composite-release-decision.mjs:145-157 | accepts exactly the receipts that pass every check |
| Composite.AcceptedBindsOneCandidate | reviewer-workstation/composite-release-decision.mjs:56-68 | in an accepted receipt the candidate, the staged candidate and the target field of the signed verdict read as the four non-empty texts of the staged frame, and the consensus field of the quorum verdict as its version and commit |
| Composite.FieldDiffs | reviewer-workstation/assemble-composite.mjs:40-46 | the diffs are those of the fields that differ, with both values |
| Composite.ComputeBindingDiffs | reviewer-workstation/assemble-composite.mjs:36-66 | the diffs are those of every piece's fields that differ from the candidate's; none exactly when all pieces name it |
| Composite.TargetDiffShows | reviewer-workstation/assemble-composite.mjs:40-46 | a field of the target in the signed verdict that differs from the candidate's is a diff with the target's own value, and such a round is neither bound nor proven |
| Composite.StagedDiffShows | reviewer-workstation/assemble-composite.mjs:57-63 | so is a field of the staged candidate |
| Composite.ConsensusDiffShows | reviewer-workstation/assemble-composite.mjs:48-55 | and so are version and commit in the consensus of the quorum verdict |
| Composite.AssembleComposite | reviewer-workstation/assemble-composite.mjs:72-83 | ok exactly when the decision is proven; refused exactly when some piece differs, with exactly its diffs; throws exactly when proven without a candidate |
| Composite.ProvenIsBound | reviewer-workstation/assemble-composite.mjs:36-82 | a proven decision never shows a diff |
| Composite.ProvenWithoutCandidate | reviewer-workstation/composite-release-decision.mjs:133-138 | a round without a candidate is proven exactly when both gates publish, a matched WIN DONE frame names the text "undefined" in all four fields, and all other pieces read as that text |
| Composite.ProvenWithoutCandidateExists | reviewer-workstation/composite-release-decision.mjs:133-138 | there is such a round |

## Left out

- POSIX, where a file can be deleted or renamed under an open handle; pids used again; two processes with one agent id; write errors inside a create or an overwrite.
- Host names are compared after folding ASCII letters only.
- What `List` and `Status` print, and all other messages; that they read the file is modelled (BeginShow).
- Sockets, accepting connections, time-outs, Ctrl-C (one Halt step), the receive log, the UDP beacon, ping and `CmdPoll`.
- StreamSend.StreamOne: a connection broken in mid-stream is not modelled, because such a send does not succeed; the TooLarge outcome stands for the exception, and the sleeps and printed rates are left out.
- ClosedLoop.HandleTcpClient: the counter's numbers and the stop signal are inputs; that ACK numbers increase and who sets the signal is in Listener. An echo cut short by a lost connection is not modelled. A body that is the JSON text `null` ends the connection like a closed peer, as in the code.
- Cutting a payload at 400 counts characters of the model; characters outside the basic plane, which the code counts as two and may split, are not modelled, nor chunks of output that split the bytes of one.
- Payloads and timestamps that contain a newline: the awaiter sees two lines, and the code does not put them together.
- The awaiter's own deadline and the receipt file; parsing of arguments in all scripts.
- What a line dispatched by the MCP server does: trimming, JSON parsing, tool calls and the order in which they complete.
- Candidate objects with a `toString` of their own, and field access on strings and arrays.
- Stamp.SanitizeRole: `ToLowerInvariant` is a parameter that maps characters one by one.
- The version, role and digest in the stamp are taken to hold no `>` and no newline, as the code makes them; the encoding of the file is left out.
- Resolving the role from a commit trailer, and loading the embedded resources.
- Fiducial.MakeRow: widths below 8, for which the code divides by zero.
- ReleaseRisk.AssessReleaseRisk: percentages are rounded exactly, not in floating point; gates carry the three fields that are checked; baselines so malformed that the code throws are left out.
- Dhash.HammingHex: decimal digits of other scripts, which `int(c, 16)` reads as well, count as no hex digits.
- `riskSummaryLines`, `selectCloseoutBaseline` and `verifyGovernedRisk`, which compares what AssessAfterCloseout states: single branches.
- Closeout.ValidateCloseout: which paths exist, relative to the root or not, is a parameter; artifacts that are no array make the code throw.
- Composite.ValidateReceipt: the fields outside the digest (transport, capability, note, prose) are left out, and staged or machine pieces that are no objects.
- The receipt of the release-with-review drive (`computeBinding`, `buildReceipt`, `validateReceipt`), which has the shape of the composite one; Ed25519 signatures.
- Texts of findings and reasons where only their presence matters.
