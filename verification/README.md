# HBFSim: transfer system, thermal network, field codec, acceptance and publication

This project models five parts of HBFSim in Dafny and proves what they promise.

* **Transfer system.** `BasicFabric` moves requests from HBF and HBM stacks to the GPU through two-bank
  buffers and exclusive links; `BasicHbm` is a FIFO media server per stack; `BasicSystem` drives both and an
  external MQSim by horizons. The fabric and the servers are specified as values and functions (`Fabric*`,
  `Hbm`, `HbmRun`), and the objects that update themselves in place (`FabricEngine.BasicFabric`,
  `HbmEngine.BasicHbm`, `SystemRun.BasicSystem`) are proved against them. Invariants hold in every reachable
  state; deadlock freedom, first-come admission, the makespan bound, horizon splitting and whole-run completion
  are theorems (`SystemTheorems.Simulate`: in-time requests all complete exactly when each fits the banks on its
  way, and every HBM stack has served its requests in order, each for the media time of its own size).
* **Thermal network.** The implicit-Euler RC runner over exact reals: an exact energy balance after every
  step, a comparison principle, and the theorem that the predicted envelope bounds every scaled run. The
  pipeline that feeds it (groups, components, cells, activities, caps, scaled traces) conserves energy, and
  its traces meet the hypothesis of the envelope theorem. `DomainRun.RunDerived` joins envelope, factor,
  derived trace, export and campaign: such a run stays below the envelope, cannot leave the temperature
  domain, and receives exactly the scaled energy. Both back ends are given the same heat, cell by cell.
* **Field codec.** The streaming encoder and decoder of canonical temperature fields, in both the native and
  the Python form, with their round trips, agreement and independence of chunking. `CodecLayout` writes the file
  format down byte by byte; encoder and decoder are proved to be exactly that relation, in both directions.
* **Acceptance.** Crossing extraction under quantization and the exact error integral: every reported event is
  real and its interval the tightest possible, and the score does not change under refinement.
* **Publication.** The crash-ordered publication of a PTX generation.

Times in the transfer system are whole nanoseconds and sizes whole bytes; physics is over `real`. The
tolerances of the sources (1e-9, 1e-10, 1e-12, 1e-14) are zero here: a check that the sources make up to
rounding is made exactly. Request ids and stack names are numbers; stacks are taken in the order of their
numbers. A heap is a sequence in pop order.

MQSim is a value of type `SystemTurns.Device`, two functions whose answers may depend on a hidden state, and
every result about `BasicSystem` holds for every device that obeys `SystemTurns.Obeys`: time does not go back;
running until a horizon returns one outstanding command at the device's new time or reaches the horizon;
every accepted command completes once, by the maximal horizon; a submission is accepted, put off or rejected,
and put off only finitely often. Two further properties are named where they are needed. A device is
`Admitting` if its gate rejects nothing and puts off only to a time to come; the run raises otherwise. It is
`Prompt` if it puts nothing off past the maximal horizon 2^64-1, which holds of the MQSim gate because its
target is a 64-bit number (experiments/eq3_maintenance/backend/include/hbfsim/eq3_thermal/mqsim_observer.hpp,
line 68). The linear solver is a function that solves exactly and fails exactly on a singular matrix; zlib is
the identity.

Two statements one might expect are false of the code, and the exact conditions are proved:

* `run` can end in its deadlock error, because past the maximal horizon, with only MQSim left to wait for, the
  horizon it picks lies in the past (`SystemRun.BasicSystem.Round`, both directions). It does not happen when
  the device is prompt and every HBF request arrives by the maximal horizon, for any number of requests
  (`SystemRun.BasicSystem.Run`). A single HBF request that arrives later, or that the gate holds back longer,
  always ends there; so for one request the condition is exact (`SystemTheorems.Simulate`).
* The Python codec pair loses a stream with a comment line longer than its decoder accepts, when the whole
  line arrives in one chunk. `Codec.PythonRoundTrip` is an equivalence; `CodecCanonical.PythonLosesAStream`
  is a concrete stream.

`dafny verify dfyconfig.toml` checks the whole project.

## Model

| member | source | states |
|---|---|---|
| Fabric.Duration | tools/eq3_basic_fabric.py:42-46 | the stage time is latency plus the least whole number of nanoseconds in which the bandwidth carries the bytes; never zero |
| Fabric.FreeBank | tools/eq3_basic_fabric.py:319-320 | the lowest-numbered free bank, and none exactly when every bank is taken |
| FabricOwnership.FillKeepsOwned | tools/eq3_basic_fabric.py:386-396 | starting a fill keeps the exact two-way agreement between bank and link slots and job states |
| FabricOwnership.DirectKeepsOwned | tools/eq3_basic_fabric.py:404-408 | starting a direct transfer keeps that agreement |
| FabricOwnership.RelayKeepsOwned | tools/eq3_basic_fabric.py:409-424 | starting a relay, which takes an HBM bank while keeping the HBF bank, keeps that agreement |
| FabricOwnership.GpuKeepsOwned | tools/eq3_basic_fabric.py:426-443 | starting a GPU drain keeps that agreement |
| FabricOwnership.CompleteKeepsOwned | tools/eq3_basic_fabric.py:342-369 | completing any of the four stages frees exactly what the stage gives back and keeps that agreement |
| FabricOwnership.WakeKeepsOwned | tools/eq3_basic_fabric.py:459-470 | backend data reaching a reserved bank keeps that agreement |
| FabricOwnership.ArriveKeepsOwned | tools/eq3_basic_fabric.py:471-482 | media data becoming ready keeps that agreement |
| FabricHistory.MoveKeepsStarts | tools/eq3_basic_fabric.py:322-340 | after any transition every logged start is of a real stage of its job, and uses of one link do not overlap |
| FabricHistory.MoveKeepsCompletions | tools/eq3_basic_fabric.py:371-382 | after any transition completions are exactly the done jobs, once each, none before ready time plus route work |
| FabricHistory.EarlierUseIsOver | tools/eq3_basic_fabric.py:322-369 | a link that no job holds has no logged use that is still running |
| FabricRun.CompleteDue | tools/eq3_basic_fabric.py:454-458 | all stages that end now are completed in sequence order and none is left; other jobs keep their request and their remaining work |
| FabricRun.WakeDue | tools/eq3_basic_fabric.py:459-470 | all backend data due now is taken in and none is left due |
| FabricRun.ArriveDue | tools/eq3_basic_fabric.py:471-482 | all arrivals due now are taken in and none is left due |
| FabricRun.FirstMediaReady | tools/eq3_basic_fabric.py:391 | the waiting job of a stack with the lowest sequence number |
| FabricRun.FirstGpuCandidate | tools/eq3_basic_fabric.py:430-441 | the candidate for a GPU link with the lowest sequence number |
| FabricRun.FillStack | tools/eq3_basic_fabric.py:386-396 | a stack's turn leaves no fill that could start, and takes only free slots |
| FabricRun.SendJobSettles | tools/eq3_basic_fabric.py:398-424 | after a job's turn it is not left waiting while its link (and, for a relay, an HBM bank) is free |
| FabricRun.GpuStack | tools/eq3_basic_fabric.py:426-443 | a stack's turn leaves no GPU drain that could start |
| FabricRun.AdmitSettles | tools/eq3_basic_fabric.py:384-443 | one pass of admission leaves no startable stage unstarted anywhere |
| FabricOrder.AdmitIsFirstCome | tools/eq3_basic_fabric.py:384-443 | admission is first come, first served: of the jobs waiting for one link only the one with the lowest number starts, a relay passes an earlier one for the same HBM stack only if that one's own link is taken, and every bank taken is the lowest left |
| FabricAdvance.NextDue | tools/eq3_basic_fabric.py:284-292 | the least due time of any job, and none exactly when nothing is due |
| FabricAdvance.TimePasses | tools/eq3_basic_fabric.py:445-484 | letting time pass up to the next event keeps the whole invariant |
| FabricAdvance.ProcessDue | tools/eq3_basic_fabric.py:454-482 | after completions, backend data and arrivals nothing is due at the current time |
| FabricAdvance.RoundDropsRank | tools/eq3_basic_fabric.py:449-483 | every iteration of the advance loop lowers a finite stage rank, because every duration is at least one nanosecond; so the loop ends |
| FabricAdvance.Advance | tools/eq3_basic_fabric.py:445-484 | the fabric reaches the horizon in a valid state with nothing due up to and including it |
| FabricCalls.IndexOf | tools/eq3_basic_fabric.py:150-191 | lookup by request id finds a job with that id, and none exactly when there is none |
| FabricCalls.InitIsStable | tools/eq3_basic_fabric.py:113-131 | a new fabric satisfies the invariant that holds between calls |
| FabricCalls.EnqueueIsStable | tools/eq3_basic_fabric.py:150-191 | an accepted enqueue keeps it |
| FabricCalls.ReserveIsStable | tools/eq3_basic_fabric.py:193-261 | an accepted reservation keeps it |
| FabricCalls.MarkIsStable | tools/eq3_basic_fabric.py:268-277 | marking the source ready keeps it |
| FabricCalls.EnqueueAccepts | tools/eq3_basic_fabric.py:150-191 | accepted exactly for a new id, a time not past, a positive size, a source that has the route and banks large enough for the size; then exactly one waiting job is added |
| FabricCalls.ReserveAccepts | tools/eq3_basic_fabric.py:193-261 | accepted exactly under the same conditions and a free bank of the source; then the lowest free bank is taken by exactly one new reserved job |
| FabricCalls.MarkAccepts | tools/eq3_basic_fabric.py:268-277 | accepted exactly for a job that is reserved and not yet marked and a time not past; only its ready time changes |
| FabricCalls.AdvanceIsStable | tools/eq3_basic_fabric.py:445-484 | advancing keeps it, and changes no request's identity |
| FabricTheorems.Run | tools/eq3_basic_fabric.py:110-484 | after every list of calls, raising or not, the fabric is in a state with exact ownership, a consistent log, unique ids and nothing startable left |
| FabricTheorems.LinksAreExclusive | tools/eq3_basic_fabric.py:322-340 | in every run the intervals logged on one link never overlap |
| FabricTheorems.StagesFollowRows | tools/eq3_basic_fabric.py:322-340 | in every run each logged stage is on its job's route, on the link of its stack, and lasts the row's latency plus the least whole nanoseconds for the bytes |
| FabricLog.CompletionsInOrder | tools/eq3_basic_fabric.py:371-382 | in every run completions are logged by time and, at one time, by sequence number |
| FabricTheorems.CompletionFloor | tools/eq3_basic_fabric.py:371-382 | in every run a request completes at most once, and not before its ready time plus the stage times of its own route, read off the configuration rows |
| FabricTheorems.AllDoneFreesEverything | tools/eq3_basic_fabric.py:300-317 | when every job is done every bank and every link is free |
| FabricTheorems.RelayHoldsABank | tools/eq3_basic_fabric.py:193-199 | a relayed job holds a bank at every moment from its reservation or fill to the end of its GPU transfer |
| FabricTheorems.DeadlockFree | tools/eq3_basic_fabric.py:384-443 | with no event pending and no backend outstanding every job is done, despite hold-and-wait on banks |
| FabricTheorems.OnlyBackendsOwe | tools/eq3_basic_fabric.py:384-443 | with no event pending and no HBM server outstanding, a reserved job that is not done waits for its own backend, whatever banks others hold |
| FabricTheorems.AdvanceIsOneInstant | tools/eq3_basic_fabric.py:445-484 | with nothing due before the horizon, advancing to it is a number of transitions at that one time |
| FabricTheorems.OneBankIsNotDone | tools/eq3_basic_fabric.py:398-424 | of two jobs that hold the banks of an HBF stack, one is not done at the end of an instant |
| FabricTheorems.HorizonSplit | tools/eq3_basic_fabric.py:445-484 | advancing to one horizon and then to a later one gives the same fabric as advancing to the later one at once |
| FabricTheorems.RoundKeepsBound | tools/eq3_basic_fabric.py:449-483 | an iteration never raises the larger of now and the last ready time plus all remaining work, and the next event lies within that bound |
| FabricTheorems.Makespan | tools/eq3_basic_fabric.py:384-484 | with no backend outstanding every job is done by the last ready time plus the sum of all remaining stage durations |
| FabricTheorems.MakespanOfCompletions | tools/eq3_basic_fabric.py:384-484 | no completion is logged later than that bound, however far the fabric is advanced |
| FabricTheorems.MakespanOfBatch | tools/eq3_basic_fabric.py:384-484 | a batch of waiting requests is done by the last ready time plus the sum of the stage times of all routes, read off the configuration |
| FabricProgress.AdvanceProgress | tools/eq3_basic_fabric.py:445-484 | advancing moves no job back, never touches one that waits for its backend, only appends completions, and moves some job on if an event was due |
| FabricHeaps.Push | tools/eq3_basic_fabric.py:322-326 | pushing keeps pop order by time and then sequence number, and adds exactly the new entry |
| FabricHeaps.DuePrefix | tools/eq3_basic_fabric.py:455-456 | popping while the head is due yields exactly the jobs that are due now, in sequence order |
| FabricHeaps.HeapIsDetermined | tools/eq3_basic_fabric.py:445-484 | the jobs determine each heap, so fabrics with the same jobs have the same heaps |
| FabricEngine.DueNotBefore | tools/eq3_basic_fabric.py:284-292 | no heap ever holds a time that has passed |
| FabricEngine.BasicFabric.constructor | tools/eq3_basic_fabric.py:113-131 | a new fabric object is empty, at time zero, with matching heaps |
| FabricEngine.BasicFabric.Start | tools/eq3_basic_fabric.py:322-340 | the job runs for its stage time on the stage's link, and the active heap gains exactly its end |
| FabricEngine.BasicFabric.Fill | tools/eq3_basic_fabric.py:386-396 | the object after a stack's fill turn is the specified state, with matching heaps |
| FabricEngine.BasicFabric.Send | tools/eq3_basic_fabric.py:398-424 | the same for a job's direct or relay turn |
| FabricEngine.BasicFabric.Drain | tools/eq3_basic_fabric.py:426-443 | the same for a stack's GPU turn |
| FabricEngine.BasicFabric.AdmitJobs | tools/eq3_basic_fabric.py:384-443 | the three admission loops compute the specified admission: nothing startable is left, and every link and bank went first come, first served |
| FabricEngine.BasicFabric.Complete | tools/eq3_basic_fabric.py:342-382 | completing a stage in place frees exactly the specified slots and logs it |
| FabricEngine.BasicFabric.PopEnding | tools/eq3_basic_fabric.py:454-456 | the popped entries are exactly the stages that end now, in sequence order |
| FabricEngine.BasicFabric.CompleteAll | tools/eq3_basic_fabric.py:457-458 | completing the popped stages in order completes all due stages |
| FabricEngine.BasicFabric.WakeBackends | tools/eq3_basic_fabric.py:459-470 | popping the backend heap takes in exactly the backend data due now |
| FabricEngine.BasicFabric.ArriveMediaJobs | tools/eq3_basic_fabric.py:471-482 | popping the arrival heap takes in exactly the arrivals due now |
| FabricEngine.BasicFabric.NextEventNs | tools/eq3_basic_fabric.py:284-292 | the least of the three heap heads is the least due time of any job |
| FabricEngine.BasicFabric.EnqueueJob | tools/eq3_basic_fabric.py:150-191 | accepted exactly when the id is new, the size positive, the time not past, the route possible and the banks large enough; then the request waits in the arrival heap |
| FabricEngine.BasicFabric.ReserveBank | tools/eq3_basic_fabric.py:193-261 | the checks and the free bank decide: an error, all banks taken, or the lowest free bank of the source is taken and the reservation logged; nothing else changes |
| FabricEngine.BasicFabric.MarkSourceReadyAt | tools/eq3_basic_fabric.py:268-277 | accepted exactly for a reserved request and a time that is not past; then it waits in the backend heap |
| FabricEngine.BasicFabric.AdvanceTo | tools/eq3_basic_fabric.py:445-484 | the event loop over the heaps ends, computes the specified advance, refuses to move backwards, and keeps every heap equal to the jobs in the matching state |
| Hbm.Ceiling | tools/eq3_basic_hbm.py:173-177 | the least integer not below its argument |
| Hbm.MediaTime | tools/eq3_basic_hbm.py:173-177 | the media time of a request is the latency of its own operation plus the least whole nanoseconds in which that operation's bandwidth carries its bytes |
| Hbm.FinishKeepsServer | tools/eq3_basic_hbm.py:201-234 | completing the active request and starting the next keeps every start time equal to the Lindley recurrence |
| Hbm.SubmitKeepsServer | tools/eq3_basic_hbm.py:155-171 | submitting keeps every start time equal to the Lindley recurrence, whether the server is idle or busy |
| HbmRun.NextEnd | tools/eq3_basic_hbm.py:196-199 | the least end of an active request, and none exactly when all servers are idle |
| HbmRun.RoundIsValid | tools/eq3_basic_hbm.py:205-233 | one iteration keeps the invariant, leaves nothing ending at its time, and lowers the number of outstanding requests |
| HbmRun.Advance | tools/eq3_basic_hbm.py:201-234 | the clock reaches the target with nothing left that ends by then; reports are only appended and requests kept |
| HbmRun.JoinIsValid | tools/eq3_basic_hbm.py:155-171 | a submission keeps the invariant over all stacks |
| HbmRun.ServersFollowLindley | tools/eq3_basic_hbm.py:155-234 | in every run the k-th request submitted to a stack starts at the maximum of its submit time and the end of the one before, in submit order |
| HbmRun.ReportedOnce | tools/eq3_basic_hbm.py:211-231 | in every run each request has at most one media completion, at exactly its computed end |
| HbmRun.AdvanceReports | tools/eq3_basic_hbm.py:201-234 | completions reported by an advance carry times between the old and the new clock |
| HbmRun.AdvanceReportsNow | tools/eq3_basic_hbm.py:205-231 | with nothing ending before the target, everything an advance reports ends at the target |
| HbmRun.AdvanceReportsDue | tools/eq3_basic_hbm.py:201-234 | an advance past the next end reports at least one completion |
| HbmRun.AdvanceKeepsHistories | tools/eq3_basic_hbm.py:201-234 | advancing changes no submission: every stack keeps its requests, their order, operations, sizes and submit times |
| HbmEngine.BasicHbm.NextEventNs | tools/eq3_basic_hbm.py:196-199 | the loop over the stacks finds the least end |
| HbmEngine.BasicHbm.Start | tools/eq3_basic_hbm.py:179-194 | a free server takes the head of its queue until now plus its duration; other stacks are untouched |
| HbmEngine.BasicHbm.CompleteStacks | tools/eq3_basic_hbm.py:206-231 | exactly the stacks whose request ends now are reported, in stack order, and vacated |
| HbmEngine.BasicHbm.StartStacks | tools/eq3_basic_hbm.py:232-233 | after the second loop every stack again matches its history |
| HbmEngine.BasicHbm.AdvanceTo | tools/eq3_basic_hbm.py:201-234 | queues, active requests and reports follow the specified advance; moving backwards is refused |
| HbmEngine.BasicHbm.ArrivalAt | tools/eq3_basic_hbm.py:132-153 | accepted exactly for a new id, a known stack, a positive size and a time that is not past; nothing is queued yet |
| HbmEngine.BasicHbm.SubmitAt | tools/eq3_basic_hbm.py:155-171 | accepted exactly once per arrived request; it joins its queue and starts if the server is free |
| SystemModel.ReserveAnswers | tools/eq3_basic_system.py:172-175 | an arrived waiting request gets a bank, or every bank of its source is taken, or it is refused exactly because it does not fit the banks on its way |
| SystemAdmission.AdmitHbfIsOk | tools/eq3_basic_system.py:176-181 | admitting an HBF request, accepted or deferred by MQSim, keeps the agreement of records, fabric, servers and MQSim |
| SystemAdmission.AdmitHbmIsOk | tools/eq3_basic_system.py:182-191 | admitting an HBM request is accepted by its server, which queues it now with the record's own operation and size, and keeps that agreement |
| SystemAdmission.RetryHbfIsOk | tools/eq3_basic_system.py:165-169 | retrying a deferred submission keeps that agreement |
| SystemRound.MarkAnswers | tools/eq3_basic_system.py:235-247 | marking the source of a pending record ready is never refused by the fabric |
| SystemRound.AcceptMqsimIsOk | tools/eq3_basic_system.py:235-247 | a completion MQSim returns is of an outstanding command, so the duplicate/unknown error cannot occur; accepting it keeps the agreement |
| SystemRound.AcceptReportIsOk | tools/eq3_basic_system.py:249-257 | the next HBM completion is of an outstanding request, so its error cannot occur; accepting it keeps the agreement |
| SystemRound.AcceptCompletionIsOk | tools/eq3_basic_system.py:261-271 | the next fabric completion is of a record that waits for it, so its error cannot occur; accepting it keeps the agreement |
| SystemHorizon.CandidatesAreLater | tools/eq3_basic_system.py:273-285 | after admission every known event lies strictly in the future |
| SystemHorizon.HorizonIsLegal | tools/eq3_basic_system.py:295-298 | while a record is unfinished the horizon exists; it lies in the past exactly when the clock is past the maximal horizon and only MQSim has work left |
| SystemMeasure.AdmissionDrops | tools/eq3_basic_system.py:162-193 | admission lowers the work left in records and jobs together |
| SystemMeasure.RetryDrops | tools/eq3_basic_system.py:195-222 | a retry lowers the deferrals MQSim has left or the work left |
| SystemMeasure.MoveFabricDrops | tools/eq3_basic_system.py:305 | advancing the fabric past a due event lowers the work left |
| SystemLiveness.QuietJob | tools/eq3_basic_system.py:293-306 | at rest with no fabric or server event, every job is done or belongs to an HBF request at the gate or at MQSim |
| SystemLiveness.DeliveredStirs | tools/eq3_basic_system.py:299-306 | after a delivery at the current time the fabric or a server has an event to come |
| SystemLiveness.PassedIsLively | tools/eq3_basic_system.py:293-306 | a round past the maximal horizon without a delivery leaves an event to come, or every HBF request complete |
| SystemLiveness.PassKeepsLively | tools/eq3_basic_system.py:162-193 | the admission pass keeps that, and keeps every gate target within the maximal horizon if the device is prompt |
| SystemLiveness.LivelyIsNotStuck | tools/eq3_basic_system.py:296-298 | such a system does not raise the deadlock error |
| SystemLiveness.LatePass | tools/eq3_basic_system.py:162-222 | a single HBF request that comes or is held back past the maximal horizon is still waiting after an admission pass, or has become the deadlock error |
| SystemLiveness.HaltIsExplained | tools/eq3_basic_system.py:172-222 | a turn raises only for a request that does not fit, or an HBF request at a gate that rejects or names a past target |
| SystemRun.BasicSystem.constructor | tools/eq3_basic_system.py:95-115 | a new system with validated requests, whatever their size, is at rest at time zero |
| SystemRun.BasicSystem.TryHbfSubmit | tools/eq3_basic_system.py:195-206 | the answer is the device's: accepted, put off or rejected, with the command outstanding exactly if accepted |
| SystemRun.BasicSystem.Retry | tools/eq3_basic_system.py:165-169 | a due retry raises exactly on a rejection or a target that is not to come; otherwise the record takes the answer, and the agreement is kept |
| SystemRun.BasicSystem.SubmitHbf | tools/eq3_basic_system.py:176-181 | the same for the first submission, after the bank is taken |
| SystemRun.BasicSystem.AdmitOne | tools/eq3_basic_system.py:164-192 | raises exactly for a request that does not fit, a rejection or a target that is not to come; otherwise exactly a due retry, a bank and a submission, or nothing; then the record waits only for the future or for banks that are all taken |
| SystemRun.BasicSystem.Admit | tools/eq3_basic_system.py:162-193 | every record has its turn in request order, up to the first that raises; if none does, each then waits only for the future or for taken banks, and the termination measure has not grown |
| SystemRun.BasicSystem.NextHorizon | tools/eq3_basic_system.py:273-285 | the least of the arrivals to come, gate targets, next server end and next fabric event; else the maximal horizon while MQSim owes a completion; else none |
| SystemRun.BasicSystem.AcceptMqsimCompletion | tools/eq3_basic_system.py:235-247 | the record moves to the fabric at the reported time; the error branch is unreachable |
| SystemRun.BasicSystem.AcceptHbmCompletions | tools/eq3_basic_system.py:249-259 | every untaken media completion is accepted; the error branch is unreachable |
| SystemRun.BasicSystem.AcceptFabricCompletions | tools/eq3_basic_system.py:261-271 | every unseen fabric completion is accepted; the error branch is unreachable |
| SystemRun.BasicSystem.FollowMqsim | tools/eq3_basic_system.py:299-304 | moving to MQSim's time and accepting the backends' deliveries keeps the agreement, changes no waiting record and in the fabric only marks the delivered jobs ready now, and makes progress or leaves a fabric event due |
| SystemRun.BasicSystem.FollowFabric | tools/eq3_basic_system.py:305-306 | the fabric catches up and the system is at rest again; a due event means progress |
| SystemRun.BasicSystem.Follow | tools/eq3_basic_system.py:299-306 | running to the horizon or to a completion before it lowers the termination measure, changes no waiting record, and keeps a punctual system lively |
| SystemRun.BasicSystem.Round | tools/eq3_basic_system.py:293-306 | raises at the turn that raises; otherwise it is the deadlock error exactly when the admitted system is past the maximal horizon with only MQSim left to wait for, and else lowers the termination measure; punctual requests and a prompt device never meet the deadlock error and stay so |
| SystemRun.BasicSystem.Run | tools/eq3_basic_system.py:287-316 | for every list of validated requests and every MQSim obeying the contract the loop ends: all records complete, all fitting, and every bank and link free; or the deadlock error; or an error explained by the request's size or the gate. No deadlock error if the device is prompt and every HBF request arrives by the maximal horizon; no completion for a single HBF request that comes, or is held back, later |
| SystemOrder.PassIsFirstCome | tools/eq3_basic_system.py:162-193 | in an admission pass no later request of a source gets a bank while an earlier one of it that has arrived is left waiting |
| SystemTheorems.HbfBackpressure | tools/eq3_basic_system.py:162-222 | in every state of a run an HBF stack has at most two commands outstanding at MQSim |
| SystemTheorems.PairBackpressure | tools/eq3_basic_fabric.py:230-261 | in every state of a run an HBF stack and its HBM partner have at most four requests in flight |
| SystemTheorems.InFlightAtRest | tools/eq3_basic_system.py:162-193 | between rounds the requests in flight are exactly those admitted and not complete |
| SystemTheorems.CompletesOnce | tools/eq3_basic_system.py:261-271 | a complete record has exactly one fabric completion, its times are those reported, arrival <= submit <= backend <= fabric = final, and the fabric time is at least the backend time plus the stage times of its own route |
| SystemTheorems.MediaTimes | tools/eq3_basic_system.py:182-191 | in a completed system each HBM stack has served exactly its records, in submit order, each from the later of its submit time and the end of the one before, for the media time of its own operation and size |
| SystemTheorems.Simulate | tools/eq3_basic_system.py:287-325 | from requests to completions: at an admitting and prompt device in-time requests complete exactly when each fits its banks; a single request exactly when it fits and is in time; a fitting one that is late or held back deadlocks; HBM requests alone complete exactly when they fit; completed records have their times in order |
| SystemTheorems.ContractCanBeMet | tools/eq3_basic_system.py:195-247 | the MQSim contract is satisfiable by an admitting and prompt device |
| SystemTheorems.GateCanHoldBack | tools/eq3_basic_system.py:215-220 | a device that obeys the contract and whose gate holds back: with it even a request at time zero ends in the deadlock error, so promptness is needed |
| RcNetwork.RowOfMatrix | tools/eq3_campaign_rc_runner.cpp:284-312 | a row of the assembled matrix applied to a vector is the diagonal term plus the net flow out of the node |
| RcNetwork.RowOnFields | tools/eq3_campaign_rc_runner.cpp:284-312 | on the fields of the network: an edge adds conductance times the difference of its ends to both rows, except one between components while those are disabled, which adds nothing |
| RcNetwork.Comparison | tools/eq3_campaign_rc_runner.cpp:284-312 | comparison principle: if the operator's values are ordered, so are the vectors, for any network with a positive diagonal |
| RcNetwork.FlowConserved | tools/eq3_campaign_rc_runner.cpp:296-307 | the net flows over all nodes sum to zero |
| RcTheory.StepEnergy | tools/eq3_campaign_rc_runner.cpp:837-882 | one implicit-Euler step: change of stored energy plus boundary loss equals applied plus static energy, exactly |
| RcTheory.TraceEnergy | tools/eq3_campaign_rc_runner.cpp:837-897 | after every step of every run stored energy plus boundary loss equals applied activity energy plus static energy, exactly |
| RcTheory.ThetaIsTemperature | tools/eq3_campaign_rc_runner.cpp:820-844 | solving for temperature minus an origin solves the same system as absolute temperature |
| RcTheory.StepIsUnique | tools/eq3_campaign_rc_runner.cpp:841-844 | the result of a step is the only one |
| RcTheory.StepIsBalance | tools/eq3_campaign_rc_runner.cpp:837-873 | a step solves the matrix exactly when at every node the heat stored is static plus activity power less what goes to the boundary and to the neighbours, at the new temperatures |
| RcTheory.TraceIsBalanced | tools/eq3_campaign_rc_runner.cpp:837-873 | so does every step of a run, from the initial temperatures on |
| RcTheory.EnvelopeIsSteady | tools/eq3_campaign_rc_runner.cpp:349-394 | the fixed field plus alpha times the cap rise is the steady field of the fixed sources plus alpha times the caps |
| RcTheory.SteadyIsBalance | tools/eq3_campaign_rc_runner.cpp:349-394 | a field is steady exactly when at every node what goes to the boundary and to the neighbours is the source |
| RcTheory.EnvelopeStep | tools/eq3_campaign_rc_runner.cpp:837-873 | a step with power within the scaled caps keeps every node below the envelope |
| RcTheory.EnvelopeDominates | tools/eq3_campaign_rc_runner.cpp:346-400 | every run whose slot power is at most alpha times the cap power stays below the envelope at every node and step |
| RcTheory.TraceAboveFloor | tools/eq3_campaign_rc_runner.cpp:837-873 | with nonnegative power no node ever falls below the coldest initial or boundary temperature |
| RcGround.SteadyIsNonnegative | tools/eq3_campaign_rc_runner.cpp:379-383 | minimum principle: where every node is connected to a heat-rejecting one, nonnegative heating gives a nonnegative steady rise |
| RcGround.SingularIffNotGrounded | tools/eq3_campaign_rc_runner.cpp:314-344 | the steady matrix is singular exactly when some nodes are cut off from every heat-rejecting boundary |
| RcGround.SystemIsRegular | tools/eq3_campaign_rc_runner.cpp:811-817 | the matrix of a step is never singular, so its factorization cannot fail |
| RcRunner.SystemMatrix | tools/eq3_campaign_rc_runner.cpp:284-312 | the triplets pushed give rows that are capacity over step plus boundary conductance times the node, plus, over the edges of the node that carry heat, conductance times the difference to the neighbour |
| RcRunner.SteadyMatrix | tools/eq3_campaign_rc_runner.cpp:314-344 | the same without the capacity term; refused exactly when no boundary conducts |
| RcRunner.CapPowers | tools/eq3_campaign_rc_runner.cpp:356-368 | accumulated cap power per node and in total, nonnegative, and positive in total exactly when some activity carries energy |
| RcRunner.SelectAlpha | tools/eq3_campaign_rc_runner.cpp:388-400 | the first candidate of 1, 0.75, 0.5, 0.25 whose envelope is within the limit and covers the initial state, and none exactly when none is |
| RcRunner.SteadyEnvelope | tools/eq3_campaign_rc_runner.cpp:346-400 | refused exactly when the caps carry no energy or some nodes are cut off from every heat-rejecting boundary; otherwise the fields are the steady solutions, the check that the rise is nonnegative cannot fail, and the factor is the first of 1, 3/4, 1/2, 1/4 with fixed plus factor times rise at every node between the initial temperature and the limit |
| RcRunner.SelectedIsChoice | tools/eq3_campaign_rc_runner.cpp:388-400 | the selected factor is the first admissible of 1, 3/4, 1/2 and 1/4, and none exactly when none is |
| RcRunner.PredictedEnvelopeHolds | tools/eq3_campaign_rc_runner.cpp:346-434 | if an envelope was found, every run within the scaled caps stays below it and below the limit |
| RcRun.Ratio | tools/eq3_campaign_rc_runner.cpp:146-155 | the count is found exactly when a 64-bit whole number of parts makes up the whole |
| RcRun.ScheduleFor | tools/eq3_campaign_rc_runner.cpp:157-186 | a schedule exactly when there is one: steps tile slots and samples, both tile the run, and the number of steps is a 64-bit count |
| RcRun.ScheduleIsExact | tools/eq3_campaign_rc_runner.cpp:157-186 | any schedule that fits the options is the one found |
| RcRun.LabelIsOnGrid | tools/eq3_campaign_rc_runner.cpp:884-889 | the two label formulas of a step give its exact time |
| RcRun.AcceptedIsOnSlots | tools/eq3_campaign_rc_runner.cpp:192-213 | an accepted activity covers a nonempty range of slots that lasts exactly as long as it does |
| RcRun.SlotPowers | tools/eq3_campaign_rc_runner.cpp:468-493 | the power of a slot and node is the sum over the activities that cover the slot |
| RcRun.AppliedIsDeclared | tools/eq3_campaign_rc_runner.cpp:468-493 | over all slots the applied energy is the declared energy |
| RcRun.SolveIsStep | tools/eq3_campaign_rc_runner.cpp:841-844 | a solution of the theta system, shifted back, is a step of the network |
| RcRun.TakeStep | tools/eq3_campaign_rc_runner.cpp:839-890 | the solve cannot fail; an accepted step is a step of the network inside the domain, with loss, applied energy and samples updated for it; otherwise the step leaves the domain |
| RcRun.StoredEnergy | tools/eq3_campaign_rc_runner.cpp:563-573 | the accumulated sum is the stored energy of the field |
| RcRun.RunSlot | tools/eq3_campaign_rc_runner.cpp:838-891 | all steps of a slot use the slot's power and keep the energy balance after each step |
| RcRun.Run | tools/eq3_campaign_rc_runner.cpp:801-904 | the fields from the initial one on balance heat at every node and step and stay inside the domain; a finished receipt holds the stored energy and boundary loss of that trace, balances exactly, and has applied equal to declared energy; otherwise the step after the completed ones, under the power of its own slot, leaves the domain |
| RcRun.Close | tools/eq3_campaign_rc_runner.cpp:893-903 | the receipt's sums: stored plus boundary loss equals applied plus static energy, applied equals declared |
| RcRun.Campaign | tools/eq3_campaign_rc_runner.cpp:907-932 | rejected before any step exactly for an initial temperature outside the limits, options without a schedule, an id that comes twice or an activity that does not lie on slot edges within the run; otherwise each slot applies the power of the activities under way, and steps, receipt or the step that leaves the domain are as for the run |
| RcRun.AcceptedMeans | tools/eq3_campaign_rc_runner.cpp:188-213 | activities are accepted exactly when no id comes twice and each begins and ends on slot edges and is complete within the run |
| RcRun.SlotPowersFollow | tools/eq3_campaign_rc_runner.cpp:468-493 | in each slot every node gets, from every activity under way, its energy there divided by its duration |
| Grid.CentreByIndex | tools/eq3_layered_export.py:57-66 | if both faces of an extent are planes, the cells it holds are exactly those between the two planes |
| Grid.OneOwner | tools/eq3_layered_export.py:65-68 | boxes that do not overlap never own the same cell, whatever the planes |
| Grid.SeparateIsDisjoint | tools/eq3_layered_export.py:65-68 | boxes count as separate exactly when no point lies inside both |
| Grid.CellsFillTheBox | tools/eq3_layered_export.py:48-89 | for any planes that contain its faces the cells of an entity sum to the volume of its box |
| GridBuild.EdgePlanes | tools/eq3_layered_export.py:23-37 | planes in order through the package ends and every entity face, and no others |
| GridBuild.UniformPlanes | tools/eq3_layered_export.py:38-43 | refused exactly for a mesh that is not positive or some face or package end that is not a multiple of it; otherwise the multiples of the mesh from end to end, with every face among them |
| GridBuild.OwnerOf | tools/eq3_layered_export.py:57-76 | overlap exactly for a cell with two owners, gap exactly for one that neither an entity nor the background fills, otherwise its owner; overlap never for separate boxes |
| GridBuild.FilledMeans | tools/eq3_layered_export.py:65-76 | a cell has neither two owners nor a gap exactly when one entity contains it, or none does and its middle is in the background |
| GridBuild.Discretize | tools/eq3_layered_export.py:48-89 | refused exactly when there are too many cells, or some cell lies inside two entities, or inside none with its middle outside the background; otherwise one cell per position, in loop order, with volume and owner, every cell listed under its owner once, each entity filled exactly, and the volume check cannot fail |
| PowerIr.SplitConserves | tools/eq3_layered_ir.py:672-682 | over all components the split gives back the power of the groups |
| PowerIr.MembersReceive | tools/eq3_all_source_cap.py:74-83 | a group that has its members to itself gives them exactly its power, so the group check of the cap file cannot fail |
| PowerIr.SplitMonotone | tools/eq3_layered_ir.py:672-682 | groups within scaled caps give components within scaled component caps |
| PowerIr.EnergyConserved | tools/eq3_layered_ir.py:683-692 | component energy equals source energy after every number of intervals |
| PowerIr.SplitInterval | tools/eq3_layered_ir.py:672-684 | accepted exactly when every value is nonnegative and within its cap; then each component gets its weighted sum |
| PowerIr.NormalizePower | tools/eq3_layered_ir.py:662-700 | the energies accumulated per component sum to the source energy, so the conservation check cannot fail |
| RcExport.PartsSumToOne | tools/eq3_layered_export.py:162-165 | the source weights of a component's cells sum to one |
| RcExport.ActivityEnergy | tools/eq3_layered_export.py:197-205 | an activity declares exactly the component's power times the interval |
| RcExport.PowerOfActivity | tools/eq3_layered_export.py:197-205 | while it lasts an activity puts the component's power on its cells by volume share |
| RcExport.DiscretizedIsAllocated | tools/eq3_layered_export.py:48-89 | what the discretization yields is what the exporters need: every component's cells fill its volume |
| RcPipeline.PipelineConserves | tools/eq3_layered_export.py:186-207 | the event file declares exactly the energy of the components, which is the energy of the source groups |
| RcPipeline.ExportedPower | tools/eq3_layered_export.py:197-205 | in every slot the exported activities put on each node exactly the power of that interval |
| RcPipeline.ExportedIsRunnable | tools/eq3_layered_export.py:197-206 | the exported activities are valid input of the runner and lie on its slots |
| RcPipeline.NodePowerMonotone | tools/eq3_all_source_cap.py:61-69 | power on a node is monotone in component power |
| RcPipeline.CapIsNodePower | tools/eq3_all_source_cap.py:41-73 | the cap file puts on each node exactly the component caps by volume share |
| RcFiles.ExportActivities | tools/eq3_layered_export.py:196-207 | the nested loops write exactly the specified events; the emitted energy is the total energy, so the check cannot fail |
| RcFiles.BuildCap | tools/eq3_all_source_cap.py:41-73 | refused exactly for a grid whose lists do not name cells of their component or do not fill its volume, which no discretized grid is; otherwise one cap event per component, whose emitted power is its cap, and node caps that are the shares of the component caps |
| RcFiles.SamplesCarryEnergy | tools/eq3_layered_export.py:116-132 | slot samples times the slot length sum to the component's energy |
| RcFiles.SampledPower | tools/eq3_layered_export.py:116-132 | accepted exactly for a nonempty trace, a positive slot and transitions on slot edges; then every component's samples, up to the last end, are its powers slot by slot and carry its energy |
| RcReference.EventsOnCell | tools/eq3_layered_export.py:197-205 | the event file puts on every cell its volume weight of its component's energy |
| RcReference.ReferenceValues | tools/eq3_layered_export.py:153-168 | accepted exactly when the sampling is; every cell then has in every slot its weight of its component's power, and over all slots exactly the energy that the event file puts on it |
| DomainInput.SelectedAlpha | tools/eq3_domain_v2_input.py:27-42 | accepted exactly when the four candidates are 1, 3/4, 1/2 and 1/4 in this order and the selected factor is the largest that is within the limit and covers the initial state |
| DomainInput.Derive | tools/eq3_domain_v2_input.py:69-90 | accepted exactly for a nonempty trace whose slots are nonnegative and within the caps; the scaled slots are within the scaled caps and the scaled energy is alpha times the original |
| DomainInput.DeriveAll | tools/eq3_domain_v2_input.py:45-95 | accepted exactly for a nonempty list of different known traces, all acceptable; each is derived with its scaled energy |
| DomainInput.DerivedIsWithinCap | tools/eq3_domain_v2_input.py:75-95 | in every slot a derived trace puts on each node at most alpha times what the cap file puts there |
| DomainInput.DerivedRunsStayBelow | tools/eq3_domain_v2_input.py:75-95 | the whole chain: with the factor the envelope selects, every run of a derived trace stays below the envelope and the limit at every node and step |
| DomainRun.PredictFactor | tools/eq3_all_source_cap.py:30-73 | component caps, cap file and steady envelope in turn; refused if the network is not grounded |
| DomainRun.ExportDerived | tools/eq3_domain_v2_input.py:65-95 | scaling, splitting and export in turn: accepted exactly for an acceptable trace, on slots within the scaled caps, and declaring exactly alpha times its energy |
| DomainRun.NeverLeaves | tools/eq3_campaign_rc_runner.cpp:860-871 | with set-up and limit inside the temperature domain, no step of a derived run leaves it |
| DomainRun.RunDerived | tools/eq3_campaign_rc_runner.cpp:801-904 | the chain as a program: the run stays below the envelope and the limit at every step and node; with set-up and limit inside the domain it finishes, balances, and has received exactly alpha times the energy of the given trace |
| CodecText.ScanTokens | tools/eq3_campaign_fieldcodec_native.cpp:121-134 | the position loop finds exactly the whitespace-separated tokens |
| CodecText.DecimalOfDigits | tools/eq3_campaign_fieldcodec_native.cpp:65-76 | printing a number and reading it back gives the number |
| CodecText.ParseToken | tools/eq3_campaign_fieldcodec_native.cpp:78-119 | the 64-bit loop accepts exactly the canonical tokens in 32-bit range, with their value and without overflow |
| CodecCanonical.PrintedField | tools/eq3_campaign_fieldcodec_native.cpp:65-76 | a value is printed as sign, whole part without needless zeros, point and three digits, moved right to seven columns if shorter, and two spaces |
| CodecLayout.LiteralLines | tools/eq3_campaign_fieldcodec_native.cpp:257-259 | a line is copied exactly when it is blank or its first byte that is not white space is a percent sign |
| CodecRecords.WordRoundTrip | tools/eq3_campaign_fieldcodec_native.cpp:45-55 | an unsigned word survives writing and reading |
| CodecRecords.SignedWordRoundTrip | tools/eq3_campaign_fieldcodec_native.cpp:57-63 | a signed word survives writing and reading |
| CodecRecords.RowRoundTrip | tools/eq3_campaign_fieldcodec_native.cpp:257-299 | a row record decodes to the same line and to the encoder's next frame |
| CodecRecords.RecordRoundTrip | tools/eq3_campaign_fieldcodec_native.cpp:425-464 | every record decodes to its line and the encoder's next frame, except a literal longer than the decoder's limit |
| CodecRecords.RecordIsPrefix | tools/eq3_campaign_fieldcodec_native.cpp:425-464 | bytes after a complete record do not change how it decodes |
| CodecLayout.RowRecordIsLaid | tools/eq3_campaign_fieldcodec_native.cpp:284-296 | the record written for row r is the letter D and per cell, in four bytes with the least significant first, the value less that of row r - ny, or the value itself in the first frame; refused exactly when such a change does not fit |
| CodecLayout.RemembersNext | tools/eq3_campaign_fieldcodec_native.cpp:284-296 | the stored frame is always the last ny rows, each at its place, and zero where none has come |
| CodecLayout.EncoderWritesTheLayout | tools/eq3_campaign_fieldcodec_native.cpp:257-299 | a stream is accepted, with a given output, exactly when that output is the records of its lines: the letter L, length and bytes of each copied line, and the changes of each row |
| CodecLayout.DecodedEncodes | tools/eq3_campaign_fieldcodec_native.cpp:425-464 | the encoder gives back the very record a line was decoded from |
| CodecLayout.DecoderReadsTheLayout | tools/eq3_campaign_fieldcodec_native.cpp:425-464 | the decoder accepts exactly the files that are the records of whole frames of lines within the limit, and hands out those lines |
| Codec.ChunksDoNotMatter | tools/eq3_campaign_fieldcodec_native.cpp:185-203 | the native encoder's verdict and records depend only on the concatenation of what is fed |
| Codec.NativeIsBounded | tools/eq3_campaign_fieldcodec_native.cpp:185-203 | on streams whose lines all fit the limit the native encoder does what an unbounded one would, and it refuses every other stream |
| Codec.EncodersAgree | tools/eq3_campaign_fieldcodec.py:42-76 | on streams whose lines all fit the limit both encoders accept the same inputs with the same records |
| Codec.NativeRoundTrip | tools/eq3_campaign_fieldcodec_native.cpp:185-224 | for every byte stream the native encoder accepts, in any chunks, decoding its records yields the same bytes |
| Codec.FinishedDecodes | tools/eq3_campaign_fieldcodec_native.cpp:205-224 | for any bytes fed, the file is there exactly for whole lines and the rows of whole frames, and decodes to those bytes |
| Codec.LinesAreCut | tools/eq3_campaign_fieldcodec.py:45-46 | cutting at line feeds: each line ends with its only one, and the rest has none |
| Codec.PythonRoundTrip | tools/eq3_campaign_fieldcodec.py:42-150 | for every stream the Python encoder accepts, decoding yields the same bytes if and only if every literal line fits the limit |
| CodecCanonical.AcceptedRows | tools/eq3_campaign_fieldcodec_native.cpp:257-299 | every canonical rendering of in-range values is accepted as a row |
| CodecCanonical.RefusedRows | tools/eq3_campaign_fieldcodec_native.cpp:271-282 | a row is refused when it is not a canonical rendering |
| CodecCanonical.LongCommentIsLost | tools/eq3_campaign_fieldcodec.py:42-76 | a concrete comment one byte over the limit is accepted by the Python encoder and its record is refused by the decoder |
| CodecCanonical.PythonLosesAStream | tools/eq3_campaign_fieldcodec.py:42-150 | so there is a whole stream that the Python encoder accepts and its decoder rejects |
| CodecEngine.NativeEncoder.WriteDeltas | tools/eq3_campaign_fieldcodec_native.cpp:285-296 | the in-place loop writes the deltas and leaves the previous frame equal to the row's values, or fails exactly when a delta leaves 32-bit range |
| CodecEngine.NativeEncoder.EncodeLine | tools/eq3_campaign_fieldcodec_native.cpp:257-299 | one line in place: record, row count and previous frame as specified, refused exactly when the specification refuses |
| CodecEngine.NativeEncoder.Feed | tools/eq3_campaign_fieldcodec_native.cpp:185-203 | refused after the end; otherwise the chunk loop is byte-by-byte feeding, the bytes fed so far grow by the chunk, and the output is laid out as the file of the lines completed so far |
| CodecEngine.NativeEncoder.Finish | tools/eq3_campaign_fieldcodec_native.cpp:205-224 | given exactly once, and only if the bytes fed end with a line and hold the rows of whole frames; the result is laid out as the file of their lines, and decoding it gives back all bytes fed |
| CodecEngine.NativeDecoder.ApplyDeltas | tools/eq3_campaign_fieldcodec_native.cpp:433-443 | the in-place loop adds the deltas to the previous frame, or fails exactly when a value leaves 32-bit range |
| CodecEngine.NativeDecoder.DecodePending | tools/eq3_campaign_fieldcodec_native.cpp:425-464 | the record at the front is decoded in place exactly as specified, or more bytes are asked for |
| CodecEngine.NativeDecoder.Next | tools/eq3_campaign_fieldcodec_native.cpp:355-370 | the next line is the next line of the decoded stream, however the bytes arrive; the end only after whole frames, when the bytes read are laid out as the file of the text handed out; every call after it is refused |
| CodecEngine.SplitLines | tools/eq3_campaign_fieldcodec.py:45-46 | splitting at line feeds gives the lines and the unfinished rest |
| CodecEngine.PythonEncoder.Feed | tools/eq3_campaign_fieldcodec.py:42-76 | splitting a chunk into lines and encoding each is feeding the chunk; the output is laid out as the file of the lines completed so far |
| CodecEngine.DecodedLines | tools/eq3_campaign_fieldcodec.py:89-150 | the decoding loop yields exactly the text of which the record stream is laid out as the file, and fails when there is none |
| Crossing.UpwardMonotone | tools/eq3_acceptance_v3.py:137-144 | an upward straight-segment crossing comes later the lower either end lies |
| Crossing.SideIsCertainty | tools/eq3_acceptance_v3.py:112-117 | a sample is certainly below or above exactly when every value within half a quantum is, and undecided exactly when the threshold is such a value |
| Crossing.CornersBound | tools/eq3_acceptance_v3.py:137-150 | the four corners bound the crossing time over the whole quantization box |
| Crossing.CornersAreTight | tools/eq3_acceptance_v3.py:137-150 | floor and ceiling of the extreme corners enclose every time at which the straight line between true values can cross, and some such time lies within a nanosecond of each end |
| Crossing.TightestIsUnique | tools/eq3_acceptance_v3.py:149-150 | only one interval does that |
| CrossingEvents.BracketsAreExact | tools/eq3_acceptance_v3.py:128-151 | events are reported for exactly the consecutive certain samples on opposite sides |
| CrossingEvents.BracketsOnValues | tools/eq3_acceptance_v3.py:128-151 | a pair of samples has an event exactly when one is certainly below and the other certainly above the threshold and all between are undecided |
| CrossingEvents.EventsAlternate | tools/eq3_acceptance_v3.py:133-151 | events alternate in direction and each interval ends before the next begins |
| CrossingEvents.EventsAreReal | tools/eq3_acceptance_v3.py:133-151 | every trace within half a quantum is on opposite sides at the ends of an event's bracket, in the reported direction, and between adjacent samples its straight segment crosses within the reported interval |
| CrossingEvents.EventsAreTight | tools/eq3_acceptance_v3.py:133-151 | every event has the direction of its samples, the tightest interval around the crossings they allow, and the bridged mark exactly when samples lie between |
| CrossingEvents.UndecidedIsAccounted | tools/eq3_acceptance_v3.py:129-166 | every undecided sample lies in an event's bracket or in a reported indeterminate interval |
| CrossingEvents.GapsAreExact | tools/eq3_acceptance_v3.py:152-166 | an indeterminate interval is reported exactly for an undecided stretch that returns to the side it left or is the first, for one that lasts to the end, or for the whole trajectory |
| CrossingEvents.CornerTimes | tools/eq3_acceptance_v3.py:137-146 | no corner is skipped, so the assertion on an empty list cannot fail |
| CrossingEvents.ExtractEvents | tools/eq3_acceptance_v3.py:120-167 | the loop reports exactly the brackets as events, numbered in order, each with its direction, the tightest interval of whole nanoseconds around every crossing its values allow, and whether undecided samples lie between; and exactly the specified indeterminate intervals |
| ErrorIntegral.SegmentIsIntegral | tools/eq3_acceptance_v3.py:254-258 | the area formula times the slope is the difference of a primitive of the absolute value, so it is the integral |
| ErrorIntegral.SegmentSplits | tools/eq3_acceptance_v3.py:254-258 | splitting a segment at a point on it leaves its area unchanged |
| ErrorIntegral.AreaRefines | tools/eq3_acceptance_v3.py:252-258 | the area of a piecewise linear error is the same over every finer grid |
| ErrorIntegral.MaxRefines | tools/eq3_acceptance_v3.py:261-263 | so is the maximum of anything that peaks at the ticks |
| ErrorIntegral.AreaBound | tools/eq3_acceptance_v3.py:259-263 | the area is at most duration times the largest absolute error |
| WindowScore.Interpolate | tools/eq3_acceptance_v3.py:233-241 | the two searches find the value of the piecewise linear trace, and fail exactly outside it |
| WindowScore.RefinedIsSame | tools/eq3_acceptance_v3.py:233-241 | a trace with added on-trace samples is the same function of time |
| WindowScore.MeanIsBelowMaximum | tools/eq3_acceptance_v3.py:259-263 | the mean error is nonnegative and never exceeds the maximum error |
| WindowScore.ScoreIsVerdict | tools/eq3_acceptance_v3.py:259-264 | mean times duration is the area; maximum and amplitude are the largest error and the largest difference of reference temperatures over the whole window; it passes exactly when the mean is at most 1 and at most 0.25 plus 0.05 of the amplitude and, at a hotspot or control, the maximum at most 2 |
| WindowScore.RefinementInvariance | tools/eq3_acceptance_v3.py:244-264 | adding on-trace samples to either or both traces changes neither area, mean, amplitude, maximum error nor verdict |
| WindowScore.InsertTick | tools/eq3_acceptance_v3.py:248-249 | a time is put into a sorted grid once |
| WindowScore.CollectTicks | tools/eq3_acceptance_v3.py:248-249 | the grid gains exactly the sample times strictly inside the window |
| WindowScore.Integrate | tools/eq3_acceptance_v3.py:252-258 | the accumulating loop computes the area over the grid |
| WindowScore.ScoreWindow | tools/eq3_acceptance_v3.py:244-269 | refused exactly when the window begins before or ends after either trace; otherwise the score over the grid of window ends and sample times, whose mean, largest error, swing and verdict are those of the window |
| Publication.Generation.PublishExact | adapters/vllm/auto_prepare_ptx.py:348-356 | a missing file is written through a temporary, even one left over, and an atomic replace, an equal one is left alone, a differing one is refused; every intermediate state is recorded |
| Publication.Generation.PreflightExact | adapters/vllm/auto_prepare_ptx.py:359-361 | passes exactly when no planned file exists with other content |
| Publication.Generation.CheckGenerationDirectory | adapters/vllm/auto_prepare_ptx.py:364-371 | passes exactly when the directory is empty or has its marker |
| Publication.Generation.VerifyCompletion | adapters/vllm/auto_prepare_ptx.py:374-414 | accepts exactly when marker, both manifests, all artifact digests and the PTX set agree |
| Publication.Generation.PublishArtifacts | adapters/vllm/auto_prepare_ptx.py:592-594 | all artifacts are published, nothing is written if they are in place, and every intermediate state has the marker that was there before, or none |
| Publication.Generation.Stage | adapters/vllm/auto_prepare_ptx.py:582-596 | refused exactly for an interrupted directory or a differing file, and then no file changes; otherwise the plan is laid over the files, and nothing is written if it was in place. Crash safety over the recorded states: with any torn write a consumer accepts a state only if it holds the whole plan (collision-free hash), and from an empty generation only the final state |
| Publication.AcceptedIsComplete | adapters/vllm/auto_prepare_ptx.py:374-414 | with a plan's marker in place, verification accepts exactly when the directory holds the planned artifacts and PTX files (collision-free hash) |
| Publication.DisagreementIsRefused | adapters/vllm/auto_prepare_ptx.py:387-413 | verification refuses exactly when status, manifest digest, pass path, pass digest, one artifact digest or the PTX set disagrees |
| Publication.MarkerBindsFiles | adapters/vllm/auto_prepare_ptx.py:387-413 | two accepted directories with the same marker hold the same manifests, PTX names and vouched files (collision-free hash) |
| Publication.FreshIsComplete | adapters/vllm/auto_prepare_ptx.py:582-596 | the plan laid over an empty generation is complete and verification accepts it |
| Publication.TemporariesDoNotMatter | adapters/vllm/auto_prepare_ptx.py:348-356 | a temporary file, whole or torn, makes no difference to verification |
| Publication.LeftoversStopPublication | adapters/vllm/auto_prepare_ptx.py:364-371 | without a marker one file or leftover in the generation directory stops every later publication, and nothing outside it does |
| Publication.PublishIsOverlay | adapters/vllm/auto_prepare_ptx.py:588-595 | publishing a plan file by file lays it over the files, whatever temporary names were left over |
| Publication.CrashIsSafe | adapters/vllm/auto_prepare_ptx.py:374-414 | a state with no marker or the plan's own, torn in any way, is accepted only if it holds exactly the planned artifacts and PTX set (collision-free hash) |
| Publication.RerunChangesNothing | adapters/vllm/auto_prepare_ptx.py:348-356 | publishing what is already in place leaves the files as they are |

## Left out

- MQSim, the linear solver's factorization and zlib themselves: foreign code, replaced by the contracts above.
- Floating point: rounding, finiteness checks and the tolerance constants; `HbmRun` and `Fabric` durations are the exact ceilings.
- Configuration normalization (`_normalize`, `engineering_fixture`, `_validate_request`) beyond what the operations themselves check: lists of single-branch rejections.
- SystemRun.BasicSystem.TryHbfSubmit: the payload and the copied decision; a rejection or a past target is raised by its two callers. What an exception leaves in the records and the fabric is not promised.
- The search for the unique MQSim media callback at the reported time: the device reports that time by contract.
- The aliases `reserve_hbf` and `mark_hbf_ready`, copies of logs and snapshots, and the fact, evidence and energy fields of events: only the fields the properties need are kept.
- The binary-heap layout of `heapq`: only the order in which entries are popped.
- The media fact log of `BasicHbm` and its energy fields.
- SystemRun.BasicSystem.constructor: the fabric and the servers inside the system are values; that their objects behave as those values is proved separately in `FabricEngine` and `HbmEngine`.
- SystemRun.BasicSystem.Run: for several requests of which some are late, whether the deadlock error is met depends on MQSim's times and other traffic; there the exact condition is that of `Round`. The real MQSim service also refuses deadlines past 64 bits, which the contract does not.
- `network` in the exporter (edge and boundary conductances from materials) and the geometry checks of the layered IR: the thermal results hold for every valid network.
- RcFiles.BuildCap: types and finiteness of the fields of a grid file.
- RcReference.ReferenceValues: the floorplan, layout and stack text around the power values.
- DomainInput.DeriveAll: the list of allowed trace names, the number of groups and copying the other fields of the power file.
- Diagnostics, JSON and CSV output of the RC runner, and the minimum and maximum temperatures it reports.
- The codec's file header, compression level, physical end of file and digests.
- Crossing and window matching between two traces (`crossing_score`, `_window_assignment`): comparisons of the events extracted here.
- CrossingEvents.EventsAreReal: for an event bridged over undecided samples the reported interval is that of the straight segment between the certain samples; only the bracket is claimed.
- Publication.Generation.Stage: the pass manifest lies outside the generation directory, and choosing and transforming the PTX modules is not modelled; JSON documents are given by what the verifier reads.
- Process supervision, launch scripts, sweeps, plotting, gates and the vLLM and CUDA adapters.
