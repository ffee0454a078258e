# A verified model of the pool

A leaderless pool of devices serves one language model together. The model is cut into stages of
contiguous layers; every device holds some stages, knows the others by gossip, and routes questions
through one copy of each stage, keeping per-request caches on the way. This project models that
machinery and proves what it is for.

* `ShardPlan`, `WeightedPlan`: cutting the model. Weighted plans are Hamilton apportionment with a
  guaranteed layer each.
* `CausalModel`: the reference. A layer is any function of the inputs up to its position, a codec any
  position-wise pair of functions, a choice any function of the last scores and the sampling rule.
* `Shard`, `Service`, `Client`, `Network`, `Chain`, `PoolRunner`: decoding through cached shards. One
  joint invariant (every session not left half advanced is the shard's slice of a prefix of the text
  sent under its id) carries the proof that failover never changes an answer; a tally of everything
  that went wrong shows that nothing is ever retried without a cause.
* `LoadBook`: the in-flight book-keeping, over any interleaving of requests.
* `Members`, `Gossip`: the replicated table and N devices gossiping over an unreliable network.
* `Placement`, `Allocator`: who should hold what: first the function and its guarantees, then the
  loops that compute it.
* `Handover`, `Hosting`, `Daemon`: one device's beat, and many devices handing stages over.
* `Router`: choosing copies, and how many lost devices the pool survives.
* `Owner`, `Perplexity`: the hysteresis monitor and the sliding-window scorer.

Classes are used where the program updates objects in place; their methods are proved against
functions on values, and the theorems are about those functions or about runs of them.

Where the code and its description differ, the model follows the code:

* A stride of the chunk size or more is described as non-overlapping chunking; it misses every
  position whose remainder by the stride is 0 or at least the chunk size (`Perplexity.IsScoredIff`,
  `Perplexity.EveryTargetOnceIff`; an input: `Perplexity.NonOverlappingChunksLoseTargets`).
* When a wait for a new route runs out, the route already left is released a second time.
  `LoadBook.ExhaustedWaitIsExactIff` says when that matters, `LoadBook.DoubleReleaseUndercounts` is a
  run where it does.
* The second exchange of one beat still pushes the table as it was before the first.
  `Gossip.ExchangeLevelsBothSides` says when both sides nevertheless end up equal,
  `Gossip.SecondExchangeMayNotLevel` is a run where they do not.
* A stage that failed between a device's publish and its reconcile is started again at once, before
  its cooldown, because the row the plan was made from still shows it loading.
  `Handover.FailureIsRetriedIff` says exactly when, `Handover.RetriedInsideTheCooldown` is a run.
* The trailing scores asked for are all the scores when the chain has one hop, since the first hop is
  never told how many (`Chain.ChainRunner.Forward`).
* A reconcile that has read a draining state goes on stopping stages after the owner is back.
  `Handover.BeatLowersActiveCopiesIff` says exactly when an active device loses a copy that way,
  `Handover.OwnerBackInTheMiddle` is a run.

Check everything with `dafny verify dfyconfig.toml`.

## Model

| member | source | states |
|---|---|---|
| ShardPlan.ValidatePlan | src/torrent_llm/shard/plan.py:171-194 | returns true exactly for plans that are non-empty, start at layer 0, end at the last layer and join without gap or overlap under consecutive indices |
| ShardPlan.AcceptedCoversEveryLayerOnce | src/torrent_llm/shard/plan.py:171-194 | in a plan that passes, every layer of the model is owned by one shard and by only one |
| ShardPlan.PlanEven | src/torrent_llm/shard/plan.py:57-79 | errors exactly for fewer than one shard or more shards than layers; otherwise shard i has index i and is base or, for the first remainder ones, base + 1 layers wide, and the plan passes validation |
| ShardPlan.EvenWidthsAreBalanced | src/torrent_llm/shard/plan.py:60-62 | even widths sum to the model, differ by at most one, and earlier shards are never shorter |
| ShardPlan.EvenPlanIsAccepted | src/torrent_llm/shard/plan.py:72-79 | the even widths sum to the model and lay out as a valid, accepted plan |
| ShardPlan.LaidAsAsked | src/torrent_llm/shard/plan.py:144-149 | laid out, shard i is exactly as wide as was asked for it and starts where the one before it ends |
| ShardPlan.ExplicitPlansAreAccepted | src/torrent_llm/shard/plan.py:152-168 | cut points strictly inside the model give an accepted plan whose shards end at exactly those cuts |
| WeightedPlan.PlanWeighted | src/torrent_llm/shard/plan.py:82-149 | the three refusals in order of precedence; otherwise the plan lays out the apportioned widths, passes validation, and a heavier node's shard is never narrower than a lighter one's |
| WeightedPlan.GiveOutLeftovers | src/torrent_llm/shard/plan.py:128-138 | the leftover loop computes floors plus one layer for each of the largest remainders |
| WeightedPlan.LayOut | src/torrent_llm/shard/plan.py:144-149 | the cursor loop lays widths end to end without gap |
| WeightedPlan.WidthsPartitionTheModel | src/torrent_llm/shard/plan.py:121-149 | widths sum to the number of layers, each is at least one, and the laid-out plan is accepted |
| WeightedPlan.ExtraIsFloorOrCeiling | src/torrent_llm/shard/plan.py:127-138 | what a node gets beyond its guaranteed layer is its exact share rounded down or up (the quota rule) |
| WeightedPlan.LeftoversFollowRemainders | src/torrent_llm/shard/plan.py:131-138 | a leftover layer never passes over a larger fractional remainder, nor an equal one earlier in the list |
| WeightedPlan.BiggerShareNeverFewer | src/torrent_llm/shard/plan.py:127-138 | a bigger exact share, or an equal one earlier in the list, never gets fewer extra layers |
| WeightedPlan.HeavierNeverFewer | src/torrent_llm/shard/plan.py:85-88 | more weight, or equal weight earlier in the list, never means fewer layers |
| WeightedPlan.HeavierIsNeverNarrower | src/torrent_llm/shard/plan.py:140-149 | the same of the shards as laid out: the heavier node gets at least as many layers, none gets an empty shard |
| WeightedPlan.ScalingChangesNothing | src/torrent_llm/shard/plan.py:85-86 | multiplying every weight by one positive factor leaves every width unchanged |
| WeightedPlan.EqualWeightsAreEven | src/torrent_llm/shard/plan.py:131-142 | equal weights give exactly the widths of the even split |
| CausalModel.OutIsCausal | src/torrent_llm/shard/runtime.py:145-151 | the output of a layer at a position is the same for any two texts that agree up to it, through the whole sharded stack |
| CausalModel.DecodeIs | src/torrent_llm/runner/chain.py:292-329 | what the reference decodes: the text, then tokens each chosen after all before it under the rule seeded for its step, none of them a stop; up to the budget, or to where a stop token was chosen |
| CausalModel.LosslessIn | src/torrent_llm/shard/runtime.py:185-200 | with exact codecs, every layer sees and produces the same values wherever the model is cut |
| CausalModel.LosslessDecode | src/torrent_llm/runner/chain.py:253-291 | with exact codecs, any two valid plans of one model decode to the same ids; the one-shard plan is the single machine |
| Shard.ForwardLayers | src/torrent_llm/shard/runtime.py:185-194 | the loop over the layers, mutating the request cache, computes the recursive reference |
| Shard.StepLayerAdvances | src/torrent_llm/shard/runtime.py:161-194 | a layer fed new positions over a cache of the first n extends it to exactly the cache of all of them, and its outputs equal those of recomputing from scratch |
| Shard.RunLayersAdvances | src/torrent_llm/shard/runtime.py:161-200 | the same for a shard's whole slice, leaving cache entries of every other layer untouched |
| Service.SessionStore.GetOrCreate | src/torrent_llm/transport/sessions.py:47-64 | hands out the cache of a session idle for no longer than the limit, an empty one otherwise, touches it, and sweeps exactly the others idle for longer |
| Service.SessionStore.Drop | src/torrent_llm/transport/sessions.py:66-69 | removes exactly this session, present or not |
| Service.SessionStore.EvictExpired | src/torrent_llm/transport/sessions.py:71-84 | a session stays, unchanged, exactly if it has been idle for no longer than the limit |
| Service.ShardService.Forward | src/torrent_llm/transport/server.py:88-167 | one call, with its outcomes (refused, wrong input, given out half-way, too large to send, answered), leaves the session table and gives the reply of the reference function |
| Service.Trim | src/torrent_llm/transport/server.py:275-284 | what is returned is the tail of the scores, of the length asked for unless that is non-positive or too long |
| Service.LengthCheckIsEnough | src/torrent_llm/transport/server.py:102-106 | if a session holds some prefix of the text sent under its id and a call carries the text from n, a reply means the session held exactly the first n positions, the answer (hidden states, the chosen token, or every row of scores asked for) is right, and the session now holds n plus what was sent, or is gone if the call ended the request; a refusal keeps the session right |
| Service.LiveSessionIsServed | src/torrent_llm/transport/server.py:94-167 | the other half: a call that brings something, whose session has been idle for no longer than the limit and stands where it says, is answered if every layer runs and the answer fits, and leaves the session that much further on |
| Service.RefusedIff | src/torrent_llm/transport/server.py:96-112 | a cached call is refused exactly when it says where it expects its session and that is elsewhere, a session idle for longer than the limit being at 0; a refused call moves nothing, and every cached call counts as activity |
| Service.ExpiredSessionIsGone | src/torrent_llm/transport/sessions.py:71-84 | a session idle for longer than the limit is gone after any cached call; its own next call is refused unless it starts over |
| Service.OtherSessionsUntouched | src/torrent_llm/transport/sessions.py:54-64 | a call leaves another session wholly unchanged and present exactly if it was and, for a cached call, has been idle for no longer than the limit |
| Service.SliceAdvances | src/torrent_llm/shard/runtime.py:145-151 | a shard whose cache is its slice of the single-machine cache at n still has it after more positions, and its layer indices stay its own |
| Service.SliceSurvivesGrowth | src/torrent_llm/transport/server.py:150-167 | what a session holds stays right when the text under its id grows |
| Service.ShardCachesTileTheMonolith | src/torrent_llm/shard/runtime.py:145-151 | with exact codecs each layer's single-machine cache sits in exactly one shard's cache, which has it in full |
| Client.ReplyTravelsUntouched | src/torrent_llm/transport/client.py:171-184 | the reply of any shard but the last always passes the forward-untouched test at the next hop, so it is compressed once per boundary however lossy the codec |
| Client.OneTripPerBoundary | src/torrent_llm/transport/client.py:172-183 | what the next shard computes from is the previous shard's output after exactly one trip through the codec; decoded and encoded again on the way it would be two, and the same states only if each survives the second |
| Network.Fleet.Execute | src/torrent_llm/transport/server.py:88-148 | a call that carries the right text on a live id keeps every session right unless it dies half-way, which is recorded; a reply is the right answer; unless a fault is counted, a call whose session stands where it says is answered and every other session in use stays where it is; an answered call that ends its request leaves no session of it there, and no other call opens one under its id |
| Network.Fleet.Interfere | src/torrent_llm/transport/sessions.py:71-84 | time, restarts, other requesters' calls and late executions of abandoned calls keep every session right and never endanger an id still in use; unless a fault is counted, every session in use stays where it is; nobody opens a session under it |
| Network.Fleet.Restart | src/torrent_llm/transport/server.py:150-167 | a server that forgets everything keeps the invariant, and is counted as a fault if it held a session in use |
| Network.Fleet.Foreign | src/torrent_llm/transport/sessions.py:47-64 | calls under other requesters' ids, whatever they carry, keep the invariant, and are counted as a fault only if they sweep out a session in use |
| Network.Fleet.RunLate | src/torrent_llm/transport/server.py:88-148 | a call the requester gave up on may still run, once, without touching any id in use |
| Network.Fleet.OpenId | src/torrent_llm/pool/runner.py:309-311 | a fresh id has no session, no late call and no half-done step anywhere, and was not used before |
| Network.Fleet.Extend | src/torrent_llm/runner/chain.py:327-328 | the text under an id grows without invalidating any session |
| Network.Fleet.Call | src/torrent_llm/pool/hosting.py:66-78 | a call may be lost, refused, run, run and its reply lost, or left behind; a reply is right, only a call that starts a question is refused as busy, and without a fault counted a call that finds its session where it says is answered |
| Chain.ChainRunner.Forward | src/torrent_llm/runner/chain.py:118-214 | a pass that returns gives the reference's next token, or its scores at exactly the trailing positions asked for (all of them over a single hop, which is never told how many); errors name the hop; busy only when the expected position is 0 or nothing is cached; without a fault, a pass on sessions that stand where it says is answered and, unless it ends the request, leaves all of them at the end of the text; one that ends the request leaves nothing on the route |
| Chain.ChainRunner.NextToken | src/torrent_llm/runner/chain.py:306-323 | sampling on the last shard and choosing locally from its scores give the same token; without a fault there is one, and unless it is the last step every session stands at the end of the text |
| Chain.ChainRunner.Generate | src/torrent_llm/runner/chain.py:243-329 | with or without the cache, sampled there or here, the ids are those of the cache-free single-run reference, and the positions sent per step are as stated by SentLengths; without a fault a non-empty prompt is answered; a cached run to its budget leaves no session on the route |
| Chain.PositionsPerHop | src/torrent_llm/runner/chain.py:255-266 | n steps from a prompt of p send p+n-1 positions per hop cached and n*p+n(n-1)/2 uncached |
| PoolRunner.PoolRunner.AwaitRoute | src/torrent_llm/pool/runner.py:164-177 | returns the route the router makes of the rows alive and the counts in the book, at the first try at which every stage has a copy, round the avoided devices exactly when that can be done; none only if no try up to the deadline has one |
| PoolRunner.PoolRunner.BeginAgain | src/torrent_llm/pool/runner.py:304-311 | a new route, chosen as above and charged on top of the counts it was chosen by, always comes with an id that is new and that nothing in the pool has seen, holding the text so far |
| PoolRunner.PoolRunner.SwitchRoute | src/torrent_llm/pool/runner.py:281-341 | a hop that refused as full costs one busy retry, any other failure one failover, noted with its step and hop; its device joins those avoided and, if the call was lost, is marked unreachable; the request is given up only over budget or without a route, and its line in the book is then settled; else it has a route it stands at the start of |
| PoolRunner.PoolRunner.Reroute | src/torrent_llm/pool/runner.py:328-334 | the old route is released before the new one is awaited and charged; if none comes, it is released once more |
| PoolRunner.PoolRunner.Pass | src/torrent_llm/pool/runner.py:267-282 | a pass that returns gives the reference's next token, while other requests use the book; only a pass from position 0 is refused as busy; without a fault a pass on sessions that stand where it says returns and, unless it is the last step, leaves them all at the end of the text; the last step leaves nothing on the route |
| PoolRunner.PoolRunner.Round | src/torrent_llm/pool/runner.py:262-343 | one turn of the loop: a token with nothing counted, or one more retry with a fault of its own to account for it |
| PoolRunner.PoolRunner.Generate | src/torrent_llm/pool/runner.py:225-386 | whatever is lost, refused, evicted, restarted or run late, whatever the load book says and other requests do to it, any answer equals the failure-free cache-free run with the same stops and per-step sampling; there are at most as many retries as faults, so without a fault and with a first route the answer comes with no retry at all; passes are indexed by step, are prefills of prompt+i exactly when first or recovering, else one position, and are recoveries exactly when a hop was lost at their step; retry budgets are exact, including which one an error exhausted; run to its budget it leaves no session on the route it ended on; it terminates; and it releases a route twice exactly when it gives up between routes, else leaves an exact book exact unless somebody else did |
| PoolRunner.StaysOnTrack | src/torrent_llm/pool/runner.py:360-380 | recording a pass and appending its token keeps the run on the way to the reference answer, or ends it there on a stop token |
| PoolRunner.PassCounts | src/torrent_llm/pool/runner.py:360-380 | after a pass the caches stand just before the new token, which is all that is sent next |
| PoolRunner.ToldPass | src/torrent_llm/pool/runner.py:364-374 | recording a pass, and noting it if it was a recovery, keeps the record exact |
| LoadBook.Book.Charge | src/torrent_llm/pool/runner.py:208-211 | the loop adds the change to every address on the route, never going below zero |
| LoadBook.Book.CleanUp | src/torrent_llm/pool/runner.py:382-384 | the release every request ends with, whatever the counts: from an exact book, exact if the request is still on that route, and if it had left it, exact only when nobody else is on it |
| LoadBook.Book.Others | src/torrent_llm/pool/runner.py:208-211 | any other requests, giving up between routes included: the book stays bounded by what was released twice, and exact if it was and nothing was |
| LoadBook.StepKeepsBounds | src/torrent_llm/pool/runner.py:256-334 | every step keeps each count at most the requests in flight and at least that minus what was released twice |
| LoadBook.TakingAddsOneEach | src/torrent_llm/pool/runner.py:208-211 | taking a route adds one per time an address occurs on it and nothing elsewhere |
| LoadBook.ReleasingClamps | src/torrent_llm/pool/runner.py:208-211 | releasing subtracts the same, clamped at zero |
| LoadBook.StepKeepsTheBook | src/torrent_llm/pool/runner.py:256-334 | taking, leaving and finishing keep every address at the number of unfinished requests routed through it, without the clamp ever acting |
| LoadBook.RunsKeepTheBook | src/torrent_llm/pool/runner.py:382-384 | so does any interleaving of any number of requests, and all loads are zero once all are done |
| LoadBook.ExhaustedWaitIsExactIff | src/torrent_llm/pool/runner.py:328-334 | giving up while waiting releases the left route a second time, which is harmless exactly when no unfinished request runs through it |
| LoadBook.DoubleReleaseUndercounts | src/torrent_llm/pool/runner.py:328-334 | two requests on one address, one of them given up between routes: the count is 0 while a request is still there |
| LoadBook.RunsNeverOvercount | src/torrent_llm/pool/runner.py:208-211 | over any run, double releases included, no address is ever counted too high, nor too low by more than what was released twice, and all is zero once all are done |
| Members.MemberTable.SetSelf | src/torrent_llm/pool/members.py:156-161 | replaces the owner's row and nothing else; refused for any other name |
| Members.MemberTable.Merge | src/torrent_llm/pool/members.py:163-188 | folds rows by stamp, names exactly the entries that changed, all of them newer than before, stamps their arrival, leaves the rest alone, and records exactly the clashing addresses |
| Members.MemberTable.Fold | src/torrent_llm/pool/members.py:172-187 | one row is taken exactly when it is somebody else's and unknown, or of a later incarnation, or of the same one with a higher heartbeat; an address is recorded as a clash exactly when a row in my name comes from elsewhere |
| Members.MemberTable.Rows | src/torrent_llm/pool/members.py:197-200 | every known row once, in name order |
| Members.MemberTable.AliveRows | src/torrent_llm/pool/members.py:217-219 | exactly the rows this reader judges alive, once each, in name order |
| Members.MemberTable.MarkUnreachable | src/torrent_llm/pool/members.py:229-240 | the device reads as down from now until its next advance; no row and nobody else's liveness changes; the owner cannot be marked |
| Members.MemberTable.SilenceIsNoticed | src/torrent_llm/pool/members.py:202-215 | a silent device goes from alive to suspect to down at the two thresholds and never back; a departed one is down, the owner is alive |
| Members.MergeKeepsTheNewest | src/torrent_llm/pool/members.py:163-188 | after merging, each other device's row is one of those offered and none offered is newer |
| Members.MergeIsOrderFree | src/torrent_llm/pool/members.py:9-13 | with one writer per row, only which rows arrived matters: not their order nor how often |
| Members.MergeIsAJoin | src/torrent_llm/pool/members.py:9-13 | merging commutes and hearing rows again teaches nothing |
| Members.MergeInTwoParts | src/torrent_llm/pool/members.py:163-188 | two merges equal one merge of both |
| Members.MergingATable | src/torrent_llm/pool/members.py:163-188 | the row loop over another device's table computes the pointwise table merge |
| Gossip.StepKeepsInv | src/torrent_llm/pool/daemon.py:240-295 | under loss, duplication, reordering and restarts: every row anywhere was published by its owner, name and stamp determine the row, no stamp exceeds its owner's, a LEFT row is only followed by LEFT rows in its incarnation |
| Handover.StepsAreGossip | src/torrent_llm/pool/daemon.py:240-265 | each step of a device is one the gossip allows: its publish, whose row is LEFT if the last one was, or nothing |
| Handover.LeftIsForGood | src/torrent_llm/pool/daemon.py:354-368 | no step leads out of LEFT |
| Handover.GossipLeavesTheOwnRow | src/torrent_llm/pool/members.py:172-182 | nothing others do changes the row a device has of itself |
| Gossip.RowsOnlyMoveForward | src/torrent_llm/pool/members.py:183-187 | a device's view of another never goes back, and never from LEFT to anything else within an incarnation |
| Gossip.PublishedRowsAreDetermined | src/torrent_llm/pool/members.py:9-13 | in every reachable pool a name and a stamp determine the row among any published rows, so merging them is order-free |
| Gossip.ReceivingInEitherOrder | src/torrent_llm/pool/daemon.py:292-295 | two messages received in either order leave the whole pool in the same state |
| Gossip.NewsArrives | src/torrent_llm/pool/daemon.py:269-295 | after a device's last publish, everyone reached by a time-ordered chain of messages holds exactly its last row, whatever else happens |
| Gossip.ExchangeLevelsBothSides | src/torrent_llm/pool/daemon.py:269-278 | an exchange leaves both tables equal exactly when the sender knows nothing newer than both its digest and the receiver; a digest taken just before always does |
| Gossip.SecondExchangeMayNotLevel | src/torrent_llm/pool/daemon.py:269-278 | a run from the empty pool in which one beat's second exchange, with the digest taken before the first, leaves the two tables different |
| Placement.WantedExtends | src/torrent_llm/pool/placement.py:34-78 | both phases terminate, each only adds, each stops with no stage left that it could place |
| Placement.PlacementIsSticky | src/torrent_llm/pool/placement.py:37-40 | held stages stay wanted, inactive devices get nothing, nobody is given more than its slots beyond what it holds, nothing new is outside the known stages or failed there |
| Placement.ThinMeansNobodyCan | src/torrent_llm/pool/placement.py:50-74 | a stage still below its copies in the answer has no active device with room that neither holds it nor failed it |
| Placement.UncoveredComesFirst | src/torrent_llm/pool/placement.py:53-74 | while some stage has no copy and somebody could take it, the next placement goes to a stage without one |
| Placement.EnoughRoomCoversEverything | src/torrent_llm/pool/placement.py:50-74 | with no failed loads and at least as many spare slots as uncovered stages, every stage of the model gets a copy |
| Placement.FillStopsAtEnough | src/torrent_llm/pool/placement.py:53-56 | filling never takes a stage beyond the wanted number of copies |
| Placement.SpareRoomIsWorthIt | src/torrent_llm/pool/placement.py:81-110 | the spare phase only adds copies faster than one that was there, and in the end no device with room is faster than the slowest copy of any stage it could take |
| Placement.PlacementIsAFixpoint | src/torrent_llm/pool/placement.py:13-15 | a pool that has done what it was told is told the same again |
| Placement.PlacingIsDetermined | src/torrent_llm/pool/placement.py:64-68 | the tie-breaks leave no choice: any two complete runs of placements by the rule make the same ones in the same order and end in the same plan |
| Placement.NextMeans | src/torrent_llm/pool/placement.py:53-74 | one placement of the fill, with the fields written out: an active device with a free slot that neither holds nor failed the stage; every other such device is slower, or as fast with fewer free slots, or level and later by name; every other stage somebody could take has more copies, or as many and a higher number |
| Placement.SpareNextMeans | src/torrent_llm/pool/placement.py:95-110 | one placement of the spare phase: the device is faster than some copy there is, comes before every other with room in the same order, and no lower stage could have been placed |
| Placement.EveryPickIsBest | src/torrent_llm/pool/placement.py:66-68 | at every placement of any complete run, every other device with room for the stage comes after the one that takes it |
| Placement.StagesGoToTheFastest | src/torrent_llm/pool/placement.py:66-68 | in the answer, whoever has been given a stage is at least as fast as every device that could still take it |
| Placement.BareStageGoesToTheFastest | src/torrent_llm/pool/placement.py:53-74 | a single uncovered stage with one replica wanted goes to the fastest device with room, then the roomiest, then the first by name, and the fill does nothing else |
| Allocator.WantedStages | src/torrent_llm/pool/placement.py:28-78 | the dictionary-updating loops compute that plan from any list of uniquely named rows |
| Allocator.PlanTwice | src/torrent_llm/pool/placement.py:28-78 | two runs of the loops on the same uniquely named rows, listed in any two orders, return equal plans |
| Allocator.HeldStages | src/torrent_llm/pool/placement.py:34-40 | the start of the plan: what active devices hold, nothing for the rest |
| Allocator.CountCopies | src/torrent_llm/pool/placement.py:42-45 | counts holders of every model stage and of every stage held by anyone |
| Allocator.FillThinnest | src/torrent_llm/pool/placement.py:50-74 | the fill loop with its running counts, stage order and tie-breaks |
| Allocator.AddFasterCopies | src/torrent_llm/pool/placement.py:81-110 | the spare-capacity loop |
| Allocator.BestFor | src/torrent_llm/pool/placement.py:59-68 | none exactly when nobody can take the stage (in the spare phase: nobody faster than some copy); else a device with room such that every other is slower, or as fast with fewer free slots, or level and later by name |
| Allocator.LeastOf | src/torrent_llm/pool/placement.py:68-68 | scanning a list from the left and keeping the first least finds the row every other is slower than, or as fast with less room, or level and later by name |
| Handover.StepKeepsDeviceInv | src/torrent_llm/pool/daemon.py:299-323 | every step, inside a reconcile or not and with any rows about others, keeps loading-or-ready stages within the slots, an away device empty, and a departed one departed |
| Handover.ReconciledIsARun | src/torrent_llm/pool/daemon.py:299-323 | a reconcile nobody interrupts is a run of its steps |
| Handover.NeverOverfull | src/torrent_llm/pool/daemon.py:305-323 | hence no run ever exceeds the slots or holds a stage while away |
| Handover.ReconcileMoves | src/torrent_llm/pool/daemon.py:309-323 | an active device takes on exactly what the plan wants of it and lets nothing go, a draining one only lets go, and only a draining one with nothing left goes away |
| Handover.FailureIsRetriedIff | src/torrent_llm/pool/daemon.py:309-312 | a reconcile starts a failed stage again exactly when the row last published is active and does not show the failure yet, cooldown or not |
| Handover.RetriedInsideTheCooldown | src/torrent_llm/pool/daemon.py:309-312 | such a run: published while loading, failed, and started again by the next reconcile with nothing forgotten |
| Handover.DrainEndsWhen | src/torrent_llm/pool/daemon.py:315-323 | a drain ends on exactly the first beat that finds every stage idle and safe; after the grace, idle alone decides, and the device is then empty |
| Handover.DrainLetsGoIff | src/torrent_llm/pool/daemon.py:314-344 | a draining device lets a stage go exactly when it is idle and the grace is over, or enough other active devices have it ready, or some have and every other active device is full or already lists it; else the stage stays exactly as it is |
| Handover.ActLetsGoIff | src/torrent_llm/pool/daemon.py:314-344 | the same for one step of a reconcile interleaved with everything else, by the rows and the state it read |
| Handover.SafeIffMayGo | src/torrent_llm/pool/daemon.py:325-344 | the condition of the code is that one, in terms of slots and listed stages |
| Handover.PublishTellsAll | src/torrent_llm/pool/daemon.py:240-265 | a published row has the state of the device and exactly its stages, each with the status, port and in-flight count it has there |
| Handover.OfferedIffReady | src/torrent_llm/pool/router.py:51-83 | a router that has the published row offers the device for a stage exactly when it is active, not excluded and has the stage ready, at the port it is served on and with at least its load |
| Handover.BeatLowersActiveCopiesIff | src/torrent_llm/pool/daemon.py:299-323 | a step of a reconcile lowers the ready copies on active devices exactly when it stops a ready one on a device that is active although the reconcile read another state |
| Handover.UninterruptedNeverLowers | src/torrent_llm/pool/daemon.py:299-323 | in any run in which no owner comes back in the middle of that device's reconcile, no step of any reconcile lowers the ready copies on active devices |
| Handover.OwnerBackInTheMiddle | src/torrent_llm/pool/daemon.py:299-323 | such a run: past the grace, the rows read, the owner back, and the only copy of an active device stopped |
| Handover.ReleaseLeavesACopy | src/torrent_llm/pool/daemon.py:325-344 | a copy let go within the grace, on copies that are still there, leaves a ready one on another active device, and either enough of them or nobody who could add one |
| Handover.LastCopyGoesIff | src/torrent_llm/pool/daemon.py:170-184 | a step takes the last ready copy of a stage exactly when the only device with one leaves or releases it; with what it counted on still there, it releases it exactly when draining, idle and past its grace |
| Handover.MakeBeforeBreak | src/torrent_llm/pool/daemon.py:325-344 | over any run of N devices in which nobody leaves or crashes and releases happen within the grace and on copies that are still there, a stage that has had a ready copy on a device still in the pool always has one, however long devices stay away |
| Handover.AwayHasNothingToDo | src/torrent_llm/pool/daemon.py:314-323 | a reconcile that found the device away has nothing to stop, whenever it comes |
| Handover.OneRoundSettles | src/torrent_llm/pool/placement.py:3-7 | one round of beats on equal tables settles the pool: the next plan is the same and asks for no further load |
| Hosting.ShardHost.Start | src/torrent_llm/pool/hosting.py:211-225 | begins a new load exactly when the stage is not loading or ready; a failed one is replaced |
| Hosting.ShardHost.Stop | src/torrent_llm/pool/hosting.py:227-241 | forgets exactly this stage |
| Hosting.ShardHost.ForgetOldFailures | src/torrent_llm/pool/hosting.py:243-252 | a stage is forgotten exactly if it failed more than the cooldown ago; nothing loading or ready changes |
| Hosting.ShardHost.Finish | src/torrent_llm/pool/hosting.py:260-290 | the end of a load changes only the attempt still wanted, to ready at its port or to failed now; one stopped since has no effect even if the stage was started again |
| Daemon.PeerDaemon.constructor | src/torrent_llm/pool/daemon.py:139-149 | a device starts active and empty with its own row published |
| Daemon.PeerDaemon.PublishRow | src/torrent_llm/pool/daemon.py:240-265 | writes its own row with the heartbeat one further: its state, and exactly the stages it hosts, each with the status, port and in-flight count hosted |
| Daemon.PeerDaemon.Receive | src/torrent_llm/pool/daemon.py:292-295 | merges what came, answers with the whole merged table, never touching its own row or state |
| Daemon.PeerDaemon.Learn | src/torrent_llm/pool/daemon.py:269-278 | merging a pulled table does the same |
| Daemon.PeerDaemon.SetOwnerBusy | src/torrent_llm/pool/daemon.py:354-368 | drains an active device from now, re-activates a draining or away one, leaves a departed one, and publishes the new state |
| Daemon.PeerDaemon.ReconcileNow | src/torrent_llm/pool/daemon.py:299-323 | loading or unloading by the loops is exactly the reconcile step on the rows judged alive |
| Daemon.PeerDaemon.ReleaseSafe | src/torrent_llm/pool/daemon.py:314-319 | the draining loop lets go of exactly the idle stages that are safe to release |
| Daemon.PeerDaemon.JudgeRelease | src/torrent_llm/pool/daemon.py:325-344 | the grace is over, or enough other active devices have the stage ready, or some have and every other active device is full or already lists it; decided by counting over the list of rows |
| Daemon.PeerDaemon.Tick | src/torrent_llm/pool/daemon.py:193-200 | a whole beat is: old failures forgotten, published, reconciled on the rows judged alive after the gossip, published again; it keeps the device invariant and moves the state only as allowed |
| Daemon.PeerDaemon.Announce | src/torrent_llm/pool/daemon.py:193-197 | its first half, which forgets exactly the failures older than the cooldown and changes no other stage and no state |
| Router.ReplicasOf | src/torrent_llm/pool/router.py:51-83 | exactly the ready copies on active, not excluded devices, with the larger of the reported and the own load |
| Router.Choose | src/torrent_llm/pool/router.py:115-117 | the pick is the drawn one among the options within 0.05 of the least score |
| Router.CanBePickedIff | src/torrent_llm/pool/router.py:115-117 | some draw picks a copy exactly when it is on offer and within 0.05 of every other score |
| Router.ScoreOrder | src/torrent_llm/pool/router.py:86-91 | no busier, no slower and no farther never scores worse, and scores better if one of them is strict |
| Router.BetterCanBePickedToo | src/torrent_llm/pool/router.py:86-117 | whenever the choice can fall on a copy, it can on any that is no busier, no slower and no farther |
| Router.FartherIsPickedIff | src/torrent_llm/pool/router.py:86-117 | of two copies alike but for their measured distance, the farther can be picked only within five milliseconds, and exactly then when nothing better is on offer |
| Router.SlowerIsPickedOnlyIf | src/torrent_llm/pool/router.py:86-117 | of two alike but for their speed, the slower can be picked only if the queue takes less than a twentieth longer there |
| Router.BusierIsPickedIff | src/torrent_llm/pool/router.py:86-117 | between equally fast and distant copies the busier can be picked only if its extra work is below a twentieth of its speed, never at speeds up to twenty, and exactly then when nothing better is on offer |
| Router.PickRoute | src/torrent_llm/pool/router.py:94-118 | succeeds exactly when every stage has a usable copy, each within 0.05 of the best; otherwise names the first missing stage |
| Router.Route | src/torrent_llm/pool/runner.py:150-162 | fails for no avoid-set unless a stage has no copy at all; avoids the given devices exactly when that is possible |
| Router.Coverage | src/torrent_llm/pool/placement.py:123-134 | counts the active devices listing each stage, or having it ready if only those are asked for |
| Router.CompleteIffCovered | src/torrent_llm/pool/router.py:111-114 | a route exists exactly when coverage is at least one everywhere |
| Router.SurvivesIffReplicated | src/torrent_llm/pool/config.py:36-37 | a route survives the loss of any replicas-1 devices exactly when every stage has that many ready copies |
| Owner.OwnerMonitor.Sample | src/torrent_llm/pool/owner.py:172-193 | one reading updates the counters and tells the device as the history demands; no reading changes nothing; after it triggered means the history backs off; the memory reported is that of processes other than the pool's |
| Owner.OwnerMonitor.InUse | src/torrent_llm/pool/owner.py:172-180 | in use exactly when the processes other than the pool's hold the memory limit between them or one of them is at the compute limit |
| Owner.TriggeredIsBackedOff | src/torrent_llm/pool/owner.py:172-193 | after any readings, triggered holds exactly when a run of busy_after busy readings has ended with no run of idle_after idle ones ending since |
| Owner.CallsAlternate | src/torrent_llm/pool/owner.py:180-193 | the calls are True, False, True, ... and the last one is its present judgement |
| Owner.CountersAreTrailingRuns | src/torrent_llm/pool/owner.py:178-189 | each counter reaches a length exactly when the readings end in a run that long |
| Owner.PoolProcessesDoNotCount | src/torrent_llm/pool/owner.py:109-114 | the pool's own processes anywhere in the list do not change the reading |
| Perplexity.ScoreSequence | src/torrent_llm/eval/perplexity.py:172-214 | the window loop scores each target in order, once, against the first window that reaches it, and counts its windows |
| Perplexity.ScoresEveryTarget | src/torrent_llm/eval/perplexity.py:177-201 | all targets of a sequence are scored exactly when the stride is below the chunk size or one chunk holds the sequence |
| Perplexity.IsScoredIff | src/torrent_llm/eval/perplexity.py:177-201 | which positions are scored: all of them if the stride is below the chunk size, else those whose remainder by the stride is neither 0 nor the chunk size or more |
| Perplexity.EveryTargetOnceIff | src/torrent_llm/eval/perplexity.py:172-214 | over all batches no target is counted twice, and the total is the sum of rows times N-1 exactly under that condition |
| Perplexity.ReportedIsCompleteIff | src/torrent_llm/eval/perplexity.py:172-214 | in terms of the settings: every target is counted exactly when the stride given is below the chunk size, or none is given and the chunk holds two tokens, or one window is enough everywhere |
| Perplexity.DefaultWindowsTile | src/torrent_llm/eval/perplexity.py:172-214 | by default the windows share one token each, and there are exactly as many as that takes |
| Perplexity.ComputePerplexity | src/torrent_llm/eval/perplexity.py:142-231 | fails exactly on a zero step with work to do; otherwise the mean times the count is the total loss, the perplexity is the exponential of the mean capped at 100, 1 if nothing is scored, and the count is complete exactly under that condition |
| Perplexity.NonOverlappingChunksLoseTargets | src/torrent_llm/eval/perplexity.py:159-160 | a stride equal to the chunk size misses a target, contrary to its description |

## Left out

- Gossip.RowsOnlyMoveForward: a LEFT row may be followed by a LEFT row with a higher heartbeat, since a last beat can still publish; what is proved is that only LEFT rows follow within the incarnation.
- Handover.MakeBeforeBreak: assumes that the copies a device counted on when it read the rows are still there when it lets a stage go, because it judges from its own table; `Handover.LastCopyGoesIff` says what happens without that.
- Handover.NeverOverfull: a device that starts with more stages than slots is outside it; the program starts empty.
- PoolRunner.PoolRunner.AwaitRoute: the rows alive at each try, the round-trip times and the random draws are parameters. Waiting events and the text of error messages are not modelled.
- PoolRunner.PoolRunner.SwitchRoute: that a device is marked unreachable is recorded, and what the table offers later is a parameter.
- PoolRunner.PoolRunner.Generate: members, timings, byte counts and per-hop records of passes and events are not modelled. An address advertised for a stage is answered, if at all, by a server of that stage.
- Service.ShardService.Forward: one atomic step per call, and the cache is written back as a value rather than shared with a call still holding it; what is too large for a reply is a parameter.
- Network.Fleet.RunLate: a call runs at most once, as the transport promises; a transport that repeats calls is not modelled.
- Network.Fleet.Call: a session still in use counts as one, for the tally of faults, until its request is given up or ended; a server sweeping out what an earlier route left behind is counted too.
- Network.Fleet.OpenId: request ids are taken to be unique.
- Perplexity.ComputePerplexity: no negative chunk size, exact sums, and the exponential is a parameter.
- WeightedPlan.PlanWeighted: weights and shares are exact reals; float rounding is not modelled.
- Router.Choose: scores are exact reals and the random draw is a parameter.
- Hosting.ShardHost.Stop: one atomic step; the window between leaving the dictionary and marking the load cancelled is not modelled, nor are ports and server shutdown, nor a stage number beyond the model's, which only a pool with mixed settings would advertise.
- Daemon.PeerDaemon.ReconcileNow: nothing else touches the device while this method runs, and likewise `Daemon.PeerDaemon.Tick`; what the owner's button, loads and traffic do in between is in the steps of `Handover`, which split a reconcile into reading the state, reading the rows, and one step for each stage. Rows, held stages and clock are read at one moment.
- Daemon.PeerDaemon.Tick: choosing gossip targets and noticing events are left out.
- Members.MemberTable.Merge: names and addresses are numbers, compared only for order and equality.
- Request admission counters: the limit check and the increment are separate steps, so no bound holds; only which calls may be refused is used.
- Tensor numerics, attention, sampling arithmetic and codec quality: uninterpreted functions stand for them.
- Network protocols, discovery, tokens, mismatched pool settings, configuration parsing, hardware probing, process control, dashboard, lab, command line and benchmarks: input, output and plumbing.
- The agent layer: simulated in the program itself, and only easy counting facts hold of it.
