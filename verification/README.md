# Proofs about go-iotdevice

go-iotdevice reads values from devices (solar chargers, relays, energy meters,
generator sets), keeps them in a value storage, shows them to browsers over a
websocket, forwards them over MQTT, and can mirror the devices of another
instance. This project models the parts whose correctness spans many steps and
proves what they guarantee for every input, every run and every interleaving.

* **Genset, GensetRuns, GensetShutdown, GensetController** – the generator-set
  controller: one transition of its ten nodes, the bounded iteration of transitions
  after every change of the inputs, and whole runs. A run is an initial node and
  the inputs of every update; the history of a run is every node entered, in order.
* **Dataflow, Sequences, StorageSpec, Channels, ValueStorage** – values, filters
  and the value storage: what it computes as functions of the values processed,
  and the object that computes it in place.
* **Broadcast, ChannelCapacity, ValueStorageSystem, RegisterDb,
  RegisterDbSystem** – both storages with their subscriptions as systems of
  interleaved steps: producers, the main routine that forwards under the lock one
  subscriber at a time, one routine per subscription, and consumers.
* **LateSnapshot, ValueStorageRuns, CurrentValues, CurrentRegisters, ClosedChannel** –
  runs of these systems that do happen, which value or version a subscriber that is
  sent its snapshot receives last, and when it can come to the end of its channel.
* **WebSocket, WebSocketView, Realtime, Structure** – the consumers that collect
  updates and send them on a tick.
* **Topics, Mirror, RealtimeMirror, MirrorSystem, Commands, CommandCopies** – topic
  templates and their parser, and two instances joined by MQTT: values and registers
  one way, commands the other.
* **StructureReceiver, CommandSetUp, JointReceiver** – the receiver's handling of
  structure messages, one routine per message in any interleaving, and what that
  means for registers, for commands and for the values that come meanwhile.
* **RegisterMirrorSystem, RegistersEveryRun** – registers end to end: from the
  sender's live database to the receiver's.
* **Ordering, Bindings, Config** – the configuration's references and the
  generator set's binding lists.
* **Restarter, Modbus** – the restart backoff, and Modbus RTU framing with the
  Finder meter and the Waveshare relay board on top of it.

Time and durations are unbounded integers except where the code's wrap-around
decides the result (Restarter, Modbus). Measured quantities are reals.

## What the proofs found

* Counted from an arbitrary instant, a shutdown of the generator set takes both
  cool-downs plus two update gaps less two, and no smaller bound holds
  (GensetShutdown.InstantBoundIff); counted from the first update that sees the
  switch off it is one gap less one (GensetShutdown.UpdateBoundIff). A cool-down
  timeout that is zero or negative, which the configuration accepts, counts as no
  time. GensetRuns.OneGapAfterInstantIsTooShort is a run in which the fan is still
  on one gap after the instant.
* Replaying a snapshot and the stream of a subscription gives the filtered live
  map for exactly those filters that never hide an update of a key they have let
  through (StorageSpec.AlwaysTracksIffKeyClosed). The device filters are such
  filters, the non-null filter is not, and a view filter is one as long as no
  key changes its category.
* A snapshot that is sent through the channel can arrive after newer updates, so
  the last value or version sent can be an older one. Whatever is stored before and
  processed after the subscription, every interleaving sends the stored one last
  exactly if the snapshot holds no other for that key or name, provided the filter
  lets the stored one through and, for values, hides no update
  (CurrentValues.EveryRunIsCurrentIff, CurrentRegisters.EveryRunIsCurrentIff).
* Sending a snapshot can block: exactly when the snapshot and the updates sent, less
  what was received, exceed the 128 places of the channel
  (ChannelCapacity.SnapshotFitsIff). Any storage in which more values than that pass
  a filter reaches such a state (ValueStorageRuns.SendingTheSnapshotBlocks), and it
  lasts until the consumer receives (ChannelCapacity.BlockedUntilReceived). The
  comment at dataflow/valueStorage.go:195 has it that this never blocks.
* A receiver handles each structure message in a routine of its own
  (mqttDevice/device.go:92-111), so messages can be applied in another order than
  they came in and the newest version of a register can be lost
  (StructureReceiver.NewestCanBeLost). It never is exactly when every order of the
  messages leaves it (StructureReceiver.EveryRunIsEveryOrder), which is when all
  versions of it compare equal, as long as those that do not have no empty label
  (StructureReceiver.EveryRunLeavesNewestIff); a version with one can be harmless
  (StructureReceiver.AbsorbedIsHarmless).
* The command forwarder of a mirrored device is set up by the first structure
  message handled and, without a race, never again: a register that becomes writable
  in a later one cannot be commanded (CommandSetUp.FirstMessageDecides). The flag is
  read and set in two steps, so any selection of the messages can set up
  (CommandSetUp.CanSetUpIff). A command is published any number of times up to the
  number of messages that carry it, and not at all if some message does not
  (CommandSetUp.CanBePublishedIff): never twice exactly if at most one carries it,
  never not at all exactly if all do.
* A register that is mirrored is always right exactly if the receiver accepts the
  stored version and all versions in the snapshot, and all versions sent that it
  accepts compare equal, as long as those that do not have no empty label
  (RegistersEveryRun.AlwaysMirroredIff, over all interleavings of both sides and all
  placements of the ticks).
* A mirrored device subscribes to the values before it adds the first registers, and
  drops values of registers it does not know; they are not sent again until they
  change. So no interleaving-independent agreement on values holds
  (JointReceiver.NeverCertain). In a given run the last value arrives exactly if its
  register was known, with the right type, when it came
  (JointReceiver.LastArrivalIff, JointReceiver.AcceptedIffKnown).
* A writable register that changes gets another route on the owning side, so its
  commands are filled in once per route. Together with the resets, a command is
  carried out any number of times from one to the number of routes
  (CommandCopies.CanBeCarriedOutIff), so once for certain exactly with one route
  (CommandCopies.AlwaysOnceIff). Equal commands of other clients count as one until a
  reset comes (CommandCopies.EqualCommandsForwardOnce).
* A delayed realtime forwarder that takes the end of its closed channel instead of
  the cancellation asks a missing value for its register, which ends the program
  (Realtime.RealtimeDelayedUpdateMode). That can only happen after the cancellation
  (ClosedChannel.EndMeansCancelled), and then it can always happen
  (ClosedChannel.EndCanCome). The structure forwarder takes an empty register in the
  same place and publishes it with the next tick (Structure.EmptyRegisterPublished).
* In delayed realtime mode the last published value is the last received one
  exactly when no text or enum value overtook a waiting number of the same name
  (Realtime.LastPublishedIffNotOvertaken).
* Register equality treats a missing label like an empty one, so a register that
  has an empty label can stay in the database although a different one was added
  (RegisterDb.LabelsEqualIsEquality).
* A realtime topic is parsed back to its register name for every name exactly
  when the template asks for the name once and nothing before that place reads as
  the placeholder (Topics.ParsesBackIff). Values arrive exactly if, besides, the
  name fills a level of the topic and the template has no wildcards
  (RealtimeMirror.AlwaysMirroredIff).
* A command topic is subscribed to as a filter. With a single variable and no
  wildcards in the template, commands go where they belong for exactly those
  registers that have no wildcard in their names (Commands.ArrivesAtIff), and for all
  of these only with such a template (Commands.AlwaysArrivesIff). A register named
  "+", which a mirrored device can have, takes the commands of all others, also with
  the shipped template (Commands.DefaultTemplateMisdelivers). A command topic that
  names no register is printed alike on both sides (Topics.SubstitutesBackIff), but
  every register of the type then carries the command out
  (Commands.SharedTopicMisdelivers).
* The restart pause is the doubling one exactly when sixteen doublings neither
  overflow 64 bits nor stay below the maximum (Restarter.IntervalIsBackoffIff).
  Exactly with a restart interval of 2^47 ns (about 39 hours) or more a pause can
  become negative (Restarter.NeverNegativeIff); the configuration sets no upper
  bound.
* Validating a configuration ends the program instead of reporting an error
  exactly when an MQTT client lists more MQTT devices than there are devices
  (Config.TransformAndValidate): a list is reserved with a negative capacity.
* The enclosure cool-down ends by the engine temperature (genset/controller.go:292),
  not by the exhaust air as gensetDevice/README.md:53 has it, and priming runs the
  fan besides the pump, which README.md:912 calls the only thing on. The model
  follows the code.
* A relay write is acknowledged by any frame of four bytes; the echoed relay number
  and command are not compared (Modbus.AcknowledgedIff).

## Model

| member | source | states |
|---|---|---|
| Genset.EdgesExactly | genset/controller.go:211-299 | the pairs of nodes that can follow each other: no other transition can happen, and each of them can |
| Genset.OutputsByNode | genset/controller.go:301-326 | the actuators depend on the node alone; load lies within ignition within pump within fan, and which of them are on tells the running node |
| Genset.Convergence | genset/controller.go:175-187 | for all parameters, inputs and states at most five nodes are entered, so the cap of eight never truncates and the result is at rest |
| Genset.StepLowersRank | genset/controller.go:199-299 | every transition that changes anything changes the node and lowers a rank of at most five |
| Genset.VisitedConverges | genset/controller.go:178-187 | iterating ends at rest within as many steps as the start node's rank |
| Genset.VisitedStable | genset/controller.go:178-187 | any two caps of at least the rank visit the same states |
| Genset.FiveNodesInOneUpdate | genset/controller.go:241-273 | five is reached: with no waiting times one update goes from Off to Producing |
| Genset.SettleIdempotent | genset/controller.go:154-157 | recomputing under unchanged inputs enters nothing and changes nothing |
| Genset.AtRestIff | genset/controller.go:211-299 | a state is left alone exactly under its node's own conditions for holding still, listed node by node |
| Genset.SafeAfterSettle | genset/controller.go:175-197 | after every computation load implies both checks, both switches and no reset; ignition implies the I/O check and no reset; the starter implies less than the cranking timeout and no output yet |
| GensetRuns.RestIsAtRest | genset/controller.go:152-158 | the state left by every update of every run is at rest |
| GensetRuns.HistoryIsChain | genset/controller.go:178-187 | all nodes entered in a run form one chain of transitions that ends in the current state |
| GensetRuns.StartUpOrder | genset/controller.go:233-299 | whenever a machine started in a non-running node is producing or cooling its engine, it went through priming, cranking and warm-up in that order, with the dwell times, checks and switches required, and has not left since |
| GensetRuns.LoadOnlyAfterStartUp | genset/controller.go:301-326 | whenever load is on after an update of a run, that start-up is in its history |
| GensetRuns.CoolDownOrder | genset/controller.go:274-295 | without fault or reset, a set that has produced keeps running until an engine cool-down has completed with its minimum time and its timeout or temperature |
| GensetRuns.VisitingErrorEndsThere | genset/controller.go:211-234 | an update that visits Error ends in Error |
| GensetRuns.LatchInvariant | genset/controller.go:214-238 | what holds after every update once the machine was in Error: Error, or Reset after a reset switch, or released |
| GensetRuns.FaultLatch | genset/controller.go:214-238 | after a visit to Error, or a start in it, no actuator is on before an update with the reset switch on and a later one with it off and the master switch off, both strictly earlier |
| GensetRuns.ShutdownInvariant | genset/controller.go:274-299 | with the master switch off from an update on, every later state is quiet or in a cool-down that began by a known instant |
| GensetRuns.BoundedShutdown | genset/controller.go:274-326 | from any node and for any gap, with the master switch off from update k on, after both cool-downs and at most one gap less one the node is Error, Reset, Off or Ready and every actuator is off |
| GensetRuns.BoundedShutdownFromInstant | genset/controller.go:274-326 | counted from an arbitrary instant the same holds after at most two gaps less two |
| GensetRuns.OneGapAfterInstantIsTooShort | genset/controller.go:274-326 | a run in which one gap after an instant is not enough |
| GensetShutdown.InstantBoundIff | genset/controller.go:274-326 | for all durations and gaps of at least one: every run of every machine is off from an instant plus both cool-downs plus a slack on exactly if the slack is two gaps less two, or one gap less one with a single cool-down |
| GensetShutdown.UpdateBoundIff | genset/controller.go:274-326 | the same counted from the first update that sees the switch off: exactly one gap less one |
| GensetShutdown.WorstRest | genset/controller.go:274-295 | the state after every update of the worst run, for all durations and gaps |
| GensetShutdown.WorstIsAdmissible | config/config.go:1204-1242 | the worst run has durations the configuration accepts and gaps within the limit, and ends one instant before the bound |
| GensetController.SkippingIsUnobservable | genset/controller.go:154-157 | skipping the computation when the inputs did not change leaves every field and callback as computing would |
| GensetController.RanIsConsistent | genset/controller.go:134-167 | after the loop the state is at rest and the stored outputs are those of the stored state and inputs, and safe |
| GensetController.Controller.constructor | genset/controller.go:103-117 | initial state entered at the initial time, outputs computed from it |
| GensetController.Controller.Compute | genset/controller.go:175-197 | the loop reports exactly the states visited and the outputs only when they differ |
| GensetController.Controller.ApplyChange | genset/controller.go:152-157 | a change has the effect of always recomputing although unchanged inputs are skipped |
| GensetController.Controller.Run | genset/controller.go:134-167 | initial report, one computation, then the changes in order; consistent at the end |
| GensetController.RanFollowsRun | genset/controller.go:134-197 | the loop's states are those of the run, and the state callback is handed exactly the run's history |
| Dataflow.ViewFilterLooksAtCategory | httpServer/values.go:171-185 | a view filter depends on device, register name and category only |
| StorageSpec.LastWriteWins | dataflow/valueStorage.go:73-94 | after any values the map holds for each key the payload of the last one, nothing after a null, never a null, and keys match their values |
| StorageSpec.ForwardedIffNews | dataflow/valueStorage.go:57-104 | a value is forwarded exactly when it is a null or differs from the last value for its key |
| StorageSpec.ForwardsOnlyChanges | dataflow/valueStorage.go:62-67 | per key no two consecutive forwarded non-null values are equal, and the last one forwarded agrees with the last one processed |
| StorageSpec.NullLetsCommandRepeat | dataflow/valueStorage.go:79-94 | a null between two equal commands makes both be forwarded, whatever came before |
| StorageSpec.TracksIff | dataflow/valueStorage.go:96-104 | for any run, replaying the filtered stream gives the filtered map throughout exactly when no update of a visible entry was hidden by the filter |
| StorageSpec.AlwaysTracksIffKeyClosed | dataflow/valueStorage.go:96-104 | a filter can be replayed in every run exactly when it is key closed |
| StorageSpec.HiddenUpdateBreaksTracking | dataflow/valueStorage.go:96-104 | two values of one key, the first let through and the second not, defeat the replay |
| StorageSpec.KeyClosedFilters | dataflow/valueFilter.go:7-34 | the device filter can be replayed, the non-null filter cannot |
| StorageSpec.ViewFilterTracks | httpServer/values.go:171-185 | a view filter can be replayed in every run in which no key changes its category |
| StorageSpec.ForwarderFilterTracks | mqttForwarders/filter.go:8-27 | the filter of the realtime forwarder can be replayed in every run in which no key changes its category |
| StorageSpec.KeysAreIndependent | dataflow/valueStorage.go:57-94 | what is stored and forwarded for a key depends on the values of that key alone |
| StorageSpec.FoldSplits | dataflow/valueStorage.go:57-71 | processing in two parts is processing at once, for the map and for what is forwarded |
| StorageSpec.ListingGivesMap | dataflow/valueStorage.go:126-135 | a listing in any order stands for its map |
| ValueStorage.ValueStorage.constructor | dataflow/valueStorage.go:36-51 | an empty storage without subscriptions |
| ValueStorage.ValueStorage.UpdateState | dataflow/valueStorage.go:73-94 | the new map and whether it changed, an absent key with a null included |
| ValueStorage.ValueStorage.ForwardToSubscriptions | dataflow/valueStorage.go:97-104 | each listed channel gets the value exactly if its filter lets it through |
| ValueStorage.ValueStorage.Process | dataflow/valueStorage.go:62-68 | one value applied and, if it is a change, forwarded |
| ValueStorage.ValueStorage.MainStorageRoutine | dataflow/valueStorage.go:57-71 | any number of values: the map is their fold and each channel gets the matching part of what is forwarded |
| ValueStorage.ValueStorage.GetStateFilteredUnlocked | dataflow/valueStorage.go:126-135 | a listing of exactly the entries that pass the filter |
| ValueStorage.ValueStorage.NewSubscription | dataflow/valueStorage.go:149-165 | the snapshot is the filtered map of the moment the empty new channel joins the list |
| ValueStorage.ValueStorage.SendInitialAndCleanup | dataflow/valueStorage.go:179-206 | as much of the snapshot as was sent before the cancellation, then off the list, then closed |
| ValueStorage.SubscribeAndFollow | dataflow/valueStorage.go:167-171 | a subscriber that replays what it received over its snapshot holds the filtered state of the storage object |
| Broadcast.InvNext | dataflow/valueStorage.go:96-206 | every step keeps: list and lock are consistent, and each subscription has been sent the first part of its snapshot and the matching updates offered since it registered |
| Broadcast.NoSendOnClosed | dataflow/valueStorage.go:173-206 | in every interleaving no step sends on a closed channel, and a channel is closed only when its subscription has left the list |
| Broadcast.ClosedForGood | dataflow/valueStorage.go:184-193 | a closed channel is never sent on or closed again |
| Broadcast.Delivery | dataflow/valueStorage.go:173-206 | in every interleaving the values sent are, as a multiset, the sent part of the snapshot and all matching updates offered since registration; without a snapshot also in order |
| ChannelCapacity.CapacityReached | dataflow/valueStorage.go:147-161 | no channel ever holds more than its capacity |
| ChannelCapacity.SnapshotFitsIff | dataflow/valueStorage.go:195-202 | in every interleaving the rest of a snapshot can be sent without a receive exactly if the snapshot and the updates sent, less what was received, fit into the channel |
| ChannelCapacity.BlockedUntilReceived | dataflow/valueStorage.go:195-202 | a full channel keeps the snapshot from being sent through any steps without a receive |
| ValueStorageSystem.InvNext | dataflow/valueStorage.go:57-177 | every step keeps: the map is the fold of the values processed, the log is what they forward, the wait group counts what is under way, each subscription's snapshot is that of its registration |
| ValueStorageSystem.StorageInEveryRun | dataflow/valueStorage.go:57-94 | last-write-wins and change-only in every interleaving |
| ValueStorageSystem.Projected | dataflow/valueStorage.go:57-206 | the subscriptions of every run of the storage run as those of a broadcast |
| ValueStorageSystem.Lifecycle | dataflow/valueStorage.go:97-206 | in every interleaving of the storage no step sends on a closed channel, channels close only off the list, and a closed one is neither sent on nor closed again |
| ValueStorageSystem.DeliveryInEveryRun | dataflow/valueStorage.go:97-206 | in every interleaving of the storage the values sent are, as a multiset, the sent part of the snapshot and all matching changes since registration |
| ValueStorageRuns.SendingTheSnapshotBlocks | dataflow/valueStorage.go:173-202 | whenever more than 128 stored values pass a filter, the storage reaches a state in which a subscriber's snapshot is half sent and blocked |
| ValueStorageSystem.WaitMeansDone | dataflow/valueStorage.go:137-145 | with the wait group at zero every value filled is applied and every matching change has been sent to every listed subscription |
| ValueStorageSystem.WaitCoversEarlierFills | dataflow/valueStorage.go:137-145 | when Wait returns, all values whose Fill had returned when Wait was called are applied and forwarded |
| ValueStorageSystem.SnapshotPlusUpdates | dataflow/valueStorage.go:96-177 | in every interleaving until removal, for both ways of subscribing: the snapshot replayed with the updates sent and the one being forwarded is the filtered live map |
| ValueStorageSystem.SnapshotPlusStream | dataflow/valueStorage.go:96-171 | in every interleaving until removal: the returned snapshot replayed with everything sent in order and the update being forwarded is the filtered live map |
| ValueStorageSystem.SnapshotPlusStreamKeyClosed | dataflow/valueStorage.go:96-171 | for a key-closed filter this holds without a condition on the run |
| CurrentValues.CurrentUnlessOutdated | dataflow/valueStorage.go:173-202 | in every interleaving, once the snapshot is sent: of the values sent of a visible key the last has the stored payload exactly if no snapshot value of it was sent after an update or the snapshot has that payload |
| CurrentValues.StaleIsSentLast | dataflow/valueStorage.go:173-202 | whatever is processed after the subscription, an interleaving sends the value of the snapshot last |
| CurrentValues.EveryRunIsCurrentIff | dataflow/valueStorage.go:173-202 | every interleaving of the same values sends the stored payload of a key last exactly if the snapshot holds no other payload for it |
| RegisterDb.LabelsEqualIsEquality | dataflow/register.go:124-138 | label comparison is equality exactly for maps without an empty label |
| RegisterDb.HoldsLastAdded | dataflow/registerDb.go:37-60 | the database holds a register the last added of that name compares equal to, and that one itself unless it has an empty label |
| RegisterDb.FoldSplits | dataflow/registerDb.go:37-60 | adding registers in two calls is adding them in one |
| RegisterDb.FoldMember | dataflow/registerDb.go:37-60 | the database holds one of the registers added under a name, if any was |
| RegisterDb.RegisterDb.Forward | dataflow/registerDb.go:51-57 | each listed channel gets the register exactly if its filter lets it through |
| RegisterDb.RegisterDb.AddStruct | dataflow/registerDb.go:37-60 | the database is the fold of the registers added and each channel gets the matching part of those that were new |
| RegisterDb.RegisterDb.GetByName | dataflow/registerDb.go:92-98 | the stored register or none |
| RegisterDbSystem.InvNext | dataflow/registerDb.go:37-132 | every step keeps: every register that passes a subscription's filter was in its snapshot or has been published since |
| RegisterDbSystem.Projected | dataflow/registerDb.go:37-132 | the subscriptions of every run of the database run as those of a broadcast |
| RegisterDbSystem.Lifecycle | dataflow/registerDb.go:100-132 | in every interleaving of the database no step sends on a closed channel, channels close only off the list, and a closed one is neither sent on nor closed again |
| RegisterDbSystem.DeliveryInEveryRun | dataflow/registerDb.go:100-132 | in every interleaving of the database the registers sent are, as a multiset, the sent part of the snapshot and all matching changes since registration; the whole snapshot is sent before removal |
| RegisterDbSystem.NoRegisterMissed | dataflow/registerDb.go:100-132 | in every interleaving, a subscription that has sent its snapshot has been sent the current version of every matching register, and as a multiset exactly its snapshot and the matching registers published since |
| CurrentRegisters.CurrentUnlessOutdated | dataflow/registerDb.go:100-132 | in every interleaving, once the snapshot is sent: of the versions sent of a matching register the last is the stored one exactly if none of the snapshot was sent after an update or the snapshot has the stored one |
| CurrentRegisters.StaleIsSentLast | dataflow/registerDb.go:100-132 | whatever is added after the subscription, an interleaving sends the version of the snapshot last |
| CurrentRegisters.EveryRunIsCurrentIff | dataflow/registerDb.go:100-132 | every interleaving of the same additions sends the stored version of a register last exactly if the snapshot holds no other version of it |
| ClosedChannel.EndMeansCancelled | dataflow/valueStorage.go:184-206 | in every interleaving a consumer comes to the end of its closed channel only after the cancellation, having received every matching update offered until the removal |
| ClosedChannel.EndCanCome | dataflow/valueStorage.go:184-206 | whenever the lock is free, a cancellation can be followed by that end before the consumer does anything else |
| WebSocket.Append2DRegisterResponse | httpServer/registers.go:101-115 | adds the register under its key unless one is there, and says whether it did |
| WebSocket.Append2DValueResponse | httpServer/values.go:160-169 | sets the value under its key and nothing else |
| WebSocket.Compile2DRegisterResponse | httpServer/registers.go:93-99 | the table of all registers of the values |
| WebSocket.Compile2DValueResponse | httpServer/values.go:152-158 | the table of all values |
| WebSocket.Put | httpServer/values.go:160-169 | a table lookup after an insertion |
| WebSocket.WsValuesSender | httpServer/ws.go:139-196 | the loop sends the messages of the sender's event function and ends at the first failed send, the initial message included, or the shutdown |
| WebSocket.AlwaysShows | httpServer/ws.go:161-195 | at all times the messages so far with the pending entries show the snapshot replayed with everything received |
| WebSocket.TickFlushes | httpServer/ws.go:165-174 | after a tick nothing is pending and the merged messages alone show it, null meaning absent |
| WebSocket.AlwaysSound | httpServer/ws.go:161-195 | at all times pending values imply a running ticker, every value sent has its register in the same or an earlier message, and no register is sent twice |
| WebSocketView.ClientShowsStorage | httpServer/ws.go:139-196 | in every interleaving, with the channel drained and a tick flushed, what the client has merged is the filtered storage |
| WebSocketView.ViewClientShowsStorage | httpServer/values.go:171-185 | for a view it is enough that no key changes its category after registration |
| Realtime.RealtimeImmediateMode | mqttForwarders/realtime.go:44-64 | everything received is published in order |
| Realtime.RealtimeDelayedUpdateMode | mqttForwarders/realtime.go:86-113 | what is published under each name until the routine ends, whatever order a tick takes the names in; it ends the program exactly if a receive from the closed channel is chosen before the cancellation |
| Realtime.FlushUpdates | mqttForwarders/realtime.go:108-111 | a tick publishes each waiting name once |
| Realtime.DelayedFollows | mqttForwarders/realtime.go:89-113 | with a stable type, published and waiting values form a subsequence of the received ones that ends with the last |
| Realtime.DelayedRefinesImmediate | mqttForwarders/realtime.go:83-113 | after a tick the last published value of each name is the last received one |
| Realtime.PublishedBetween | mqttForwarders/realtime.go:89-113 | between any two positions of a run a name is published at most once per tick and once per value that is no number, and nothing is taken back |
| Realtime.OncePerTick | mqttForwarders/realtime.go:94-111 | over any part of a run a number register is published at most once per tick |
| Realtime.LastPublishedIffNotOvertaken | mqttForwarders/realtime.go:94-111 | after a tick the last published value is the last received one exactly when no non-number overtook a waiting number |
| Realtime.StableTypeIsNotOvertaken | mqttForwarders/realtime.go:94-111 | that cannot happen while the type of the name is stable |
| Structure.MessageOf | mqttForwarders/structure.go:95-96 | a message has each waiting register once |
| Structure.StructureOnUpdateMode | mqttForwarders/structure.go:52-99 | each tick publishes one message of exactly the waiting registers, each once; what waits at the end; something waiting implies a running ticker |
| Structure.PublishedLast | mqttForwarders/structure.go:91-97 | the last version in the messages is the last published of each name |
| Structure.PublishedWasReceived | mqttForwarders/structure.go:79-97 | the messages hold only what was received, each name at most once |
| Structure.EmptyRegisterPublished | mqttForwarders/structure.go:77-97 | an empty register taken from the closed channel is published with the next tick |
| Structure.NewestIsKept | mqttForwarders/structure.go:76-97 | the newest version of each register is waiting or, if nothing is, published |
| Structure.TickPublishesNewest | mqttForwarders/structure.go:92-97 | after a tick the newest version of each register has been published |
| Structure.LatestIsLastReceived | mqttForwarders/structure.go:81-91 | the newest version is the last received of its name, availability left out |
| Topics.ParseTopicIff | topicMatcher/topicMatcher.go:13-48 | a topic yields v exactly when it is prefix, v and suffix with v non-empty and without a slash |
| Topics.TopicIsJoin | config/getters.go:239-245 | a printed topic is fixed parts joined by the register name |
| Topics.ParsesBackIff | config/getters.go:239-245 | every register name is parsed back from its printed topic exactly when the template has a single variable |
| Topics.ParsesNamesOnly | topicMatcher/topicMatcher.go:34-48 | with a single variable whatever is put in for the register name is parsed back if it is a name and not parsed otherwise |
| Topics.SubstitutesBackIff | mqttDevice/device.go:304-304 | the receiver prints the sender's command topic for every name exactly with a single variable, or with none at all |
| Topics.OccursOnceIsSingle | mqttForwarders/structure.go:173-184 | a placeholder occurring once in the published template is enough |
| Topics.DefaultTemplatesWork | config/config.go:541-598 | with the shipped realtime and command templates both hold for every prefix and device name without a percent sign |
| Topics.DefaultTemplatesArePlain | config/config.go:541-598 | the shipped templates meet the conditions on levels and wildcards if prefix and device name have no wildcard |
| Topics.ParsesWhatTheFilterMatches | mqttDevice/device.go:222-236 | for a placeholder that is a whole level, a topic is parsed exactly when the subscribed filter matches it with a non-empty level, by sections 4.7.1.1 to 4.7.1.3 of MQTT Version 5.0, and the name is that level |
| Topics.PlainFilter | mqttForwarders/command.go:56-72 | a filter without wildcards matches its own topic and no other |
| Topics.SubscriptionTakes | mqttDevice/device.go:222-236 | the realtime subscription takes a topic of its template exactly if the variable fills a level and neither template nor name has a wildcard |
| Topics.SubscribedFilter | mqttDevice/device.go:222-229 | the subscribed filter is prefix, plus sign, suffix of the matcher |
| Mirror.WireKeepsRegisters | mqttForwarders/structure.go:227-238 | every register, its type included, arrives as it was with the writable flag recomputed |
| Mirror.ApplyWritableFilters | mqttForwarders/structure.go:210-225 | the registers as sent and as they arrive; the count is positive exactly if one is writable |
| Mirror.FilterCommandRegisters | mqttDevice/device.go:334-342 | exactly the names of the writable registers |
| Mirror.MqttDevice.constructor | mqttDevice/device.go:37-55 | nothing set up, an empty register database |
| Mirror.MqttDevice.OnStructure | mqttDevice/device.go:92-111 | one message handled alone: only the first sets up the topics and the command forwarder, every one adds the registers the filter accepts |
| Mirror.MqttDevice.SetupRealtimeSubscription | mqttDevice/device.go:222-234 | the matcher is set exactly when the template has the placeholder; Mirror.MqttDevice.OnStructure gets here for the first message only |
| Mirror.MqttDevice.UpdateRegisters | mqttDevice/device.go:135-144 | the registers that pass the device's filter are added to its database |
| Mirror.MqttDevice.OnRealtime | mqttDevice/device.go:236-281 | what one message fills in, none for an empty, unparsable, unreadable, unknown or wrongly typed one |
| Mirror.MqttDevice.OnRealtimeAll | mqttDevice/device.go:236-281 | any number of messages, in order |
| RealtimeMirror.OneArrives | mqttDevice/device.go:222-281 | with a single variable, any value published arrives with its payload at the receiver's device and register if its name has no slash and no wildcard, is known and has a type of its kind, and leaves no trace otherwise; nothing arrives if the variable does not fill a level of its own |
| RealtimeMirror.StateMirror | mqttDevice/device.go:236-281 | whatever is published and whatever registers the receiver has meanwhile, its device state is the last-write-wins fold of the values accepted as they came |
| RealtimeMirror.MirroredIsHandled | mqttDevice/device.go:236-281 | what is filled in is what the device's handler makes of the messages its subscription takes |
| RealtimeMirror.AlwaysMirroredIff | mqttDevice/device.go:222-236 | every value that the receiver accepts arrives exactly if the template has a single variable that fills a level of its own, and no wildcards |
| RealtimeMirror.DelayedMirror | mqttForwarders/realtime.go:83-113 | behind the delayed forwarder, after a tick, the receiver holds the last value received if it accepts it and no value was overtaken |
| RealtimeMirror.DelayedArrives | mqttForwarders/realtime.go:83-113 | the same for values of the kind of their registers, without a condition on overtaking |
| Mirror.UpdatedIsFold | mqttDevice/device.go:135-144 | how registers are split into messages does not matter, only their order |
| Mirror.RegisterMirror | mqttDevice/device.go:135-144 | messages handled in order leave the newest version of each register the filter accepts, up to empty labels |
| MirrorSystem.StorageMirrored | mqttForwarders/realtime.go:44-64 | in every interleaving of the sender's storage, once the snapshot is sent: for each key shown through the forwarder's filter the receiver has the stored payload exactly if no snapshot value of it was sent after an update or the snapshot has that payload |
| MirrorSystem.ForwarderMirrored | mqttForwarders/realtime.go:16-64 | for the filter the forwarder builds from its configuration this needs only that no key changes its category after the subscription |
| MirrorSystem.DelayedStorageMirrored | mqttForwarders/realtime.go:83-113 | with the delayed forwarder in between the same equivalence as MirrorSystem.StorageMirrored holds after a tick, for values of the kind of their registers |
| StructureReceiver.AppliedInSomeOrder | mqttDevice/device.go:92-111 | when all routines are done every message has been applied once, in some order |
| StructureReceiver.AnyOrderHappens | mqttDevice/device.go:92-111 | every order of application is that of some interleaving |
| StructureReceiver.EveryRunIsEveryOrder | mqttDevice/device.go:92-144 | every interleaving leaves a version of a register exactly if every order of the messages does |
| StructureReceiver.EqualVersionsAreLeft | mqttDevice/device.go:110-144 | in whatever order messages are handled, versions that compare equal leave that version |
| StructureReceiver.EveryRunLeavesNewestIff | mqttDevice/device.go:92-144 | every interleaving leaves the newest version of a register exactly if all versions in the messages compare equal to it, those that do not having no empty label |
| StructureReceiver.OnlyOneMessage | mqttDevice/device.go:92-144 | a register that has one version only is left by every interleaving |
| StructureReceiver.NewestCanBeLost | mqttDevice/device.go:92-144 | an interleaving of two messages in which the older description stays |
| StructureReceiver.AbsorbedIsHarmless | dataflow/registerDb.go:41-49 | with empty labels, two versions that do not compare equal of which every interleaving leaves the newest |
| CommandSetUp.PublishedPerCarrier | mqttDevice/device.go:105-107 | a command is published once per message that set up and carries a command topic and the register as writable |
| CommandSetUp.CanSetUpIff | mqttDevice/device.go:94-107 | which messages can set up, and in which order: any selection of those received in any order, but at least one |
| CommandSetUp.CanBePublishedIff | mqttDevice/device.go:94-107 | how often a command can be published: not at all exactly if some message does not carry it, and any number of times up to the number of messages that do |
| CommandSetUp.AlwaysAtMostIff | mqttDevice/device.go:94-107 | every interleaving publishes a command at most n times exactly if at most n messages carry it |
| CommandSetUp.AlwaysAtLeastOnceIff | mqttDevice/device.go:94-107 | every interleaving publishes a command at least once exactly if there are messages and all of them carry it |
| CommandSetUp.ExactlyOnceIff | mqttDevice/device.go:94-107 | every interleaving publishes a command exactly once exactly if there is one message and it carries it |
| CommandSetUp.FirstMessageDecides | mqttDevice/device.go:94-107 | one message sets up exactly if no routine looks at the flag between another's look and its set-up; then it is the one handled first, and it alone decides |
| JointReceiver.JointStateMirror | mqttDevice/device.go:92-281 | in every interleaving of structure and realtime messages the receiver has, of each name, the payload of the last value accepted with the register known when it came |
| JointReceiver.LastArrivalIff | mqttDevice/device.go:236-281 | in every such interleaving it has the payload of the last value exactly if that was accepted when it came, or the one accepted before has the same |
| JointReceiver.AcceptedIffKnown | mqttDevice/device.go:255-281 | if all versions of the register are of the kind of the value, it is accepted exactly if some version is known when it comes |
| JointReceiver.AllCanBeDropped | mqttDevice/device.go:94-111 | for any messages and values, all values can come between the subscription and the first registers, and then none is filled in |
| JointReceiver.NeverCertain | mqttDevice/device.go:94-111 | so for no messages, values and name does every interleaving leave a payload |
| RegisterMirrorSystem.WireCarries | mqttForwarders/structure.go:158-225 | what the receiver accepts of the messages is the forwarder's registers with the writable flag recomputed, filtered |
| RegisterMirrorSystem.NewestOnWire | mqttForwarders/structure.go:76-97 | the newest version on the wire is the sender's stored register |
| RegisterMirrorSystem.RegistersMirrored | mqttDevice/device.go:92-144 | in every interleaving of the sender's database and the receiver's routines, the receiver's register is the sender's with the writable flag recomputed, if the snapshot has that version or none was sent from it after an update, and the messages were handled in order or carry only versions that compare equal |
| RegisterMirrorSystem.NothingInvented | mqttDevice/device.go:135-144 | every register the receiver has is a version the sender sent, with the writable flag recomputed |
| RegistersEveryRun.AlwaysKnownIff | mqttDevice/device.go:92-144 | for any registers sent, over all placements of ticks and all interleavings of the receiver: it always ends with a version exactly if it accepts the last one sent and all that it accepts compare equal |
| RegistersEveryRun.AlwaysMirroredIff | mqttDevice/device.go:92-144 | over all interleavings of the sender's database as well: the receiver always ends with the sender's register exactly if it accepts it and every version in the snapshot, and all versions sent that it accepts compare equal |
| Commands.CommandFilterIsKeyClosed | mqttDevice/device.go:292-300 | the command filter hides no update of a command it has let through |
| Commands.RunCommandForwarder | mqttDevice/device.go:302-331 | each command is published once in order and reset once; returning nulls are passed over |
| Commands.TopicsDiffer | config/getters.go:264-270 | with a single variable different registers have different command topics |
| Commands.CommandArrives | mqttForwarders/command.go:43-111 | with a single variable and no wildcards in template and names, a command is filled into the owner's storage by every route of its name and type, with the same payload, and by no other |
| Commands.CommandsArrive | mqttForwarders/command.go:43-111 | under the same conditions any sequence of commands arrives complete, in order and nowhere else |
| CommandCopies.CopyPerRoute | mqttForwarders/command.go:43-72 | as many copies as the register has routes, all of them the command |
| CommandCopies.CopiesForwardOnce | dataflow/valueStorage.go:73-94 | copies that follow each other are forwarded once, if the command is a change |
| CommandCopies.EqualCommandsForwardOnce | dataflow/valueStorage.go:57-94 | equal commands are forwarded once, from whatever clients and whatever other keys are filled in between |
| CommandCopies.CommandForwardedOnce | mqttForwarders/command.go:43-110 | copies of a command that come without a reset in between are forwarded once by the owner's storage |
| CommandCopies.ResetBetweenCopies | mqttForwarders/command.go:43-110 | with the reset of the first copy before the second both are |
| CommandCopies.CanBeCarriedOutIff | mqttForwarders/command.go:43-110 | how often a command that is a change can be carried out, over all timings of the resets: any number from one to the number of its routes |
| CommandCopies.AlwaysOnceIff | mqttForwarders/command.go:43-110 | it is carried out once whatever the timing exactly with one route |
| Commands.SharedTopicMisdelivers | mqttForwarders/command.go:56-79 | with a topic that names no register a command is carried out by another register of the type too, if it is delivered at all |
| Commands.AlwaysArrivesIff | mqttForwarders/command.go:43-111 | for all routes of names without wildcards every command reaches exactly the routes of its own register, exactly if the command topic has a single variable and no wildcards |
| Commands.ArrivesAtIff | mqttForwarders/command.go:43-111 | with such a topic, every command reaches exactly the routes of its own register exactly if no register of a known type has a wildcard in its name |
| Commands.WildcardMisdelivers | mqttClient/client.go:42-68 | a register named "+" carries out the commands of the others, if the variable fills a level |
| Commands.DefaultTemplateMisdelivers | config/config.go:575-598 | so with the shipped command template |
| Ordering.SortedKeys | config/config.go:1458-1459 | the keys of a map, each once, strictly increasing |
| Bindings.SortSorts | config/config.go:1356-1362 | sorting gives the strictly increasing list of the same bindings |
| Bindings.Transform | config/config.go:1341-1364 | whatever the iteration order: strictly increasing by device and register, exactly the bindings of the map, and exactly the undefined devices reported |
| Bindings.TransformIsUnique | config/config.go:1341-1364 | there is only one such list, so it does not depend on the iteration order |
| Bindings.ConvertToRead | config/marshaler.go:293-304 | the map written by the list's assignments in order |
| Bindings.WriteThenRead | config/marshaler.go:293-304 | transforming what was written gives back any strictly increasing list |
| Bindings.ReadThenWrite | config/marshaler.go:293-304 | writing what was transformed restores the map up to devices without registers |
| Config.ExistsByName | config/config.go:1503-1510 | found exactly if present |
| Config.MapToList | config/config.go:1454-1468 | results in the order of the names, and no error exactly if no entry has one |
| Config.ListUnique | config/config.go:1483-1501 | results in order, and no error exactly if no entry has one and all names differ |
| Config.BindingListIsTransform | config/config.go:1341-1364 | the list built in sorted order is the one collected in any order and sorted |
| Config.SectionTransformed | config/config.go:682-711 | a section sends the devices it names, or all it may send when it names none; no error exactly if all are allowed and filters appear only where supported |
| Config.ClientTransformed | config/config.go:457-598 | a client is accepted exactly if its MQTT devices exist with topics and its sections send only devices it is not fed |
| Config.GensetTransformed | config/config.go:1115-1125 | a generator set is accepted exactly if its bindings name only other kinds of devices |
| Config.ViewTransformed | config/config.go:1383-1403 | a view is accepted exactly if its devices exist and differ |
| Config.AcceptedIsSound | config/config.go:62-219 | in an accepted configuration every bus, device, view and binding reference resolves, view names are unique, and no section sends a device its client feeds |
| Config.TransformAndValidate | config/config.go:62-219 | no error exactly if all references resolve and no other check failed; everything read is kept; it ends the program exactly if a client lists more MQTT devices than there are devices |
| Restarter.IntervalIsBackoffIff | restarter/restarter.go:113-124 | the pause is the smaller of the maximum and the doubled base for every count of errors exactly when sixteen doublings reach the maximum without overflow |
| Restarter.NeverNegativeIff | restarter/restarter.go:113-124 | no pause is negative exactly if sixteen doublings of the base do not overflow, that is below 2^47 |
| Restarter.IntervalGrows | restarter/restarter.go:113-124 | without overflow the pause is positive, within the maximum and never shrinks as the count grows |
| Restarter.TrailingStreak | restarter/restarter.go:72-76 | the counter is the length of the longest run of immediate errors at the end |
| Restarter.Run | restarter/restarter.go:44-90 | the service is run until it stops or the restarter is shut down, and each pause is that of the current streak |
| Restarter.PausesOfARun | restarter/restarter.go:63-86 | over any run pauses never exceed the maximum, never shrink within a streak, and start over after a later error |
| Modbus.BytesOfWord | modbusDevice/modbus.go:13-14 | words survive both byte orders |
| Modbus.DecodesFrames | modbusDevice/modbus.go:60-77 | for any checksum a response yields a payload exactly if it is address, function code, payload and little-endian checksum of the rest (section 2.5.1 of Modbus over Serial Line V1.02) |
| Modbus.CallReturnsIff | modbusDevice/modbus.go:51-77 | a call returns a payload exactly if the reply starts with its frame |
| Modbus.Bus.WriteRead | modbus/modbus.go:60-75 | one request sent; the buffer is filled exactly if enough bytes come back |
| Modbus.CallFunction | modbusDevice/modbus.go:16-78 | the request sent is the frame of its payload; the result is that of the reply, each error with its cause |
| Modbus.FinderRequests | modbusDevice/finder7M38.go:420-429 | the request names the register's number within the input range and how many to read |
| Modbus.FinderReturnsIff | modbusDevice/finder7M38.go:431-460 | a read returns data exactly if it is two bytes per register and framed with that byte count |
| Modbus.FinderReadInputRegistersRaw | modbusDevice/finder7M38.go:417-461 | one request and the outcome of its reply |
| Modbus.FinderReadInputRegisters | modbusDevice/finder7M38.go:406-415 | the same request up to eight times until one is answered; all earlier tries failed |
| Modbus.WriteRelay | modbusDevice/waveshareV2.go:26-55 | a relay number above seven sends nothing; otherwise one frame with number and command |
| Modbus.AcknowledgedIff | modbusDevice/waveshareV2.go:46-54 | a write counts as acknowledged exactly if the reply starts with a frame of any four bytes |
| Modbus.UnpackPack | modbusDevice/waveshareV2.go:96-99 | unpacking a packed state gives it back |
| Modbus.PackUnpack | modbusDevice/waveshareV2.go:96-99 | packing the bits of a byte gives it back |
| Modbus.ReadRelays | modbusDevice/waveshareV2.go:80-102 | the eight bits of the state byte, relay by relay |
| Modbus.SwitchRelay | modbusDevice/waveshareV2.go:26-55 | a board that follows the protocol acknowledges a write and changes that relay and no other |
| Modbus.ReadBoard | modbusDevice/waveshareV2.go:80-102 | reading such a board returns its state and changes nothing |

## Left out

- Broadcast.Delivery: states order only for subscriptions whose snapshot was returned; a snapshot sent through the channel may be overtaken, as CurrentValues.StaleIsSentLast shows.
- StructureReceiver.EveryRunLeavesNewestIff: a version that does not compare equal to the newest is taken to have no empty label, because with one it may be absorbed or not depending on what was stored; that equal versions are enough (StructureReceiver.EqualVersionsAreLeft) needs no such assumption.
- CommandSetUp.CanSetUpIff: setting the flag and setting up are one step; routines that see the flag meanwhile go on as after it.
- Mirror.MqttDevice.OnStructure: the availability and telemetry subscriptions a message sets up are left out.
- Commands.CommandArrives: a server that delivers a message once per matching subscription (section 3.3.4 of MQTT Version 5.0) would have overlapping filters carry a command out more often; one delivery per message is taken.
- RegistersEveryRun.AlwaysMirroredIff: a version that does not compare equal to the stored one is taken to have no empty label, as for StructureReceiver.EveryRunLeavesNewestIff.
- JointReceiver.JointStateMirror: a second set-up of the same realtime subscription, which fills every value in twice, is left out; the state is the same.
- MirrorSystem.DelayedStorageMirrored: values of another kind than their register are left out.
- ValueStorage.ValueStorage.SendInitialAndCleanup: the object is used by one routine at a time; what other routines do in between is in Broadcast and ValueStorageSystem, and the same holds for ValueStorage.SubscribeAndFollow.
- WebSocket.AlwaysShows: the initial message has been delivered; if it is not, nothing else is sent, as WebSocket.WsValuesSender states.
- Config.TransformAndValidate: checks that concern no reference (numbers, durations, patterns, files) are represented by the errors they found; the order of errors that come from a map iteration is not fixed.
- Config.ClientTransformed: the transformers are handed to the generic loops as values and so are functions; appending to their lists in place is not captured, the lists they build are.
- Bindings.Transform: the sort is an insertion sort; only its result is that of the original.
- Restarter.Run: the endings of the service's runs and the moment of the shutdown are inputs.
- RegisterDbSystem.NoRegisterMissed: the lock is taken register by register instead of for a whole call, which only adds interleavings.
- Mirror.MqttDevice.OnRealtime: payloads are records; an unreadable payload is one case of them.
- Modbus.CallFunction: the checksum is any function of the bytes; CRC-16 itself is not part of this model.
- Progress of the storages: forwarding blocks under the lock while a channel is full, so no delivery deadline holds and none is claimed.
- Lookup sets built from configured lists (dataflow/registerFilter.go:55-61) are taken as membership in the lists.
- Floating point: quantities are reals; comparisons with NaN, rounding and the saturation of time differences are not modelled.
- Values of the storages' integers such as the error counter and the wait group are unbounded.
- Regular expressions: the matcher of a template is taken as prefix, a slash-free variable and suffix; the placeholder is the one the program uses.
- Topics that begin with a dollar sign, which MQTT excludes from leading wildcards, and other variables of the templates such as those of the Home Assistant discovery.
- The telemetry forwarder and its subscription, the periodic structure mode, availability topics, and the Home Assistant discovery.
- The generator-set device around the controller (gensetDevice), which maps registers to inputs and outputs.
- HTTP, websocket, MQTT and serial transport, YAML and JSON text, login, logging, device drivers other than the two above, and the device register tables.
