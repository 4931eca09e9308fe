# Verified model of the agent runtime core

This project models, in Dafny 4.11, the parts of `crates/adk-agents` whose correctness is hard to see
by reading them, and proves what they promise. `dafny verify dfyconfig.toml` checks all of it.

- **Resumable orchestration** (`AgentStates`, `Contexts`, `Orchestration`, `SequentialAgent`,
  `LoopAgent`, `Resumption`, `Reset`, `ParallelAgent`, `InFlight`). The sequential, loop and parallel
  agents run their children, emit marker events, may pause, and are taken up again from a context that
  is populated by replaying the event history. The theorems of `Resumption` are about whole
  conversations of any number of turns, with errors, pauses and foreign events in between; those of
  `ParallelAgent` hold for every completion order.
- **Session store** (`Scopes`, `SessionStore`, `SessionViews`, `SessionService`). Three physical maps
  look like one flat map to every reader; callers' detached copies stay current; stored state is
  event-sourced.
- **Artifact stores** (`ArtifactKeys`, `ArtifactSpec`, `InMemoryArtifacts`, `FileTree`,
  `ArtifactLayout`, `VersionListing`, `SavingArtifacts`, `ArtifactWalk`, `FileArtifacts`,
  `ArtifactStores`, `ArtifactReferences`, `ReservationProtocol`, `FileUri`, `Utf8`, `ArtifactUri`, `Base64`). The file store works on a
  directory tree; the in-memory store on one map of path texts. Both refine one abstract store of
  numbered versions, so that every sequential history gets the same answers from both
  (`ArtifactStores.Replay`). Concurrent saves are a state machine of their own
  (`ReservationProtocol`), over every interleaving.
- **Agent tree** (`AgentTree` on the heap, `Agents` as a value). Parent links that are set once, walks
  up and down, deep clones.
- **Algorithms** (`CivilDate`, `Timestamps`, `Canonical`, `MemoryService`).

Methods follow the source's loops and updates and are proved against specification functions; the
lemmas are about those functions. Where the source is pure, so is the model.

## What is assumed of the surroundings

- Events, UUIDs, stamps, clock readings and the outcomes of leaf children are inputs. A script lists
  the outcomes of one turn's child runs; a run beyond it never comes back, and a turn that needs one
  has no result. Children of the resumable agents are leaves with distinct names that file no event
  under the shell's own name; there are no before or after callbacks.
- Timestamps are whole numbers, so never NaN; floating-point values are reals.
- The loop agent's 32-bit round counter is modelled: passing its limit is the arithmetic error of a
  checked build and loses the turn.
- The locks of the in-memory services make their operations atomic.
- A file operation either happens as a whole or fails and changes nothing; other processes do not
  touch the tree. A file's contents are the text, bytes or metadata document that was written, not
  its encoding.

## What the proofs show about the code

- `reset_sub_agent_states` ends exactly when no walk by name repeats a name (`Reset.EndsUnlessCyclic`);
  on an agent with a child of its own name it never does (`Reset.NamesakeChildNeverEnds`).
- A parallel turn's final state is the same for all completion orders exactly when no two children
  give one key different last values (`ParallelAgent.TurnStateOrderFree`).
- Partial events make a run's own state differ from the persisted one unless everything they write is
  confirmed by events that are not partial (`InFlight.RunAgreesWithPersistence`).
- After `take_delta` a context's actions no longer account for its final state, unless every entry
  handed over is written again or changed nothing (`InFlight.ActionsComplete`).
- Appending the original of an event that carried transient keys a second time applies its shares
  again (`SessionViews.ReappendingOriginal`).
- The sub-agents a failed build had reached report no parent and can never be adopted
  (`AgentTree.Orphans`, `AgentTree.LinksStay`).
- Whole-second timestamps sort as text only up to the year 9999 (`Timestamps.FiveDigitYearsSortWrong`).
- The file store gives inline data back under another text or type than it was saved with unless it
  was typed and the canonical base64 text of its bytes; the bytes are always the same
  (`ArtifactSpec.KeptAsExact`, `ArtifactSpec.KeptWholeExact`).
- A save that fails in the file store, as one of undecodable data does, leaves an artifact without
  versions behind if there was none, which is then listed (`SavingArtifacts.FailedSaveRefines`,
  `FileArtifacts.FailedSaveListed`).
- A filename with a NUL is accepted by both stores, saved by the in-memory one and refused by the
  system under the other (`ArtifactStores.SaveUnderNul`).
- Accepted ids may have slashes inside, and then requests for different artifacts share an in-memory
  path (`ArtifactKeys.SlashedAppCollides` and the lemmas after it); a session called `user` is shown
  to every session of its user (`InMemoryArtifacts.ListRefines`).
- An in-memory artifact that refers to itself can be saved, and loading it never ends
  (`ArtifactReferences.SelfReferenceNeverEnds`).  A save that panics on its part does so with the lock
  held, so that every later operation panics too (`InMemoryArtifacts.InMemoryArtifactService.SaveArtifact`).
- `file://` URIs tell paths apart only if their names are UTF-8 (`FileUri.SharedUris`).

## Model

| member | source | states |
|---|---|---|
| AgentStates.RestoresPosition | crates/adk-agents/src/loop_agent.rs:48-119 | A recorded position comes back from its raw map exactly when the child name is the first of its kind in the list; the name is non-empty and the count below 2^32, for both kinds of agent. |
| AgentStates.PositionIsFirst | crates/adk-agents/src/loop_agent.rs:107-119 | The start lookup finds the first child of the recorded name, and otherwise restarts at child 0. |
| AgentStates.StartExact | crates/adk-agents/src/loop_agent.rs:107-119 | A turn starts at the origin without a tracked state; with one, in the tracked round at the first child of the tracked name, at child 0 if there is none, and past the last child if the name is empty and the agent sequential. |
| Contexts.ReplayConcat | crates/adk-agents/src/invocation_context.rs:189-214 | Replaying a longer history is replaying its parts one after the other. |
| Contexts.ReplayCoherent | crates/adk-agents/src/invocation_context.rs:155-214 | After any replay a name has an agent state exactly if it is marked as not ended. |
| Contexts.ReplayForeign | crates/adk-agents/src/invocation_context.rs:189-214 | Events filed under other names or invocations leave an agent's standing as it was. |
| Contexts.RestoredExact | crates/adk-agents/src/invocation_context.rs:189-214 | For every history and every name, the standing a fresh resumable context restores is the one of the last event of the invocation that records a state or an end under that name, save that an agent that ended or was never recorded is running from an empty state once something other than the user speaks under it. |
| Contexts.PausesExactly | crates/adk-agents/src/invocation_context.rs:275-313 | An event pauses if and only if some id is both among its long-running ids and among those of its calls and is not answered: an answer is an event by the user, after the first event that has the id of this one, whose branch has a segment tagged with the call. |
| Contexts.PausesByMembership | crates/adk-agents/src/parallel_agent.rs:199-204 | Events pause if and only if one of them does. |
| Contexts.EscalatesByMembership | crates/adk-agents/src/parallel_agent.rs:168-183 | Events escalate if and only if one of them says so. |
| Strings.BranchRunIdsExact | crates/adk-events/src/branch_path.rs:26-60 | The run ids of a branch are exactly the ids that tag one of the segments between its dots. |
| Contexts.InvocationContext.SetAgentState | crates/adk-agents/src/invocation_context.rs:155-171 | Afterwards the agent has ended, runs with the state given, or is not tracked at all, as in the three branches; every other agent stands as before, and the two maps stay coherent. |
| Contexts.InvocationContext.PopulateInvocationAgentStates | crates/adk-agents/src/invocation_context.rs:189-214 | The loop over the history restores exactly the marks the replay of this invocation's events gives, and nothing when not resumable. |
| Contexts.InvocationContext.ResetSubAgentStates | crates/adk-agents/src/invocation_context.rs:175-185 | Both maps lose exactly the names the by-name walk visits; everything else stays. |
| Orchestration.RunChild | crates/adk-agents/src/sequential_agent.rs:121-151 | One child run extends the record of the turn: its marker when announced, its events, and their deltas in the session state; an error loses everything. |
| Orchestration.TakeOver | crates/adk-agents/src/sequential_agent.rs:136-146 | The deltas of a child's events are applied to the session state in order, and the escalation and pause flags are those of the events. |
| Orchestration.RecordedAll | crates/adk-agents/src/sequential_agent.rs:121-163 | What a turn returned and left in the session state is one fold of the deltas of its own transcript. |
| Orchestration.TranscriptAt | crates/adk-agents/src/sequential_agent.rs:121-151 | Where each run stands in what a turn returns: after the events of the runs before it come its marker, if it was announced, with the author, branch, child and round it records, and then its own events. |
| Orchestration.TranscriptEndsWith | crates/adk-agents/src/sequential_agent.rs:154-161 | What a turn returns ends with an end marker if and only if the turn came to its end in a resumable context. |
| Orchestration.RankMonotone | crates/adk-agents/src/loop_agent.rs:141-199 | Along a chain of runs the lexicographic position never decreases, and increases after every run that did not pause. |
| Orchestration.CompletingRun | crates/adk-agents/src/loop_agent.rs:141-199 | Every position passed over in a chain was completed by a run at that position. |
| Orchestration.ReplayRuns | crates/adk-agents/src/invocation_context.rs:189-214 | Replaying the events of a stretch of runs leaves the agent standing at the last announced position. |
| SequentialAgent.RunChildren | crates/adk-agents/src/sequential_agent.rs:121-151 | The loop over the children makes the runs of the specification from the start child, stopping at the first that pauses. |
| SequentialAgent.RunAsyncImpl | crates/adk-agents/src/sequential_agent.rs:100-164 | A turn returns the transcript of its log or an error; on success the session state is the initial one folded with the deltas of the returned events, and the marks are those its announced runs and its end leave. |
| SequentialAgent.TurnStretch | crates/adk-agents/src/sequential_agent.rs:82-163 | Whatever the children do, a turn opened at a known child runs on from there in tree order, runs each child once, and ends exactly past the last one. |
| SequentialAgent.TurnRunsInOrder | crates/adk-agents/src/sequential_agent.rs:82-163 | For every snapshot, resumable or not: the k-th run is that of child `start + k` with the k-th outcome, announced exactly in a resumable context unless it is the one resumed; only the last may pause, a turn without a pause makes `n - start` runs, and it is lost or hangs exactly at the first run that fails or does not come back. |
| LoopAgent.RunRound | crates/adk-agents/src/loop_agent.rs:141-185 | One pass over the children from the start index extends the turn as specified, with the escalation and pause exits and the 32-bit round counter. |
| LoopAgent.RunRounds | crates/adk-agents/src/loop_agent.rs:133-199 | The outer loop, with the sub-agent reset after each round, makes exactly the runs of the specification and leaves the marks they leave. |
| LoopAgent.RunAsyncImpl | crates/adk-agents/src/loop_agent.rs:123-203 | A turn returns the transcript of its log or an error; on success the session state is the initial one folded with the deltas of the returned events, and the marks are those its announced runs, the resets after its rounds and its end leave. |
| LoopAgent.TurnStretch | crates/adk-agents/src/loop_agent.rs:107-199 | Whatever the children do, a turn opened at a known position runs on from there in loop order within its bound, and ends only at the bound or after a completed run that escalated. |
| LoopAgent.TurnRunsInRounds | crates/adk-agents/src/loop_agent.rs:107-199 | For every snapshot, resumable or not: run after run stands at the next position counted over all rounds, `times * n + child`, each below `max * n`; the turn goes on until a run pauses or escalates or the bound is met, and is lost exactly at a failing run or one that counts a round past 32 bits. |
| LoopAgent.SmoothTurnRuns | crates/adk-agents/src/loop_agent.rs:141-199 | With `max_iterations = m` a fresh turn none of whose first m*n outcomes fails, pauses or escalates makes exactly m*n runs; without a bound no turn ends unless its last run escalates. |
| LoopAgent.ChildrenAreReset | crates/adk-agents/src/loop_agent.rs:184-190 | Among the marks a turn leaves, the children have none once a round was completed; otherwise they and all other agents stand as before. |
| LoopAgent.BoundedTurnRuns | crates/adk-agents/src/loop_agent.rs:141-199 | With `max_iterations = m` and n children a turn makes at most m*n runs, whatever state it is opened on. |
| LoopAgent.BoundedTurnFinishes | crates/adk-agents/src/loop_agent.rs:141-199 | So m*n child runs that come back are enough for such a turn to come back. |
| Resumption.PlayStaysInStep | crates/adk-agents/src/sequential_agent.rs:82-163 | Over any number of turns, each populated from the history so far: runs are in order, the last run before each stop paused, the history replays to the position of the last run, and there is exactly one end marker, last, when the agent is done and none before. |
| Resumption.PassesStayInStep | crates/adk-agents/src/sequential_agent.rs:82-163 | Turns may go on after the agent is done: every pass is in step as above, all but the last have come to their end, and each has added exactly one end marker to those before it. |
| Resumption.FirstPass | crates/adk-agents/src/sequential_agent.rs:82-163 | The first of these passes is the conversation up to the end of the agent. |
| Resumption.ForeignIsAtRest | crates/adk-agents/src/invocation_context.rs:189-214 | A history without events of the agent leaves it not begun, so that a conversation may start from it. |
| Resumption.NeverBackwards | crates/adk-agents/src/loop_agent.rs:107-199 | In every pass, over all its turns, positions never move backwards, and a position is left for good once a run at it did not pause. |
| Resumption.SequentialCompletes | crates/adk-agents/src/sequential_agent.rs:82-163 | In every pass a sequential agent is done exactly when all children have completed, each in exactly one run of the pass, none skipped. |
| Resumption.LoopCompletes | crates/adk-agents/src/loop_agent.rs:141-199 | In every pass at most m*n positions complete, each passed exactly once, and exactly m*n if the pass ended without an escalation, which it cannot without a bound; nothing follows a completed run that escalated. |
| Resumption.EndedStartsOver | crates/adk-agents/src/sequential_agent.rs:154-161 | A turn after the end marker starts a new pass at the first position. |
| Reset.UniqueReset | crates/adk-agents/src/invocation_context.rs:175-185 | With unique names the recursive reset ends, within the height of the tree, and visits exactly the strict descendants' names. |
| Reset.EndsUnlessCyclic | crates/adk-agents/src/invocation_context.rs:175-185 | For every tree, repeated names included, the reset ends if and only if no walk by name from the given agent meets a name twice. |
| Reset.NamesakeChildNeverEnds | crates/adk-agents/src/invocation_context.rs:175-185 | An agent with a child of its own name is such a tree: resetting it never ends. |
| Reset.ResetCoherent | crates/adk-agents/src/invocation_context.rs:155-185 | Clearing names in both maps keeps them coherent. |
| Agents.FindUnique | crates/adk-agents/src/base_agent.rs:322-338 | With unique names an agent of the tree is what looking its name up finds. |
| Agents.FindFirst | crates/adk-agents/src/base_agent.rs:322-338 | For every tree, repeated names included, a lookup finds the first agent of that name from the top down and then from left to right, or there is none. |
| ParallelAgent.Spawn | crates/adk-agents/src/parallel_agent.rs:147-160 | Exactly the children not marked ended are spawned. |
| ParallelAgent.Drain | crates/adk-agents/src/parallel_agent.rs:162-197 | The drained tasks are all of them or those up to the first that escalates; an error on the way loses the turn. |
| ParallelAgent.RunAsyncImpl | crates/adk-agents/src/parallel_agent.rs:125-211 | The turn is the one the schedule specifies, the session state the fold of the returned events, and the agent is marked ended exactly in a resumable context whose turn did not pause. |
| ParallelAgent.TurnShape | crates/adk-agents/src/parallel_agent.rs:147-211 | For every completion order the events are an opening marker, exactly if the agent is resumable and not marked running, whole blocks of children that had not ended, up to the first that escalates, and a closing marker, exactly if the agent is resumable and no event of the blocks pauses. |
| ParallelAgent.TurnFails | crates/adk-agents/src/parallel_agent.rs:165-197 | A turn is lost if and only if some child fails and none that completed before it failed or escalated. |
| ParallelAgent.BlockAt | crates/adk-agents/src/parallel_agent.rs:162-197 | Each block stands whole in what is returned, after those of the children that completed before. |
| ParallelAgent.OrderFreeIffCompatible | crates/adk-agents/src/parallel_agent.rs:162-197 | The fold of all blocks is the same for all completion orders if and only if no two children give one key different last values; disjoint keys are the special case. |
| ParallelAgent.TurnStateOrderFree | crates/adk-agents/src/parallel_agent.rs:125-211 | Without errors and escalation, whole turns succeed in every completion order and leave the same session state in all of them if and only if no two children give one key different last values. |
| ParallelAgent.SameEvents | crates/adk-agents/src/parallel_agent.rs:162-197 | Every completion order collects the same multiset of events. |
| ParallelAgent.OrderKeepsEvents | crates/adk-agents/src/parallel_agent.rs:147-211 | Without errors and escalation, whole turns under two completion orders return the same multiset of events. |
| InFlight.State.Set | crates/adk-agents/src/state.rs:62-66 | Value and pending delta both get the entry, and the value stays the base plus the delta. |
| InFlight.State.SetDefault | crates/adk-agents/src/state.rs:72-79 | An entry already there is kept and returned; otherwise the default is set. |
| InFlight.State.Update | crates/adk-agents/src/state.rs:86-90 | A whole delta is added to value and pending delta. |
| InFlight.State.TakeDelta | crates/adk-agents/src/state.rs:110-112 | The pending delta is handed over and cleared; the value stays. |
| InFlight.NothingLost | crates/adk-agents/src/state.rs:62-112 | Through any sequence of state operations the values are the base, with all deltas handed over and then the pending one applied. |
| InFlight.ActionsComplete | crates/adk-agents/src/context.rs:479-482 | For every sequence of state operations on a new context, the delta of its actions applied to the session state gives its final view if and only if every entry handed over early by `take_delta` is written again or was in the session with that value; without `take_delta` it always does. |
| InFlight.TakenEntryIsMissing | crates/adk-agents/src/context.rs:479-482 | An entry set and then handed over is missing from the actions. |
| InFlight.UseContext | crates/adk-agents/src/context.rs:479-482 | A context opened, used by any sequence of operations and closed gives exactly the actions and the view of the specification. |
| InFlight.SequentialEntries | crates/adk-agents/src/sequential_agent.rs:121-151 | Each child of a sequential turn starts from the initial state folded with the deltas of the runs before it. |
| InFlight.LoopEntries | crates/adk-agents/src/loop_agent.rs:141-199 | The same for every child run of a loop turn. |
| InFlight.PersistApplies | crates/adk-agents/src/services.rs:330-348 | Appending events one by one applies the deltas of the non-partial ones. |
| InFlight.LastWriteIsTotal | crates/adk-agents/src/services.rs:330-348 | What events amount to under a key is what the last of them to write it writes, partial ones counted or not. |
| InFlight.RunAgreesWithPersistence | crates/adk-agents/src/services.rs:330-348 | A run's own state and the persisted one agree, from every initial state, if and only if every key a partial event writes is also written by an event that is not partial, and the last of those writes the value that is written last of all. |
| InFlight.LonePartialIsLost | crates/adk-agents/src/services.rs:330-348 | A single partial event with a new entry is such a run: the store never gets the entry. |
| InFlight.SilentPartials | crates/adk-agents/src/services.rs:330-348 | They agree whenever no partial event carries a delta. |
| Scopes.ExtractStateDelta | crates/adk-agents/src/session_util.rs:66-93 | The loop splits a delta into the app share, the user share and the plain share, prefixes stripped and transient keys dropped. |
| Scopes.Overlay | crates/adk-agents/src/services.rs:421-444 | Overlaying a shared map under its prefix gives exactly its prefixed entries over the state. |
| Scopes.OneScope | crates/adk-agents/src/session_util.rs:66-93 | A key is of one scope at most. |
| SessionStore.RunOpsValid | crates/adk-agents/src/services.rs:483-669 | In every reachable store each session is filed under its own key, and no stored state or event holds a prefixed or transient key. |
| SessionStore.StatesAreEventSourced | crates/adk-agents/src/services.rs:450-669 | In every reachable store each session's stored state is its initial plain state folded with the plain shares of its stored events. |
| SessionViews.MergedAt | crates/adk-agents/src/services.rs:421-444 | A reader's merged state has, under each key, the entry of the one map the key's prefix names. |
| SessionViews.ViewAfter | crates/adk-agents/src/services.rs:450-479 | Filing a delta for one session changes the view of any session by exactly the entries of the delta it may see. |
| SessionViews.OthersSeeTheirScope | crates/adk-agents/src/services.rs:626-669 | After an append that takes place, every stored session reads as before with the entries of the delta that show in it; events and times change only in the session appended to. |
| SessionViews.ReachOfADelta | crates/adk-agents/src/services.rs:450-479 | A delta shows whole in its own session, its user and app entries in other sessions of the user, its app entries to other users of the app, and nothing in other apps. |
| SessionViews.AppendKeepsCurrent | crates/adk-agents/src/services.rs:626-669 | A caller's copy that equals a fresh read apart from transient keys still does after it appends an event. |
| SessionViews.ReadIsCurrent | crates/adk-agents/src/services.rs:531-549 | What a read returns is current. |
| SessionViews.CreateIsCurrent | crates/adk-agents/src/services.rs:483-529 | What a creation returns is current. |
| SessionViews.CreateExact | crates/adk-agents/src/services.rs:483-529 | A creation fails if and only if the id asked for, blanks around it left out, is in use, and then changes nothing; otherwise one session is new, without events, and a read of it gives what the creation returned. |
| SessionViews.CreatedState | crates/adk-agents/src/services.rs:505-527 | The state a creation returns has every entry it was given that is not transient, with its value, and besides those only what the app and the user shared before. |
| SessionViews.OthersSeeCreation | crates/adk-agents/src/services.rs:505-519 | Every other session reads as before, with the entries given to the new one that show in it. |
| SessionViews.VisibleExact | crates/adk-agents/src/session_util.rs:66-93 | Which entries of a delta show in a session: `app:` entries if it is of the app, `user:` entries if it is of the user too, others if it is the very session; `temp:` entries are dropped before. |
| SessionViews.UserStateAfterCreate | crates/adk-agents/src/services.rs:505-519 | The shared state of the user then has the `user:` entries given, over what it had. |
| SessionViews.AppendExact | crates/adk-agents/src/services.rs:626-669 | An append changes nothing if the event is partial, stored already or its session gone; otherwise the event without its transient entries is the last one of the stored session and of the copy, both bear its time, and no other session changes. |
| SessionViews.DeleteExact | crates/adk-agents/src/services.rs:587-604 | A deleted session is gone, every other one reads as before, and shared state stays. |
| SessionViews.ReappendingReturned | crates/adk-agents/src/services.rs:626-669 | Appending again the event that an append returned changes nothing in the store. |
| SessionViews.NeverTakenAgain | crates/adk-agents/src/services.rs:626-669 | Nor is that event taken again in any later store, whatever operations led there, as long as the session was not created again on the way. |
| SessionViews.ReappendingOriginal | crates/adk-agents/src/services.rs:626-669 | Appending the event once more as it was first given leaves the store unchanged if and only if the first append was not taken or the event carries no transient entries. |
| SessionViews.TransientTakenTwice | crates/adk-agents/src/services.rs:626-669 | An event with a transient entry, given to a session without events twice, is stored twice. |
| SessionService.InMemorySessionService.CreateSession | crates/adk-agents/src/services.rs:483-529 | Store and result are those of the specification, the duplicate-id error included. |
| SessionService.InMemorySessionService.ReadSession | crates/adk-agents/src/services.rs:531-549 | A read is the merged view of the stored session. |
| SessionService.InMemorySessionService.ReadSessionWithConfig | crates/adk-agents/src/services.rs:196-215 | With a configuration the read keeps the recent events, and of those the late ones. |
| SessionService.TrimmedExact | crates/adk-agents/src/services.rs:196-215 | What such a read keeps: the last n events, all if there are fewer and none if n is not positive, and of those, in order, exactly the ones not before the time given, if that is not zero. |
| SessionService.InMemorySessionService.ListSessions | crates/adk-agents/src/services.rs:551-585 | The listing holds the event-free view of each session of the user (or of all users) once, by ascending time, at one time by user, and for one user by id. |
| SessionService.InMemorySessionService.DeleteSession | crates/adk-agents/src/services.rs:587-604 | Exactly the session named is removed; shared state stays. |
| SessionService.InMemorySessionService.GetUserState | crates/adk-agents/src/services.rs:673-688 | The shared state of the user, under keys without prefix; empty for a user without any. |
| SessionService.InMemorySessionService.AppendEvent | crates/adk-agents/src/services.rs:626-669 | The caller's copy, the store and the returned event are those of the specification: trimmed delta, one copy of each event, shares filed by scope. |
| SessionService.InMemorySessionService.ApplyScopedStateDelta | crates/adk-agents/src/services.rs:450-479 | The app and user shares are merged into the shared maps; the plain share is returned. |
| SessionService.InMemorySessionService.MergeState | crates/adk-agents/src/services.rs:421-444 | The merged state is the session's own with the shared maps laid over it under their prefixes. |
| SessionService.ApplySessionEvent | crates/adk-agents/src/services.rs:330-348 | A partial event changes nothing; any other is appended without transient entries after all its entries were applied. |
| ReservationProtocol.RunsKeepInv | crates/adk-agents/src/file_artifact_service.rs:273-296 | Every interleaving of any number of saves keeps the protocol's invariant: staged versions are owned by one save and filled in order, published ones are complete. |
| ReservationProtocol.NoVersionTwice | crates/adk-agents/src/file_artifact_service.rs:273-296 | In every run no two saves publish one version, and no rename lands on an existing version. |
| ReservationProtocol.StageIsThere | crates/adk-agents/src/file_artifact_service.rs:551-614 | A save never finds its staging directory gone. |
| ReservationProtocol.LaterSavesGetLaterVersions | crates/adk-agents/src/file_artifact_service.rs:273-296 | A save that begins after another has published gets a greater version. |
| ReservationProtocol.AbandonedStaysUnused | crates/adk-agents/src/file_artifact_service.rs:270-296 | A version whose save crashed while it was staged is never published afterwards. |
| ReservationProtocol.StepKeepsPublished | crates/adk-agents/src/file_artifact_service.rs:551-614 | A published version never changes. |
| ReservationProtocol.RetriesMoveOn | crates/adk-agents/src/file_artifact_service.rs:278-296 | Each retry moves on by one, and only from a version that another save stages, has left staged, or has published. |
| ReservationProtocol.RetriesAreBounded | crates/adk-agents/src/file_artifact_service.rs:278-296 | In every interleaving a save is as many versions past the first it tried as it has retried, and these are at most the versions from there on that other saves have staged. |
| ReservationProtocol.FreeVersionIsTaken | crates/adk-agents/src/file_artifact_service.rs:278-296 | A free version at the search's position is taken at once. |
| ReservationProtocol.VersionsDirectory.Reserve | crates/adk-agents/src/file_artifact_service.rs:273-296 | The search loop ends and stages the least version above all listed ones that is neither staged nor published. |
| ReservationProtocol.LastVersion | crates/adk-agents/src/file_artifact_service.rs:256-267 | The greatest of the listed versions. |
| ArtifactKeys.PathInjective | crates/adk-agents/src/in_memory_artifact_service.rs:79-92 | The path text determines app, user, scope and filename for slash-free ids, whatever slashes the filename has and even for a session called `user`. |
| ArtifactKeys.ReadingExact | crates/adk-agents/src/in_memory_artifact_service.rs:79-92 | Cutting a path text at its first three slashes gives a slash-free key exactly if it is that key's path; so a request with slashed ids shares its path with a slash-free key exactly if its path reads as one. |
| ArtifactKeys.ValidConcat | crates/adk-agents/src/artifact_util.rs:153-183 | Two accepted ids with a slash between them are an accepted id. |
| ArtifactKeys.SlashedAppCollides | crates/adk-agents/src/in_memory_artifact_service.rs:79-92 | For all accepted parts: an app name with a slash inside has the path of the request in which its two parts are app and user, the user is the session and the session part of the filename, unless the session itself starts with `user:`; then it has if and only if the user is called `user`. |
| ArtifactKeys.SlashedUserCollides | crates/adk-agents/src/in_memory_artifact_service.rs:79-92 | The same of a user id with a slash inside. |
| ArtifactKeys.SlashedSessionCollides | crates/adk-agents/src/in_memory_artifact_service.rs:79-92 | The same of a session id with a slash inside, for filenames of a session. |
| ArtifactKeys.EveryIdTakesPart | crates/adk-agents/src/in_memory_artifact_service.rs:79-92 | Every accepted id, slashed or not, as app, user or session, shares some path with another request, one of whose ids has a slash. |
| ArtifactKeys.ValidIdExact | crates/adk-agents/src/artifact_util.rs:153-183 | An id is accepted if and only if it is not empty, has no NUL, does not begin with a slash of either kind or a letter and a colon, is not a dot, and has no two dots between slashes or ends. |
| ArtifactKeys.AcceptedExact | crates/adk-agents/src/file_artifact_service.rs:129-163 | A filename is accepted if and only if what is left of it without namespace and blanks does not begin like a root or a drive and has no two dots between slashes. |
| ArtifactKeys.SegmentsExact | crates/adk-agents/src/file_artifact_service.rs:144-174 | Its segments are the pieces between slashes of either kind, in order, empty ones and single dots left out, or `artifact` if none is left. |
| ArtifactKeys.ListedExactly | crates/adk-agents/src/in_memory_artifact_service.rs:276-290 | A stored path is listed for a session exactly if it is of its own folder or the user's, and under its filename. |
| ArtifactKeys.SegmentsDescend | crates/adk-agents/src/file_artifact_service.rs:144-174 | No segment of an accepted filename is empty, `.` or `..`. |
| ArtifactKeys.SegmentsHoldNul | crates/adk-agents/src/file_artifact_service.rs:135-168 | A NUL in an accepted filename is never trimmed away: some segment has it. |
| ArtifactSpec.AnswerUnique | crates/adk-agents/src/in_memory_artifact_service.rs:116-310 | Each operation has one right answer. |
| ArtifactSpec.LoadExact | crates/adk-agents/src/in_memory_artifact_service.rs:125-138 | A number loads the version at that position or nothing; without a number the last version is loaded. |
| ArtifactSpec.LoadAfterSave | crates/adk-agents/src/in_memory_artifact_service.rs:116-252 | After a save, loading without a number or by the number it gave gives the part saved; any other number gives what it gave before. |
| ArtifactSpec.KeptAsExact | crates/adk-agents/src/file_artifact_service.rs:558-588 | What the file store keeps of any part: a text, empty or not, as itself; inline data as the canonical text of the bytes it decodes to, under its own non-empty type or else as an octet stream, with its display name; and nothing exactly of parts that are neither or whose data is missing or does not decode. |
| ArtifactSpec.KeptWholeExact | crates/adk-agents/src/file_artifact_service.rs:481-588 | A part comes back as it was given if and only if it is a text or typed data that is the base64 text of some bytes. |
| InMemoryArtifacts.InMemoryArtifactService.SaveArtifact | crates/adk-agents/src/in_memory_artifact_service.rs:172-252 | The part becomes the next version under the path; an id that is not accepted changes nothing; a part without content, or a reference out of scope, panics under the lock and so ends the service. |
| InMemoryArtifacts.InMemoryArtifactService.LoadArtifact | crates/adk-agents/src/in_memory_artifact_service.rs:116-170 | The version asked for or the latest, unless it is missing or an empty sentinel; a reference is followed to what it leads to, if that comes to an end, and panics if it does not parse or is out of scope. |
| ArtifactReferences.EndsUnlessCyclic | crates/adk-agents/src/in_memory_artifact_service.rs:140-163 | Loading ends if and only if following the references never makes the same request twice. |
| ArtifactReferences.SelfReferenceNeverEnds | crates/adk-agents/src/in_memory_artifact_service.rs:140-231 | A version that refers to itself passes the check of a save, and loading it never ends. |
| ArtifactReferences.ReferenceIsFollowed | crates/adk-agents/src/in_memory_artifact_service.rs:140-163 | A version that refers to an artifact of its own scope, under the URI printed for it with or without the session, loads as that version of that artifact does; a number from 2^63 on loads nothing. |
| ArtifactReferences.DeeperIsSame | crates/adk-agents/src/in_memory_artifact_service.rs:140-163 | What a load comes to does not depend on how many references it is allowed. |
| ArtifactReferences.ChainStaysInScope | crates/adk-agents/src/artifact_util.rs:121-139 | Along any chain of references app, user and session stay those of the first request. |
| ArtifactReferences.LoadsStayInScope | crates/adk-agents/src/artifact_util.rs:121-139 | Whatever a load gives, the same app, user and session could have asked for directly. |
| ArtifactReferences.SavedReferenceRefused | crates/adk-agents/src/artifact_util.rs:121-139 | A reference accepted when it was saved is refused by a load from another session if and only if it does not parse or names its session. |
| InMemoryArtifacts.InMemoryArtifactService.DeleteArtifact | crates/adk-agents/src/in_memory_artifact_service.rs:292-295 | Exactly the path is removed. |
| InMemoryArtifacts.InMemoryArtifactService.ListVersions | crates/adk-agents/src/in_memory_artifact_service.rs:297-310 | The version numbers from 0 up. |
| InMemoryArtifacts.InMemoryArtifactService.ListArtifactKeys | crates/adk-agents/src/in_memory_artifact_service.rs:276-290 | The listing is sorted, holds exactly the names under the session's and the user's folder, and each once unless two paths have one name. |
| InMemoryArtifacts.LookupRefines | crates/adk-agents/src/in_memory_artifact_service.rs:79-92 | The path-keyed map answers like a map keyed by app, user, scope and filename. |
| InMemoryArtifacts.AddRefines | crates/adk-agents/src/in_memory_artifact_service.rs:172-252 | A save on the path-keyed map is a save on the key-keyed store. |
| InMemoryArtifacts.RemoveRefines | crates/adk-agents/src/in_memory_artifact_service.rs:292-295 | A removal on the path-keyed map is a removal on the key-keyed store. |
| InMemoryArtifacts.ListRefines | crates/adk-agents/src/in_memory_artifact_service.rs:276-290 | A session is shown exactly the names of its own scope, of its user, and of a session called `user`. |
| InMemoryArtifacts.NamedOnceRefines | crates/adk-agents/src/in_memory_artifact_service.rs:276-290 | Without a session called `user` no name is listed twice. |
| ArtifactLayout.PlaceApart | crates/adk-agents/src/file_artifact_service.rs:418-455 | Directories of different apps, users or scopes never lie inside one another. |
| ArtifactLayout.VersionsInjective | crates/adk-agents/src/file_artifact_service.rs:418-455 | Good keys have different version directories, none inside another. |
| ArtifactLayout.WrittenReadsBack | crates/adk-agents/src/file_artifact_service.rs:481-614 | For every part: it can be written exactly if something of it can be kept, and what is written reads back as the part kept of it, which would be written the same way again; this uses the base64 round trip. |
| ArtifactLayout.LayoutPut | crates/adk-agents/src/file_artifact_service.rs:551-614 | Writing the versions of one artifact turns the layout of a store into that of the store written. |
| ArtifactLayout.LayoutDrop | crates/adk-agents/src/file_artifact_service.rs:682-696 | Removing an artifact's versions gives the layout of the store without it. |
| ArtifactLayout.LayoutPrune | crates/adk-agents/src/file_artifact_service.rs:216-227 | Removing an empty directory changes nothing that the layout speaks of. |
| VersionListing.ListVersionsOnDisk | crates/adk-agents/src/file_artifact_service.rs:256-267 | The listing is ascending and holds exactly the numbers that directory names spell. |
| VersionListing.ListedUpTo | crates/adk-agents/src/file_artifact_service.rs:256-267 | For a stored artifact the listing is 0, 1, ... up to its number of versions. |
| VersionListing.TryVersion | crates/adk-agents/src/file_artifact_service.rs:278-296 | A try of the search takes a free version, or undoes what it made and leaves fewer names in the way. |
| VersionListing.FirstFreeIsCount | crates/adk-agents/src/file_artifact_service.rs:273-296 | In a stored artifact's directory the first free version is the number of versions. |
| SavingArtifacts.PublishAdds | crates/adk-agents/src/file_artifact_service.rs:551-614 | A save adds its version directory, with payload and metadata, and leaves no staging directory. |
| SavingArtifacts.DirsMakeWay | crates/adk-agents/src/file_artifact_service.rs:551-555 | Making the directories leaves the versions that are there. |
| SavingArtifacts.SaveRefines | crates/adk-agents/src/file_artifact_service.rs:529-614 | From reservation to rename, a save of any part that can be kept gives the layout of the store with one more version, what is kept of the part, whose number is the count before. |
| SavingArtifacts.FailedSaveLeavesDirs | crates/adk-agents/src/file_artifact_service.rs:609-612 | Removing the staging directory of a failed save gives the tree with the artifact's directories made, and nothing else. |
| SavingArtifacts.FailedSaveRefines | crates/adk-agents/src/file_artifact_service.rs:551-612 | That tree is the layout of the store with the artifact in it, without versions if it had none; it differs from the tree before if and only if the artifact was not there. |
| SavingArtifacts.WrittenExactly | crates/adk-agents/src/file_artifact_service.rs:558-594 | A part cannot be written if and only if it is neither text nor inline data, or its data is missing or has a character before its first `=` that is not in the alphabet. |
| SavingArtifacts.BadPayload | crates/adk-agents/src/file_artifact_service.rs:558-594 | Inline data `!` is such a part. |
| ArtifactWalk.IterArtifactDirs | crates/adk-agents/src/file_artifact_service.rs:233-254 | The stack walk ends and finds exactly the directories below the root, outside `versions`, that have a `versions` directory. |
| ArtifactWalk.ChildDirs | crates/adk-agents/src/file_artifact_service.rs:243-251 | The entries a walk goes into: the subdirectories not called `versions`, each once. |
| FileArtifacts.FileArtifactService.ReserveVersionDir | crates/adk-agents/src/file_artifact_service.rs:273-296 | The search ends and stages the least free version above all listed ones. |
| FileArtifacts.FileArtifactService.SaveArtifact | crates/adk-agents/src/file_artifact_service.rs:529-614 | On a laid-out tree a save succeeds if and only if something of the part can be kept, with the count of versions as its number, and the layout is then that of the store with that version, which is the text itself or the canonical text of the same bytes under its type; a failed save leaves exactly the artifact's directories. Ids, filenames and reserved names that are refused change nothing, and neither does a filename with a NUL. |
| FileArtifacts.CreatedWithoutNul | crates/adk-agents/src/file_artifact_service.rs:551-555 | The directory of an accepted request can be created if and only if its filename has no NUL and no file is in the way. |
| FileArtifacts.NulName | crates/adk-agents/src/file_artifact_service.rs:135-168 | The filename of a single NUL is accepted, and so cannot be created. |
| FileArtifacts.FailedSaveListed | crates/adk-agents/src/file_artifact_service.rs:641-680 | After a failed save exactly the sessions that would be shown the artifact list its name; their listings change if and only if it was not there. |
| FileArtifacts.FileArtifactService.LoadArtifact | crates/adk-agents/src/file_artifact_service.rs:481-527 | On a laid-out tree the version asked for or the latest comes back as the store has it, or nothing if it is not there. |
| FileArtifacts.FileArtifactService.ListVersions | crates/adk-agents/src/file_artifact_service.rs:698-709 | On a laid-out tree the version numbers from 0 up. |
| FileArtifacts.FileArtifactService.ListArtifactKeys | crates/adk-agents/src/file_artifact_service.rs:641-680 | On a laid-out tree exactly the names of the session and its user, in order, each once, those of artifacts without versions included. |
| FileArtifacts.FileArtifactService.DeleteArtifact | crates/adk-agents/src/file_artifact_service.rs:682-696 | On a laid-out tree the artifact is gone, the layout is that of the rest. |
| FileArtifacts.FileArtifactService.PruneEmptyDirs | crates/adk-agents/src/file_artifact_service.rs:216-227 | Pruning removes the empty directories upwards to the first that is not empty or the scope root, and keeps the layout. |
| FileArtifacts.NamesUnder | crates/adk-agents/src/file_artifact_service.rs:648-677 | The names collected below a root are exactly the filenames saved there. |
| FileArtifacts.NamedByDir | crates/adk-agents/src/file_artifact_service.rs:648-677 | An artifact named by its directory, for want of metadata, has the name it was saved under. |
| FileArtifacts.OthersSurvive | crates/adk-agents/src/file_artifact_service.rs:682-696 | Deleting an artifact keeps all others as they are, also those whose directories lie inside its own. |
| ArtifactStores.Replay | crates/adk-agents/src/file_artifact_service.rs:481-709 | Over every history of saves, loads, deletes and listings with good keys and faithful parts, the file store and the in-memory store give the same answers, the ones the numbered versions call for. |
| ArtifactStores.ReplayOnDisk | crates/adk-agents/src/file_artifact_service.rs:481-709 | The file store over every history of saves of any parts, loads, deletes and listings with good keys: a save of what cannot be kept is refused and leaves its artifact among the names, and all other answers are right, where loads give back what is kept of the parts saved. |
| ArtifactStores.LoadAfterSaveOnDisk | crates/adk-agents/src/file_artifact_service.rs:481-614 | On disk, loading right after a save of any part that can be kept gives that text, or the canonical text of the same bytes under its type. |
| ArtifactStores.FaithfulExactly | crates/adk-agents/src/in_memory_artifact_service.rs:140-170 | Of the parts the file store can keep, the two stores give the same back if and only if the part is faithful: a text that is not empty, or typed data that is the base64 text of some bytes, at least one. |
| ArtifactStores.SaveUnderNul | crates/adk-agents/src/file_artifact_service.rs:529-614 | Under a filename with a NUL that is otherwise accepted the in-memory store saves a text, and the file store refuses it and changes nothing. |
| ArtifactStores.RunInMemory | crates/adk-agents/src/in_memory_artifact_service.rs:116-310 | Each operation on the in-memory store answers and acts like the abstract store. |
| ArtifactStores.RunFiles | crates/adk-agents/src/file_artifact_service.rs:481-709 | Each operation on the file store answers and acts like the abstract store. |
| ArtifactStores.ListingIsRight | crates/adk-agents/src/in_memory_artifact_service.rs:276-290 | The in-memory listing is the sorted set of the session's and the user's names. |
| FileUri.RoundTrip | crates/adk-agents/src/file_artifact_service.rs:186-202 | The `file://` URI of a path reads back as its names in text form, and as the path itself if and only if all names are UTF-8. |
| FileUri.UnreservedExact | crates/adk-agents/src/file_artifact_service.rs:186-202 | A byte stands for itself if and only if it is one of the 66 unreserved characters; any other is a percent sign and two upper-case hexadecimal digits. |
| FileUri.SharedUris | crates/adk-agents/src/file_artifact_service.rs:186-202 | Two paths share a URI if and only if their names decode to the same texts, name by name. |
| FileUri.NamesCollide | crates/adk-agents/src/file_artifact_service.rs:186-202 | Below root directories whose names are the single bytes FF and FE all URIs are the same. |
| Utf8.DecodesEncoded | crates/adk-agents/src/file_artifact_service.rs:191-191 | Lossy decoding gives back every text that was encoded. |
| Utf8.EncodesDecoded | crates/adk-agents/src/file_artifact_service.rs:191-191 | Decoding and encoding gives back a byte string if and only if nothing in it had to be replaced. |
| ArtifactUri.MatchExact | crates/adk-agents/src/artifact_util.rs:40-83 | The matcher finds capture groups exactly when the pattern matches with them; so they are unique. |
| ArtifactUri.OnePattern | crates/adk-agents/src/artifact_util.rs:59-83 | No URI matches both patterns. |
| ArtifactUri.RoundTrip | crates/adk-agents/src/artifact_util.rs:59-105 | Parsing the printed URI gives the parts back if and only if ids are non-empty and slash-free, the filename non-empty and on one line, and the version a `u64`. |
| ArtifactUri.PrintParsed | crates/adk-agents/src/artifact_util.rs:59-105 | Printing a parsed URI gives it back up to leading zeros of the version, and exactly if there are none. |
| ArtifactUri.EmptySessionIsNone | crates/adk-agents/src/artifact_util.rs:88-105 | An empty session id comes back as none. |
| Decimals.ValueOfDigits | crates/adk-agents/src/artifact_util.rs:59-83 | Printing a version and parsing it are inverse. |
| Decimals.DigitsOfValue | crates/adk-agents/src/artifact_util.rs:59-83 | Parsing a version and printing it gives it back up to leading zeros. |
| Base64.EncodePayload | crates/adk-agents/src/file_artifact_service.rs:298-317 | The artifact store's encoder computes the base64 text of its bytes. |
| Base64.EncodeHeader | crates/adk-agents/src/auth_headers.rs:119-141 | The header encoder computes the same text for every input. |
| Base64.Decode | crates/adk-agents/src/file_artifact_service.rs:336-353 | The loop with the wrapping 32-bit register computes what is decoded from the start with no bits pending. |
| Base64.ChunkBits | crates/adk-agents/src/file_artifact_service.rs:298-317 | The characters of a chunk spell its 24 bits, six at a time, padding where bytes are missing. |
| Base64.EncodedLength | crates/adk-agents/src/file_artifact_service.rs:298-317 | The text has four characters for every three bytes begun. |
| Base64.WrappingIsHarmless | crates/adk-agents/src/file_artifact_service.rs:336-353 | Wrapping at 32 bits never loses a pending bit: the decoder equals one that holds only the pending bits. |
| Base64.RoundTrip | crates/adk-agents/src/file_artifact_service.rs:298-353 | Decoding the encoding gives the bytes back, for every byte sequence. |
| Base64.DecodesWhat | crates/adk-agents/src/file_artifact_service.rs:319-353 | A text is accepted if and only if everything before its first `=` is in the alphabet, and then gives one byte per eight bits. |
| Base64.DecodedBytes | crates/adk-agents/src/file_artifact_service.rs:336-353 | For every accepted text, padded or not, byte j is made of the eight bits of its characters from bit 8*j on. |
| Base64.TheAlphabet | crates/adk-agents/src/file_artifact_service.rs:299-299 | The letters are those of the standard alphabet, in its order. |
| AgentTree.Build | crates/adk-agents/src/base_agent.rs:219-268 | A build succeeds if and only if the name is valid and the sub-agents are different agents without a parent; the links set, the error and its current-parent name are exact, and the forest invariant is kept either way. |
| AgentTree.AdoptKeeps | crates/adk-agents/src/base_agent.rs:251-266 | A build keeps the forest, whether it succeeds or stops on the way. |
| AgentTree.Orphans | crates/adk-agents/src/base_agent.rs:251-266 | The sub-agents a failed build had adopted report no parent, and their link stays set. |
| AgentTree.OneParent | crates/adk-agents/src/base_agent.rs:251-266 | No agent is a sub-agent of two agents that were built. |
| AgentTree.BuildAll | crates/adk-agents/src/base_agent.rs:219-268 | Over any sequence of builds each has the result, the error included, that it should in the links the ones before it left; the agents returned are exactly the successes in order, and the forest is kept. |
| AgentTree.LinksStay | crates/adk-agents/src/base_agent.rs:251-266 | Over any sequence of builds a link, once set, never changes, what was built stays, and an agent whose build failed never comes to exist. |
| AgentTree.RootAgent | crates/adk-agents/src/base_agent.rs:302-338 | The climb ends at an agent without a parent, above the one it began at, which is found again from there by its name if no other agent below shares it. |
| AgentTree.FindsUnique | crates/adk-agents/src/base_agent.rs:312-338 | An agent whose name is unique below a root is what looking the name up finds. |
| AgentTree.FindRight | crates/adk-agents/src/base_agent.rs:312-338 | A lookup finds an agent of that name below, and finds none only if there is none. |
| AgentTree.FindsInShape | crates/adk-agents/src/base_agent.rs:312-338 | Looking a name up on the heap is looking it up in the value the tree stands for. |
| AgentTree.CloneWith | crates/adk-agents/src/base_agent.rs:345-369 | A clone without an update always succeeds with a fresh tree of the same shape, names and descriptions and its own parent links; no existing agent changes; with an update it fails exactly on a parent update, an invalid name or sub-agents that cannot be adopted. |
| AgentTree.CloneSubAgents | crates/adk-agents/src/base_agent.rs:353-360 | The clones of the sub-agents are fresh, different and without a parent. |
| AgentTree.DisjointTrees | crates/adk-agents/src/base_agent.rs:345-369 | Nothing below a cloned agent is an old agent. |
| Canonical.CanonicalDecides | crates/adk-agents/src/auth_tool.rs:43-57 | Two trees with unique keys have one canonical form if and only if they are equal up to the order of map entries and null entries of maps, at any depth; nulls in sequences count. |
| Canonical.ReachesForm | crates/adk-agents/src/auth_tool.rs:43-57 | The canonical form is null-free in maps and strictly key-sorted at every level. |
| Canonical.Idempotent | crates/adk-agents/src/auth_tool.rs:43-57 | A canonical form is its own canonical form, repeated keys or not. |
| CivilDate.CivilIsExact | crates/adk-agents/src/in_memory_memory_service.rs:92-104 | For every day number the computed date is a date of the proleptic Gregorian calendar, and the one whose day count is that number. |
| CivilDate.CivilInverts | crates/adk-agents/src/in_memory_memory_service.rs:92-104 | Every date is computed from its own day number. |
| CivilDate.CivilAdvances | crates/adk-agents/src/in_memory_memory_service.rs:92-104 | The next day number gives the next day of the calendar. |
| CivilDate.CivilKeepsOrder | crates/adk-agents/src/in_memory_memory_service.rs:92-104 | The computed dates are in calendar order exactly when the day numbers are. |
| Timestamps.TextOrderIsTimeOrder | crates/adk-agents/src/in_memory_memory_service.rs:72-87 | Within the years 0000 to 9999 whole-second texts sort exactly like the times, and differ for different times. |
| Timestamps.FourDigitTimes | crates/adk-agents/src/in_memory_memory_service.rs:72-87 | Those years are one stretch of time, with its first and last second. |
| Timestamps.TimestampReads | crates/adk-agents/src/in_memory_memory_service.rs:72-87 | For every whole-second time, whatever its year, the text reads back as a date of the calendar and as hour, minute and second of that day, and these make up the time. |
| Timestamps.FiveDigitYearsSortWrong | crates/adk-agents/src/in_memory_memory_service.rs:72-87 | The first second of the year 10000 sorts before the last of 9999. |
| MemoryService.Remember | crates/adk-agents/src/in_memory_memory_service.rs:169-190 | The loop with its set of known ids remembers the events with content whose ids are new. |
| MemoryService.AddKeeps | crates/adk-agents/src/in_memory_memory_service.rs:169-190 | A batch keeps ids distinct and what was remembered in place, and afterwards every event with content is known by its id. |
| MemoryService.RepeatedBatch | crates/adk-agents/src/in_memory_memory_service.rs:169-190 | Repeating a batch is a no-op, also after other batches. |
| MemoryService.AddEventsExact | crates/adk-agents/src/in_memory_memory_service.rs:169-190 | A batch adds, in order and after what was there, exactly its events with content whose ids are neither there nor among those of earlier ones with content. |
| MemoryService.ScoreExact | crates/adk-agents/src/in_memory_memory_service.rs:224-262 | An event's score is the number of query words that are words of its texts, joined by blanks, or are not all ASCII and occur in their lower-case form, if these texts have any words. |
| MemoryService.MatchesExact | crates/adk-agents/src/in_memory_memory_service.rs:221-263 | The matches are those of the events that score, in order, each with its score, content, author and formatted time. |
| MemoryService.MetInTurn | crates/adk-agents/src/in_memory_memory_service.rs:213-222 | The sessions are met one after the other, each with all of its events in order. |
| MemoryService.BestIsBest | crates/adk-agents/src/in_memory_memory_service.rs:265-279 | The results are the ten best matches or all if there are fewer, in non-increasing score; no match left out beats one returned, and ties keep the order in which they were met. |
| MemoryService.TenAtMost | crates/adk-agents/src/in_memory_memory_service.rs:272-279 | All matches are returned if there are fewer than ten, and else ten. |
| MemoryService.SearchSnapshot | crates/adk-agents/src/in_memory_memory_service.rs:209-279 | The nested loops score every event of the snapshot and return the best of the matches. |
| MemoryService.InMemoryMemoryService.AddEventsToMemory | crates/adk-agents/src/in_memory_memory_service.rs:169-190 | Exactly the session's remembered events change, to those with the batch added. |
| MemoryService.InMemoryMemoryService.AddSessionToMemory | crates/adk-agents/src/in_memory_memory_service.rs:153-167 | Exactly the session's remembered events are replaced by the events with content. |
| MemoryService.InMemoryMemoryService.SearchMemory | crates/adk-agents/src/in_memory_memory_service.rs:209-279 | A search returns the best matches over all sessions of the user, met in some order. |
| Orderings.SortSorts | crates/adk-agents/src/in_memory_memory_service.rs:269-271 | Sorting permutes and orders. |
| Orderings.SortStable | crates/adk-agents/src/in_memory_memory_service.rs:269-271 | Sorting keeps tied elements in the order in which it finds them. |

## Left out

- LoopAgent.RunAsyncImpl: assumes that no child bears the loop's own name, for then the reset after a round would not end, and that the turn needs no child run beyond its script, for such a run never comes back.
- SequentialAgent.RunAsyncImpl: assumes that the turn needs no child run beyond its script.
- ReservationProtocol.RunsKeepInv: assumes that nothing is deleted while saves are under way, and treats the temporary file of the metadata write as part of that write.
- VersionListing.ListVersionsOnDisk: versions are unbounded; that the source's are `i64` is not modelled.
- ArtifactStores.Replay: histories use identifiers that are one path segment, no session called `user`, filenames without a NUL that are what their own segments spell, and payloads that are text or typed base64 data and not empty, for exactly these come back alike from both stores (`ArtifactStores.FaithfulExactly`); histories with any payloads, those that cannot be saved included, are in `ArtifactStores.ReplayOnDisk`, for the file store alone.
- FileArtifacts.FileArtifactService.SaveArtifact: failing disks are not modelled, nor names that the operating system refuses for other reasons than a NUL, such as their length; the errors are those of refused names, of files in the way and of payloads that cannot be decoded.
- ArtifactUri.Matches: digits other than ASCII ones match the pattern's digit class but are no `u64`; either way such a URI does not parse.
- AgentTree.Build: agents are dropped only by a failed build; handles that callers drop, and the callbacks and behaviours agents carry, are not modelled.
- MemoryService.Score: how a text is split into words and lower-cased is a parameter, since it depends on Unicode tables.
- Timestamps.FormatTimestamp: the fraction of a second, whose rounding is floating-point, is not modelled.
- Canonical.Canonicalize: the JSON text and the SHA-256 hash that digest a canonical form, and the choice of fields that `AuthConfig::get_credential_key` digests.
- SessionStore.Create: nested maps per app, user and session are one map with tuple keys; UUIDs and stamps are parameters.
- InMemoryArtifacts.InMemoryArtifactService.LoadArtifact: assumes that following references comes to an end; exactly when it does is `ArtifactReferences.EndsUnlessCyclic`.
- InMemoryArtifacts.InMemoryArtifactService.SaveArtifact: a part has one kind of content, and one that does not deserialize is not modelled.
- AgentTree.BuildAll: the calls name sub-agents by their place among the agents built so far, so that every caller's handle is to an agent that exists; a place not taken yet is skipped.
- Custom metadata, `get_artifact_version` and `list_artifact_versions`.
- Nested resumable children, before and after callbacks, branch contexts of parallel children, `get_events` and `is_branch_match`, and the live modes.
- The dynamic workflow scheduler, OAuth2 and the other credential code, telemetry, run configuration, plugins and the interfaces around them: network clients, wrappers or case tables.
