# Verified model of cog0

cog0 is a C++ agent: a Raft cluster, a JSON-over-TCP agent service, an in-memory hypergraph store with rule-based
reasoning and triple-pattern queries, a conflict resolver, an action scheduler, and a bridge between English and link
expressions. This project models the parts below in Dafny and proves what they promise, or exactly when they keep the
promise. `dafny verify dfyconfig.toml` checks everything.

Where the source computes, the model is a function; where it changes fields step by step, the model is a class whose
methods are proved equal to a function of the old state, and the promises are proved of that function. Headers and
bodies were both followed; where they disagree the body counts, and the disagreement is listed under "Findings".

## Raft (`Raft*.dfy`)

`RaftRules` holds the node's rules, one function for each handler and role change; `RaftNode` and `RaftLogStore` are
the objects, with their loops and early returns, proved to follow those functions. `RaftCluster` is the cluster as a
state machine: an election or a heartbeat round is a sequence of separate steps (read the ballot, call a peer, take the
reply), so that any node may handle anything between two of them. Every request that was ever sent may be handled again
at any later time, which covers delay, duplication and reordering; a node that is partitioned answers nothing; a node
may restart at any time over its log store. Timeouts may happen at any time.

The proof carries a history of reigns, ballots and acknowledgements (`RaftHistory`, `RaftInvariant`), shows that each
kind of step keeps it (`RaftElection`, `RaftReplication`, `RaftRounds`), and reads the safety theorems off it
(`RaftSafety`). `RaftEvenCluster` and `RaftSplitBrain` build, for every cluster of even size, a run without any loss,
delay or restart that elects two leaders in one term, commits two different first entries, and elects a leader of term
2 that lacks a committed one. `RaftSteps` says what the single steps come to. `RaftSound`, `RaftElectable` and
`RaftRecovery` hold for clusters of any size, and show that more than half of the nodes are always enough to go on.

## JSON (`TextSearch.dfy`, `Json*.dfy`)

Escaping and its inverse by section 7 of RFC 8259; the lenient reader; the lookup of a string field by searching for its
quoted key, followed through every object text that the service can write; the cutting out of a nested object by
counting braces; and the request that sets a goal, from client to server. `JsonReading` compares the reader with the
standard and follows the lookups in any text. Bytes are characters. The logger's `jsonEscape` is the same function as
the agent service's `escape`, byte for byte, so one model stands for both.

## Store, queries and reasoning (`Atom*.dfy`, `Kb*.dfy`, `ForwardChaining.dfy`, `ReasoningEngine.dfy`)

The five indexes of the store are tied to what a scan of the atoms finds, after every run, and the store is shown to
refine one without indexes (`AtomEffects`); snapshots are saved and loaded as lists of records. The query matcher is
modelled over an atom space given as its nodes and its evaluation links. The reasoning engine runs the rules that the
`rule` command builds over the store's object.

## Scheduling (`Conflict*.dfy`, `Action*.dfy`)

The clock's readings and the executor's outcomes are inputs; a tick on values leaves open which of two equal priorities
comes first. Times are integers, scores are real numbers. `ConflictOrder` says who is ahead of whom; `ActionTurns` what
turns, ticks and runs make of deadlines, readiness and priorities. `ActionWaiting` settles which scheduled actions can
ever run again, `ActionClock` settles it for a clock that never goes back, with deadlines, and `ActionCycles` draws from
both what becomes of dependency cycles.

## Bridge (`Bridge*.dfy`)

English to link expressions and back, branch by branch; what each kind of sentence comes back as, with or without an
article before it, and what any number of rounds makes of it; `BridgeArticles` writes the articles out.

## Findings

- The election majority is half the number of peers plus one (src/RaftConsensus.cpp:412), and the peers leave the node
  itself out (tests/test_phase12.cpp:270-297). With an even number of nodes that is half of them. Election safety, log
  matching, leader completeness and state machine safety hold exactly when the number of nodes is odd.
- A cluster of one node never commits anything, because the commit index advances on a peer's reply only.
- A follower takes the leader's commit index up to the end of its own log, not up to the last entry sent. That is safe
  here because every message carries the leader's log to its end.
- A string lookup that an earlier value spoils does not fail: it reads the first string after the next field's colon.
  That is the next field's value if it is a string, and otherwise the key of the field after it.
- Setting a goal delivers its parameters whole exactly when the braces in name and description nest.
- The batch report's escaper gives well-formed JSON exactly for texts whose only control bytes are newlines.
- The lenient reader turns an escaped control byte other than newline, return and tab into five characters. It agrees
  with the standard exactly on bodies without escapes of backspace, form feed and code points.
- Removing through an old handle hides a later atom with the same name, and a link without members is entered in one
  index and removed from another.
- A snapshot loads exactly when no link has a removed or null member.
- The query matcher never compares a variable with its earlier binding, and a name that stands for nothing constrains
  nothing. An empty list of patterns gives no row, though one empty row would satisfy it.
- Patterns are meant as a conjunction, but the rows depend on their order unless any two patterns that share a variable
  have the same names and bind the same variables from the same places.
- A predicate whose name a concept has too means two things to the matcher: with the subject given it is the predicate,
  and without it is the concept (src/KnowledgeBase.cpp:188-189, 195-199, 264), so the predicate's facts are not found.
- Forward chaining without a limit never ends if a rule is applicable at the start: a rule fires again in every pass
  while its condition holds, although include/ReasoningEngine.h:68-69 speaks of no new rules firing.
- Waiting times are cut to microseconds, so the lead of one ticket over another takes two values, a microsecond's worth
  apart, unless they were submitted whole microseconds apart; their order changes when zero lies between the two.
- Deadlines come first among equal priorities only (include/ConflictResolver.h:48 has the priority break ties): a lower
  priority goes first only if it is lower by no more than the boosts differ, which are 100 over the seconds left.
- The score of a ticket with a deadline falls when the deadline passes if less than a ten-thousandth of a second was left.
- A cancelled, failed or finished action keeps the locks that were acquired for it.
- A dependency cycle can run again exactly when nothing that one of its actions waits for is stuck. Without other
  dependencies that means that one of them is recorded as completed, and such a cycle is reached on a steady clock; with
  another dependency, a cancelled one say, a completed action is not enough.
- A sentence that goes through the bridge and back loses a leading article the first time, and gains a full stop each
  time.

## Model

| member | source | states |
|---|---|---|
| RaftSplitBrain.ElectionSafetyIffOdd | src/RaftConsensus.cpp:391-437 | over all runs with loss, delay, duplication, partition and restart, no two nodes lead in one term: exactly for clusters of odd size |
| RaftSplitBrain.StateMachineSafetyIffOdd | src/RaftConsensus.cpp:584-604 | in every reachable state no two committed logs differ at an index: exactly for clusters of odd size |
| RaftSplitBrain.LogMatchingIffOdd | src/RaftConsensus.cpp:303-337 | in every reachable state, logs with an entry of equal index and term are equal up to it: exactly for clusters of odd size |
| RaftSplitBrain.LeaderCompletenessIffOdd | src/RaftConsensus.cpp:258-268 | in every run, what any node has committed is in the log of every leader of its term or a later one: exactly for clusters of odd size |
| RaftRecovery.Recovers | src/RaftConsensus.cpp:391-503 | from every reachable state of a cluster of two nodes or more, whatever its size and whatever was lost before, any group of more than half of the nodes can restart and, with all others away, elect a leader and commit a new command on all of its nodes |
| RaftRecovery.RecoversAll | src/RaftConsensus.cpp:391-503 | in clusters of odd size the leader of such a recovery has all that any node of the group had committed |
| RaftRecovery.AloneNeverCommits | src/RaftConsensus.cpp:484-494 | a cluster of one node never commits anything: only a peer's reply advances the commit index |
| RaftElectable.Elect | src/RaftConsensus.cpp:391-437 | a restarted group of more than half elects a leader in at most two campaigns: the node of the latest term stands, then the one whose log no other is ahead of |
| RaftSound.ReachableSound | src/RaftConsensus.cpp:316-337 | in clusters of any size no log or message has an entry of a later term than its node or itself, and term and vote are stored |
| RaftSafety.ElectionSafety | src/RaftConsensus.cpp:235-272 | in clusters of odd size, at most one node leads in a term: one vote per term, kept over restarts, and overlapping majorities |
| RaftSafety.LogMatching | src/RaftConsensus.cpp:303-337 | in every reachable state of a cluster of odd size, logs with an entry of equal index and term are equal up to it |
| RaftSafety.LeadersHaveCommitted | src/RaftConsensus.cpp:258-268 | in every run of a cluster of odd size, what any node has committed is in the log of every leader of its term or a later one, at any later time |
| RaftSafety.CommittedForever | src/RaftConsensus.cpp:222-229 | in clusters of odd size, what one node has committed and what another has committed at any later time of the run agree |
| RaftSafety.StateMachineSafety | src/RaftConsensus.cpp:222-229 | in clusters of odd size, committed logs of one reachable state agree |
| RaftSafety.StepMonotone | src/RaftConsensus.cpp:316-348 | in clusters of odd size, no step lowers a term, cuts or rewrites a committed entry, or shortens a leader's log; the commit index stays within the log and falls only at a restart |
| RaftSafety.RunMonotone | src/RaftConsensus.cpp:109-124 | over whole runs with restarts, in clusters of odd size, terms never fall and committed entries stay for good |
| RaftSafety.SuccessMeansHeld | src/RaftConsensus.cpp:274-354 | in clusters of odd size, after a successful append the follower's log holds the previous entry and every entry sent |
| RaftSafety.AppendTwice | src/RaftConsensus.cpp:274-354 | the same append handled a second time right away, whether it succeeded or not, changes nothing and gives the same reply |
| RaftSafety.LateAppendDropsNothing | src/RaftConsensus.cpp:274-354 | in every run of a cluster of odd size, a message of the same leader that arrives at any time after a successful one and reaches no further drops nothing: in the same term the log, term and vote stay and the reply is a success; in a later term nothing changes |
| RaftSafety.AppendAgain | src/RaftConsensus.cpp:274-354 | the same message handled again at any later time of such a run, without a restart of the node in between, changes nothing at all, and gives the same reply while the node is in the term |
| RaftSafety.HeldMergesToSelf | src/RaftConsensus.cpp:316-337 | a message whose entries' terms the log has leaves the log as it is |
| RaftHistory.LeaderCompleteness | src/RaftConsensus.cpp:584-604 | an entry that a majority acknowledged in its own term is in the starting log of every later leader, by induction on terms |
| RaftHistory.QuorumsMeet | src/RaftConsensus.cpp:597-598 | two majorities have a node in common |
| RaftHistory.CommittedAgree | src/RaftConsensus.cpp:584-604 | two committed prefixes agree as far as both go |
| RaftElection.VotersAreMajority | src/RaftConsensus.cpp:411-432 | enough counted votes come from a majority when the size is odd |
| RaftElection.VoteHandled | src/RaftConsensus.cpp:235-272 | handling any vote request, however late, keeps the cluster's invariant |
| RaftElection.CloseElectionOk | src/RaftConsensus.cpp:429-436 | closing an election, won or lost, keeps the invariant |
| RaftReplication.AppendHandled | src/RaftConsensus.cpp:274-354 | handling any append, however late, keeps the invariant |
| RaftReplication.MergeRepairs | src/RaftConsensus.cpp:316-337 | merging a piece of the leader's log makes the follower's log agree with it to the piece's end, and keeps what agreed before |
| RaftReplication.RepairedCommitted | src/RaftConsensus.cpp:316-348 | a repair never touches what is committed |
| RaftRounds.CommitsChosen | src/RaftConsensus.cpp:588-602 | an index the leader commits is acknowledged by a majority in the leader's own term |
| RaftRounds.NewCommitFinds | src/RaftConsensus.cpp:584-604 | the downward search returns the highest index that passes the commit test, or leaves the commit index |
| RaftSteps.CommitIndexIff | src/RaftConsensus.cpp:584-604 | the commit index becomes the greatest index above it whose entry is of the leader's term and is held by more than half of the cluster, counted as a set of nodes, and stays if there is none |
| RaftSteps.VoteGrantedIff | src/RaftConsensus.cpp:235-272 | a vote is granted exactly for a request of no earlier term, if no other candidate has the vote of that term and the voter's log is not ahead; what changes and what is stored then |
| RaftSteps.OneWouldVote | src/RaftConsensus.cpp:258-261 | of any two nodes that are free to vote in a later term, one would vote for the other |
| RaftSteps.MessageJoins | src/RaftConsensus.cpp:456-477 | what a message builds on and what it brings make up the leader's log, from the peer's next index on |
| RaftSteps.AppendSucceedsIff | src/RaftConsensus.cpp:274-354 | an append succeeds exactly when it is of no earlier term and the log has the entry before it; the reply, the role, the vote and the commit index that follow |
| RaftSteps.ReplyMoves | src/RaftConsensus.cpp:488-498 | a refusal moves the next index back by one, but not below one, and a success notes how far the peer has come |
| RaftSteps.ReplyEndsReign | src/RaftConsensus.cpp:484-488 | a reply of a later term ends the reign, with the vote free and stored; a node that does not lead ignores the others |
| RaftRounds.StepInv | src/RaftConsensus.cpp:360-503 | every step of the cluster keeps the invariant |
| RaftRounds.RunInv | src/RaftConsensus.cpp:360-503 | every run keeps the invariant |
| RaftEvenCluster.TwoLeaders | src/RaftConsensus.cpp:411-432 | every cluster of even size has a run, without loss or restart, to two leaders of one term |
| RaftSplitBrain.Diverge | src/RaftConsensus.cpp:439-499 | such a cluster goes on to commit two different entries at index 1 |
| RaftSplitBrain.Overtake | src/RaftConsensus.cpp:258-268 | and to elect, in term 2, a leader without what was committed in term 1 |
| RaftSplitBrain.Round | src/RaftConsensus.cpp:439-499 | a heartbeat round among followers of a leader replicates and commits its entry |
| RaftNode.RaftNode.HandleRequestVote | src/RaftConsensus.cpp:235-272 | the handler on the node's fields follows the vote rule |
| RaftNode.RaftNode.HandleAppendEntries | src/RaftConsensus.cpp:274-354 | the handler on the node's fields follows the append rule |
| RaftNode.RaftNode.MergeEntries | src/RaftConsensus.cpp:316-337 | the append loop on the log store gives the merged log |
| RaftNode.RaftNode.AdvanceCommitIndex | src/RaftConsensus.cpp:584-604 | the downward search with its early exit follows the commit rule |
| RaftNode.RaftNode.TakeAppendReply | src/RaftConsensus.cpp:484-498 | the reply's effect on role, match and next indexes follows the rule |
| RaftNode.RaftNode.BuildAppend | src/RaftConsensus.cpp:456-477 | the message holds the previous entry's term and the log from the next index to its end |
| RaftNode.RaftNode.BecomeLeader | src/RaftConsensus.cpp:535-550 | every peer starts one past the log's end with nothing matched |
| RaftNode.RaftNode.BecomeCandidate | src/RaftConsensus.cpp:522-533 | the term rises by one, and the vote for itself is persisted |
| RaftNode.RaftNode.BecomeFollower | src/RaftConsensus.cpp:509-520 | the term is taken over and the cleared vote persisted |
| RaftNode.RaftNode.SubmitCommand | src/RaftConsensus.cpp:205-220 | only a leader appends, with its term at the next index |
| RaftNode.RaftNode.CommittedLog | src/RaftConsensus.cpp:222-229 | the entries from 1 to the commit index |
| RaftLogStore.InMemoryLogStore.Append | src/RaftLogStore.cpp:33-40 | the entry goes to the end with its position as index |
| RaftLogStore.InMemoryLogStore.GetRange | src/RaftLogStore.cpp:42-63 | the entries of the range as far as the log reaches, none for a range that is empty or beyond it |
| RaftLogStore.InMemoryLogStore.TruncateAfter | src/RaftLogStore.cpp:88-94 | exactly the entries through the index remain |
| JsonEscape.EscapeInvertible | include/AgentServiceJson.h:20-44 | decoding an escaped text by section 7 of RFC 8259 gives the text, for every text |
| JsonEscape.EscapeInjective | include/Logger.h:171-195 | no two texts have the same escaped form |
| JsonEscape.EscapedHasNoControl | include/AgentServiceJson.h:33-37 | the escaped text holds no control byte |
| JsonEscape.Escape | include/AgentServiceJson.h:20-44 | the loop gives the escaped text between two quotes |
| JsonEscape.BatchInvertibleIff | main.cpp:442-452 | the batch report's escaper is decoded to the original exactly when the only control bytes are newlines, and is no well-formed text otherwise |
| JsonEscape.BatchEscape | main.cpp:442-452 | the loop gives the three-escape text |
| JsonEscape.ReadString | include/AgentServiceJson.h:55-75 | the reading loop follows the lenient reader |
| JsonEscape.ReadEscaped | include/AgentServiceJson.h:55-75 | from an opening quote, the reader takes each escaped byte in turn and stops at the closing quote, whatever surrounds the value |
| JsonEscape.ReadBodyIff | include/AgentServiceJson.h:61-68 | the reader gives back the original exactly when its only control bytes are newline, return and tab |
| JsonReading.LenientIsStandardIff | include/AgentServiceJson.h:55-75 | on any well-formed body the lenient reader gives what section 7 of RFC 8259 prescribes exactly when the body has no escapes but of quote, backslash, slash, newline, return and tab |
| JsonReading.OtherEscapes | include/AgentServiceJson.h:61-68 | any byte after a backslash but n, r and t is read as itself |
| JsonReading.EscapeAdds | include/AgentServiceJson.h:24-41 | escaping adds one byte for each quote, backslash, newline, return and tab, five for each other control byte, and no capital letter |
| JsonReading.EscapeUnchangedIff | include/AgentServiceJson.h:24-41 | a text is its own escaped form exactly when it has no quote, backslash or control byte |
| JsonReading.BatchAdds | main.cpp:442-452 | the batch escaper adds one byte for each quote, backslash and newline |
| TextSearch.FindIsFirst | include/AgentServiceJson.h:49 | the search returns a match, and no earlier position matches |
| JsonFields.FindInPieces | include/AgentServiceJson.h:48-50 | the search for a quoted key in any text finds the first piece between two quotes that is the key |
| JsonFields.EscapedPiecesJoin | include/AgentServiceJson.h:20-44 | an escaped value is its pieces joined by quotes |
| JsonFields.InnerPieceIsNoWord | include/AgentServiceJson.h:27 | every piece of an escaped value but the last ends in a backslash |
| JsonFields.SearchLands | include/AgentServiceJson.h:46-50 | where the search for a key stops in any object text: nowhere, at the first field with the key, or at the end of the first value that is the key or ends in a quote and the key |
| JsonFields.LandsIff | include/AgentServiceJson.h:46-50 | the search lands on a field with the key exactly when no earlier field has the key and no earlier value is the key or ends in a quote and the key |
| JsonFields.FieldLookup | include/AgentServiceJson.h:46-76 | the lookup then returns the original value exactly when its only control bytes are newline, return and tab |
| JsonFields.SpoiledLookup | include/AgentServiceJson.h:46-76 | a lookup that an earlier value spoils returns the next field's value, whatever its key, if that is a string; otherwise the key of the field after it, or, if there is none, the first string inside the last value's text; nothing if no field follows |
| JsonFields.MissingField | include/AgentServiceJson.h:50 | without the key and without such a value the lookup is empty |
| JsonReading.StringFieldIs | include/AgentServiceJson.h:46-76 | in any text, blanks or not, the lookup reads after the first quote after the first colon after the first quoted key |
| JsonReading.StringFieldMissing | include/AgentServiceJson.h:49-54 | if one of the three is missing it returns nothing |
| JsonFields.ExtractStringField | include/AgentServiceJson.h:46-76 | the four searches and the loop give the field's value |
| JsonObjects.ExtractObjectField | include/AgentServiceJson.h:133-149 | for every text: the piece from the first brace after the key whose balance is zero and positive at every proper prefix, or an empty object if there is none |
| JsonObjects.ObjectFieldUnique | include/AgentServiceJson.h:140-147 | that piece is the only one |
| JsonReading.ObjectStartIs | include/AgentServiceJson.h:135-139 | in any text the object starts at the first brace after the first quoted key |
| JsonReading.ClosedIff | include/AgentServiceJson.h:140-147 | a piece is closed exactly when it starts with a brace, has as many opening braces as closing ones, and more in each of its beginnings |
| JsonReading.NestedIff | include/AgentServiceJson.h:140-147 | braces nest exactly when as many are opened as closed and no beginning closes more than it opens |
| JsonObjects.ObjectClosedIff | src/GrpcAgentClient.cpp:193-197 | a written object is such a piece exactly when the braces of its values, taken together, nest |
| JsonObjects.RequestMethod | src/GrpcAgentServer.cpp:297-298 | the method name arrives exactly when its only control bytes are newline, return and tab |
| JsonObjects.RequestParams | src/GrpcAgentClient.cpp:167-169 | for every method name, the parameters arrive exactly when they are one closed piece |
| JsonObjects.GoalArrives | src/GrpcAgentServer.cpp:303-307 | setting a goal: the parameters arrive whole exactly when the braces of name and description nest, and then name and description arrive exactly when the reader knows their control bytes |
| AtomKeys.NodeKeyInjective | src/AtomStore.cpp:65-67 | equal node keys mean equal type and name, colons in names included |
| AtomKeys.LinkKeyInjective | src/AtomStore.cpp:69-76 | equal link keys mean equal type and members |
| AtomKeys.DecimalIsNumber | src/AtomStore.cpp:65-76 | the digits in a key stand for the number, and only zero begins with a zero |
| AtomKeys.QuoteAdds | src/AtomStore.cpp:180-192 | quoting adds one byte for each quote, backslash and newline |
| AtomKeys.EscapesRead | src/AtomStore.cpp:204-214 | a backslash with an n after it is read as a newline, and with any other byte as that byte |
| AtomKeys.BuildLinkKey | src/AtomStore.cpp:69-76 | the loop gives the link key |
| AtomKeys.QuoteRoundTrip | src/AtomStore.cpp:180-219 | a quoted name is read back whole, for every name, and reading stops right after its closing quote |
| AtomKeys.WriteQuoted | src/AtomStore.cpp:180-192 | the loop gives the quoted name |
| AtomKeys.ReadQuoted | src/AtomStore.cpp:197-219 | the two loops give the name and where it ends |
| AtomStore.RunAgrees | src/AtomStore.cpp:78-172 | after every legal run the four indexes say exactly what a scan of the atoms finds |
| AtomEffects.RunRefines | src/AtomStore.cpp:78-172 | after every legal run the store with its indexes holds the atoms of a plain store in which everything is found by looking through all atoms |
| AtomEffects.RunFinds | src/AtomStore.cpp:107-138 | after every legal run the four lookups find what looking through the plain store finds |
| AtomEffects.AddNodeStores | src/AtomStore.cpp:78-90 | adding a node gives the node of that type and name: the one there, the store unchanged, or a new one under the next id with fresh numbers, nothing else changed |
| AtomEffects.AddLinkStores | src/AtomStore.cpp:92-105 | so does adding a link: it is found by its type and members under the id returned |
| AtomEffects.RemovedIsGone | src/AtomStore.cpp:140-157 | a removed node is found no more, and every other node is found as before |
| AtomEffects.NumbersAreSet | include/AtomStore.h:83-89 | setting truth or attention values sets those of the atom and changes nothing else |
| AtomEffects.IncomingIsLive | src/AtomStore.cpp:126-138 | in every state, legal or not, what is returned as incoming is what is listed and live |
| AtomStore.AddLinkAgreesIff | src/AtomStore.cpp:92-105 | adding a link keeps that agreement exactly when the link has a member |
| AtomStore.RemoveAgreesIff | src/AtomStore.cpp:140-157 | removing through a handle keeps it exactly when the atom is live or no later atom took its key |
| AtomStore.OldHandleHides | src/AtomStore.cpp:140-157 | add a node, remove it, add it again, all legal: removing it through the first handle then hides the second node from the lookup by name |
| AtomStore.RemoveWholeIff | src/AtomStore.cpp:140-157 | removing a live atom leaves no dangling member exactly when no link contains it |
| AtomStore.AddLinkWholeIff | src/AtomStore.cpp:92-105 | adding a link leaves none exactly when its members are live |
| AtomStore.GetNodeIsScan | src/AtomStore.cpp:107-111 | a node is found by type and name exactly when a live node has them |
| AtomStore.GetLinkIsScan | src/AtomStore.cpp:113-117 | a link is found by type and members exactly when a live link has them |
| AtomStore.GetByTypeIsScan | src/AtomStore.cpp:119-124 | the atoms of a type, in id order |
| AtomStore.GetIncomingIsScan | src/AtomStore.cpp:126-138 | the live links of a member, in id order, once for each occurrence |
| AtomStore.NoTwins | src/AtomStore.cpp:78-105 | no two live atoms are the same node or the same link |
| AtomSnapshot.RoundTrip | src/AtomStore.cpp:223-346 | loading a saved store succeeds exactly when no link has a removed or null member, and then gives the same ids, atoms and indexes with the numbers as printed |
| AtomSnapshot.RunRoundTrip | src/AtomStore.cpp:223-346 | with exact printing, every store that a legal run leaves whole comes back unchanged |
| AtomSnapshot.IndexesAreDetermined | src/AtomStore.cpp:266-346 | the atoms determine all indexes, the order of their lists included |
| AtomSnapshot.QuotedIsOneLine | src/AtomStore.cpp:187 | a quoted name has no line break, so a record is one line |
| AtomStoreObject.AtomStore.AddNode | src/AtomStore.cpp:78-90 | the updates of the fields follow the operation on values |
| AtomStoreObject.AtomStore.AddLink | src/AtomStore.cpp:92-105 | the updates, with the registering loop, follow the operation on values |
| AtomStoreObject.AtomStore.Remove | src/AtomStore.cpp:140-157 | the updates, with the two erasing loops, follow the operation on values |
| AtomStoreObject.AtomStore.GetIncoming | src/AtomStore.cpp:126-138 | the filtering loop returns the links that are live |
| AtomStoreObject.AtomStore.RegisterIncoming | src/AtomStore.cpp:348-353 | the loop enters the link under each member that is not null |
| AtomStoreObject.AtomStore.UnregisterIncoming | src/AtomStore.cpp:355-365 | the loop takes the link out of each member's list and drops lists that become empty |
| AtomStoreObject.AtomStore.SaveToFile | src/AtomStore.cpp:223-264 | the records of all atoms in id order, after the next id |
| AtomStoreObject.AtomStore.LoadFromFile | src/AtomStore.cpp:266-346 | the loop, with its early failure, follows the load on values |
| KbMeaning.QueryExactIff | src/KnowledgeBase.cpp:216-275 | the rows are exactly the assignments that make every pattern a stored fact, in every space where the given names stand for something, no concept hides a predicate that is asked about without its subject and predicates come first in their links, exactly when no variable is shared between two patterns or repeated in one |
| KbMeaning.SatisfyingIsRow | src/KnowledgeBase.cpp:216-275 | whatever the patterns, a satisfying assignment is among the unlimited rows, unless a concept hides a given predicate |
| KbMeaning.SatisfyingIsRowIff | src/KnowledgeBase.cpp:177-191 | over links as the loader writes them, a satisfying assignment is returned exactly when no concept has the name of a predicate that is given without its subject |
| KbMeaning.UnknownNameExactIff | src/KnowledgeBase.cpp:263-265 | in every space and for every list of patterns with a given name that stands for nothing, the rows are exact (there are none) exactly when some pattern has no matching link |
| KbMeaning.ConjunctionExactIff | src/KnowledgeBase.cpp:216-275 | in every space, a query without a shared variable is exact exactly when each pattern is exact alone, or some pattern has no matching link and some pattern no fact |
| KbMeaning.NamesExactIff | src/KnowledgeBase.cpp:177-275 | over links as the loader writes them, that is exactly when every pattern with an unknown name has no matching link and every other pattern with a hidden predicate has no fact, or again some pattern has no matching link and some no fact |
| KbMeaning.OneNameTwoMeanings | src/KnowledgeBase.cpp:188-199 | a space with one fact whose predicate shares its name with a concept: asked for the object the fact is found, asked for the subject it is not |
| KbMeaning.UnknownNameMisleads | src/KnowledgeBase.cpp:263-265 | in that space a subject that stands for nothing returns the fact, though nothing satisfies the pattern |
| KbMeaning.LinearIsExact | src/KnowledgeBase.cpp:216-275 | without a shared variable and with well-behaved names every row satisfies every pattern, and every satisfying assignment is a row |
| KbMeaning.OwnIsNotExact | src/KnowledgeBase.cpp:267-270 | for patterns with a shared variable, the space with one fact for each pattern gives a row that satisfies nothing |
| KbOrder.OrderIgnoredIff | include/KnowledgeBase.h:171-187 | over all spaces, the rows, as a set, depend on neither order nor repetition of the patterns exactly when any two patterns that share a variable have the same names and bind the same variables from the same places |
| KbMeaning.LimitedRowsSatisfy | include/KnowledgeBase.h:171-187 | with limit k, at most k rows of an exact query, all satisfying; with fewer than k, or without a limit, all there are |
| KbNames.UnknownIsVariable | src/KnowledgeBase.cpp:177-191 | in any place a name that stands for nothing takes the links that a variable takes |
| KbNames.MarkedIsVariable | src/KnowledgeBase.cpp:177-191 | a field is a variable exactly when it begins with a question mark |
| KbNames.KnownAsksForAtom | src/KnowledgeBase.cpp:263-265 | a known subject or object asks for its concept, or its predicate if there is no concept, and for nothing else |
| KbNames.KnownPredicate | src/KnowledgeBase.cpp:193-214 | a known predicate asks for the concept of its name first; with a known subject for the predicate, which may be among the further members |
| KbQuery.RowsAreChoices | src/KnowledgeBase.cpp:216-275 | the rows are what one matching link for each pattern binds, later bindings overwriting earlier ones |
| KbQuery.Matcher.MatchPatterns | src/KnowledgeBase.cpp:216-275 | the recursion adds the rows in order as far as the limit lets it, and leaves the bindings it was given |
| KbQuery.Matcher.Query | src/KnowledgeBase.cpp:281-300 | an error before initialization, no row for no pattern, else the rows |
| ForwardChaining.PassesReachClosure | src/ReasoningEngine.cpp:43-73 | as many passes as there are rules reach the least set that holds the start and is closed under the rules, in whatever order they fire, and more passes add nothing |
| ForwardChaining.BoundIsSharp | src/ReasoningEngine.cpp:61-73 | for every number of rules there are rules in an order that needs that many passes |
| ForwardChaining.ReachedByPasses | src/ReasoningEngine.cpp:43-59 | after k passes every concept at the end of a chain of at most k rules is present |
| ForwardChaining.ClosureIsReached | src/ReasoningEngine.cpp:43-73 | the closure is what chains of rules reach |
| ForwardChaining.FiresForever | src/ReasoningEngine.cpp:61-73 | every pass fires a rule if one is applicable at the start, and none does otherwise |
| ReasoningEngine.ChainingReachesClosure | main.cpp:415-431 | the same closure for the concepts of the store |
| ReasoningEngine.RunIsPasses | src/ReasoningEngine.cpp:61-73 | stopping early loses nothing: the concepts after a run are those of as many passes as the limit |
| ReasoningEngine.CyclesArePasses | main.cpp:424-431 | passes over the store are passes over its concepts, and keep its indexes right |
| ReasoningEngine.InsertIsStable | src/ReasoningEngine.cpp:19-26 | rules of equal priority keep the order in which they were added |
| ReasoningEngine.InsertSorts | src/ReasoningEngine.cpp:19-26 | the rules stay in descending priority |
| ReasoningEngine.Engine.AddRule | src/ReasoningEngine.cpp:19-26 | a new rule goes behind its equals |
| ReasoningEngine.Engine.RunCycle | src/ReasoningEngine.cpp:43-59 | a pass over the store, and which rules fired |
| ReasoningEngine.Engine.RunForwardChaining | src/ReasoningEngine.cpp:61-73 | the store after one cycle if nothing fires, and after as many as the limit otherwise, with the exact number of firings; a run without limit is only for the case that nothing is applicable |
| ConflictResolver.NoStarvation | src/ConflictResolver.cpp:105-119 | over every run under fairness, a pending ticket waits through at most as many resolutions as there are tickets submitted no later than it needs to catch up with the top priority |
| ConflictResolver.LosesOnlyToEarly | src/ConflictResolver.cpp:117-119 | a ticket loses only to one submitted no later than the priority difference over the weight, the reading difference and one microsecond allow |
| ConflictResolver.GapDrift | src/ConflictResolver.cpp:110-119 | between two instants the lead of one ticket over another moves by no more than a microsecond is worth |
| ConflictResolver.GapSteadyIff | src/ConflictResolver.cpp:110-119 | the lead never changes exactly when the submissions are whole microseconds apart |
| ConflictResolver.OrderSteadyIff | src/ConflictResolver.cpp:110-119 | the order of two pending tickets never changes exactly when their submissions are whole microseconds apart, or the smaller of the two values that the lead takes is not negative, or the greater one is negative |
| ConflictResolver.StrictStarves | src/ConflictResolver.cpp:105-119 | for every number of resolutions there is a run under strict priority through which a pending ticket waits, every rival submitted after it and one priority above it |
| ConflictResolver.DeadlineBonus | src/ConflictResolver.cpp:121-134 | under deadlines the score rises until the deadline and falls there exactly when less than a ten-thousandth of a second was left |
| ConflictOrder.BothPressedIff | src/ConflictResolver.cpp:121-134 | of two tickets with time left, the one of the earlier deadline is ahead exactly when its priority is lower by no more than the two boosts differ |
| ConflictOrder.BothPressed | src/ConflictResolver.cpp:121-134 | so the earlier deadline is first among equal priorities, and the greater priority at equal times left |
| ConflictOrder.PressedAheadIff | src/ConflictResolver.cpp:121-134 | a ticket with time left is ahead of one without a deadline exactly when the priority difference times the seconds left is at most 100 |
| ConflictOrder.OverdueAheadIff | src/ConflictResolver.cpp:122-129 | an overdue ticket is ahead of one without a deadline exactly when its priority is at most 1000000 lower |
| ConflictOrder.BothOverdue | src/ConflictResolver.cpp:126-129 | of two overdue tickets the greater priority is ahead |
| ConflictOrder.NoDeadlineWinner | src/ConflictResolver.cpp:122-125 | under deadlines, among tickets without one, the first of the greatest priority wins |
| ConflictOrder.StrictWinner | src/ConflictResolver.cpp:113-115 | under strict priority the first of the greatest priority wins, whatever the clock reads |
| ConflictOrder.WinnerIsAhead | src/ConflictResolver.cpp:170-174 | under deadlines no pending ticket is strictly ahead of the winner, and none before it in the queue is as far |
| ConflictOrder.FreshScore | src/ConflictResolver.cpp:113-119 | a ticket scores its priority under strict priority, and under fairness when it comes in |
| ConflictOrder.DropIs | src/ConflictResolver.cpp:192-193 | the rest of the queue keeps its order, and only the winner is gone |
| ConflictOrder.DeferredInOrder | src/ConflictResolver.cpp:180-190 | the reported tickets are, in queue order, exactly those at the places of the winner's rivals for a resource |
| ConflictResolver.Resolver.Resolve | src/ConflictResolver.cpp:156-199 | the first ticket with the greatest score leaves the queue, and those that share a resource with it are reported in order |
| ConflictResolver.FindBest | src/ConflictResolver.cpp:170-174 | the first greatest score |
| ConflictResolver.DeferredIs | src/ConflictResolver.cpp:180-190 | the reported tickets are the other pending ones that share a resource with the winner |
| ConflictResolver.Conflicts | src/ConflictResolver.cpp:143-150 | the two loops find a common resource exactly when there is one |
| ConflictResolver.Resolver.Cancel | src/ConflictResolver.cpp:77-87 | the first ticket with the id is taken out, if there is one |
| ConflictResolver.Resolver.Ranked | src/ConflictResolver.cpp:201-214 | all pending tickets, by descending score |
| ConflictResolver.RankedHead | src/ConflictResolver.cpp:156-214 | the head of the ranking has the winner's score |
| ActionScheduler.DependenciesComeFirst | src/ActionScheduler.cpp:123-187 | in every run, an action runs only when each of its dependencies completed the last time it ran before |
| ActionScheduler.RunsAgainOnlyIf | src/ActionScheduler.cpp:170-185 | in every run, an action runs again only if it is periodic and completed every time so far |
| ActionTurns.RunsInTime | include/ActionScheduler.h:55-61 | in every run, no action runs after its deadline, nor before a tick has found it due |
| ActionTurns.LateFails | src/ActionScheduler.cpp:156-163 | read after its deadline, an action does not run, is recorded as failed and leaves with the tick |
| ActionTurns.TimelyRunsIff | src/ActionScheduler.cpp:165-183 | without a deadline or up to it, a due action runs exactly when its dependencies are completed and its resources free or its own; then its outcome is recorded and it is due again a period later exactly if periodic and completed; otherwise nothing changes |
| ActionTurns.TickIsTurns | src/ActionScheduler.cpp:141-187 | what a tick leaves of a due action is what its own turn makes of it, and its turn finds it as the tick did |
| ActionTurns.NotDueStays | src/ActionScheduler.cpp:145-153 | a tick leaves an action alone that is not due |
| ActionTurns.GreatestFirst | src/ActionScheduler.cpp:145-153 | within a tick the actions run by descending priority |
| ActionTurns.ScheduledIff | src/ActionScheduler.cpp:37-102 | 0 comes back exactly when the schedule is full, the action unknown or its period not positive, and then nothing changes; any other number is one that nothing had before, and holds the action |
| ActionWaiting.CanRunIff | src/ActionScheduler.cpp:123-187 | after every run, a scheduled action runs again in some continuation exactly when nothing it waits for is in a set of actions none of which is completed and each scheduled one of which waits for another of the set |
| ActionClock.CanRunFromIff | include/ActionScheduler.h:55-61 | on a clock that never goes back, exactly when there is a later instant at which it is due, not past its deadline, and nothing it waits for is barred until then by its time, its deadline or what it waits for itself |
| ActionClock.CanRunWithoutDeadlines | src/ActionScheduler.cpp:141-187 | without deadlines, whatever can run in some continuation can run on a clock that never goes back, whatever it reads now |
| ActionWaiting.StuckForever | src/ActionScheduler.cpp:123-165 | actions of which none has completed and each scheduled one waits for another never run, whatever happens later |
| ActionCycles.CycleNeverRuns | src/ActionScheduler.cpp:104-165 | a dependency cycle of which no action has completed never runs |
| ActionCycles.CycleRunsIff | src/ActionScheduler.cpp:104-187 | after every run, the actions of any dependency cycle can run again in some continuation exactly when nothing that one of them waits for is stuck |
| ActionCycles.CycleRunsFromIff | src/ActionScheduler.cpp:104-187 | on a clock that never goes back, exactly when one of them has an instant at which it can run |
| ActionCycles.PlainCycleRunsIff | src/ActionScheduler.cpp:123-165 | of a cycle without other dependencies, exactly when one of them is recorded as completed |
| ActionCycles.CompletedNotEnough | src/ActionScheduler.cpp:123-130 | a run to a cycle with a completed action that never runs again, because one of the cycle waits for a cancelled action |
| ActionCycles.ReachedCycle | src/ActionScheduler.cpp:104-187 | a run on a clock that never goes back to a cycle that can run again: a periodic action completes, a second one is scheduled, and each is made to depend on the other |
| ActionScheduler.LockStays | src/ActionScheduler.cpp:111-121 | in every run a lock passes only by its holder's own release |
| ActionScheduler.TurnLocks | src/ActionScheduler.cpp:132-175 | a run leaves the resources it needs free and no other lock changed |
| ActionScheduler.RunSafe | src/ActionScheduler.cpp:141-195 | every run keeps the record of outcomes in step with what ran |
| ActionScheduler.Scheduler.TickOnce | src/ActionScheduler.cpp:141-187 | a tick collects the due actions by id, sorts them by descending priority and runs them in that order, as the tick on values does |
| ActionScheduler.Scheduler.CollectDue | src/ActionScheduler.cpp:145-153 | exactly the due actions, each once, by descending priority |
| ActionScheduler.Scheduler.RunDue | src/ActionScheduler.cpp:155-187 | the loop over the due actions and the removal of those that are finished follow the tick on values |
| ActionScheduler.Scheduler.Handle | src/ActionScheduler.cpp:155-183 | one due action: missed deadline, not ready, or run with its locks taken and given back |
| ActionScheduler.Scheduler.AreDependenciesMet | src/ActionScheduler.cpp:123-130 | true exactly when every dependency is recorded as completed |
| ActionScheduler.Scheduler.AreResourcesAvailable | src/ActionScheduler.cpp:132-139 | true exactly when every resource needed is free or the action's own |
| ActionScheduler.Scheduler.AcquireResource | src/ActionScheduler.cpp:111-115 | succeeds exactly when nobody holds the resource |
| ActionScheduler.Scheduler.SchedulePeriodic | src/ActionScheduler.cpp:83-102 | refused when full, unknown or without a positive period, else a new id |
| ActionScheduler.Scheduler.CancelAction | src/ActionScheduler.cpp:189-195 | a scheduled action is recorded as cancelled and removed |
| BridgeText.NamesOfPieces | bridge/cog0_atomspace_bridge.cpp:23-35 | the names of a text that alternates quote-free pieces and quoted names come back in order |
| BridgeText.ExtractQuoted | bridge/cog0_atomspace_bridge.cpp:23-35 | the loop collects those names |
| BridgeText.LowerBuffer | bridge/cog0_atomspace_bridge.cpp:38-42 | every character is lowered in its place |
| BridgeArticles.LowerIs | bridge/cog0_atomspace_bridge.cpp:38-42 | each capital letter is lowered to its own small letter, and nothing else changes |
| BridgeArticles.ArticleGoes | bridge/cog0_atomspace_bridge.cpp:44-51 | "the ", "an " or "a " in any case is stripped if something follows |
| BridgeArticles.NothingGoesIff | bridge/cog0_atomspace_bridge.cpp:44-51 | nothing is stripped exactly when the text is not one of them and something more |
| BridgeText.SaidComesBack | bridge/cog0_atomspace_bridge.cpp:120-135 | what the converter back says of any quote-free statement, in every case |
| BridgeText.RoundTrip | bridge/cog0_atomspace_bridge.cpp:59-135 | for every sentence without quotes, the converter and back say the statement that the sentence makes |
| BridgeText.SimilarityComesBackIff | bridge/cog0_atomspace_bridge.cpp:122-127 | a similarity comes back as one exactly when neither name has the word that is looked for first |
| BridgeText.MembershipComesBackIff | bridge/cog0_atomspace_bridge.cpp:122-133 | a membership comes back as one exactly when neither name has a word that is looked for before |
| BridgeText.PossessionComesBackIff | bridge/cog0_atomspace_bridge.cpp:122-131 | a possession comes back as one exactly when no name has a word that is looked for before: no other answer can ever be the same text |
| BridgeText.VerbComesBackIff | bridge/cog0_atomspace_bridge.cpp:122-131 | so does any relation whose subject and verb are single words |
| BridgeText.WordInPieces | bridge/cog0_atomspace_bridge.cpp:122-131 | a word without quotes is in an expression exactly when it is in one of its pieces |
| BridgeSentences.InheritanceRoundTrip | bridge/cog0_atomspace_bridge.cpp:59-71 | a text that, stripped of its article, is "X is a Y" comes back with its subject and its object stripped of its own |
| BridgeSentences.InheritanceAnRoundTrip | bridge/cog0_atomspace_bridge.cpp:63-71 | "X is an Y" comes back as "X is a Y" |
| BridgeSentences.LikenessRoundTripIff | bridge/cog0_atomspace_bridge.cpp:73-79 | "X is like Y" comes back as a similarity exactly when neither name has the word that is looked for first |
| BridgeSentences.ResemblanceRoundTripIff | bridge/cog0_atomspace_bridge.cpp:80-85 | so does "X resembles Y" |
| BridgeSentences.PossessionRoundTripIff | bridge/cog0_atomspace_bridge.cpp:87-95 | "X has Y" comes back exactly when no name has a word that is looked for before |
| BridgeSentences.PossessionHaveRoundTripIff | bridge/cog0_atomspace_bridge.cpp:87-95 | "X have Y" comes back as "X has Y" under the same condition |
| BridgeSentences.MembershipRoundTripIff | bridge/cog0_atomspace_bridge.cpp:97-103 | "X belongs to Y" comes back exactly when no name has a word that is looked for before |
| BridgeSentences.VerbRoundTripIff | bridge/cog0_atomspace_bridge.cpp:105-115 | "X verb Y" comes back exactly when no name has a word that is looked for before |
| BridgeSentences.EachRoundAStop | bridge/cog0_atomspace_bridge.cpp:59-135 | a sentence of any kind but the similarities that is read as what it says, with or without an article before it, gains one full stop in every round, for any number of rounds |
| BridgeSentences.LikenessGainsStops | bridge/cog0_atomspace_bridge.cpp:59-135 | so does "X is like Y", as "X is similar to Y", if that is read as a sentence of such a kind |
| BridgeSentences.ResemblanceGainsStops | bridge/cog0_atomspace_bridge.cpp:59-135 | so does "X resembles Y" |
| BridgeArticles.InheritanceWithArticles | bridge/cog0_atomspace_bridge.cpp:59-71 | "the X is a the Y", with any articles in any case or none, comes back as "X is a Y" |
| BridgeArticles.InheritanceAnWithArticles | bridge/cog0_atomspace_bridge.cpp:63-71 | so does the sentence with "is an" |
| BridgeArticles.LikenessWithArticlesIff | bridge/cog0_atomspace_bridge.cpp:73-79 | a likeness with any articles comes back without them exactly when neither name has the word that is looked for first |
| BridgeArticles.ResemblanceWithArticlesIff | bridge/cog0_atomspace_bridge.cpp:80-85 | so does a resemblance |
| BridgeArticles.PossessionWithArticlesIff | bridge/cog0_atomspace_bridge.cpp:87-95 | a possession with any articles comes back without them exactly when no name has a word that is looked for before |
| BridgeArticles.PossessionHaveWithArticlesIff | bridge/cog0_atomspace_bridge.cpp:87-95 | so does one with "have", as one with "has" |
| BridgeArticles.MembershipWithArticlesIff | bridge/cog0_atomspace_bridge.cpp:97-103 | so does a membership |
| BridgeArticles.VerbWithArticlesIff | bridge/cog0_atomspace_bridge.cpp:105-115 | so does "X verb Y" |
| BridgeArticles.InheritanceExpression | bridge/cog0_atomspace_bridge.cpp:63-71 | the expression of an inheritance, its names without articles |
| BridgeArticles.LikenessExpression | bridge/cog0_atomspace_bridge.cpp:73-79 | that of a likeness |
| BridgeArticles.MembershipExpression | bridge/cog0_atomspace_bridge.cpp:97-103 | that of a membership |
| BridgeArticles.VerbExpression | bridge/cog0_atomspace_bridge.cpp:105-115 | that of a subject, verb and object |
| BridgeArticles.FewWordsAreAConcept | bridge/cog0_atomspace_bridge.cpp:105-118 | a text that, without its article, has no two blanks becomes a concept as it is, and comes back as that expression |
| BridgeArticles.AnswerIs | bridge/cog0_atomspace_bridge.cpp:120-135 | the answer to any text of two quoted names or more: the first of the four words that it has decides, and without one the text itself comes back |

## Left out

- Raft timers, randomised timeouts, threads and locks: timeouts may happen at any time; that an election takes place is not promised, only that it can (`RaftRecovery`).
- Raft nodes that share no log store with their former selves: a node without a configured store starts empty, and a restart would then lose its vote.
- Wrap-around of 64-bit terms, indexes and ids.
- Reordering of a reply against its own call: calls on the in-process bus are synchronous, as in the source.
- Sockets, framing, TLS, HTTP, WebSocket, the dashboard, and file access itself: a snapshot is a list of records.
- JsonFields.FieldLookup: keys are letters, digits and underscores, as all of the service's keys are, and texts have no blanks between tokens, as the service writes them.
- The number, unsigned and boolean field readers and the response flag: the same search with a shorter reading.
- AtomSnapshot.RoundTrip: the printing of numbers is a function that may round; what it rounds is not modelled.
- AtomStore.RunAgrees: handles come from the same store since it was last cleared or loaded.
- Decimal numbers are read back as written: the stream's number formatting in snapshots is not modelled.
- ReasoningEngine.Engine.RunForwardChaining: a call without a limit is modelled only where it ends; FiresForever says when it does not.
- Rules with arbitrary conditions and actions, rule removal, and the inheritance and evaluation queries.
- KbQuery.Matcher.MatchPatterns: links are enumerated in one fixed order; the atom space promises none.
- Loading a knowledge base from text, and the queries by type, name, neighbour and truth value.
- ConflictResolver.Resolver.Resolve: the score stored in each ticket is a list beside the queue; floating-point rounding is not modelled.
- ActionScheduler.Scheduler.TickOnce: outcomes and readings are inputs; an action that calls the scheduler while it runs is not modelled.
- The splitting of `--eval` texts, the command loop, help texts and colours.
- The bridge's synchronisation with a CogServer.
- All classes bound to OpenCog, MOSES, PLN, spacetime or Link Grammar, and the weaker relatives of Raft and the scheduler (`CoordinationProtocol`, `ClusterManager`, `DistributedCoordinator`, `LoadBalancer`, `MultiAgentCoordinator`).
- `EpisodicMemory`, `ContextManager`, `MessageRouter` and other keyed containers: the store's index argument with less structure.
