# Message-passing protocols of a distributed systems course, verified

A model in Dafny of six programs of the course: reliable causal broadcast, delivery guarantees over a bad network,
a replicated last-write-wins store, a consistent-hashing store, a gossiping membership protocol, and a RAID3 proxy.

Each handler of a process is one atomic step. Wherever the Python class changes its fields, a Dafny class with the
same fields has methods for its handlers, proved against functions on plain values (`*Node.dfy` against `*Spec.dfy` and
`MemberSteps.dfy`). The same functions drive transition systems (`*System.dfy`, `Rebalance.dfy`, `StableStore.dfy`), and
the theorems are about every run of these, for any number of processes and any inputs. Messages may arrive in any
order; they may also be lost and repeated, except in the sharded store (`Rebalance.dfy`, `StableStore.dfy`), where each
arrives at most once. History needed to state the theorems (logs, copies received, what was stored when an operation
began) is kept beside the fields and never read by a handler.

| part | files | program |
|---|---|---|
| causal broadcast | `Broadcast*.dfy` | homework/04-broadcast |
| exactly once, exactly once in order | `Window*.dfy`, `ExactlyOnce.dfy`, `Permutations.dfy` | homework/01-guarantees |
| at most once | `AtMostOnce.dfy` | homework/01-guarantees |
| replicated register | `Items.dfy`, `Replica*.dfy` | homework/08-kv-replication |
| sharded store | `Ring*.dfy`, `Rebalance.dfy`, `StableStore.dfy` | homework/07-kv-sharding |
| membership | `Member*.dfy` | homework/06-membership |
| RAID3 | `Raid3.dfy` | seminars/08-balancing-sharding |

How the surroundings are modelled:

- Broadcast: the copies a handler sends go on the network, and a process receives only copies addressed to it, each never,
  once or often, at any later moment. A crashed process is one that takes no more steps and whose copies may be lost.
  The theorems that need progress ask that every copy between correct processes has been received, and nothing about
  the others. The buffer, a Python dictionary, may be scanned in any order.
- Exactly once: `ExactlyOnceSender` and `ExactlyOnceOrderedSender` differ only in a constant, so they are one class with
  the window limit as a field. A timer is pending or not; when it fires is left open.
- Replication: the time of an operation is any number and need not grow; the hash of a key is any function; identifiers
  of operations are fresh. The theorem on overlapping quorums is proved for any number of nodes, one and two included.
- Sharding: the hash is any function that gives distinct values to distinct members. Membership changes one at a time.
  Requests carry no number in the program; the model numbers them to say which answer belongs to which.
- Membership: random choices and the moments at which timers fire are left open. The order of gossip does not matter for
  other processes known before. For a process not known before it does not matter exactly when its best-ranked report
  also shows it, or nothing does; for the member itself exactly when nobody suspects it or nobody reports it active
  above its own version (`OrderIrrelevantExactly`). The repository's text says that a process is suspected only when it
  does not answer through others either; the program counts no such answer (`IndirectAnswerIsNotCounted`): the timers
  about a process are cancelled exactly by an ACK that comes from the process itself (`AckCancels`).
- RAID3: bytes are 8-bit vectors, and the rounding up in the split is exact. A node that was given no block answers with
  an error.

## Model

| member | source | states |
|---|---|---|
| BroadcastTheorems.UniformAgreement | homework/04-broadcast/solution.py:35-79 | In every run, with a correct majority and every copy on the network that is addressed from a correct to a correct process received, a message delivered by any process, faulty ones included, is delivered by every correct process. |
| BroadcastTheorems.Validity | homework/04-broadcast/solution.py:17-79 | Under the same condition every message sent by the user of a correct process is delivered by every correct process, the sender included. |
| BroadcastTheorems.CausalOrder | homework/04-broadcast/solution.py:17-66 | In every interleaving, whenever a message is delivered, everything its author had sent or delivered before sending it stands earlier in the same log. |
| BroadcastTheorems.DeliveredOnceInOrder | homework/04-broadcast/solution.py:43-66 | In every run a log holds only messages users sent, unaltered; each author's messages appear once each, without gaps, in the author's order; and `_state[j]` exceeds c exactly when message c of j is in the log. |
| BroadcastTheorems.BufferIsSettled | homework/04-broadcast/solution.py:46-79 | Between handlers nothing buffered is deliverable or already delivered, its relayers are still recorded, and whatever has half the group behind it is delivered or buffered. |
| BroadcastUsers.CausalOrderOfSends | homework/04-broadcast/solution.py:17-66 | Causal order told by steps: wherever the message of a SEND is delivered, it carries the text typed, and everything its author had delivered or sent before that step is delivered earlier. |
| BroadcastUsers.TypedIsShown | homework/04-broadcast/solution.py:17-79 | Validity told by texts: what a correct user has typed is shown to every correct user once the copies between correct processes have arrived. |
| BroadcastUsers.ShownWasTyped | homework/04-broadcast/solution.py:17-66 | In every run each user has been shown, in the order of the log, exactly the texts that the steps of the run say the authors have typed. |
| BroadcastUsers.OneCopyEach | homework/04-broadcast/solution.py:31-33 | A broadcast makes exactly one copy for each process, itself included, each carrying the message, and no other copy. |
| BroadcastUsers.DeliveryForgets | homework/04-broadcast/solution.py:35-66 | After a handler the relayers of what it delivered are forgotten, those of everything else are kept, and the message received, if not delivered, counts its sender and the process itself. |
| BroadcastInvariant.WireKeeps | homework/04-broadcast/solution.py:31-33 | The network holds one copy of each broadcast for each process, and nothing else; a process can receive only copies addressed to it. |
| BroadcastTraffic.RelayBound | homework/04-broadcast/solution.py:31-64 | Although delivery forgets the relayers, no process broadcasts one message more than twice (its author three times), so at most 2n + 1 broadcasts of it ever happen. |
| BroadcastTraffic.TrafficBound | homework/04-broadcast/solution.py:17-50 | All copies ever sent number at most n(2n + 1) for each message users sent: traffic ends after the last SEND. |
| BroadcastInvariant.Safety | homework/04-broadcast/solution.py:7-79 | The invariant behind these results holds in every state of every run. |
| BroadcastTheorems.HalfMeetsMajority | homework/04-broadcast/solution.py:43-45 | Half of the group (as the handler counts it, for odd and even n) shares a member with every majority. |
| BroadcastTheorems.AgreeUpTo | homework/04-broadcast/solution.py:35-79 | Induction along the first deliverer's log: every prefix of it reaches every correct process. |
| BroadcastTheorems.Spread | homework/04-broadcast/solution.py:35-50 | In a quiet system whatever one correct process broadcast is delivered or buffered at every correct process. |
| BroadcastSpec.PopFindsItsKey | homework/04-broadcast/solution.py:64-76 | `_messages_broadcasters.pop` never misses its key when a buffered message is delivered. |
| BroadcastSpec.PassShrinks | homework/04-broadcast/solution.py:68-79 | A pass of the fixpoint loop that delivers anything makes the buffer smaller, so the loop ends. |
| BroadcastSpec.DrainedNext | homework/04-broadcast/solution.py:68-79 | Passes compose: what two passes deliver, one after the other, is one in-turn sequence of messages taken from the starting buffer. |
| BroadcastSpec.OutcomeDelivered | homework/04-broadcast/solution.py:35-50 | Delivering the received message and draining the buffer is one of the outcomes the protocol description allows. |
| BroadcastNode.BroadcastProcess.OnMessage | homework/04-broadcast/solution.py:35-50 | Relays exactly when the process had not relayed; the new state is the old one with a sequence of messages delivered, each deliverable at its turn, the received one first, the rest from the buffer, until nothing buffered can be delivered; the texts shown are theirs in that order. |
| BroadcastNode.BroadcastProcess.OnLocalMessage | homework/04-broadcast/solution.py:17-29 | One copy to each process, the one at position d addressed to d, stamped with the counter and the state vector before the increment. |
| BroadcastNode.BroadcastProcess.UpdateDeliver | homework/04-broadcast/solution.py:68-79 | Terminates with nothing deliverable left; what it removed from the buffer is what it delivered, in turn. |
| BroadcastNode.BroadcastProcess.Scan | homework/04-broadcast/solution.py:71-77 | One pass delivers in turn, and delivers nothing only if nothing in the buffer is deliverable. |
| BroadcastNode.BroadcastProcess.IsCausallyOrdered | homework/04-broadcast/solution.py:52-58 | True exactly when the message is next from its author and its state vector is nowhere above the process's own. |
| BroadcastNode.BroadcastProcess.DeliverMessage | homework/04-broadcast/solution.py:60-66 | Advances one component, records the delivery, forgets the relayers, shows the text, changes nothing else. |
| ExactlyOnce.InOrderDelivery | homework/01-guarantees/solution.py:196-264 | In every run of a losing, repeating, reordering network the texts shown are the first `_order_lower_bound` texts sent; at most 30 wait in the receiver; an empty sender store means all were shown. |
| ExactlyOnce.ExactlyOnceDelivery | homework/01-guarantees/solution.py:120-187 | In every run each order is shown at most once, with the text sent; bound and set together denote exactly the orders shown; at most 21 are remembered; an empty sender store means the multiset shown is the multiset sent. |
| ExactlyOnce.NeverStalls | homework/01-guarantees/solution.py:196-264 | In every reachable state, for any window size, the first order the sender cannot forget is stored, timed and resent when its timer fires; sender bound <= receiver bound <= sender bound + limit + 1, and orders held lie in (bound, bound + limit]. |
| ExactlyOnce.FirstWindowIsSent | homework/01-guarantees/solution.py:132-139 | The first limit + 1 texts typed are on the network as soon as they are typed, whatever has been acknowledged: 22 of them without order, 31 with. |
| ExactlyOnce.WindowIsUsed | homework/01-guarantees/solution.py:208-234 | In every reachable state a new text goes out at once exactly when its order is at most the bound plus the limit, and so does each stored text when its timer fires, which is pending; a timer of an acknowledged order stops. Nothing on the network lies beyond the window. |
| ExactlyOnce.TextsAreTyped | homework/01-guarantees/solution.py:208-215 | The texts that count as sent are those the user typed in the steps of the run, in that order. |
| ExactlyOnce.CanComplete | homework/01-guarantees/solution.py:141-187 | From every reachable state of either guarantee at most 3 steps per stored message lead to a state in which everything sent has been shown. |
| ExactlyOnce.ShownDenotes | homework/01-guarantees/solution.py:171-187 | Compaction refines the full history: after any steps the window denotes exactly the orders in the log. |
| ExactlyOnce.KeepFollows | homework/01-guarantees/solution.py:247-264 | The ordered receiver, which stores texts, keeps the same window as the unordered one and shows a prefix of the texts sent. |
| ExactlyOnce.FlushFollows | homework/01-guarantees/solution.py:253-259 | The delivery loop compacts to the same window and extends the prefix shown. |
| WindowSystem.StepKeeps | homework/01-guarantees/solution.py:132-187 | Every step keeps the invariant, with the two-acknowledgement condition: once some acknowledgement carried bound s, every acknowledgement of order s carries a bound above s. |
| WindowSystem.NoStall | homework/01-guarantees/solution.py:217-234 | The invariant gives: the first unforgotten order is stored, timed and inside the window. |
| WindowSystem.EmptyStoreMeansDone | homework/01-guarantees/solution.py:141-144 | An empty store means that the receiver has seen exactly what was sent. |
| WindowSystem.Round | homework/01-guarantees/solution.py:146-187 | A timer, the message and its acknowledgement remove exactly one entry of the sender's store. |
| WindowSystem.Completion | homework/01-guarantees/solution.py:208-264 | Rounds repeated empty the store within three steps an entry. |
| WindowSpec.CompactMeans | homework/01-guarantees/solution.py:180-182 | Compaction neither forgets nor invents an order, and leaves the bound outside the set. |
| WindowSpec.TakeMeans | homework/01-guarantees/solution.py:174-182 | After a message the orders denoted are the old ones and this one; a repeated order changes nothing. |
| WindowNodes.WindowSender.OnLocalMessage | homework/01-guarantees/solution.py:208-215 | Stores and times the text always, sends it only inside the window. |
| WindowNodes.WindowSender.OnMessage | homework/01-guarantees/solution.py:217-220 | Forgets the acknowledged order if it is stored and raises the bound to the greater. |
| WindowNodes.WindowSender.OnTimerFired | homework/01-guarantees/solution.py:222-234 | An acknowledged order stops its timer; any other keeps it, and is resent only inside the window. |
| WindowNodes.ExactlyOnceReceiver.OnMessage | homework/01-guarantees/solution.py:171-187 | Shows the text exactly when its order was not seen; the window becomes the compacted one; the acknowledgement carries the new bound. |
| WindowNodes.ExactlyOnceOrderedReceiver.OnMessage | homework/01-guarantees/solution.py:247-264 | Stores a new text and shows the run that has become complete, in order; the acknowledgement carries the new bound. |
| AtMostOnce.AtMostOnceDelivery | homework/01-guarantees/solution.py:40-54 | For any arrivals whatever: no order is shown twice, nothing is shown that did not arrive, the bound and the log only grow. |
| AtMostOnce.RefusedExactly | homework/01-guarantees/solution.py:40-54 | A first copy is refused if and only if the arrivals so far have passed it: some later order n >= 3 came when n - 1, n - 2 and n - 3 had all arrived. |
| AtMostOnce.ShownExactly | homework/01-guarantees/solution.py:40-54 | For any arrivals and any message in them: it is ever shown if and only if its first copy came before it was passed. |
| AtMostOnce.AllShownExactly | homework/01-guarantees/solution.py:40-54 | Everything that arrived is shown if and only if no message was passed before its first copy. |
| AtMostOnce.LosslessDeliveryExactly | homework/01-guarantees/solution.py:15-54 | A run that loses nothing shows the multiset of texts sent if and only if no message was passed before its first copy. |
| AtMostOnce.RunExactly | homework/01-guarantees/solution.py:44-54 | The bound moves exactly when the three orders before the arrival had arrived and lie at or above the bound. |
| AtMostOnce.PassingTakesFour | homework/01-guarantees/solution.py:48-54 | Passing an order that has not arrived takes four later ones. |
| AtMostOnce.RefusedOnlyIfOvertaken | homework/01-guarantees/solution.py:40-54 | In particular a first copy is refused only if four consecutive later orders, ending just below the bound, had arrived before it. |
| AtMostOnce.FourOvertakingLose | homework/01-guarantees/solution.py:44-54 | An instance of the exact condition: overtaken by 1, 2, 3 and 4, message 0 is lost, so four is the least number of overtaking orders that can lose a message. |
| AtMostOnce.GentleShowsAll | homework/01-guarantees/solution.py:40-54 | A sufficient count, from the exact condition: when fewer than four later orders overtake any message, everything that arrives is shown. |
| AtMostOnce.GentleLosslessDelivery | homework/01-guarantees/solution.py:15-54 | Under that reordering a run without loss shows the multiset of texts sent. |
| AtMostOnce.AtMostOnceReceiver.Receive | homework/01-guarantees/solution.py:40-54 | Refuses an old or stored order, shows any other; a full run below it moves the bound past it and drops the orders the bound passed. |
| AtMostOnce.AtMostOnceReceiver.HasRunBefore | homework/01-guarantees/solution.py:48-51 | True exactly when the three orders before are stored; never for the first three orders. |
| AtMostOnce.AtMostOnceSender.OnLocalMessage | homework/01-guarantees/solution.py:15-19 | Numbers the texts 0, 1, 2, ... |
| ReplicaTheorems.OverlappingQuorumsOrder | homework/08-kv-replication/solution.py:17-96 | In every run without timers: if an operation was answered before another on the same key began and their quorums add up to more than 3, the later answer is no older than the earlier one, nor than what the earlier one wrote. |
| ReplicaClients.SeesCompletedWrite | homework/08-kv-replication/solution.py:17-96 | Told by steps: an operation begun after a PUT was answered, with quorums adding up to more than 3, tells its client the value of some PUT of that key which is later, or as late and not smaller; an empty value is told as no record. |
| ReplicaClients.ClientSees | homework/08-kv-replication/solution.py:66-69 | In every run the client of an answered operation is told w if and only if w is not empty and is the value of the item answered, and no record if and only if that value is empty. |
| ReplicaClients.SeenWasPut | homework/08-kv-replication/solution.py:17-69 | Whatever value a client is told, a step of the run before put it under the same key. |
| ReplicaClients.WhereBegun | homework/08-kv-replication/solution.py:17-38 | Every operation was begun by a step of the run and keeps the node, kind, key, quorum, time and value of that step. |
| ReplicaTheorems.BackedByQuorum | homework/08-kv-replication/solution.py:51-69 | From the moment of an answer and ever after, at least `quorum` distinct replicas store the answered item or a later one; for a PUT that item is no older than its own. |
| ReplicaProgress.CanAnswerAll | homework/08-kv-replication/solution.py:17-96 | From every reachable state some continuation without new operations answers exactly the operations whose quorum is at most the number of distinct replicas of their key: repairing stale replicas brings all of them to the newest item. |
| ReplicaProgress.Bring | homework/08-kv-replication/solution.py:51-96 | Asking one replica again, and once more after its repair, gets it among the kept responses; if it held nothing newer, no other response is lost. |
| ReplicaProgress.AnsweredIsPossible | homework/08-kv-replication/solution.py:66-69 | An operation that has been answered has at least `quorum` distinct replicas. |
| ReplicaTheorems.KeptAreNewest | homework/08-kv-replication/solution.py:51-69 | In every state the items an event keeps all equal the greatest item received for it, and their senders store it or a later one. |
| ReplicaTheorems.SettleMeans | homework/08-kv-replication/solution.py:53-65 | Recording a response and dropping the stale ones leaves only responses equal to the greater of the old common item and the new one. |
| ReplicaTheorems.QuorumsMeet | homework/08-kv-replication/solution.py:129-140 | Quorums of one key that add up to more than the number of replicas share a replica, in groups of any size. |
| ReplicaTheorems.StepKeeps | homework/08-kv-replication/solution.py:17-96 | Every step keeps the invariant, no register falls, and no operation's history is lost. |
| ReplicaTheorems.Later | homework/08-kv-replication/solution.py:66-69 | An answer, once given, is never changed or given again. |
| ReplicaOrigin.NoCreation | homework/08-kv-replication/solution.py:17-96 | Every item answered, stored or in flight was written by a client's PUT of that key, or is the absent item. |
| ReplicaSpec.ReplicasDistinct | homework/08-kv-replication/solution.py:129-140 | The replicas of a key are nodes of the group, three distinct ones exactly when there are at least three nodes. |
| ReplicaSpec.ReplicasInARow | homework/08-kv-replication/solution.py:129-140 | The replicas are the nodes at the hash, one after it and two after it, modulo the number of nodes; the next to turn to is three after. |
| Items.FirstDifference | homework/08-kv-replication/solution.py:53-58 | Values are ordered by the first position where they differ, a proper prefix first. |
| Items.LaterWins | homework/08-kv-replication/solution.py:40-44 | A later time wins whatever the values, equal times are decided by the value, and every write beats the absent record. |
| Items.RegisterIsMaximum | homework/08-kv-replication/solution.py:91-96 | After any writes the register holds the lexicographic maximum of its old item and all of them. |
| Items.ReplicasConverge | homework/08-kv-replication/solution.py:40-44 | Replicas that received the same writes hold the same item, whatever the order and the repetitions. |
| Items.DeleteIsAWrite | homework/08-kv-replication/solution.py:98-104 | A DELETE acts on the register exactly as writing the empty value at its time, equal times included. |
| Items.JoinIsMax | homework/08-kv-replication/solution.py:93-94 | The later of two items is one of them and at or above both. |
| Items.Total | homework/08-kv-replication/solution.py:53-58 | Items are totally ordered by time, then value, and the absent item is the least. |
| ReplicaNode.StorageNode.OnClient | homework/08-kv-replication/solution.py:17-37 | Opens an event without responses, with the node three after the hash next in line, sets its timer, and sends the timed request to the three nodes from the hash on. |
| ReplicaNode.StorageNode.OnRequest | homework/08-kv-replication/solution.py:71-96 | A replica's register becomes the later of its item and the one written, other keys keep theirs. Any other node does the same to the records it keeps for those replicas, apart from its own, and sets the timer for handing them on. The reply carries the item then stored. |
| ReplicaNode.StorageNode.OnDelete | homework/08-kv-replication/solution.py:98-104 | The deleted key's register changes as `DeleteIsAWrite` says, no other key's does; the answer has the value deleted, or none when the register was not older. |
| ReplicaNode.StorageNode.OnReply | homework/08-kv-replication/solution.py:51-69 | Records the response, keeps only the greatest, sends every stale replica that item, and answers once, when at least `quorum` responses remain: with its value, or no record when that is empty. |
| ReplicaNode.StorageNode.Greatest | homework/08-kv-replication/solution.py:55-56 | The item chosen is among the responses and at or above all of them. |
| ReplicaNode.StorageNode.RepairStale | homework/08-kv-replication/solution.py:57-65 | Exactly the responses below the greatest are dropped, and exactly their senders are sent it. |
| ReplicaNode.StorageNode.GetKeyReplicas | homework/08-kv-replication/solution.py:129-136 | The loop lists the node the key hashes to and its successors around the group. |
| Rebalance.AlwaysPartitioned | homework/07-kv-sharding/solution.py:49-122 | At every moment of a join or leave, in any interleaving of the notices and the UPDATE, every record is at exactly one live node or in flight, with its value, and nothing else is anywhere. |
| Rebalance.MinimalMoves | homework/07-kv-sharding/solution.py:75-90 | What is in flight is exactly the set of records whose responsible node changed, on the way to the new one. |
| Rebalance.EndsBalanced | homework/07-kv-sharding/solution.py:75-122 | When all has been handled every member knows the new ring and stores exactly the records it is responsible for. |
| Rebalance.Owners | homework/07-kv-sharding/solution.py:22-62 | A change moves responsibility from one node to one other and for no other key, wrap-around included. |
| Rebalance.JoinSplit | homework/07-kv-sharding/solution.py:49-62 | What the predecessor keeps is its part under the new ring, and what it sends is exactly the rest. |
| StableStore.OneSequentialMap | homework/07-kv-sharding/solution.py:71-120 | In stable membership GET, PUT and DELETE through any nodes, served in any order, answer as one sequential map would, and the nodes always hold exactly that map. |
| StableStore.Linearizable | homework/07-kv-sharding/solution.py:71-120 | What a client is shown, after the request, its service and the reply have each travelled, is the right answer (in the sense of AnswersAreRight) to the request it made at its place in the history; and a request made after another was answered stands behind it. |
| StableStore.AnswersAreRight | homework/07-kv-sharding/solution.py:98-120 | In every run: a PUT is answered with its own value; a GET and a DELETE with the value of the last PUT of that key served before, nothing if a DELETE came last, and the value at the beginning if neither was; and the node responsible for a key, no other, stores what the last of them left. |
| StableStore.ReplayLeaves | homework/07-kv-sharding/solution.py:98-120 | The one map holds for each key what the last PUT or DELETE of it left. |
| StableStore.ServesAfterRebalancing | homework/07-kv-sharding/solution.py:75-122 | A finished rebalancing is a starting state for such service of the same map. |
| StableStore.PerformAtOwner | homework/07-kv-sharding/solution.py:98-120 | Performing a request at the responsible node alone acts as performing it on the whole map. |
| RingSpec.ClosestIsOwner | homework/07-kv-sharding/solution.py:22-35 | The lookup finds the node defined by the membership alone: the last at or before the key's hash, or the last of all when none is. |
| RingSpec.OwnerUnique | homework/07-kv-sharding/solution.py:22-35 | That node is unique when hashes are distinct, so nodes with the same membership route alike. |
| RingSpec.BinSearchFindsLast | homework/07-kv-sharding/solution.py:14-20 | The recursive search returns the last entry of its range at or before the hash. |
| RingSpec.AddKeepsRing | homework/07-kv-sharding/solution.py:37-40 | Insertion keeps the ring sorted and adds exactly the new member. |
| RingSpec.RemoveKeepsRing | homework/07-kv-sharding/solution.py:42-47 | Removal keeps the ring sorted and removes exactly that member; an unknown one changes nothing. |
| RingSpec.RingUnique | homework/07-kv-sharding/solution.py:37-47 | Sorted rings with the same members are equal: nodes that heard changes in different orders agree. |
| RingSpec.JoinOwners | homework/07-kv-sharding/solution.py:49-62 | A new node takes keys only from its predecessor, and the splitting condition says exactly which the predecessor keeps. |
| RingSpec.LeaveOwners | homework/07-kv-sharding/solution.py:85-90 | When a node leaves, its keys go to the owner of its own position and no other key moves. |
| RingNode.KeyStore.GetIndexByKey | homework/07-kv-sharding/solution.py:22-31 | In a ring: exactly the entries up to the index lie at or before the hash; for a lookup before all of them it is the last entry, for an insertion -1. |
| RingNode.KeyStore.GetClosestKey | homework/07-kv-sharding/solution.py:33-35 | The node at the index found; in a ring it is the owner defined by the membership alone. |
| RingNode.KeyStore.AddKey | homework/07-kv-sharding/solution.py:37-40 | The new ring has exactly the new member in addition, and is still a ring when the hash is new. |
| RingNode.KeyStore.RemoveKey | homework/07-kv-sharding/solution.py:42-47 | The new ring is without exactly that member; the entry found is removed only if it is the key's. |
| RingNode.KeyStore.SplitByKey | homework/07-kv-sharding/solution.py:49-62 | The two parts are disjoint and together the records given; the first holds those that meet the splitting condition. |
| RingNode.StorageNode.OnNodeAdded | homework/07-kv-sharding/solution.py:75-84 | Only the predecessor of the new node gives anything up, and sends exactly what it no longer keeps. |
| RingNode.StorageNode.OnNodeRemoved | homework/07-kv-sharding/solution.py:85-90 | Only the removed node sends, all its records, to the owner of its position. |
| RingNode.StorageNode.OnUpdate | homework/07-kv-sharding/solution.py:121-122 | The records that arrive are added, replacing equal keys, and all others stay. |
| RingNode.StorageNode.OnRequest | homework/07-kv-sharding/solution.py:98-120 | PUT stores and answers its value, GET and DELETE answer the value stored or none, DELETE removes it, and no other key changes. |
| RingNode.StorageNode.OnClient | homework/07-kv-sharding/solution.py:71-74 | Every request is routed to the owner of its key. |
| MemberSystem.ViewsStayValid | homework/06-membership/solution.py:67-176 | In every reachable state active and suspect are disjoint, a member that knows anyone has itself active, and nobody suspects itself. |
| MemberSystem.RanksNeverFall | homework/06-membership/solution.py:86-235 | Between a member's local JOIN, local LEAVE and received JOINREQs no process it knows ever falls in rank. |
| MemberLaws.LeaverStaysOut | homework/06-membership/solution.py:104-108 | In every run, from the moment a member handles the LEAVE of a process, that process is out of its active view until it asks to join, somebody reports it active at a version above the one it left with, or the member adopts a JOINREQ or starts over. |
| MemberLaws.GivenUpStaysOut | homework/06-membership/solution.py:233-235 | The same from the moment the second timer gives a process up. |
| MemberLaws.IndirectAnswerIsNotCounted | homework/06-membership/solution.py:115-148 | A PING through another member reaches its target unaltered and the ACK comes back, but as coming from that other member: the timers about the target go on, and when the second fires an active target is suspected although it answered. |
| MemberLaws.AckCancels | homework/06-membership/solution.py:143-148 | An ACK for the member itself cancels exactly the two timers about the process it comes from. |
| MemberLaws.DirectPing | homework/06-membership/solution.py:115-148 | A PING is answered to its sender with the merged view, and the answer cancels both timers about the one that answers. |
| MemberLaws.PingAgrees | homework/06-membership/solution.py:115-176 | After a PING and its ACK both have the same rank, the greater one, of every other process that both knew. |
| MemberLaws.SuspectAnswersBack | homework/06-membership/solution.py:135-176 | A pinged suspect raises its version by one and is active again at the one that suspected it if and only if its own version was not below the suspected one. |
| MemberLaws.JoinHandshake | homework/06-membership/solution.py:86-113 | JOIN and JOINREQ leave both sides with the same view, listing both, the newcomer one version above what was known of it, and no longer asking. |
| MemberLaws.NotJoinedIsDropped | homework/06-membership/solution.py:115-141 | A process that has not joined, or is asked by a stranger, answers LEAVE, and the other lists it no more. |
| MemberLaws.LeaveIsHeard | homework/06-membership/solution.py:54-62 | A member that leaves forgets everybody, and tells another active member exactly when there is one, which then keeps it as having left. |
| MemberLaws.PingTimerPings | homework/06-membership/solution.py:187-215 | The ping timer pings the member chosen and the suspect chosen, unless it left on its own, and awaits an answer of the member only. |
| MemberLaws.FailedTimerAsks | homework/06-membership/solution.py:217-231 | The first timer sends each chosen member one PING about the process and is replaced by the second. |
| MemberLaws.JoinTimerAsks | homework/06-membership/solution.py:180-185 | The timer of a JOIN asks again and goes on until another active process is known. |
| MemberLaws.ThroughTimerGivesUp | homework/06-membership/solution.py:233-235 | The second timer moves an active process to the suspects at its version, and is over. |
| MemberLaws.BeginsAlone | homework/06-membership/solution.py:40-52 | A user's JOIN starts with the member alone at version 1, or with nobody, asking the seed; the ping timer is set either way. |
| MemberSpec.MergeIsJoin | homework/06-membership/solution.py:150-176 | For any other process already known the merged entry is the one of greater rank (version, suspect above active), its own when they are equal; so a departure that outranks stays a departure. |
| MemberSpec.DepartMeans | homework/06-membership/solution.py:104-108 | After LEAVE the sender is not active; if it was known it is kept at the same version as having left; nobody else changes, and a second LEAVE changes nothing. |
| MemberSpec.DistrustMeans | homework/06-membership/solution.py:233-235 | After an unanswered ping an active process is suspected at its version; any other, and everybody else, is unchanged. |
| MemberSpec.AdmitMeans | homework/06-membership/solution.py:86-102 | After JOIN the sender is active one version above what was known of it, or at 1, and nobody else changes. |
| MemberGossip.GossipIsMaximum | homework/06-membership/solution.py:150-176 | After any gossip a process known from the start has exactly the greatest rank heard. |
| MemberGossip.GossipOrderIrrelevant | homework/06-membership/solution.py:150-176 | Members that start from the same rank and hear the same gossip, in any order and repetition, end with the same rank. |
| MemberGossip.OrderIrrelevantExactly | homework/06-membership/solution.py:150-176 | For any member, any gossips and any process, the exact condition under which all orders of the gossips leave the merged view with the same rank of it: known before; or not known and its best report shows it; or the member itself and OwnEveryOrderAgrees. |
| MemberGossip.OwnEveryOrderAgrees | homework/06-membership/solution.py:150-176 | For the member itself all orders give the same version if and only if nobody suspects it or nobody reports it active with a version above its own at the beginning. |
| MemberGossip.OwnVersion | homework/06-membership/solution.py:153-171 | After any gossip the member's own entry is active, with the version computed from its first one and the gossips alone: one more for each suspicion, raised to a higher report. |
| MemberGossip.TwoOwnOrdersDiffer | homework/06-membership/solution.py:153-171 | With both a suspicion and a higher report, hearing suspicions last gives a greater version than hearing them first. |
| MemberGossip.GossipEndsMerged | homework/06-membership/solution.py:150-176 | Every sequence of merges ends in the one view computed from its start and the gossips. |
| MemberGossip.MergedIsGossiped | homework/06-membership/solution.py:150-176 | Such a sequence exists for any start and any gossips. |
| MemberGossip.OrderMattersExactly | homework/06-membership/solution.py:166-176 | The case of two gossips, for every other process, known or not: they commute if and only if it was known, or both or neither show it, or the one that shows it is not outranked. |
| MemberGossip.EveryOrderAgrees | homework/06-membership/solution.py:150-176 | For a process not known before and any gossips: the views merged from all their orders, and from all their repetitions in any order, give it the same rank if and only if nobody shows it or a gossip that shows it is outranked by none. |
| MemberGossip.RankHeard | homework/06-membership/solution.py:150-176 | After any gossip a process not known before has exactly the rank computed from the gossips alone, and stays unknown exactly when none shows it. |
| MemberGossip.HeardFromFirst | homework/06-membership/solution.py:150-176 | That rank is the greatest one heard from the first gossip that shows the process on. |
| MemberGossip.HeardNothing | homework/06-membership/solution.py:150-176 | There is no such rank exactly when no gossip shows the process. |
| MemberGossip.OwnRankDependsOnOrder | homework/06-membership/solution.py:153-171 | An instance of the condition for the member itself: a suspicion after "active at 5" gives version 6, before it 5. |
| MemberSpec.MergeIsUnique | homework/06-membership/solution.py:150-176 | The merged view exists, whatever was received, and is the only one with the merged entries. |
| MemberGossip.DepartureForgotten | homework/06-membership/solution.py:166-176 | The concrete case where they do not: a departure heard before the process itself is forgotten. |
| MemberSpec.MergeOfUnknown | homework/06-membership/solution.py:166-176 | A process not known is taken over as reported, unless it is only reported as having left. |
| MemberSpec.MergeOfSelf | homework/06-membership/solution.py:153-160 | A member stays active in its own view, and a suspicion of it raises its version. |
| MemberSpec.MergeKeepsValid | homework/06-membership/solution.py:150-176 | A merge keeps the view valid and lets no rank fall. |
| MemberSystem.AdmitKeeps | homework/06-membership/solution.py:86-102 | Answering JOIN makes the sender active with a strictly higher rank, in a view valid for both sides. |
| MemberSystem.DepartKeeps | homework/06-membership/solution.py:104-108 | A LEAVE keeps the view valid and lets no rank fall. |
| MemberSystem.DistrustKeeps | homework/06-membership/solution.py:233-235 | So does a ping that stays unanswered. |
| MemberNode.GroupMember.Merge | homework/06-membership/solution.py:150-176 | The two loops give every process exactly its merged entry, whatever the order of the entries received. |
| MemberNode.GroupMember.MergeSuspects | homework/06-membership/solution.py:156-167 | The first loop alone, process by process. |
| MemberNode.GroupMember.MergeActives | homework/06-membership/solution.py:169-176 | The second loop alone, process by process. |
| MemberNode.GroupMember.OnJoin | homework/06-membership/solution.py:86-102 | The sender becomes active one version above whatever was known of it, and is sent the new view. |
| MemberNode.GroupMember.OnLeave | homework/06-membership/solution.py:104-108 | The sender is not active afterwards; an active one becomes suspected with its version negated, a suspected one is marked as having left. |
| MemberNode.GroupMember.OnPingThroughFailed | homework/06-membership/solution.py:233-235 | An active process becomes suspected with its version; any other keeps its entry. |
| MemberNode.GroupMember.UnexpectedInit | homework/06-membership/solution.py:67-72 | An empty view becomes the member alone, any other stays. |
| MemberNode.GroupMember.OnJoinReq | homework/06-membership/solution.py:110-113 | The member adopts the view it was sent and cancels the timer of its own request. |
| MemberNode.GroupMember.OnLocalJoin | homework/06-membership/solution.py:40-52 | The view starts over: the member alone if it is its own seed, otherwise nothing, with JOIN sent to the seed and its timer set; the ping timer is set in both cases. |
| MemberNode.GroupMember.OnLocalLeave | homework/06-membership/solution.py:54-62 | A random active member is told, if there is one, and the view is forgotten. |
| MemberNode.GroupMember.OnMessage | homework/06-membership/solution.py:74-148 | Each message does to the fields, the timers and the network what the transition system says, and a joined member merges the view of a PING, and of an ACK from a process it knows. |
| MemberNode.GroupMember.OnPing | homework/06-membership/solution.py:115-133 | Not joined: LEAVE back and nothing else. Otherwise merge, then answer the sender with the merged view, or pass the PING on unaltered. |
| MemberNode.GroupMember.OnAck | homework/06-membership/solution.py:135-148 | Not joined or the sender unknown: LEAVE back. Otherwise merge, then cancel both timers about the sender, or pass the ACK on. |
| MemberNode.GroupMember.OnTimer | homework/06-membership/solution.py:178-235 | Each timer does what the transition system says, for any random choices. |
| MemberNode.GroupMember.OnJoinTimer | homework/06-membership/solution.py:180-185 | JOIN is sent again, and its timer set, until another active process is known. |
| MemberNode.GroupMember.OnPingTimer | homework/06-membership/solution.py:187-215 | A random active member is pinged and timed, a random suspect is pinged unless it left on its own, and the ping timer is set again. |
| MemberNode.GroupMember.OnPingFailed | homework/06-membership/solution.py:217-231 | Each randomly chosen member is asked to pass a PING on, and the second timer is set. |
| Raid3.AnyOneLost | seminars/08-balancing-sharding/kv/proxy/strategies.py:142-183 | Losing any one of the blocks stored, parity included, recovery from the remaining ones gives the bytes without trailing zeros: the original bytes if and only if they do not end in a zero. The list has as many slots as there are blocks, d + 1 when the split fills all d. |
| Raid3.AnyNodeLost | seminars/08-balancing-sharding/kv/proxy/strategies.py:195-244 | With one slot for each of the d + 1 nodes: the value survives the failure of any one node if and only if the split fills all d blocks and the bytes do not end in a zero. |
| Raid3.ReadsRight | seminars/08-balancing-sharding/kv/proxy/strategies.py:195-244 | No node failing, the proxy reads back the bytes if and only if they do not end in a zero and the split fills all d blocks, or misses one and the parity is zero throughout. |
| Raid3.UndamagedRead | seminars/08-balancing-sharding/kv/proxy/strategies.py:195-244 | What is read instead: data followed by parity when one block is missing, an error when more are. |
| Raid3.RebuiltIsStored | seminars/08-balancing-sharding/kv/proxy/strategies.py:170-181 | The rebuilt list of blocks is, block for block, the one stored. |
| Raid3.MissingBlock | seminars/08-balancing-sharding/kv/proxy/strategies.py:157-180 | The exclusive or of all blocks but one and of the parity is the missing block. |
| Raid3.FillsExactly | seminars/08-balancing-sharding/kv/proxy/strategies.py:142-154 | The split gives d blocks exactly when d - 1 of the computed size are too few, and never more than d. |
| Raid3.FillsWhenLong | seminars/08-balancing-sharding/kv/proxy/strategies.py:142-154 | Every length above (d - 1) squared fills all d blocks, and at (d - 1) squared itself the split falls short, for every d >= 2. |
| Raid3.ChunksConcat | seminars/08-balancing-sharding/kv/proxy/strategies.py:142-154 | The blocks in order are the bytes, followed by zeros only. |
| Raid3.StripPadding | seminars/08-balancing-sharding/kv/proxy/strategies.py:166-167 | Stripping zeros from padded bytes is stripping them from the bytes. |
| Raid3.StripCuts | seminars/08-balancing-sharding/kv/proxy/strategies.py:166-167 | Stripping cuts off zeros only, and all of them. |
| Raid3.ParityOfTwo | seminars/08-balancing-sharding/kv/proxy/strategies.py:157-163 | The parity of two blocks is their exclusive or, byte by byte. |
| Raid3.Split | seminars/08-balancing-sharding/kv/proxy/strategies.py:142-154 | The loop produces the padded blocks of equal length, each carrying its position; an empty value is an error. |
| Raid3.Parity | seminars/08-balancing-sharding/kv/proxy/strategies.py:157-163 | An error exactly when the lengths differ; otherwise the exclusive or of all blocks, without an index. |
| Raid3.Join | seminars/08-balancing-sharding/kv/proxy/strategies.py:166-167 | The data blocks in order without the trailing zeros. |
| Raid3.Recover | seminars/08-balancing-sharding/kv/proxy/strategies.py:170-183 | The lost block is put back into the list as rebuilt from the others; the value is read from the completed list. |
| BroadcastQuiet.CanAgree | homework/04-broadcast/solution.py:17-79 | From every reachable state a correct majority, the others having stopped, can without another SEND deliver at each of its members everything any process has delivered and everything its users have sent. |
| BroadcastQuiet.GoesQuiet | homework/04-broadcast/solution.py:31-50 | From every reachable state the correct processes alone, receiving only copies from one another, can reach the quiet state the agreement theorems ask for. |
| BroadcastQuiet.AllCanAgree | homework/04-broadcast/solution.py:17-79 | When nobody has stopped, all processes can reach the same set of delivered messages: exactly those users sent. |
| BroadcastQuiet.ReceivingEnds | homework/04-broadcast/solution.py:31-50 | In every schedule at most n(2n + 1) copies per message sent are received for the first time; after that there is nothing new to receive. |
| BroadcastQuiet.SomeOutcome | homework/04-broadcast/solution.py:35-79 | Whatever copy arrives, some sequence of deliveries completes the handler; none is ever stuck. |
| BroadcastQuiet.DeliveredExactly | homework/04-broadcast/solution.py:60-62 | A message is recorded as delivered exactly when the state vector counts it. |
| BroadcastNode.BroadcastProcess.BestEffortBroadcast | homework/04-broadcast/solution.py:31-33 | The copy at position d is addressed to process d, for each of the n processes, itself included. |
| BroadcastNode.BroadcastProcess.constructor | homework/04-broadcast/solution.py:7-15 | A process that has sent, received and delivered nothing. |
| WindowSystem.WindowBounds | homework/01-guarantees/solution.py:171-220 | The invariant gives the window bounds and the limit on the orders held. |
| WindowSystem.Safety | homework/01-guarantees/solution.py:132-187 | The invariant holds in every reachable state. |
| WindowNodes.WindowSender.constructor | homework/01-guarantees/solution.py:200-206 | An empty store and both counters at zero. |
| WindowNodes.ExactlyOnceReceiver.constructor | homework/01-guarantees/solution.py:161-165 | Nothing seen. |
| WindowNodes.ExactlyOnceOrderedReceiver.constructor | homework/01-guarantees/solution.py:237-241 | Nothing seen and nothing shown. |
| AtMostOnce.Safety | homework/01-guarantees/solution.py:40-54 | After any arrivals: nothing shown twice or without having arrived, an order at or above the bound is stored exactly when it was shown, and a bound above zero stands right after four consecutive orders that were all shown. |
| AtMostOnce.AtMostOnceReceiver.constructor | homework/01-guarantees/solution.py:31-34 | Nothing seen and nothing shown. |
| ReplicaTheorems.Safety | homework/08-kv-replication/solution.py:17-96 | The invariant holds in every state of every run. |
| ReplicaNode.StorageNode.constructor | homework/08-kv-replication/solution.py:11-15 | No record and no event. |
| Rebalance.NeverStuck | homework/07-kv-sharding/solution.py:75-122 | In every reachable state each pending notice and each UPDATE in flight can be handled. |
| Rebalance.NoticeKeeps | homework/07-kv-sharding/solution.py:75-90 | Handling a notice keeps the exact description of every node and of what is in flight. |
| Rebalance.DeliverKeeps | homework/07-kv-sharding/solution.py:121-122 | So does the arrival of the UPDATE, which happens once, before or after the receiver's own notice. |
| RingSpec.SortedIsRing | homework/07-kv-sharding/solution.py:7-9 | Sorting keys with different hashes gives a ring of exactly those members. |
| RingSpec.JoinerKnowsTheRing | homework/07-kv-sharding/solution.py:37-40 | A node started with the new membership has the very ring the others get by adding it to theirs. |
| RingSpec.IndexForAddFindsLast | homework/07-kv-sharding/solution.py:22-28 | Exactly the entries up to the index found lie at or before the hash, none of them when it is -1. |
| RingSpec.IndexOfMember | homework/07-kv-sharding/solution.py:42-44 | The search ends on the key's own entry exactly when the key is a member. |
| RingNode.KeyStore.constructor | homework/07-kv-sharding/solution.py:7-9 | The entries of the keys given, sorted; a ring of exactly those members when hashes differ. |
| RingNode.StorageNode.constructor | homework/07-kv-sharding/solution.py:66-69 | A node without records whose ring is the sorted one of the keys given. |
| MemberSystem.Safety | homework/06-membership/solution.py:32-235 | The invariant, messages in flight included, holds in every state of every run. |
| MemberNode.GroupMember.constructor | homework/06-membership/solution.py:12-16 | Not joined, nobody known. |
| Raid3.ChunkCount | seminars/08-balancing-sharding/kv/proxy/strategies.py:142-154 | The number of blocks is the least whose capacity reaches the length. |

## Left out

- ReplicaNode.StorageNode.OnReply: asks that the event exists and that the response carries a value; the source raises otherwise, which can happen only after a timer has removed the event or to a DELETE.
- ReplicaNode.StorageNode.OnClient: GET and PUT; a DELETE opens an event in the same way.
- ReplicaNode.StorageNode.OnDelete: only a replica of the key; the coordinator's side of DELETE is left out because its response may carry no value, which the coordinator then looks up.
- ReplicaNode.StorageNode.RepairStale: the set of repairs, not the order in which they are sent.
- BroadcastNode.BroadcastProcess.OnMessage: asks that the sender and the message belong to a group of this size, as every message of a run does.
- Raid3.Recover: asks that exactly the block at the error index is missing, as the proxy's read establishes, and stops at the bytes like Join.
- Raid3.Read: a value put before under the same key, whose blocks a shorter value leaves on some nodes, is not part of this model.
- Raid3.Join: asks that no data block is missing, since the source raises otherwise, and stops at the bytes: decoding them as text, which raises for bytes that are not UTF-8, is not part of this model.
- What replication timers do when they fire, so the sloppy quorum, the hand-over of records kept for others, UPDATE and ACK: the repository's own text says overlapping quorums are not guaranteed there.
- Sharding: client requests during rebalancing, overlapping changes, crashes, equal hashes of two nodes, removing the last node, the records a removed node leaves behind in its own memory, COUNT_RECORDS and DUMP_KEYS.
- Membership: GET_MEMBERS, the probability that a random choice reaches everybody, and how soon a failure is noticed.
- AtLeastOnceSender and AtLeastOnceReceiver: the guarantee follows the same scheme as exactly once, without the receiver's memory.
- RAID3: the proxy's requests to its nodes, the text encoding, and rounding in floating point for values longer than a double can count.
- The unfinished second replication homework, the gossip and ping-pong seminars, the other proxies, and the programs around HTTP, gRPC, queues, tokens and Raft.
