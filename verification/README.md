# Verified model of Peer-Store

Peer-Store keeps files on a network of nodes. In its Chord architecture the nodes form a ring of 160-bit identifiers and
each file belongs to the first node at or after the file's identifier; in its mesh architecture a file is cut into one
part per node. This project models, in Dafny, the parts of Peer-Store whose correctness is not visible in any single
function, and proves what they guarantee.

Check everything with `dafny verify dfyconfig.toml`.

## The files

| file | what it holds |
|---|---|
| `Wrappers.dfy` | optional values, results, sizes of sets |
| `Ring.dfy` | clockwise distance and the interval test |
| `Paths.dfy` | clockwise paths along successor pointers and how a pointer change affects them |
| `ChordNodes.dfy` | one node: its handlers as functions on values, and the class whose methods implement them |
| `Protocol.dfy` | the network as a state machine with messages in flight, and the invariant every step keeps |
| `Steps.dfy` | exactly what one step of the network changes, node by node and field by field |
| `RingShape.dfy` | one cycle, one turn of the circle; quiescent states are exactly the ideal rings |
| `Convergence.dfy` | a potential lowered by every pointer change; bounded changes, stability of the ideal ring |
| `Phases.dfy` | stabilization converges, however the rounds of different members overlap |
| `Lookup.dfy` | lookups: who answers, how many forwards, how finger tables become exact |
| `EndToEnd.dfy` | stabilization and then finger fixing, both running concurrently on all members, make every lookup exact; such runs exist |
| `Placement.dfy` | stores, fetches and deletes choose one node per file |
| `Transfers.dfy` | responsibility for a file is never lost by transfers, and exactly when it can be |
| `Delivery.dfy` | stores and deletes in a settled ring while messages are delayed and fingers are fixed |
| `Handover.dfy` | a whole transfer: exactly the files on the arc go to the predecessor |
| `AesStream.dfy` | the chunked AES-CTR copy loop |
| `Split.dfy` | splitting a file and combining its parts |
| `Mesh.dfy` | the mesh nodes: storing a split file and collecting its parts |
| `Spread.dfy` | exactly when a file stored over the mesh comes back, whatever nodes kept from earlier stores |

## What is assumed

- A member is identified by its ring ID: addresses hash to distinct IDs. A content ID carries the ring ID it hashes to.
- Exactly one node creates the ring. Every other node joins once, through a current member, as one atomic step.
- The remote address of a connection identifies the sender (`chord_handler.go:272` compares it with the successor).
- Messages are atomic values. Requests, replies and notifications may be delayed without bound, reordered and lost;
  each handler and each local operation is one step, as it is under the node's mutex.
- A remote lookup call returns the remote node's answer. Finger updates and store or delete requests in the state machine
  may name any member, which covers lookups that ran while pointers were changing.
- In a mesh the encryption type is set and its key has a proper size, as the configuration makes sure
  (`config.go:41-43`, `config.go:65-75`).
- Go's `int` and `int64` are unbounded here; file sizes and part numbers do not come near their limits.
- The two ciphers' keystreams are arbitrary functions of key, vector and position. CTR mode is that of section 6.5 of
  NIST SP 800-38A.

## Where the code is not what one would expect

- The inclusive interval test is closed at both ends, so a node that looks up its own ID gets its successor.
  `Lookup.LookupExactIff` shows that on a settled ring this is the only inexact lookup, and `Placement.TargetsAgreeIff`
  that nodes disagree about a file exactly when its ID is the ID of a member that has company.
- The same closed end makes transfers hand a file back and forth between two nodes when the file's ID is the ID of one of
  them; both then release it. `Transfers.LosingRun` builds such a run for any set of members and
  `Transfers.ConservedIff` shows that it needs that coincidence and a second member. For all other files
  `Transfers.ResponsibilityConserved` holds. A transfer reads the files it sends from disk, so the run needs processes
  whose encryption type is set. `config.go:65-75` sets one only for a mesh; without one a store writes an empty file and
  empty metadata (`crypto.go:44`), reading the metadata back fails (`store.go:158-161`), and a transfer skips every file
  (`chord_util.go:356-361`), so that nothing is ever sent, nor lost. The run also needs receivers that finish handling a
  file: `chord_handler.go:330` copies until the connection ends, and the transport's read loop competes with the handler
  for the stream byte (`p2p/tcp_transport.go:131-147`, `chord_handler.go:317-324`).
- For the same coincidence a deleted file can still be fetched: `Placement.FetchFindsIff`. An empty file is refused by a
  remote owner (`chord_handler.go:338-340`) although the storing node reports success; its owner can store it.
- A node that has just joined has no fingers and answers every lookup with its successor (`Lookup.NoFingerExactIff`).
- The comments on the finger start speak of 2^(i-1) while the code adds 2^i; the model follows the code.
- A mesh node without a part sends nothing (`mesh_handler.go:25-27`), and the fetching node reads from it without a
  deadline (`mesh.go:120`): a fetch waits for ever as soon as another node has no part. `Spread.SucceedsIff` says exactly
  when a fetch succeeds and when it waits. A peer that announces a stream and ends it is read as an empty part numbered 0:
  AES rejects it; with ChaCha20 or no encryption it makes an otherwise complete fetch fail (`Mesh.FetchSound`).
- A fetch cannot tell parts left by an earlier store of the same file from current ones, and the last reply of a number
  wins. The nodes that get a part of a later store overwrite theirs; the others may spoil a fetch. `Spread.AlwaysBringsIff`
  and `Spread.HolderAlwaysIff` say exactly which records of theirs leave every fetch right, whatever the order of the
  replies, `Spread.NeverWrongIff` when no order brings a wrong file, and `Spread.EarlierStoreIff` what that means after
  an earlier store for another number of nodes. `Spread.StalePartWins` is half a file returned for the whole.
- AES decryption takes its vector from a single read. `AesStream.EncryptThenDecrypt` shows that the message comes back
  exactly when that read delivers all 16 bytes without reporting the end.

## Model

| member | source | states |
|---|---|---|
| Ring.IsBetween | chord_util.go:431-457 | the four-case test is the circular one: an open arc excludes both ends, an inclusive arc includes both, and a degenerate arc is everything or nothing |
| ChordNodes.ClosestBelow | chord_util.go:17-25 | the result is a finger strictly between the node and the ID, and it is the node itself exactly when no finger is |
| ChordNodes.ChordNode.constructor | chord.go:45-59 | a new node is its own successor, has no predecessor, no fingers and no files |
| ChordNodes.ChordNode.Create | chord.go:101-109 | founding a ring leaves the node alone with all 160 fingers on itself |
| ChordNodes.ChordNode.Join | chord.go:120-151 | a joining node takes its contact as successor, forgets its predecessor and keeps its table; joining itself founds a ring, with every finger on itself |
| ChordNodes.ChordNode.Notify | chord_util.go:181-214 | when the predecessor is replaced and by whom; a transfer starts exactly when it changes; only a lone node's successor follows; nothing else changes |
| ChordNodes.ChordNode.HandlePredecessorReply | chord_handler.go:250-279 | the successor changes exactly when the current successor names a node strictly nearer, and to that node; nothing else changes |
| ChordNodes.ChordNode.CheckPredecessor | chord_util.go:266-292 | a predecessor that can be reached stays, one that cannot is dropped, and nothing else changes |
| ChordNodes.ChordNode.ClosestPrecedingNode | chord_util.go:17-25 | the downward scan returns the finger of highest index that lies strictly between the node and the ID, and the node itself exactly when there is none |
| ChordNodes.ChordNode.FindSuccessor | chord.go:171-207 | one node's share of a lookup: it answers its successor exactly when it is alone, has the ID on its arc or has no finger before the ID at any index, and otherwise forwards to the highest such finger |
| ChordNodes.ChordNode.ChooseResponsible | chord.go:229-250 | a store's choice of node: when it is answered at once, with what, and to which finger it is forwarded otherwise |
| ChordNodes.ChordNode.SetFinger | chord_util.go:260-262 | fixing a finger writes that entry and nothing else |
| ChordNodes.ChordNode.ListTransfers | chord_util.go:338-351 | a file is listed for a transfer if and only if the node is responsible for it and it is no farther from the predecessor than the node |
| ChordNodes.ChordNode.Take | chord_handler.go:361-364 | storing adds the file to the responsibilities and changes nothing else |
| ChordNodes.ChordNode.Release | chord_handler.go:463-466 | deleting removes the file from the responsibilities and changes nothing else |
| Paths.RefineKeepsReaches | chord_handler.go:272-276 | moving a pointer to a nearer node that leads on to the old one keeps every clockwise path |
| Paths.RefineKeepsLeads | chord_handler.go:272-276 | such a move keeps whatever was reachable reachable |
| Protocol.StepChange | chord_util.go:188-207 | every step leaves the successors alone, adds a newcomer, or moves one pointer to a nearer node that leads on to the old one |
| Protocol.StepInv | chord_util.go:126-214 | every step, with any stale messages about, keeps the whole invariant |
| Protocol.ReachableInv | chord.go:101-154 | every reachable state satisfies the invariant |
| Protocol.RunKeepsLeads | chord.go:143-154 | over any run, reachability along successors is never lost |
| Steps.StepNode | chord_util.go:181-292 | every step changes at most one member, and does to the whole of it what that node's handler does |
| Steps.JoinNode | chord.go:120-154 | a member is only added by its own join; it has its contact as successor, no predecessor, no finger and no file, and answers every lookup with its contact |
| Steps.SelfJoin | chord.go:120-125 | a node that joins at its own address is alone with every finger on itself and answers itself |
| Steps.SuccExact | chord_handler.go:272-276 | in the network, a successor changes exactly to the nearer node it names, or to the first node that notifies a lone one |
| Steps.PredExact | chord_util.go:188-214 | a predecessor changes exactly by a notification from a nearer node, or is dropped by a failed check |
| Steps.FingersExact | chord_util.go:246-263 | a finger changes exactly when it is fixed |
| Steps.RespExact | chord_handler.go:361-466 | responsibility for a file changes exactly when a store or delete of it arrives or the node's own transfer of it ends |
| Steps.SpawnExact | chord_util.go:209-211 | a transfer is set going exactly when a notification changes the recorded predecessor |
| Steps.NetExact | chord_util.go:126-178 | the exact number of copies of every message after a step |
| Steps.Announced | chord_util.go:126-178 | which message each action puts on its way: a newcomer's and a round's notification, a round's request, its reply, and every store, delete and transfer |
| Steps.JobsExact | chord_util.go:338-405 | the exact transfer jobs after a step: a transfer lists each file on the arc once |
| RingShape.OneCycle | chord_handler.go:250-279 | in every reachable state the successors contain exactly one cycle, with the creator on it; every member leads to it and one round trip covers exactly 2^160 |
| RingShape.NamedNodesLeadClockwise | chord_handler.go:214-247 | recorded predecessors and nodes named by messages lead clockwise to the node they are meant for and never pass it |
| RingShape.QuiescentIsIdeal | chord_util.go:126-214 | if no stabilize round could change a pointer, each successor is the next member clockwise and predecessors are the inverse |
| RingShape.QuiescentIffIdeal | chord_util.go:126-214 | the reachable states that no round would change are exactly the ideal rings, for any number of members |
| Convergence.StepPotential | chord_util.go:188-207 | a step that admits nobody and drops no predecessor lowers the potential by at least the number of pointers it changes |
| Convergence.BoundedChanges | chord_util.go:181-207 | with k members, any run changes pointers at most 2k(k-1) times |
| Convergence.IdealRun | chord_handler.go:250-298 | an ideal ring keeps its pointers over every further run, whatever old messages arrive |
| Phases.IdleServed | chord_util.go:126-214 | in a run that changes no pointer, a member whose round was delivered, however interleaved, is settled |
| Phases.Converges | chord_util.go:126-214 | from every reachable state a run of more than 2k(k-1) phases, in each of which all members' rounds overlap in any way with each other and with anything else, ends in the ideal ring |
| Phases.CanConverge | chord_util.go:126-214 | such runs exist: from every reachable state the ideal ring can be reached |
| Lookup.ForwardIsNearer | chord.go:187-206 | a forward is strictly nearer to the ID and never is the ID's own node |
| Lookup.RouteIff | chord.go:181-206 | a node answers a lookup exactly when it is alone, has the ID on its arc, or has no finger strictly before the ID |
| Lookup.LookupOwnerIff | chord.go:171-207 | on an ideal ring with arbitrary finger tables, a lookup is right exactly when the node that answers it has the ID on its own arc |
| Lookup.LookupsExactIff | chord.go:171-207 | all lookups of an ID from other nodes are right if and only if every node without the ID on its arc has some finger, at any index, strictly before it |
| Lookup.ChainNeverRevisits | chord.go:187-206 | however tables change between hops, a lookup asks no node twice and at most as many as there are members |
| Lookup.LookupFindsOwner | chord.go:171-207 | with first fingers on the successors, a lookup returns the first member at or after the ID |
| Lookup.ChainExactIff | chord.go:171-207 | a lookup made hop by hop while tables change in any way is right exactly when the ID is on the arc of the last node asked |
| Lookup.ChainFindsOwner | chord.go:171-207 | a lookup stays exact while tables change between its hops, as long as each node asked then has its ideal successor and its first finger on it |
| Lookup.LookupExactIff | chord.go:171-207 | a lookup is exact if and only if it is not for the asking node's own ID, or that node is alone |
| Lookup.NoFingerExactIff | chord.go:193-202 | without fingers a node answers its successor, right exactly up to that successor |
| Lookup.FingerDist | chord_util.go:413-429 | the i-th finger's arc starts 2^i clockwise from the node |
| Lookup.ForwardHalves | chord_util.go:17-25 | with exact fingers a forward lowers the power-of-two band of the distance to the last member before the ID |
| Lookup.LookupHops | chord.go:171-207 | with exact fingers every lookup is forwarded at most 160 times |
| Lookup.FixFirst | chord_util.go:246-263 | fixing finger 0 writes the successor, whatever the table holds |
| Lookup.FixIsExact | chord_util.go:246-263 | once first fingers are set, every fix writes the exact entry |
| Lookup.FixesConverge | chord_util.go:246-263 | any run that fixes every first finger and then every finger, in any order, ends with exact tables |
| EndToEnd.FixRuns | chord_util.go:246-263 | from an ideal ring, fixes in any order side by side with stale messages, stabilization, stores and transfers, each looking up its arc hop by hop while that goes on, end with exact tables |
| EndToEnd.StabilizeThenFix | chord_util.go:126-263 | from every reachable state, overlapping stabilize rounds and then concurrent fixes make every lookup exact within 160 forwards |
| EndToEnd.LookupRight | chord.go:171-207 | once first fingers are set on an ideal ring, every lookup made hop by hop during a run finds the owner, whatever else happens between its hops |
| EndToEnd.CanFix | chord_util.go:246-263 | such runs exist: from every reachable state the ideal ring with exact finger tables can be reached |
| EndToEnd.FreshRing | chord.go:101-109 | a ring just created is ideal, with an exact table, and answers itself |
| Steps.InitExact | chord.go:101-109 | a created ring has one member with no predecessor, no files and every finger on itself, and nothing under way |
| Placement.TargetsOwn | chord.go:229-250 | store, fetch and delete from any node go to the owner of a file whose ID is not the node's |
| Placement.TargetsAgreeIff | chord.go:351-490 | all nodes and operations choose one node for a file unless its ID is the ID of a member with company |
| Placement.RunPlaces | chord.go:229-490 | over any stores and deletes of any files from any nodes, a file is held by exactly its owner while it is stored and by nobody otherwise; the owner refuses an empty file from another node |
| Placement.FetchFindsIff | chord.go:341-364 | fetches from all members, from their own disk or by lookup, find a file exactly when a store of it was admitted and not followed by a delete, for all runs, if and only if its ID is not the ID of a member with company |
| Delivery.RequestRight | chord.go:229-250 | in a run of the network, every store and delete of a file that is routed by the shortcut or a lookup made meanwhile goes to the file's owner |
| Delivery.ServiceRun | chord_handler.go:361-466 | with messages delayed and reordered at will and no transfer under way, none starts; only the owner ever becomes responsible, and it has the file in the end exactly when a store arrived there with no delete after it |
| Delivery.StoredAtOwner | chord.go:210-364 | without deletes the owner has a stored file or is about to receive it, and every lookup of the file leads there |
| Transfers.HandedAway | chord_util.go:343-350 | a transfer hands a file to a node farther clockwise from the file's ID |
| Transfers.StepHeld | chord_util.go:354-401 | no step loses a file whose ID is no member's ID |
| Transfers.ResponsibilityConserved | chord_util.go:338-405 | over any run a stored, undeleted file is some node's responsibility or on its way, if no member has its ID |
| Transfers.LosingRun | chord_util.go:343-400 | a file with the ID of a member that has company can be lost by transfers alone, whatever the members, in processes whose encryption type is set |
| Transfers.ConservedIff | chord_util.go:338-405 | for every set of members, no run loses a stored file if and only if its ID is not the ID of a member with company |
| Handover.FileHandedOver | chord_util.go:338-405 | once a transfer is over, whatever else went on, the node is responsible for exactly its files outside the arc, and exactly those inside were sent, to the predecessor of the start and to nobody else |
| Handover.CanHandOver | chord_util.go:338-405 | a transfer that is due can always be completed |
| AesStream.CopyStream | crypto/crypto_aes.go:23-46 | however the reader cuts its data, each byte written is the byte read XORed with the keystream byte of its own position; everything is written unless there is an error, and then a prefix |
| AesStream.EncryptAES | crypto/crypto_aes.go:63-80 | the output is the vector followed by each message byte XORed with the keystream byte of its position, and the count is 16 plus the length; a bad key writes nothing |
| AesStream.SealedZeros | crypto/crypto_aes.go:23-46 | a message of zeros is encrypted to the vector and the bare keystream |
| AesStream.OpenedBytes | crypto/crypto_aes.go:48-61 | each byte after the first read is XORed with the keystream of the vector that this read filled, padded with zeros |
| AesStream.DecryptAES | crypto/crypto_aes.go:48-61 | the output for whatever the first read delivered, and the errors of that read |
| AesStream.OpenedSealedIff | crypto/crypto_aes.go:54-57 | decryption undoes encryption exactly when the first read delivered the whole vector |
| AesStream.EncryptThenDecrypt | crypto/crypto_aes.go:23-80 | both sides report 16 plus the length and the message comes back exactly when the first read delivers the vector |
| Split.SplitFile | mesh_util.go:43-78 | no part for no nodes is an error; otherwise the loops stay in bounds and yield the n parts |
| Split.PartsBalanced | mesh_util.go:58-68 | parts differ by at most a byte and the larger ones come first |
| Split.PartsMakeWhole | mesh_util.go:70-75 | the parts in order make up the file |
| Split.CombineFile | mesh_util.go:80-95 | combining succeeds exactly when the parts are numbered from 1 without a gap, and joins them in order |
| Split.CombinedIsWhole | mesh_util.go:80-95 | the parts numbered 1 to n combine to the file |
| Split.SplitThenCombine | mesh_util.go:43-95 | splitting any file for any number of nodes and combining gives it back |
| Mesh.DecryptEncryptIff | crypto.go:23-68 | decryption undoes encryption unless no encryption type is set |
| Mesh.EncryptBytes | crypto.go:23-45 | for each encryption type, when encryption succeeds and each byte of its output |
| Mesh.DecryptBytes | crypto.go:47-68 | for each encryption type, when decryption succeeds and each byte of its output |
| Mesh.PartRecordVector | store.go:195-212 | every part is encrypted under its own vector |
| Mesh.FileServer.WriteEncrypt | store.go:195-212 | the file is kept encrypted with its name, part number and part count |
| Mesh.FileServer.HandleStoreFile | mesh_handler.go:90-113 | a peer keeps as many bytes as announced, encrypted, with the announced metadata |
| Mesh.FileServer.HandleGetFile | mesh_handler.go:22-87 | a peer answers with its part and number, and without a part gives no answer at all |
| Mesh.FileServer.StoreSplit | mesh.go:241-303 | the storing node keeps part 1, peers get the following parts in the order they are served, the rest keep what they had |
| Mesh.FileServer.GetSplit | mesh.go:84-186 | the collecting loop waits at the first peer without an answer, and otherwise computes the outcome that the theorems below are about |
| Mesh.AcceptedIff | mesh.go:160-183 | collected parts of one file are accepted exactly when they are numbered 1 to n |
| Mesh.FetchSound | mesh.go:117-185 | whatever replies of one stored file come in, a fetch returns that file or fails, and it succeeds exactly when no part is missing and no empty reply got in the way |
| Spread.SucceedsIff | mesh.go:84-186 | for arbitrary records on the nodes and any order of replies: exactly when a fetch succeeds, what it returns, and exactly when it waits for ever |
| Spread.AlwaysBringsIff | mesh.go:117-185 | after a store, with anything on the nodes that got no part: exactly when a fetch from any node brings the file and name in every order of replies |
| Spread.NeverWrongIff | mesh.go:117-185 | exactly when no order of replies makes a fetch succeed with something else |
| Spread.HolderAlwaysIff | mesh.go:117-185 | a node with a part gets the file in every order exactly when no part is missing and every other node's record is a part of this split or does not decrypt |
| Spread.SpreadFetchIff | mesh.go:84-303 | when the nodes without a part hold nothing, a fetch succeeds exactly when there are as many nodes as parts, and waits exactly when another node has no part |
| Spread.EarlierStoreIff | mesh.go:84-303 | after an earlier store for another number of nodes: exactly when every order is right and when some order is wrong, by the parts that are still about |
| Spread.SameSplitBrings | mesh.go:84-303 | parts of an earlier store for the same number of nodes do no harm |
| Spread.StalePartWins | mesh.go:147 | a file stored in two halves and then whole on one node can come back as its first half |
| Spread.StoreOver | mesh.go:241-303 | a store leaves this file's parts on the nodes it reaches, whatever they held before, and nothing new on the others |
| Spread.StoreThenGet | mesh.go:84-303 | storing at one node and fetching at any node ends as the records decide; it brings the file whenever there are as many nodes as listed, whatever any of them held before |
| Spread.StoreTwiceThenGet | mesh.go:84-303 | two stores of the same content for different numbers of nodes, then a fetch: exactly when it succeeds, and that it brings the file when the remaining old parts are the same in both splits |

## Left out

- Protocol.Next: a finger update, store request or delete request names any member instead of running a lookup inside the
  step, so that lookups interleaved with pointer changes are covered; `Lookup`, `EndToEnd` and `Delivery` say what the
  code's lookup names on a settled ring.
- Protocol.Handle: a message that hands over a file is always delivered and handled; the handler's failures, among them its
  refusal of empty files (`chord_handler.go:338-340`), are not modelled.
- Phases.Converges: a phase admits nobody and drops no predecessor; after a join or a dropped predecessor the count of
  phases starts again. That rounds keep being started and delivered is a premise.
- EndToEnd.StabilizeThenFix: every finger update in the fix runs comes from a lookup begun in the same run; updates from
  older lookups fall before it.
- Placement.RunPlaces: no transfers run meanwhile, and a store or delete takes effect before the next operation begins;
  `Delivery.ServiceRun` is about delayed ones, but does not model the refusal of empty files.
- Placement.FetchFindsIff: a node's disk is taken to hold what the node is responsible for, which transfers would change.
- Delivery.ServiceRun: the ring is settled and no predecessor changes; transfers, which move files away from their
  owner, are the subject of `Transfers`.
- Mesh.FileServer.GetSplit: stream accounting is not modelled (a connection that closes without a stream having been
  announced makes the node panic, `p2p/tcp_transport.go:24-26`).
- RingShape.Quiescent: assumes that every successor is a connected peer; a node that is not connected to its successor
  gives up its round (`chord_util.go:148-152`) and nothing repairs that.
- Where a transferred file ends up: the arc tested by a transfer is the one lookups assign to the node itself, so files do
  not move to their owner; only conservation is proved.
- Crashes and departures: there are no successor lists; only dropping a predecessor is modelled.
- Timeouts, retries and the routing of remote lookup calls: no claim that an answer arrives.
- A successor that is nil (`chord.go:175-179`): a node always has one from its construction on.
- File contents in the Chord architecture: only who is responsible is modelled.
- Mesh storage without splitting, and how nodes learn the list of nodes: the node count is given.
- Failures of the disk and of sends between mesh nodes.
- SHA-1, the block cipher, ChaCha20, gob encoding, TCP framing, paths on disk, the HTTP interface, flags and logging.
