# Banking system: a verified model

This project models a small banking system written in C++: a client that sends requests over TCP, a server that
hands them to one database worker, the accounts and ledgers that the worker keeps and saves, the pages that show
them, and the container library underneath. It states what each of these parts promises and proves it for all inputs,
all runs and all interleavings. `dafny verify dfyconfig.toml` checks the whole project.

## What is modelled, and how

The files come in layers; each names its module after the part of the system it models.

| files | part of the system |
|---|---|
| `Trees`, `Layout`, `Fixups`, `RedBlackTrees` | the red-black tree (`libs/base/rbtree.hpp`) |
| `Bytes`, `Sha256` | byte orders and machine arithmetic; the streaming SHA-256 (`libs/base/sha256.hpp`) |
| `Sha256Laws`, `Sha256Example` | the constants and functions of the standard in its own terms, and its known answer |
| `Fields`, `Texts` | padded fields, the order of names, decimal numbers and lines of text |
| `Bank`, `Ledgers`, `Money`, `Operations` | records and the operations of the bank (`server/Database.cpp`) |
| `Storage`, `FileLayout`, `Database`, `Persistence` | files, the database manager with its queue, and what survives restarts |
| `Protocol`, `Requests`, `Network`, `Peers` | packets, requests and replies (`libs/network`, `server/Server.cpp`, `app/client/Client.cpp`) |
| `History`, `Rows` | the printed history, its parser, the dashboard and the history page (`app/pages`) |
| `Rings`, `Lists` | the list with its merge sort (`libs/base/list.hpp`) |
| `Sequences`, `Orders`, `Quicksort` | what several modules say of sequences; comparators and `base::sort` (`libs/base/algorithm.hpp`) |
| `Buckets`, `HashTables`, `Floats` | the chained hash table (`libs/base/hash_table.hpp`) and the rounding of its load factor |

**Linked structures** are classes whose nodes are updated field by field, as in the source. A snapshot turns the
fields of a set of nodes into a value, and lemmas about such values (`Layout`, `Rings`, `Buckets`) say what a few
writes do to a tree, a ring or a chain. For the tree the value is an algebraic tree seen from one of its nodes: the
subtree there and the context around it. The header of a tree is its sentinel, and the sentinel's parent field is the
root; every contract takes that aliasing into account.

**Plain terms.** A step function, an encoder or a table can be wrong in the same way as the code proved against it. So
what they compute is also stated without them: `Operations` says of every operation after any run when it is accepted
and what it changes, `FileLayout` where every field stands in the files, `Requests` what is made of every payload,
`Rows` what the page says after an operation, and `Sha256Laws` and `Sha256Example` what the hash is made of. These
lemmas are in literal bytes and numbers.

**The bank** is a step function on a map from names to accounts. `DbManager.ProcessItem` is proved to do what that
function says to every field, with the source's casts and in-place updates; runs, conservation, double entry and the
replay of ledgers are lemmas about runs of the function. Integers are unbounded in Dafny, so the 64-bit types are
written out: unsigned arithmetic is modulo 2^64. The source also negates and adds signed 64-bit numbers, which C++
leaves undefined on overflow; the model wraps there as machines do. `Database.MachineExact` says exactly when a step
does not come to that, and `Money.NothingWraps` that no step does while the money put in is bounded.

**The network** is a state machine over the steps of clients, sessions, timer and worker. Each step of a connection is
a function that the methods of the two ends are proved to follow (`Peers.Link`), and the results about the system hold
in every interleaving of those steps.

**Outside the model's control** are: the clock and the random salt, which every operation takes as inputs; the
scheduling of clients, sessions, timer and worker, which a run may interleave in any way; the byte order of the host,
which is a parameter of every conversion; the contents of the text log files; the hash function of the table and all
comparators, which are arbitrary functions (comparators: arbitrary strict weak orders).

## What turned out to be conditional

Some properties one would expect hold only under a condition. Each is proved in both directions.

* Money is conserved unless a balance goes past 2^64 (`Money.ConservedIff`); two accepted deposits can do that
  (`Money.WrapHappens`).
* The balance in a ledger entry follows from the entry before it except where an account transfers to itself: both of
  its entries hold the final balance (`Money.LedgerChain`, and `Money.ChainBreaks` for a run with a broken link).
* The history printed by the server is parsed correctly by the client exactly when no counterparty has a `|` or a
  newline in its name (`History.HistoryRoundTrip`). The check on new names lets both pass
  (`History.SpoilersAreAccepted`), and from an empty database there is a run for each whose history fails
  (`History.HistoryBreaks`).
* The dashboard shows the balance of the server exactly when the last line of the printed history has it where the
  parser looks, or else what comes before it happens to show that number (`History.DashboardBalance`,
  `History.BalanceSeen`); with one bar in the last counterparty's name it
  shows the amount in its place (`History.DashboardFails`).
* The server understands a request as the client meant it exactly when the names in it hold no colon
  (`Protocol.RequestRoundTrip`).
* The client is told what the database answered exactly when it did not ask to toggle an account that does not exist:
  the server reports every toggle as done (`Protocol.AnswerRoundTrip`, `Network.RequestAnswered`; for a run whose
  handler is misled, `Network.ToggleIsReported`).
* The hash table has at most one node for a bucket, all along a run, exactly when every insertion of a new key finds
  fewer nodes than buckets or a load factor, a `float`, that shows that there are not
  (`HashTables.OneForABucketIff`). Up to 2^24 nodes that is always so (`HashTables.OneForABucket`), and with one node
  more it may not be (`HashTables.MoreThanBuckets`).
* A frame survives the wire exactly when its payload is shorter than 2^32 bytes (`Protocol.FrameRoundTrip`).
* What is saved loads again exactly when every name fits its field (`Storage.SaveLoad`); the check on new names
  guarantees that (`Storage.GoodIsStorable`).
* The list's merge sort reverses equivalent elements (`Lists.TiesReversed`), so it is stable exactly when there are no
  two of them (`Lists.StableIff`); two nodes with one value change places (`Lists.Unstable`).

The documentation of the list speaks of constant-time splicing; the splice of a block walks the block to count it, and
the model follows the code.

## Model

| member | source | states |
|---|---|---|
| `RedBlackTrees.RedBlackTree.constructor` | libs/base/rbtree.hpp:210-215 | a new tree is valid and empty, its header black and its own sentinel |
| `RedBlackTrees.RedBlackTree.Insert` | libs/base/rbtree.hpp:643-671 | for every strict weak order and valid tree: valid again; the new node stands at its place among the old nodes, which keep their order; with an equivalent value present nothing changes and that node comes back; its place is found in at most 2 log2(n+1) turns |
| `RedBlackTrees.RedBlackTree.InsertFixup` | libs/base/rbtree.hpp:251-288 | from a tree that is red-black but for one red node, to a red-black tree with the same nodes in the same order; terminates |
| `Fixups.LeafFits` | libs/base/rbtree.hpp:657-667 | a new red leaf breaks no more than the fixup allows for |
| `Fixups.RecolouredTooRed` | libs/base/rbtree.hpp:255-259 | with a red uncle the one fault moves two levels up |
| `Fixups.OuterTurned` | libs/base/rbtree.hpp:265-267 | with a black uncle and an outer grandchild one rotation removes the fault |
| `Fixups.InnerTurned` | libs/base/rbtree.hpp:261-264 | an inner grandchild becomes an outer one, the fault stays one |
| `Fixups.RootBlackened` | libs/base/rbtree.hpp:287 | a black parent, or a blackened root, means red-black |
| `RedBlackTrees.RedBlackTree.LeftRotate` | libs/base/rbtree.hpp:218-232 | the memory holds the rotated subtree at the same place, all parent links right, order of the nodes unchanged |
| `RedBlackTrees.RedBlackTree.RightRotate` | libs/base/rbtree.hpp:234-248 | the mirror image of the left rotation |
| `RedBlackTrees.RedBlackTree.Transplant` | libs/base/rbtree.hpp:293-302 | the only child takes the node's place, the sentinel's parent field being the root and nothing else |
| `RedBlackTrees.RedBlackTree.EraseFixup` | libs/base/rbtree.hpp:307-364 | from a tree one black short at x, which may be the sentinel, to a red-black tree with the same nodes in order; terminates |
| `RedBlackTrees.RedBlackTree.EraseStepLeft` | libs/base/rbtree.hpp:310-334 | one turn of the loop on a left child keeps the invariant: done, or the short subtree is one level higher |
| `RedBlackTrees.RedBlackTree.EraseStepRight` | libs/base/rbtree.hpp:335-360 | one turn of the loop on a right child keeps the invariant |
| `Fixups.SiblingTurned` | libs/base/rbtree.hpp:312-317 | a red sibling turned over: still one black short, now with a black sibling and a red parent |
| `Fixups.SiblingPainted` | libs/base/rbtree.hpp:318-321 | a black sibling without red children painted red: the short subtree is the parent's |
| `Fixups.NearTurned` | libs/base/rbtree.hpp:323-328 | a red near child becomes a red far child |
| `Fixups.FarTurned` | libs/base/rbtree.hpp:329-333 | with a red far child one rotation ends the shortage |
| `Fixups.Repaired` | libs/base/rbtree.hpp:362-363 | at the root, or at a red node painted black, nothing is missing |
| `RedBlackTrees.RedBlackTree.EraseNode` | libs/base/rbtree.hpp:420-460 | any node of any valid tree: valid again, exactly that node gone from the sequence of nodes, the rest as they were |
| `RedBlackTrees.RedBlackTree.LiftMinimum` | libs/base/rbtree.hpp:435-451 | the least node of the right subtree takes the place and colour of the erased node, in both shapes the source distinguishes |
| `Fixups.SingleRemoved` | libs/base/rbtree.hpp:426-433 | taking out a node with one child or none leaves the tree one black short exactly when the node was black |
| `Fixups.MinimumRemoved` | libs/base/rbtree.hpp:435-455 | so does moving the successor up, by the colour the successor had |
| `RedBlackTrees.RedBlackTree.UpdateExtremes` | libs/base/rbtree.hpp:174-183 | the header's outer links are the first and the last node, or itself |
| `RedBlackTrees.RedBlackTree.Find` | libs/base/rbtree.hpp:366-377 | an equivalent node of the tree, or the header and then no node is equivalent; at most 2 log2(n+1) turns |
| `RedBlackTrees.RedBlackTree.LowerBound` | libs/base/rbtree.hpp:379-391 | the first node not less than the probe: all before it are less, none from it on is; at most 2 log2(n+1) turns |
| `RedBlackTrees.RedBlackTree.UpperBound` | libs/base/rbtree.hpp:393-405 | the first node greater than the probe: none before it is greater, all from it on are; at most 2 log2(n+1) turns |
| `RedBlackTrees.LowerBoundIsLeast` | libs/base/rbtree.hpp:379-391 | so the lower bound is the least element not less than the probe, and the elements less than it are exactly those before |
| `RedBlackTrees.UpperBoundIsLeast` | libs/base/rbtree.hpp:393-405 | the upper bound is the least greater element, and the elements equivalent to the probe are exactly those between the bounds |
| `Trees.HeightIsLogarithmic` | libs/base/rbtree.hpp:366-405 | every red-black tree of n nodes has height at most 2 log2(n+1) |
| `Trees.FewTurns` | libs/base/rbtree.hpp:366-405 | so whatever takes no more turns than the tree is high takes at most 2 log2(n+1) of them |
| `RedBlackTrees.RedBlackTree.Successor` | libs/base/rbtree.hpp:407-418 | the next node in the sequence of nodes, the header after the last |
| `RedBlackTrees.RedBlackTree.Predecessor` | libs/base/rbtree.hpp:101-123 | the previous node in the sequence; from the end, the last |
| `RedBlackTrees.RedBlackTree.WalkForward` | libs/base/rbtree.hpp:77-93 | from begin by ++ every node is visited once, in increasing order, up to the header |
| `RedBlackTrees.RedBlackTree.WalkBackward` | libs/base/rbtree.hpp:101-123 | from end by -- the same sequence is retraced |
| `RedBlackTrees.RedBlackTree.NoRepeats` | libs/base/rbtree.hpp:77-93 | no node stands twice in the sequence and the header is not in it |
| `RedBlackTrees.RedBlackTree.EraseAt` | libs/base/rbtree.hpp:689-697 | returns the node that was next before erasing, also when that node has been moved into the erased one's place |
| `RedBlackTrees.RedBlackTree.EraseValue` | libs/base/rbtree.hpp:706-712 | erases the one equivalent node and says 1, or finds none and says 0 and changes nothing |
| `RedBlackTrees.RedBlackTree.RelinkNil` | libs/base/rbtree.hpp:462-475 | every link of a subtree to one sentinel becomes a link to the other; no other link changes |
| `RedBlackTrees.RedBlackTree.Swap` | libs/base/rbtree.hpp:714-752 | each tree is valid against its own header with the other's nodes, size and order; no node links to the other's header; also when one or both are empty |
| `Sha256.Hasher.ProcessBlock` | libs/base/sha256.hpp:151-196 | the state after a block is the compression function of section 6.2.2 of FIPS 180-4 on the state before |
| `Sha256.Hasher.ExpandBlock` | libs/base/sha256.hpp:152-164 | the message schedule, loaded in network order on hosts of either byte order |
| `Sha256.Hasher.Step` | libs/base/sha256.hpp:175-186 | one round, although the source adds the terms in another order |
| `Sha256.Hasher.Ingest` | libs/base/sha256.hpp:81-94 | the hasher stands for everything ingested so far followed by the new bytes |
| `Sha256.Hasher.Pad` | libs/base/sha256.hpp:100-119 | the state has taken in exactly the padded message of section 5.1.1, with an extra block when fewer than 9 bytes are free |
| `Sha256.Hasher.Finalize` | libs/base/sha256.hpp:100-131 | the digest of the standard of all that was ingested |
| `Sha256.Hasher.HashPieces` | libs/base/sha256.hpp:81-137 | however a message is cut into pieces, its digest is the same and is that of the standard |
| `Sha256Spec.ZerosUnique` | libs/base/sha256.hpp:102-110 | the number of zero bytes is the only one that the standard's congruence allows |
| `Sha256.LowBits` | libs/base/sha256.hpp:113-117 | a 64-bit byte count, even a wrapped one, gives the low 64 bits of the length in bits |
| `Sha256Laws.PrimesInOrder` | libs/base/sha256.hpp:51-62 | the table used for the next two rows lists the first 64 primes in order |
| `Sha256Laws.CubeRoots` | libs/base/sha256.hpp:51-62 | section 4.2.2: each constant is the first 32 bits of the fractional part of the cube root of its prime |
| `Sha256Laws.SquareRoots` | libs/base/sha256.hpp:67-76 | section 5.3.3: and the initial value is made likewise of square roots |
| `Sha256Laws.ChBits` | libs/base/sha256.hpp:27-29 | bit by bit: the first word chooses between the other two |
| `Sha256Laws.MajBits` | libs/base/sha256.hpp:31-33 | bit by bit: the majority |
| `Sha256Laws.Sum0Bits` | libs/base/sha256.hpp:35-37 | bit by bit: the sum of the bits 2, 13 and 22 places up, counted round |
| `Sha256Laws.Sum1Bits` | libs/base/sha256.hpp:39-41 | the same with 6, 11 and 25 |
| `Sha256Laws.Mix0Bits` | libs/base/sha256.hpp:43-45 | with 7 and 18, and 3 not counted round |
| `Sha256Laws.Mix1Bits` | libs/base/sha256.hpp:47-49 | with 17 and 19, and 10 not counted round |
| `Sha256Example.DigestOfABC` | libs/base/sha256.hpp:100-196 | the known answer of the standard: the digest of "abc" in 32 literal bytes |
| `Bytes.StoredBigEndian` | server/Database.cpp:15-20 | whatever the host, a converted number is stored most significant byte first |
| `Bytes.LoadedBigEndian` | server/Database.cpp:22-27 | and is read back as that number |
| `Fields.FieldRoundTrip` | server/Database.cpp:29-38 | a string comes back from a NUL-padded field if and only if it is shorter than the field and holds no NUL |
| `Fields.ListsUnique` | server/Database.cpp:152-178 | a set of names has only one increasing list, the order in which the map is walked |
| `Bank.VerifiesHashed` | server/Database.cpp:57-80 | a password verifies against what was stored for another one if and only if both hash alike under the same salt |
| `Ledgers.StepGood` | server/Database.cpp:245-470 | every operation keeps all names safe, all log names and ledger fields as derived from them, and all counterparties existing accounts |
| `Ledgers.RunGood` | server/Database.cpp:245-470 | so does every run |
| `Ledgers.StepFrame` | server/Database.cpp:252-470 | an operation touches no account but the ones it names, and only the creation of an account adds a name |
| `Ledgers.LedgersGrow` | server/Database.cpp:299-423 | ledgers are append-only over every run |
| `Ledgers.BooksAgree` | server/Database.cpp:379-427 | double entry: in every run, for every a and b, also a = b, what a booked as sent to b is, entry by entry with amounts and times, what b booked as received from a |
| `Ledgers.AuthAnswers` | server/Database.cpp:252-328 | in every run: a login succeeds if and only if the account exists, has been toggled an even number of times, and the password hashes like the one last accepted for it |
| `Operations.ExistsIff` | server/Database.cpp:279-314 | after any run an account exists if and only if it was once asked for under a name of 1 to 23 bytes without a slash, backslash, NUL or two dots in a row |
| `Operations.TransferAnswered` | server/Database.cpp:379-427 | after any run a transfer succeeds if and only if both accounts exist, both have been toggled an even number of times, and the sender has the amount; refused, nothing changes; accepted, the two balances move by it, each account gets its entry, and nothing else changes |
| `Operations.ChangeAnswered` | server/Database.cpp:336-378 | the same of deposits and withdrawals |
| `Operations.CreateAnswered` | server/Database.cpp:279-314 | when an account is opened, and that it starts with 100000, unlocked, with one entry, its log name, and the digest of salt, colon and password |
| `Operations.PasswordAnswered` | server/Database.cpp:266-278 | a password is changed if and only if the account exists, and then nothing else |
| `Operations.ToggleAnswered` | server/Database.cpp:315-328 | an account is toggled if and only if it exists, and then nothing else happens |
| `Operations.FrozenWhileLocked` | server/Database.cpp:336-427 | while an account has been toggled an odd number of times, its balance and ledger stay as they are |
| `Operations.BalanceAnswered` | server/Database.cpp:329-335 | the balance asked for is the signed sum of the ledger, short of 2^64 for each time it went past, and 0 without an account |
| `Operations.SearchAnswered` | server/Database.cpp:447-460 | a search gives every name with the prefix, once, in order, found again by cutting the text at its bars, if the names hold none |
| `Money.Conservation` | server/Database.cpp:287-391 | over every run the balances sum to 100000 per account created plus deposits minus withdrawals, minus 2^64 for each time a balance went past it |
| `Money.ConservedIff` | server/Database.cpp:361-391 | the plain law holds if and only if that never happened |
| `Money.WrapHappens` | server/Database.cpp:361-362 | it can happen: two accepted deposits of 2^63 - 1 |
| `Money.NothingWraps` | server/Database.cpp:349-391 | while less than 2^63 is put in, every balance stays below 2^63 before, during and after the run, and no cast, negation, sum or difference of a step leaves its type unless it changes a balance by -2^63 |
| `Money.LedgerReplay` | server/Database.cpp:299-423 | in every run each balance is the signed sum of its ledger, short of 2^64 for each time it went past, and is the balance in its last entry |
| `Money.ExactReplay` | server/Database.cpp:299-423 | with bounded money the signed sum is the balance |
| `Money.LedgerChain` | server/Database.cpp:364-423 | in every run an entry's balance follows from the one before it by its amount if and only if it does not book a non-zero transfer to oneself |
| `Money.ChainBreaks` | server/Database.cpp:379-427 | there is such a run: after an account has sent itself a positive amount, neither of the two entries follows from the one before |
| `Storage.SaveLoad` | server/Database.cpp:114-178 | for all accounts and any former disk: what is saved loads again unchanged if and only if every name and log name fits its field |
| `Storage.GoodIsStorable` | server/Database.cpp:48-54 | the check on new names makes every reachable state storable |
| `Storage.EntryRoundTrip` | server/Database.cpp:169-176 | a ledger entry comes back from its 73 bytes |
| `Storage.PathsDiffer` | server/Database.cpp:165-166 | no two accounts share a ledger file, and none is the main file |
| `Storage.OtherFilesStay` | server/Database.cpp:147-178 | saving leaves all other files alone |
| `FileLayout.SavedEntry` | server/Database.cpp:163-177 | entry i of an account stands in data/NAME.txn at 73 i, its fields at 0, 24, 48, 56, 64 and 72, numbers most significant byte first |
| `FileLayout.SavedRecord` | server/Database.cpp:147-161 | record i, in the order of the names, stands in data.db at 113 i, its fields at 0, 24, 72, 80 and 112 |
| `FileLayout.LoadedEntries` | server/Database.cpp:130-144 | of any disk: a loaded ledger is what stands in its file at those places, a partial entry at the end not read |
| `FileLayout.LoadedRecords` | server/Database.cpp:114-129 | of any disk: the accounts are the names that stand in data.db, each with the fields of its last record |
| `FileLayout.EightBytes` | server/Database.cpp:15-27 | eight bytes give a number, the most significant first |
| `Database.DbManager.constructor` | server/Database.cpp:92-99 | starts clean, with what the disk holds |
| `Database.DbManager.Load` | server/Database.cpp:114-145 | the accounts decoded from the files, ledgers included |
| `Database.DbManager.Save` | server/Database.cpp:147-178 | the files encoded from the accounts, the rest of the disk unchanged |
| `Database.DbManager.ProcessItem` | server/Database.cpp:245-470 | every kind of item does to all fields what the step function says and posts the callback with its answer |
| `Database.DbManager.OnAuth` | server/Database.cpp:252-265 | the same for a login; nothing but the reply changes |
| `Database.DbManager.OnChangePassword` | server/Database.cpp:266-278 | the same for a new password |
| `Database.DbManager.OnCreateAccount` | server/Database.cpp:279-314 | the same for a new account with its first entry |
| `Database.DbManager.OnToggleAccount` | server/Database.cpp:315-328 | the same for locking and unlocking |
| `Database.DbManager.OnGetBalance` | server/Database.cpp:329-335 | the same for a balance query |
| `Database.DbManager.OnChangeBalance` | server/Database.cpp:336-378 | the same for deposits and withdrawals, computed with the source's casts |
| `Database.DbManager.OnTransfer` | server/Database.cpp:379-427 | the same for transfers, computed in place with the two accounts possibly one |
| `Database.DbManager.OnGetTransactions` | server/Database.cpp:428-446 | the same for the printed history |
| `Database.DbManager.OnSearchUsers` | server/Database.cpp:447-460 | the same for the name search, names in increasing order |
| `Database.DbManager.OnSaveTimer` | server/Database.cpp:472-486 | a save is enqueued and the timer set again; after an error neither |
| `Database.DbManager.Push` | server/Database.cpp:180-243 | enqueues an item at the back, as all public operations do |
| `Database.DbManager.Turn` | server/Database.cpp:488-502 | takes the front item and processes it; stops exactly when the queue is empty and the manager no longer runs |
| `Database.DbManager.Destroy` | server/Database.cpp:101-112 | the worker empties the queue, whatever is in it, then everything is saved; at the end the queue is empty and neither worker nor timer runs |
| `Database.MachineExact` | server/Database.cpp:349-391 | every cast, negation, sum and difference computed for an operation keeps its value if and only if the bounds of `Money.Exact` hold |
| `Persistence.QueueIsFifo` | server/Database.cpp:472-502 | in every run the items taken out followed by those in the queue are the items put in, in order |
| `Persistence.TimerTicks` | server/Database.cpp:472-486 | in every run the timer is set until it fails or the manager stops; up to then every tick puts a save into the queue, after that none does |
| `Persistence.RunsTheQueue` | server/Database.cpp:245-502 | in every run the accounts are those of the bank run over the items taken out, and the callbacks were posted in that order with its answers |
| `Persistence.CleanIsSaved` | server/Database.cpp:461-466 | in every run a manager that is not dirty has everything on disk |
| `Persistence.SaveCleans` | server/Database.cpp:461-466 | a save leaves the manager clean with its data on disk and posts nothing |
| `Persistence.Durable` | server/Database.cpp:461-502 | so killing it then loses nothing of what has been processed |
| `Persistence.DrainedIsRun` | server/Database.cpp:101-112 | the destructor's wait for the worker is as many more turns of the same run |
| `Persistence.ShutdownKeepsAll` | server/Database.cpp:101-112 | whatever has happened: after the destructor the queue is empty, the items done are all items ever enqueued, in order, the disk holds what they give, and all replies have been posted |
| `Persistence.RestartsAreInvisible` | server/Database.cpp:92-178 | any number of sessions, each ended by the destructor, is as one run that was never interrupted, over everything that was ever enqueued |
| `Persistence.BooksSurvive` | server/Database.cpp:92-178 | double entry holds over any number of restarts from an empty disk |
| `Lists.List.Split` | libs/base/list.hpp:172-183 | cuts a chain after its first half, the longer one if they differ |
| `Lists.List.SortedMerge` | libs/base/list.hpp:186-214 | the chain of the merged nodes, although its first node is left pointing back at a node that is gone |
| `Lists.List.SortChain` | libs/base/list.hpp:228-236 | the chain of the sorted nodes, ended by the head |
| `Lists.List.Sort` | libs/base/list.hpp:860-868 | the same nodes, sorted, in one ring that is consistent both ways; terminates |
| `Lists.SortSorts` | libs/base/list.hpp:186-236 | for every strict weak order the result is sorted |
| `Lists.SortPermutes` | libs/base/list.hpp:186-236 | and a permutation of the nodes |
| `Lists.TiesReversed` | libs/base/list.hpp:192-202 | not a stable sort: equivalent values come out in exactly the reverse of the order they had |
| `Lists.StableIff` | libs/base/list.hpp:192-202 | the sort is stable for a value if and only if no two nodes are equivalent to it |
| `Lists.Unstable` | libs/base/list.hpp:192-202 | two nodes with the same value change places |
| `Lists.List.Reverse` | libs/base/list.hpp:751-760 | the nodes in reverse order, in a consistent ring |
| `Lists.List.Splice` | libs/base/list.hpp:903-925 | a block of another list, or of the same one, moved before a position outside it: all rings whole, all sizes right |
| `Rings.RingsSpliced` | libs/base/list.hpp:158-163 | three links redirected turn two rings into two rings |
| `Rings.RingExchanged` | libs/base/list.hpp:158-163 | and redirected within one ring they exchange two stretches that lie side by side |
| `Lists.List.CloseRing` | libs/base/list.hpp:863-866 | the sorted chain hooked to the head, its tail found by walking |
| `Quicksort.Sort` | libs/base/algorithm.hpp:47-82 | for every length and strict weak order: in bounds, terminating, the range sorted and a permutation, the rest of the array untouched |
| `Quicksort.Partition` | libs/base/algorithm.hpp:63-76 | both scans stay in bounds; what is left of f is not above the pivot, what is right of l not below it, and neither part is the whole range |
| `Quicksort.InsertionSort` | libs/base/algorithm.hpp:53-60 | a short range sorted in place, a permutation |
| `Quicksort.Scanned` | libs/base/algorithm.hpp:66-72 | after the scans the two parts meet or are one apart |
| `Protocol.FrameRoundTrip` | libs/network/Packet.cpp:35-91 | a frame arrives whole, whatever follows it, if and only if its payload is shorter than 2^32 |
| `Protocol.StreamRoundTrip` | libs/network/Packet.cpp:35-91 | from a stream cut anywhere come the frames that have arrived whole, in order, and the rest is kept |
| `Protocol.RequestRoundTrip` | app/client/Client.cpp:99-223 | for every operation and all names, amounts and changes: a session makes of the client's request just that operation if and only if no name that something else follows holds a colon |
| `Protocol.AnswerRoundTrip` | app/client/Client.cpp:99-223 | what the client makes of the reply is what the database answered if and only if the request was not to toggle an account that does not exist |
| `Protocol.ToggleMisleads` | server/Server.cpp:173-177 | in an empty database a toggle is refused, and the client is told that it was done |
| `Protocol.LogTail` | server/Server.cpp:126-153 | the reply to a log request is the end of the log in whole lines, and holds its last twenty lines |
| `Requests.FrameBytes` | libs/network/Packet.cpp:35-60 | on the wire: four bytes of length, one of kind, the payload |
| `Requests.BuiltBytes` | app/client/Client.cpp:99-223 | the kind and the payload of every request, in bytes |
| `Requests.NumbersRead` | server/Server.cpp:78-116 | what a number in a payload is: blanks, a sign, digits and the rest, and when there is none |
| `Requests.WithColon` | server/Server.cpp:35-206 | the operation that a request with a colon asks for |
| `Requests.TransferWithColons` | server/Server.cpp:93-122 | and a transfer, with two |
| `Requests.WholePayload` | server/Server.cpp:70-206 | and a request of every other kind, known or not |
| `Requests.FailsIff` | server/Server.cpp:35-206 | for each kind: a request gets "FAIL" from the session if and only if it has too few colons, or no number where one belongs |
| `Requests.LogReply` | server/Server.cpp:126-153 | a log request gets the last twenty lines, or as many as there are |
| `Requests.Replies` | server/Server.cpp:43-206 | the text of every reply to an answer |
| `Requests.ToldReply` | app/client/Client.cpp:99-223 | what every kind of handler is told of a reply |
| `Requests.ToldNothing` | app/client/Client.cpp:99-223 | and without one: no, or nothing |
| `Network.ReplyMatching` | app/client/Client.cpp:54-97 | in every interleaving of clients, sessions and the worker: the k-th handler to run is that of the k-th request sent, none runs twice, and a reply handed to it is the answer to that request, of its kind: the session's own, the end of the log it names, or what the database answered to its operation; a request of unknown kind gets none |
| `Network.RequestAnswered` | app/client/Client.cpp:99-223 | from end to end: when a handler is run with a reply to a request built for an operation, the database has done that request, at the place in its log that the requests before it leave; the handler is told what was answered there if and only if it was not the toggle of an account that did not exist then |
| `Network.TruthTold` | server/Server.cpp:35-206 | for all names: a handler is told yes if and only if it got a reply to a toggle, or the database has done what the session made of just that request, and it succeeded |
| `Network.ToggleIsReported` | server/Server.cpp:173-177 | a run from an empty disk in which the toggle of an unknown account is refused by the database and reported as done to the handler |
| `Network.FailedOnce` | app/client/Client.cpp:74-85 | when receiving has failed, every request sent has had its handler run once: with its reply the ones received, with a failure all others |
| `Network.ErrorDisconnects` | app/client/Client.cpp:62-85 | a failed send or receive disconnects the client |
| `Network.StaysDisconnected` | app/client/Client.cpp:54-61 | from then on nothing is sent and every handler is refused at once, in order |
| `Network.NothingIsLost` | server/Server.cpp:24-219 | while a session lives, every request sent is answered, still on the wire, or the one being worked on; in every phase an operation is queued or its answer posted, once, exactly while the session waits, and the session waits with the kind of that request |
| `Network.CallbackFindsWaiting` | server/Server.cpp:43-46 | whenever a callback is posted, its session waits for just that answer |
| `Network.AllAnswered` | app/client/Client.cpp:54-97 | when nothing is under way on a live connection, every handler has run with the reply to its request |
| `Network.ClosedIff` | server/Server.cpp:24-219 | in every run a session has ended if and only if it has read a request of unknown kind, or a read or a write of its own has failed |
| `Network.StaysOpen` | server/Server.cpp:24-219 | a session to which only requests of known kinds are sent, and for which no read or write fails, never ends, in any run |
| `Network.ReceiveSound` | app/client/Client.cpp:86-95 | there is always a handler waiting for a reply that arrives |
| `Network.ReadsNext` | server/Server.cpp:24-33 | a session that reads has answered every request it has read before |
| `Network.CallbackSound` | server/Server.cpp:43-46 | the kind a callback was given when its request was read is the kind of the request that waits for it, and the reply goes to that request |
| `Network.ReadSound` | server/Server.cpp:24-206 | reading a request of any kind, known or not, keeps the invariant |
| `Network.StepSound` | server/Server.cpp:24-219 | every step of any part keeps the invariant of every connection |
| `Network.LogIsRun` | server/Database.cpp:488-502 | the answers that reach the sessions are those of one run of the bank over all work items in order |
| `Peers.ClientPeer.SendRequest` | app/client/Client.cpp:54-70 | queues the handler and sends, or fails the handler at once when not connected |
| `Peers.ClientPeer.OnReceived` | app/client/Client.cpp:72-97 | a reply goes to the oldest handler; an error fails all of them, oldest first |
| `Peers.Session.OnPacket` | server/Server.cpp:24-207 | each request becomes the work item, or gets the immediate reply or the last lines of the log, that its text asks for; one of unknown kind ends the session without a reply |
| `Peers.Session.ReadLog` | server/Server.cpp:139-150 | the loops over the lines give the reply to a log request |
| `Peers.Session.OnAnswer` | server/Server.cpp:43-46 | writes the reply that the answer stands for, of the kind the request was read with |
| `Peers.Link.Send` | app/client/Client.cpp:54-70 | sending a request, or failing to, is the connection's step |
| `Peers.Link.SendError` | app/client/Client.cpp:62-68 | so is a send error |
| `Peers.Link.Receive` | app/client/Client.cpp:86-96 | so is a reply received |
| `Peers.Link.ReceiveError` | app/client/Client.cpp:74-85 | so is a receive error |
| `Peers.Link.Read` | server/Server.cpp:24-207 | reading a request is the connection's step, and what it puts into the queue |
| `Peers.Link.Answer` | server/Server.cpp:43-46 | the callback's reply is the connection's step |
| `Peers.Link.Written` | server/Server.cpp:209-219 | the session reads again, or ends on an error: the connection's step |
| `History.ParseTransactionHistory` | app/pages/DashboardPage.cpp:19-128 | the parser's loops give the rows of the text, line by line |
| `History.HistoryRoundTrip` | app/pages/DashboardPage.cpp:19-128 | a printed history comes back row for row if and only if no counterparty holds a bar or a newline |
| `History.HistoryAnswer` | server/Database.cpp:428-446 | so the page shows an entry for every record asked for, as it was booked, exactly then |
| `Rows.HistoryHolds` | server/Database.cpp:428-446 | the answer holds the last entries, as many as asked for or as there are |
| `Rows.ChangeShown` | app/pages/DashboardPage.cpp:93-124 | after an accepted change the last row says "Deposit" with a plus sign, or "Withdrawal" without, the amount, the balance and the time of day |
| `Rows.TransferShown` | app/pages/DashboardPage.cpp:93-124 | after an accepted transfer the sender's last row says "Transfer Out" and the recipient, without a plus sign, and the recipient's "Transfer In" and the sender, with one |
| `Rows.OwnTransferShown` | app/pages/DashboardPage.cpp:93-124 | and after one to oneself the last row is the money received |
| `History.DashboardBalance` | app/pages/DashboardPage.cpp:146-152 | in every run, for any number of entries asked for, the dashboard shows the server's balance if and only if the number to be seen in those entries is the last one booked, which a clean counterparty guarantees |
| `History.BalanceShown` | app/pages/DashboardPage.cpp:19-128 | for any printed entries the number shown is computed from the entries and the bars and newlines of their counterparties: the fourth field of the last line that has one; it is the balance booked last if and only if that is so |
| `History.HistoryBreaks` | server/Database.cpp:48-54 | from an empty database there is a run with a bar in a name, and one with a newline, whose printed history is not parsed back |
| `History.DashboardFails` | app/pages/DashboardPage.cpp:146-152 | and for every name with one bar a run after which the dashboard shows another number than the balance |
| `History.SpoilersAreAccepted` | server/Database.cpp:48-54 | names with a bar or a newline pass the check on new names |
| `Texts.DecimalRoundTrip` | app/pages/DashboardPage.cpp:79-90 | a number printed in decimal is read back, within the range of the variable |
| `Texts.LinesJoin` | app/pages/DashboardPage.cpp:31-44 | the lines cut from a text make it up again, with a newline at the end |
| `History.ComparatorOrders` | app/pages/HistoryPage.cpp:60-75 | all four columns in both directions are strict weak orders |
| `History.StringLessIsLess` | libs/base/string.hpp:433-440 | comparing strings byte by byte and then by length is the lexicographic order |
| `History.DisplayEntries` | app/pages/HistoryPage.cpp:97-107 | the rows displayed are the matching ones, sorted by the column |
| `Rows.RowsInOrder` | app/pages/HistoryPage.cpp:60-75 | the rows stand in the order of the field that the column names |
| `Rows.KeptIff` | app/pages/HistoryPage.cpp:97-101 | a row is kept, as often as it was there, if and only if the filter stands in its operation |
| `HashTables.HashTable.Perform` | libs/base/hash_table.hpp:281-347 | over every sequence of insertions, erasures by key, clears and rehashes and for any hash function the contents are those of a finite map, the size is the number of keys, and the buckets are as many as the doubling rule gives at the default limit |
| `HashTables.LoadLaw` | libs/base/hash_table.hpp:398-401 | in every such run the load factor, as a `float`, is at most 1 |
| `HashTables.OneForABucket` | libs/base/hash_table.hpp:398-401 | so there is at most one node for a bucket while there are at most 2^24 nodes, and when there are more nodes than buckets both counts are the same `float` |
| `HashTables.InsertSuffices` | libs/base/hash_table.hpp:281-294 | after the insertion of a new key there is at most one node for a bucket if and only if there were fewer nodes than buckets, or the load, rounded, exceeds 1 |
| `HashTables.OneForABucketIff` | libs/base/hash_table.hpp:525-528 | all along a run there is at most one node for a bucket if and only if every insertion of a new key finds fewer nodes than buckets or makes them double |
| `HashTables.MoreThanBuckets` | libs/base/hash_table.hpp:525-528 | there is such a run: 2^24 + 1 insertions leave 2^24 buckets |
| `HashTables.NinthDoubles` | libs/base/hash_table.hpp:525-528 | eight new keys stay in eight buckets, the ninth makes them sixteen |
| `Floats.LoadAboveOne` | libs/base/hash_table.hpp:398-401 | the quotient of two rounded counts, rounded again, exceeds 1 if and only if the first rounded count is the greater one |
| `HashTables.HashTable.Emplace` | libs/base/hash_table.hpp:281-294 | an absent key is added, a present one keeps its value; the buckets double exactly when the load factor, in `float`, exceeds the limit; the iterator stands at the new node, or at the first node of the bucket when the key was there; after a rehash it still has its old bucket |
| `HashTables.HashTable.Erase` | libs/base/hash_table.hpp:329-347 | the key is gone and nothing else, and the count says whether it was there |
| `HashTables.HashTable.Find` | libs/base/hash_table.hpp:350-359 | the node of the key, or none and then the key is absent |
| `HashTables.HashTable.Clear` | libs/base/hash_table.hpp:275-278 | empty, with the same number of buckets |
| `HashTables.HashTable.Redistribute` | libs/base/hash_table.hpp:504-523 | the same nodes, each in the bucket of its key among the new number of buckets |
| `HashTables.HashTable.Rehash` | libs/base/hash_table.hpp:411-416 | happens exactly when the load factor, in `float`, or the number asked for calls for it, never below the default |
| `HashTables.HashTable.Advance` | libs/base/hash_table.hpp:91-100 | ++ moves to the next node in the order of the buckets, or to the end |
| `HashTables.HashTable.Begin` | libs/base/hash_table.hpp:530-539 | the first node, or the end |
| `HashTables.HashTable.Visit` | libs/base/hash_table.hpp:91-100 | a loop from begin to end meets every node exactly once |
| `Buckets.FlatAll` | libs/base/hash_table.hpp:91-100 | the buckets one after the other list every node once |
| `HashTables.StoresCount` | libs/base/hash_table.hpp:266-268 | the size is the number of keys in the map |

## Left out

- Clearing, copying and moving red-black trees, and erasing ranges: a copy inserts one by one, a range erases one by one; the move constructor leaves the header red, so it has no such contract.
- The list's other operations: `merge` of two lists does not terminate when the other list supplies the tail; insertion, removal and the other splices are single relinkings of the kind proved for the block splice.
- Erasing from the hash table by iterator, and tables that have been moved from, whose number of buckets is zero.
- Network.ReplyMatching: does not model a handler that is null, nor a client that connects again after an error.
- History.DashboardBalance: does not model a failed request, for which the page shows an error text.
- Lists.List.Splice: does not say what a block put before one of its own nodes leaves, which the container forbids.
- HashTables.HashTable.Perform: keeps the limit at its default; a changed limit is in the contracts of `Emplace` and `Rehash` only.
- Writing the text logs, directories, files that cannot be opened for writing and crashes in the middle of a save: writes are taken to succeed.
- Salt generation and collisions of SHA-256: equal digests are equal digests.
- Sockets, threads and locks: sending a packet, running a handler and processing a work item are atomic steps.
- Allocation, destruction and exceptions; a node that is erased is no longer in any contract.
- The remaining containers and wrappers of the library, and all of the user interface but the parser, the balance shown and the sorting of rows.
