# Models and proofs for the kernel's allocator, scheduler and network code

Five parts of the kernel under `source/kernel` are modelled here, each in the form the C code has, and properties that span their functions are proved.

**Buddy allocator** (`BuddyTree`, `BuddyOps`, `BuddyRuns`, `BuddyMemory`, `BuddyLists`, `BuddyAgreement`, `BuddyHeap`, `BuddyFree`, `BuddyReturn`, `BuddyDamage`, `BuddyGuard`, `BuddyLinkedRuns`, `BuddyListedRuns`, `BuddyFailingRuns`, `BuddyAllocator`).
A 128K block is a binary tree (`BuddyTree`), and `kalloc` and `kfree` are operations on trees (`BuddyOps`): carving a free leaf, releasing the leaves in the first n pages of the topmost block at an address, joining free halves. `BuddyRuns` proves what every run of them keeps. `BuddyMemory` and `BuddyLists` say when an array of header nodes holds a tree and when the links form doubly linked lists; `BuddyAgreement`, `BuddyHeap` and `BuddyFree` prove that the writes keep trees, header and lists in step. `BuddyReturn` and `BuddyDamage` say exactly when `kfree` keeps the free lists complete and when it keeps them well formed, and `BuddyGuard` tells the latter from the state before the call. `BuddyLinkedRuns` and `BuddyListedRuns` say what that means for live allocations and for whole runs on trees and lists together; `BuddyFailingRuns` holds two short runs from a fresh heap in which it goes wrong. `BuddyAllocator` is the imperative code on arrays, proved against all of this. Addresses and sizes are counted in pages; a slot is an index into the header array, and the null pointer is -1.

**Scheduler and sleep queue** (`DeltaTimes`, `Scheduling`, `SleepResponse`, `SchedulerCode`).
`DeltaTimes` shows that the queue of differences stands for a stable list of wakeup times, and holds the linked queue. `Scheduling` is the transition system whose steps are task creation, the insertion in `sleep`, the software interrupt at its end, the clock tick and the start of the scheduler; clock ticks may come between insertion and interrupt. `SleepResponse` bounds how long a sleeping task waits, from below and from above. `SchedulerCode` is the code on linked queues and flags; each method is proved to be one step of the transition system.

**TCP client** (`TcpMachine`, `TcpTurns`, `TcpProgress`, `TcpSocket`, `FifoQueue`).
`TcpMachine` interleaves application, transmit poller and receive sorter statement by statement on one socket, against a peer whose segments arrive in any order and any number of times. `TcpTurns` shows what an undisturbed turn of the poller or sorter amounts to, `TcpProgress` what such turns achieve, and `TcpSocket` proves the code's functions against it, including the frames the poller emits. `FifoQueue` is the linked message queue.

**Checksum and frames** (`NetBytes`, `Checksum`, `Frames`, `Subnets`, `FrameCode`).
The Internet checksum against its standard; the bytes of Ethernet frames with TCP segments, their decoding and the receiver's checks; and the code that writes and reads them in packet buffers.

**DHCP** (`Dhcp`, `DhcpCode`).
The walk over a message's options, the messages the client writes, and the client itself.

Assumptions: `kalloc` is called with 1 to 32 pages while a suitable block is free, and `kfree` with an address where a block starts, in a heap whose body is 128K aligned (`RootFoundIff` says the search depends on exactly this); the page of the task queue is zeroed, since its pointers are never initialised (`source/kernel/scheduler.c:106`); the peer's sequence numbers do not wrap through zero, and its FIN carries no data; the first segment of the peer follows the SYN. Writes through a null list head land in memory outside the header and are modelled as no writes. Interrupt-protected sections are single steps. Received messages, the ARP cache and the interface are parameters.

Where code and comments disagree the code is modelled. The comment at `source/kernel/memory.c:513` says freed children are put on the free lists; the guards below it skip a child with null links, as every child just freed has, and push a linked child a second time. So `kfree` does not always keep free lists and trees in agreement, and the exact conditions are proved. They stay in agreement if and only if the block found at the address holds no other allocation and its buddy is not free, unless the whole 128K become free (`LiveFreeAgreesIff`): otherwise a freed or joined block is on no list. `kalloc(1)`, `kalloc(1)`, `kfree` of the first page is a run that ends the agreement (`LostPage`); while it lasts, `kfree(kalloc(n), n)` keeps it for every n (`GiveBackIsClean`). The lists stay well formed if and only if no child is pushed (`FreeSoundIff`): a list with a second push does not recover within the same `kfree`; of later calls nothing is said. Whether a child will be pushed can be told from the lists and the tree before the call (`PushesNothingIff`). As long as none is, the head of every list below the maximal blocks is a free block of its size (`SafeRunListed`); `TwiceFound` is a run of seven calls in which one is pushed and `kalloc` then finds the same block a second time, after it was handed out.

## Model

| member | source | states |
|---|---|---|
| BuddyTree.AllFreeIsOneLeaf | source/kernel/memory.c:398-455 | a tree without two free buddies whose pages are all free is a single free leaf |
| BuddyTree.SlotsNeverCollide | source/kernel/memory.c:269-273 | different paths from a block lead to different header slots, with the left child in the next slot and the right child as many slots on as the block has pages |
| BuddyTree.EverySlotHasAPath | source/kernel/memory.c:168-169 | each of the 2s-1 slots of a block of s pages is used by some node, so 63 slots per 128K are needed and enough |
| BuddyTree.SlotsInside | source/kernel/memory.c:269-273 | the slots of a node's subtree lie inside those of the tree |
| BuddyOps.CarvePages | source/kernel/memory.c:253-323 | splitting for n pages allocates exactly the first n pages, in leaves that do not straddle the border |
| BuddyOps.TakePages | source/kernel/memory.c:198-333 | kalloc turns precisely the n returned pages from free to allocated, tiles them by leaves of their own, and leaves the leaves of all other allocated pages alone |
| BuddyOps.TopSlotIsTopmost | source/kernel/memory.c:356-365 | kfree's search ends at the topmost node whose block starts at the address, although several nodes may start there |
| BuddyOps.MergePages | source/kernel/memory.c:462-540 | merge_bnode(bn, limit) frees exactly the pages of leaves that start in the first limit pages |
| BuddyOps.CoalescePages | source/kernel/memory.c:398-455 | merge_bnode_nolimit changes no page's state, and no page's extent when it is allocated |
| BuddyOps.CoalescedIsFixed | source/kernel/memory.c:398-455 | a tree without two free buddies is left as it is |
| BuddyOps.FreePages | source/kernel/memory.c:340-390 | the tree part of kfree frees exactly the leaves in the topmost block at the address that start in its first n pages, and no other |
| BuddyOps.MergeUndoesCarve | source/kernel/memory.c:253-323 | merging with limit n makes a block carved for n pages one free leaf again |
| BuddyOps.ReleaseUndoesTake | source/kernel/memory.c:356-368 | the same at any place in a tree: search and merge give back the tree before kalloc |
| BuddyOps.FreeUndoesTake | source/kernel/memory.c:198-390 | kfree(kalloc(n), n) restores a tree without two free buddies exactly, for every n and every free leaf kalloc may pick, addresses shared by several ancestors included |
| BuddyRuns.BlockFound | source/kernel/memory.c:356-365 | in every reachable state the search for a live allocation's address ends at a node that starts there and is at least as large as the allocation |
| BuddyRuns.BlockFreed | source/kernel/memory.c:367-368 | giving a live allocation back frees exactly its pages |
| BuddyRuns.StepKeepsInv | source/kernel/memory.c:198-390 | a kalloc that takes some free leaf, whichever it is, and kfree keep the heap invariant |
| BuddyRuns.EveryRunKeepsInv | source/kernel/memory.c:198-390 | in every state of every run in which each kalloc takes some free leaf, as it does while its list head is one (SafeRunListed), live allocations are pairwise disjoint, each is tiled exactly by allocated leaves, every other page is free, and no two buddies are free |
| BuddyRuns.EmptyHeapIsFresh | source/kernel/memory.c:198-390 | when everything was given back, every tree is again the single free leaf of memory_init |
| BuddyRuns.PagesConserved | source/kernel/memory.c:198-390 | the allocated pages are as many as the live allocations asked for, and all others are free: allocated plus free pages are always 32 per block |
| BuddyMemory.RepAt | source/kernel/memory.c:356-365 | a header that holds a tree holds each subtree in that subtree's slots |
| BuddyMemory.RepReplace | source/kernel/memory.c:267-323 | writing another tree into the slots of a subtree, and nothing else, replaces the subtree |
| BuddyMemory.SplitRep | source/kernel/memory.c:253-323 | the split loop's writes turn an allocated leaf's slots into the carved tree and stay inside them |
| BuddyLists.UnlinkGuard | source/kernel/memory.c:419-437 | the link-or-head test before unlinking holds if and only if the node is on its list |
| BuddyLists.UnlinkFromList | source/kernel/memory.c:419-437 | unlinking takes exactly that node off an acyclic doubly linked list |
| BuddyLists.PushOnList | source/kernel/memory.c:299-301 | pushing a node with null links puts it in front of the list |
| BuddyLists.PopFromList | source/kernel/memory.c:246-251 | kalloc takes the first node off its list and clears its links |
| BuddyLists.RepushKeepsListIff | source/kernel/memory.c:513-525 | after merge_bnode's guarded push of a child, its list is well formed and holds the child exactly if that is free, if and only if the child is not free or was alone on its list before |
| BuddyLists.RelinkedBlockComesBack | source/kernel/memory.c:516-525 | after a linked node is pushed again, popping the nodes that stood before it brings it to the head a second time |
| BuddyAgreement.SplitSound | source/kernel/memory.c:267-323 | the split loop lists exactly the leaves it gives back |
| BuddyAgreement.CoalesceSound | source/kernel/memory.c:398-455 | merge_bnode_nolimit takes exactly the joined leaves off their lists |
| BuddyAgreement.ReplaceSound | source/kernel/memory.c:253-323 | list changes inside one block keep the agreement of the whole tree |
| BuddyHeap.AllocHeaderHolds | source/kernel/memory.c:242-323 | after kalloc the header holds the trees with the pages taken |
| BuddyHeap.AllocLinksSound | source/kernel/memory.c:242-323 | after kalloc the free lists are those of the new trees, completely if they were complete |
| BuddyFree.MergeAnchored | source/kernel/memory.c:462-540 | whatever the lists look like, merge_bnode's list code only writes to links of known nodes |
| BuddyFree.CoalesceAnchored | source/kernel/memory.c:398-455 | the same for merge_bnode_nolimit |
| BuddyFree.OneNewLeaf | source/kernel/memory.c:367-371 | freeing one leaf in a tree without two free buddies makes exactly one new free leaf, in the freed slot if and only if that is still a node |
| BuddyFree.FreeLeafSound | source/kernel/memory.c:370-386 | freeing a single leaf keeps every list acyclic, doubly linked and made of free leaves of its size; complete lists stay complete if and only if the leaf was not joined or the whole 128K became free |
| BuddyReturn.ListsAreUnique | source/kernel/memory.c:37-38 | links and heads determine the lists: there is no other choice of lists under which they would agree with the trees |
| BuddyReturn.MergeSound | source/kernel/memory.c:462-540 | while the guard of its push fails, merge_bnode takes exactly the leaves that disappear off their lists, and the leaves it frees get on no list |
| BuddyReturn.MergeSettled | source/kernel/memory.c:462-540 | whatever it pushes, merge_bnode writes to listed nodes only, so it never lists a leaf that it frees |
| BuddyReturn.FreeSound | source/kernel/memory.c:340-390 | a kfree in which the guard of the push fails throughout, such as one that frees the whole block it finds, keeps the lists sound |
| BuddyReturn.FreeAgreesIff | source/kernel/memory.c:340-390 | from agreeing lists and trees, kfree of an allocated page, for every size, leads to agreeing ones if and only if it frees the whole block it finds and that block stays a node of its own or the whole 128K became free |
| BuddyDamage.MergeDamaged | source/kernel/memory.c:462-540 | a list whose head has a predecessor is not repaired by anything else merge_bnode does |
| BuddyDamage.FreeSoundIff | source/kernel/memory.c:340-390 | from sound lists, the lists after kfree are acyclic, doubly linked lists of free leaves of their size if and only if merge_bnode pushed no child |
| BuddyGuard.PushesNothingIff | source/kernel/memory.c:462-540 | from sound lists, kfree pushes a child if and only if, before the call, some node it visits and does not join has a child that ends up free, that was on its list already, and whose list holds another node that the call has not unlinked by then |
| BuddyGuard.KeepsListsIff | source/kernel/memory.c:340-390 | so the lists after a kfree are well formed lists of free leaves of their size exactly when there is no such child |
| BuddyLinkedRuns.FreesWholeIff | source/kernel/memory.c:356-368 | kfree of a live allocation frees the whole block it finds if and only if that block holds no other allocation |
| BuddyLinkedRuns.LiveFreeAgreesIff | source/kernel/memory.c:340-390 | for a live allocation, kfree keeps lists and trees in agreement if and only if the block found at the address holds no other allocation, and its buddy is not free unless the whole 128K hold no other allocation |
| BuddyLinkedRuns.TopIffRight | source/kernel/memory.c:356-365 | the search for a node's address ends at that node if and only if it is a right half or a maximal block |
| BuddyLinkedRuns.GiveBackIff | source/kernel/memory.c:198-390 | kfree(kalloc(n), n) restores the tree, and keeps lists and trees in agreement if and only if the leaf kalloc took was a right half or a maximal block |
| BuddyLinkedRuns.LinkedStepIff | source/kernel/memory.c:198-390 | on trees and lists together, a call keeps agreement, live allocations in order and free leaves at right halves if and only if it is a kalloc or a kfree that meets the condition |
| BuddyLinkedRuns.CleanRunAgrees | source/kernel/memory.c:156-390 | in every run from memory_init lists and trees agree in every state up to the first kfree that does not meet the condition, and do not agree in the state right after that call |
| BuddyLinkedRuns.GiveBackIsClean | source/kernel/memory.c:198-390 | in every state of such a run, what kalloc hands out can be given back at once: that kfree meets the condition and restores all trees, for every size |
| BuddyListedRuns.ListedHeadsFree | source/kernel/memory.c:220-240 | while the lists are well formed, complete or not, the first node of every list of blocks below 128K is a free leaf of the list's size |
| BuddyListedRuns.ListedStepIff | source/kernel/memory.c:198-390 | a call keeps the lists well formed if and only if it is a kalloc or a kfree that pushes no child |
| BuddyListedRuns.SafeRunListed | source/kernel/memory.c:156-390 | in every run from memory_init the lists are well formed and the head of every list of blocks below 128K is a free leaf of its size in each state up to the first kfree that pushes a child, and the lists are not well formed in the state right after that call |
| BuddyFailingRuns.LostPage | source/kernel/memory.c:198-390 | kalloc(1), kalloc(1) and kfree of the first page from a fresh heap: the page is free in the tree and on no list |
| BuddyFailingRuns.TwiceFound | source/kernel/memory.c:198-390 | kalloc(1), kalloc(1), kalloc(8), kalloc(8), kfree of the third and of the first from a fresh heap: the free block of eight pages is pushed again, no well formed lists are left, popping it brings it back to the head, and after the next kalloc(8) the head of the list is the block just handed out |
| BuddyAllocator.SmearRoundsUp | source/kernel/memory.c:200-208 | the bit smearing rounds up to the smallest power of two, for every 32-bit count up to 2^31 |
| BuddyAllocator.SmearIsBlockSize | source/kernel/memory.c:200-218 | for 1 to 32 pages it is the size of the smallest block that is large enough |
| BuddyAllocator.RootFoundIff | source/kernel/memory.c:350-354 | the search for the 128K block of any heap address ends if and only if the heap body is 128K aligned |
| BuddyAllocator.Allocator.constructor | source/kernel/memory.c:156-187 | memory_init builds free maximal blocks, their list and empty smaller lists: the initial state of the machine on trees and lists, in full agreement with the header |
| BuddyAllocator.Allocator.FindBlock | source/kernel/memory.c:200-240 | the search returns the first node of the first non-empty list of a sufficient size, which is a free leaf, or, if the lists of smaller blocks are empty, the first maximal block that is free |
| BuddyAllocator.Allocator.SplitBlock | source/kernel/memory.c:253-323 | the loop with its halving counters writes the header and links of the recursive split |
| BuddyAllocator.Allocator.KAlloc | source/kernel/memory.c:198-333 | kalloc returns the first page of a free leaf, of the first maximal block that is free when no smaller block suffices, is a kalloc step of the machine on trees and lists, and keeps trees, header and free lists in agreement |
| BuddyAllocator.Allocator.UnlinkNode | source/kernel/memory.c:489-507 | the in-place unlinking is the list operation |
| BuddyAllocator.Allocator.RepushNode | source/kernel/memory.c:514-525 | the guarded push as written, faulty guard included |
| BuddyAllocator.Allocator.MergeBnode | source/kernel/memory.c:462-540 | the recursive procedure frees and joins as the tree operation says, inside the block's slots, for lists in any shape |
| BuddyAllocator.Allocator.MergeBnodeNolimit | source/kernel/memory.c:398-455 | the recursive procedure joins free halves as the tree operation says and marks the dropped nodes |
| BuddyAllocator.Allocator.FindRoot | source/kernel/memory.c:348-354 | the walk along the maximal blocks ends at the block that holds the address |
| BuddyAllocator.Allocator.FindTop | source/kernel/memory.c:356-365 | the walk down the tree ends at the topmost node at the address |
| BuddyAllocator.Allocator.KFree | source/kernel/memory.c:340-390 | for lists in any shape whose links lead to nodes, kfree is a kfree step of the machine on trees and lists, and keeps the header in step with the trees; lists that were sound stay sound exactly under the condition of FreeSoundIff, and complete ones agree with the trees exactly under that of FreeAgreesIff |
| DeltaTimes.InsertKeepsTimes | source/kernel/time.c:51-70 | insertion keeps every wakeup time, gives the new entry n, and puts it behind all that are not later |
| DeltaTimes.TickLowersTimes | source/kernel/time.c:162-164 | a tick brings every wakeup time that is not reached one nearer |
| DeltaTimes.ExpiredAreDue | source/kernel/scheduler.c:422-434 | what is taken off the front is exactly what is due, and the other times stay |
| DeltaTimes.DeltaQueue.Enqueue | source/kernel/time.c:45-70 | the walk and the relinking insert as the list function does, with no difference below zero |
| DeltaTimes.DeltaQueue.Advance | source/kernel/time.c:162-164 | the walk past zero entries lowers one difference |
| DeltaTimes.DeltaQueue.Dequeue | source/kernel/scheduler.c:431-433 | the first entry goes, the others stay |
| Scheduling.SelectAgrees | source/kernel/scheduler.c:402-419 | choosing never picks a blocking entry and loses only blocking ones from the queue |
| Scheduling.SelectTakesFirst | source/kernel/scheduler.c:402-419 | the first queued task that is not blocking runs next and goes to the back of the queue, and the idle task runs only if every queued task is blocking |
| Scheduling.DrainAppends | source/kernel/scheduler.c:421-434 | who is due leaves the sleep queue and goes behind all queued tasks, earlier sleepers first, unless it is still queued |
| Scheduling.ScheduleAgrees | source/kernel/scheduler.c:395-446 | the scheduler keeps queue, flags and sleep queue in agreement |
| Scheduling.StepKeepsInv | source/kernel/scheduler.c:303-446 | every step keeps the invariant, clock ticks between sleep's insertion and its interrupt included |
| Scheduling.EveryRunKeepsInv | source/kernel/time.c:38-101 | in every reachable state the queue has no repetitions, the queue flag tells membership, a non-idle task is blocking exactly if it has a sleep queue entry, never two, and every other one is queued: none is lost |
| SleepResponse.DrainWakesDue | source/kernel/scheduler.c:421-434 | a sleeper is woken if and only if it is due |
| SleepResponse.StaysAsleep | source/kernel/time.c:38-101 | in every run a blocking task stays blocking as long as fewer ticks than its remaining time were handled, and the remaining time goes down by exactly those |
| SleepResponse.SleepsLongEnough | source/kernel/time.c:38-101 | a task that calls sleep(n) is blocking in every state before the n-th tick, whatever the others do, and is not running once it has raised its interrupt |
| SleepResponse.SliceIsExact | source/kernel/time.s:26-43 | in every run the ticks of a slice are counted off whoever runs, only the interrupt of sleep switches tasks within it, the tick that uses it up calls the scheduler, and the next slice has two ticks |
| SleepResponse.WokenInTime | source/kernel/time.s:26-43 | in every run with enough ticks a sleeper is woken within its time plus one slice, by a scheduler call that picked someone else |
| SleepResponse.SelectAdvances | source/kernel/scheduler.c:402-412 | each choice brings a ready entry that was not picked at least one place forward |
| SleepResponse.ChosenWithinCalls | source/kernel/scheduler.c:402-434 | a ready entry at queue index k is picked within k+1 scheduler calls |
| SleepResponse.RunsInTime | source/kernel/time.s:26-43 | a ready entry at index k runs within the current slice plus k slices of clock ticks |
| SleepResponse.SleepIsBounded | source/kernel/time.c:38-101 | a task that calls sleep(n) is woken within n+2 handled ticks and runs again within n+2(N+1), N being the number of non-idle tasks at wakeup, in every run |
| SchedulerCode.TaskQueue.Push | source/kernel/scheduler.c:357-387 | the new element becomes the last of the linked queue and the flag is set |
| SchedulerCode.TaskQueue.Pop | source/kernel/scheduler.c:303-350 | the first element goes and its flag is cleared; an empty queue gives null |
| SchedulerCode.Kernel.constructor | source/kernel/scheduler.c:71-116 | initialisation establishes the initial state of the transition system |
| SchedulerCode.Kernel.Scheduler | source/kernel/scheduler.c:395-446 | the two loops compute the choice and the draining of the transition system |
| SchedulerCode.Kernel.TaskCreate | source/kernel/scheduler.c:164-224 | task creation is the creation step |
| SchedulerCode.Kernel.SleepInsert | source/kernel/time.c:38-89 | sleep up to its interrupt is the sleep step: the current task is blocking and its wakeup time, the given number of ticks, is in the sorted list of wakeup times, behind those that are not later |
| SchedulerCode.Kernel.InterruptBlocking | source/kernel/time.s:82-136 | the software interrupt is the yield step; the slice counter is not reset |
| SchedulerCode.Kernel.InterruptFunctionPit | source/kernel/time.c:156-170 | the slice counter stops at zero and one difference goes down |
| SchedulerCode.Kernel.InterruptPit | source/kernel/time.s:7-80 | the clock interrupt is the tick step: slice test after the tick, then scheduler, reset and switch |
| TcpMachine.ReceiveStep | source/kernel/networking.c:417-469 | every statement of the sorter keeps the taken bytes a beginning of the peer's stream, counted by the acknowledgement number |
| TcpMachine.TransmitStep | source/kernel/networking.c:219-311 | every statement of the poller keeps messages, segments and sequence numbers in account |
| TcpMachine.StepKeepsInv | source/kernel/networking.c:104-494 | every statement of application, poller and sorter keeps the invariant |
| TcpMachine.ReceiveSafety | source/kernel/networking.c:417-469 | under loss, duplication and reordering the bytes kread returned and will return are a beginning of the peer's stream, exactly once and in order; between segments the acknowledgement number is the peer's first number + 1 + their count (+ 1 after FIN, when they are the whole stream) |
| TcpMachine.ConsumedIs | source/kernel/networking.c:239-282 | the numbers used by segments are SYNs plus bytes plus FINs |
| TcpMachine.SendAccounting | source/kernel/networking.c:222-286 | messages sent, in hand and queued are those given to kwrite, in order; each segment's number, and the socket's, counts the SYNs, bytes and FINs sent before, modulo 2^32; the poller never pops an empty queue |
| TcpMachine.ConnectedMeansHandshake | source/kernel/socket.c:112-142 | kconnect can return E_OK only when exactly one SYN was sent and the peer's SYN-ACK was taken, for every interleaving |
| TcpTurns.PollTurnIs | source/kernel/networking.c:219-311 | the poller's statements, run without interruption, send at most one segment and change the socket as one function of its state |
| TcpTurns.SortTurnIs | source/kernel/networking.c:417-469 | the same for the sorter and one segment |
| TcpTurns.CloseTurnIs | source/kernel/socket.c:250-253 | kclose's loop ends exactly when the status is S_OPEN, and the poller's next turn then sends one FIN with the number of everything sent before |
| TcpTurns.QueueIsSent | source/kernel/networking.c:266-286 | left undisturbed after kwrite, the poller sends every queued message, one a turn, in order |
| TcpProgress.InOrderAnswered | source/kernel/networking.c:417-469 | in an established connection with status S_OPEN or S_WRITE, data that arrives in order joins the queue of kread, a FIN is counted, and the poller's next turn sends one acknowledgement that counts it |
| TcpProgress.StreamIsDelivered | source/kernel/networking.c:417-469 | if the peer sends what is left of its stream in chunks, in order and undisturbed, the whole stream comes to wait for kread, and each chunk is acknowledged by one segment |
| TcpProgress.HandshakeCompletes | source/kernel/socket.c:114-142 | from a fresh socket kconnect, a turn of the poller, the peer's SYN-ACK and another turn of the poller send exactly a SYN and the acknowledgement, establish the connection and end kconnect's wait loop |
| TcpProgress.WrittenIsSent | source/kernel/networking.c:266-286 | left undisturbed after a call of kwrite, the poller sends every message queued before it and then this one, so that all that was ever written is sent, in numbered segments |
| TcpSocket.Socket.KConnect | source/kernel/socket.c:70-178 | TCP needs an address, UDP one unless it broadcasts, other protocols fail; success starts from zero numbers and empty queues, for TCP with the handshake asked for; failure changes nothing |
| TcpSocket.Socket.KWrite | source/kernel/socket.c:182-209 | a copy of the message goes to the end of the queue and the status becomes S_WRITE |
| TcpSocket.Socket.KRead | source/kernel/socket.c:211-236 | a turn of the wait loop ends it exactly if a message is queued, and otherwise changes nothing; then the first message is copied out and removed, and nothing behind it in the buffer changes |
| TcpSocket.Socket.TxPoll | source/kernel/networking.c:219-311 | a turn of the poller is the function of PollTurnIs; it sends a frame with flags SYN, FIN and ACK, PSH and ACK with the first message, or ACK, as the status says, to the next hop and the peer's address and port, with every field at its place, and the frame decodes to the segment |
| TcpSocket.SeenAsSent | source/kernel/tcp.h:7-10 | a receiver that makes the sorter's tests of the flags sees a SYN, a FIN, data or a bare acknowledgement exactly when that was sent, with the numbers and bytes sent |
| TcpSocket.Socket.RxSort | source/kernel/networking.c:417-469 | the sorter's tests of the flags bits lead to the function of SortTurnIs; while the status is open, data in order is queued and counted, a FIN in order and the SYN-ACK are counted, an ACK in order opens the connection, and once the SYN-ACK is taken a segment out of order changes nothing; the message is kept exactly if it was queued |
| FifoQueue.Queue.Pop | source/kernel/queue.c:9-27 | the first value is returned and removed; head and tail are null exactly when nothing is left |
| FifoQueue.Queue.Push | source/kernel/queue.c:29-48 | the value becomes the last one |
| NetBytes.Swap16 | source/kernel/netswap.h:8-15 | a swapped and stored word is in network order, and swapping what is loaded gives it back |
| NetBytes.Swap32 | source/kernel/netswap.h:17-25 | the same for 32 bits |
| NetBytes.NetIsNumber | source/kernel/netswap.h:8-25 | the stored bytes are the number with its most significant byte first |
| NetBytes.SwapReads | source/kernel/netswap.h:8-25 | loading two or four bytes and swapping reads the number that they stand for in network order |
| Checksum.NetChecksumAcc | source/kernel/checksum.c:15-31 | the loop adds the little-endian words, an odd last byte included, modulo 2^32 |
| Checksum.NetChecksumFinal | source/kernel/checksum.c:33-41 | two folds, complement and swap, without overflow |
| Checksum.NetChecksum | source/kernel/checksum.c:8-13 | the result is the checksum of section 2(B) of RFC 1071 if and only if the sum of the words fits 32 bits, which up to 65537 words it always does |
| Checksum.FoldTwice | source/kernel/checksum.c:35-36 | two folds are enough for every 32-bit sum |
| Checksum.OnesSumIsSwapped | source/kernel/checksum.c:15-41 | the standard's big-endian ones' complement sum is the folded little-endian sum with its bytes swapped, 0 and 0xFFFF kept apart |
| Checksum.ChecksumIsRfc | source/kernel/checksum.c:8-41 | for every byte string the code's value is the standard's exactly if no carry out of 32 bits is lost |
| Checksum.SumBound | source/kernel/checksum.c:17-23 | 65537 words cannot overflow |
| Checksum.CheckedSum | source/kernel/checksum.c:8-13 | bytes that carry their own checksum at an even offset sum up to 0xFFFF |
| Frames.DecodeOfFrame | source/kernel/ethernet.c:49-83 | decoding a built frame, padded or not, gives the segment's ports, numbers, flags and payload back, cut to their fields |
| Frames.FrameFields | source/kernel/tcp.c:44-66 | every field of a frame at its byte: target and source hardware address, type, the IPv4 header's fields, ports, numbers, header length, flags, window and payload, in network order |
| Frames.DecodeReads | source/kernel/ethernet.c:49-83 | for every frame, built by this code or not: which of TCP, UDP and ARP it is by its type and protocol bytes, and a segment's ports, numbers, flags and payload from their bytes, up to the total length of the IPv4 header |
| Frames.Ipv4HeaderChecks | source/kernel/ipv4.c:43-53 | every IPv4 header sent folds to 0xFFFF, as section 3.1 of RFC 791 demands |
| Frames.SegmentChecksIff | source/kernel/tcp.c:58-66 | a segment passes the receiver's check of section 3.1 of RFC 9293 if and only if the sender has an address, or the target is zero, or the target is a multiple of 0xFFFF; kconnect refuses TCP without an address, so a TCP client does not meet the failing case |
| Frames.FrameChecksIff | source/kernel/tcp.c:58-66 | on the bytes of the frame: the IPv4 header sums up to 0xFFFF, and the segment with the pseudo header made from the frame's own addresses does exactly under the condition of SegmentChecksIff |
| FrameCode.WriteTcp | source/kernel/tcp.c:44-66 | header below the payload, pseudo-header below the header, and the checksum over both and the payload |
| FrameCode.WriteIpv4 | source/kernel/ipv4.c:31-53 | the header with its checksum; without an address the source field keeps the bytes that were there |
| FrameCode.WriteEther | source/kernel/ethernet.c:21-47 | the frame header; an unknown hop keeps the target field |
| FrameCode.Packet.TcpReq | source/kernel/tcp.c:44-72 | the three calls together make the packet the specified frame around its old payload, with every field at its place, and touch nothing else in the buffer; it goes to everyone if the target is zero, to the target's hardware address on the subnet of the DHCP server, else to that server's, and the field keeps its bytes if the address is not cached |
| Subnets.SubnetIsPrefix | source/kernel/ipv4.c:58 | under a mask of ones followed by k zeros the comparison holds exactly if the two addresses agree in all bits above the k lowest |
| Subnets.BitAndBits | source/kernel/ipv4.c:58 | a bit of the conjunction is set exactly if it is set in both numbers |
| FrameCode.DecodeTcp | source/kernel/tcp.c:74-102 | payload copied and fields swapped back |
| FrameCode.DecodeEther | source/kernel/ethernet.c:49-83 | the dispatch by type and protocol agrees with the decoding of whole frames, rejections included |
| Dhcp.WalkSeesExactly | source/kernel/dhcp_client.c:64-85 | the walk stays in the buffer and sees a list of options if and only if the bytes carry that list, followed by 255 |
| Dhcp.WalkFindsLast | source/kernel/dhcp_client.c:61-87 | for every list of options followed by 255 the walk ends and remembers the last value of each recorded code, and that some message type says offer |
| Dhcp.WalkAckFinds | source/kernel/dhcp_client.c:121-136 | the second walk finds an acknowledgement exactly if the list has one |
| Dhcp.PadsRead | source/kernel/dhcp_client.c:64-85 | the walk comes to the option behind n pad options if and only if n is even, and then reads on as if they were not there; if n is odd it takes that option's code for a length and goes on that many bytes behind it |
| Dhcp.RequestReadBack | source/kernel/dhcp.c:31-79 | the messages of dhcp_req, read back by the walk, give message type, requested address and server |
| Dhcp.RequestFields | source/kernel/dhcp.c:15-85 | every byte of the messages of dhcp_req: fixed header, transaction number, offered address, hardware address, magic number, and the options of a discovery and of a request |
| DhcpCode.Client.DhcpReq | source/kernel/dhcp.c:15-85 | header, magic number, options and end marker are written as specified, the length is theirs, and the transaction number advances |
| DhcpCode.ReadOffer | source/kernel/dhcp_client.c:53-87 | a page that does not begin with 2 or lacks the bytes 99, 130, 83, 99 before its options offers nothing; otherwise, for every list of options the page carries, the loop finds an offer exactly if one says message type 2, and the last server, name server and mask |
| DhcpCode.ReadAck | source/kernel/dhcp_client.c:117-136 | the same for the second loop: an acknowledgement is found exactly in a reply with an option that says message type 5 |
| DhcpCode.Client.DhcpClient | source/kernel/dhcp_client.c:14-160 | for pages that carry lists of options, the client succeeds if and only if both arrive, are replies with the magic number, and say offer and acknowledgement; then the interface has the offered address, server, name server and mask, and otherwise it is unchanged; the messages sent are the discovery and, after an offer, the request for it |

## Left out

- `memory_init`'s scan of the memory map and the sizing of the header area (`source/kernel/memory.c:117-147`): the number of blocks and the body's first page are parameters.
- BuddyAllocator.Allocator.FindBlock: heaps in which an earlier `kfree` damaged a list, which FreeSoundIff and PushesNothingIff say exactly when it does; on such a list the code may find a block twice (TwiceFound, RelinkedBlockComesBack).
- BuddyAllocator.Allocator.KAlloc: the same heaps. A header node's links are kept in an array of their own, and its `sidedness` and `padding` fields, which nothing reads, are not modelled.
- FrameCode.DecodeEther: the decoders for UDP and ARP are not part of this model; only that the frame goes to them.
- FrameCode.Packet.TcpReq: payloads up to 65515 bytes, the limit of the length field; packet pages are smaller.
- TcpMachine.ReceiveSafety: one socket and one peer; the code's receive branch does not compare ports, so nothing is said about several connections.
- TcpSocket.Socket.KConnect: the wait for the ARP lookup before the handshake, which touches nothing of the socket, and the wait loop after it.
- TcpSocket.Socket.KRead: the sleeping between two turns of its wait loop, and buffers too small for the message, which the code would write past.
- TcpSocket.Socket.KWrite: messages up to the 4096 bytes that the code copies; longer ones would be read past their copy.
- TcpSocket.Socket.TxPoll: messages up to 3840 bytes, what fits the packet's page behind the room for headers; longer ones would be written past it.
- TCP retransmission and flushing on close, and so liveness over a network that loses segments: the code does none of these.
- UDP messages, the ARP cache and its packets.
- DhcpCode.Client.DhcpClient: the walks are required to end inside the page, as they do for the lists of WalkFindsLast; the code has no bound of its own.
- DhcpCode.ReadOffer: the same requirement on its walk.
- DhcpCode.ReadAck: the same requirement on its walk.
- SchedulerCode.Kernel.TaskCreate: stacks, process frames and socket lists.
- SchedulerCode.Kernel.InterruptPit: saved registers and stack pointers; only who becomes current.
- The total tick counter and the unused count-down of `source/kernel/time.c:158-160`.
- Serial logging, display, keyboard, PCI, storage, network card rings, interrupt controller and boot code: hardware access.
