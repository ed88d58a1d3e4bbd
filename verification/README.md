# tnet

tnet is an event-loop network library for Go. This project models its concurrent core in Dafny and proves what the
library relies on: the linked buffer is a byte queue and a packet queue, also under one reader and one writer that
share no lock; the write protocols lose, duplicate and strand nothing; closing a connection is safe and loses no
received byte; readers and handlers are woken; the time wheel is exact; the allocators keep their classes.

## How the project is laid out

| file | what it models |
|---|---|
| `bytes.dfy`, `chain.dfy` | streams and packets as sequences; the node chain of a buffer as a value, with what each change of a node does to them |
| `node.dfy`, `buffer.dfy` | the buffer's nodes and the buffer itself, as classes over arrays |
| `fifo.dfy` | any list of operations on a buffer against a plain byte queue, with the slices it lends |
| `sharedbuffer.dfy` | the buffer's reader and writer step by step, with `rlen` as the only publication |
| `sharedpackets.dfy` | the same for a writer that links packets and a reader that peeks, reads and skips whole ones |
| `packetqueue.dfy`, `packetsend.dfy` | batch sending of UDP packets on the buffer's packet view |
| `writetoken.dfy`, `tcpwrite.dfy`, `udpwrite.dfy` | ownership of the `writing` lock, and the two write protocols |
| `connclose.dfy` | the guarded jobs, Close, and the stream across it |
| `readpath.dfy` | handler dispatch and reader wake-ups |
| `timewheel.dfy`, `timerrefresh.dfy` | slot arithmetic and the wheel, and the lazy refresh of one timer by callers and checks at once |
| `mcache.dfy`, `desccache.dfy`, `netfd.dfy` | the two allocators and the owner of a descriptor |
| `descowners.dfy`, `descrun.dfy` | any number of threads on any number of netFDs that share a descriptor cache, as a protocol and on the objects |

The buffer is a class whose ghost field `cells` mirrors the nodes as values. Its invariant says that the cursors are
in the order head, read node, write node, tail; that nodes before the read node are read out and nodes after the
write node unwritten; that `rlen` counts the unread bytes and, unless memory was linked, `wlen` the free ones; that
every slice lent since the last release still holds its bytes; and that blocks were returned to the pool at most once,
and none that is in use.
Memory from the pools is modelled as new memory, which that last clause justifies.

The protocols are transition systems: a state, steps that are single accesses to shared state, and runs of any length
with any number of threads. Socket, kernel, user handlers and clocks are nondeterministic steps or parameters.
Whether writes are postponed, whether memory is cleaned up, and what a pool hands out are parameters too.

## Where the code does less than it promises

Each of these has a witness, a lemma or a method that builds the case, and a statement of when the promise holds.

- `SkipBlocks` with more packets than there are moves every read offset before it reports the error.
- In an empty buffer the read and the write node can differ. An operation that leaves an empty buffer empty parts them
  exactly when it moves the write node: when it prepares for copied or read bytes and the write node is full, as that
  of a new buffer is, or when it links empty slices over unwritten nodes. What holds instead is that the write node
  then has nothing written.
- A fill can offer its reader fewer bytes than it was asked for: it counts nodes, and unwritten nodes from before the
  block size was raised are smaller than it takes them for. It offers enough at every length if and only if the writable
  nodes have the room of as many nodes of the present size, or 262144 bytes.
- A direct UDP send that fails with a hard error unlocks and returns without looking at the queue. One API thread is
  enough to strand a queued packet that way; without such errors none is ever stranded.
- A refresh that finds a check of the same timer pending starts a second round. From then on the two rounds can keep
  each other going: any number of checks can follow with no further refresh, and the timer never expires. In runs in
  which no add of the timer looks at its flag while another add is under way, a refresh that finds no check pending is
  followed by at most two checks and exactly one expiry, unless it is refused.
- Adds that do overlap break both bounds with no check pending: two callers that see the timer inactive queue it twice.
  For every timeout of two intervals or more that can give three checks and two expiries, and for every timeout any
  number of checks and no expiry.
- A timer whose timeout is not a whole number of intervals can expire early, by less than an interval, and then never be
  added again: its check leaves a delay behind that refuses every later add. No add is refused if and only if the
  timeout is a whole number of intervals.
- A refresh after the decision to expire comes too late: the handler runs on a timer that was just refreshed. One that
  looked before the check and stores its begin after the decision is lost altogether.
- A wheel accepts an interval below a millisecond and then divides by zero milliseconds. From a millisecond on, delays
  are counted right if and only if the interval is a whole number of milliseconds.
- `Malloc(0)` hands out a slice of capacity one, whose `Free` puts it into the class that serves capacity two.
- `Schedule` does not look at the closed flag, and tests and sets the descriptor in separate sections. A descriptor
  stays in use that no `Close` gives back if and only if one was set on a netFD that already had one or was closed.

## Model

| member | source | states |
|---|---|---|
| BufferNode.Node.Peek | internal/buffer/node.go:82-88 | the first num unread bytes of the node, or an error and no change when it has fewer |
| BufferNode.Node.Readn | internal/buffer/node.go:90-97 | the same bytes, and the read offset moves past exactly them |
| BufferNode.Node.SetBlock | internal/buffer/node.go:118-127 | the node holds the new block, written to its end, and no longer owns memory; the read offset stays, so that the node is sound exactly when it lies within the new block |
| BufferNode.Node.Reset | internal/buffer/node.go:129-138 | the node is empty and holds no memory |
| Chain.EmptyPositions | internal/buffer/buffer.go:414-432 | in an empty buffer the read and write node coincide or the write node has nothing written (the comment in the code claims only the former) |
| LinkedBuffer.EmptyFirstFill | internal/buffer/buffer.go:614-657 | a sound empty buffer whose read and write node differ, made by a first fill whose reader fails or delivers nothing |
| LinkedBuffer.EmptyFirstWrite | internal/buffer/buffer.go:518-533 | the same by copying nothing into a buffer that was never filled |
| LinkedBuffer.Buffer.constructor | internal/buffer/buffer.go:99-113 | a new buffer satisfies the invariant: cursors in order, rlen the number of unread bytes, wlen the free bytes |
| LinkedBuffer.Buffer.Peek | internal/buffer/buffer.go:149-191 | exact error cases; the returned slice holds the first n unread bytes and is promised to keep them; it is a copy exactly when the first packet is shorter than n; nothing is consumed |
| LinkedBuffer.Buffer.Skip | internal/buffer/buffer.go:195-232 | exact error cases; removes exactly the first n unread bytes or nothing, by moving read offsets only |
| LinkedBuffer.Buffer.Next | internal/buffer/buffer.go:237-285 | exact error cases; returns and removes exactly the first n unread bytes, as a slice that keeps them and is a copy exactly when the first packet is shorter than n |
| LinkedBuffer.Buffer.PeekThenSkip | internal/buffer/buffer.go:149-285 | Peek followed by Skip meets the contract of Next word for word |
| LinkedBuffer.Buffer.Read | internal/buffer/buffer.go:288-331 | fills the caller's array with the next bytes, as many as there are and fit, removes exactly those, leaves the rest of the array alone, and ends all loans |
| LinkedBuffer.Buffer.PeekBlocks | internal/buffer/buffer.go:335-359 | lends the first packets, as many as there are places, one slice for each, in order and in the buffer's own memory, and consumes nothing; the cut at the published count acts under a concurrent writer only, see SharedBuffer.CutActs |
| LinkedBuffer.Buffer.ReadBlock | internal/buffer/buffer.go:362-378 | returns and removes exactly the first packet, in the buffer's own memory, or reports that there is none |
| LinkedBuffer.Buffer.SkipBlocks | internal/buffer/buffer.go:381-410 | removes exactly n packets; the buffer stays sound if and only if there were n packets or none at all, and otherwise has lost them with rlen unchanged |
| LinkedBuffer.SkipOneTooMany | internal/buffer/buffer.go:381-410 | skipping two packets of one leaves a buffer that has lost the packet and still counts its bytes |
| LinkedBuffer.Buffer.OptimizeMemory | internal/buffer/buffer.go:414-432 | keeps contents and packets; an empty buffer is cleaned up, or else gets the whole block of its write node back and nothing else changes; one with contents stays as it is |
| LinkedBuffer.Buffer.CleanUp | internal/buffer/buffer.go:435-446 | returns exactly the owned blocks to the pool, as a multiset in which each occurs once, and leaves a sound empty buffer of default block size |
| LinkedBuffer.Buffer.Free | internal/buffer/buffer.go:121-130 | returns exactly the owned blocks to the pool; over the life of the buffer none was returned twice; no node is left |
| LinkedBuffer.Buffer.Release | internal/buffer/buffer.go:704-725 | keeps contents and packets and ends all loans; exactly the nodes before the read node go and the blocks they own return to the pool, or all of them when an empty buffer is cleaned up; the block size grows only if sized automatically, only for a released length of at most 128 KiB, and then to the least size that covers it |
| LinkedBuffer.Buffer.GrowBlockSize | internal/buffer/buffer.go:717-722 | the block size stays 4096 times a power of two of at most 128 KiB, covers a released length of at most 128 KiB, and is the present one or the least that does |
| LinkedBuffer.Buffer.AddNode | internal/buffer/buffer.go:749-757 | adds one node of free memory at the tail; contents and older nodes stay |
| LinkedBuffer.Buffer.PrepareFill | internal/buffer/buffer.go:646-657 | afterwards the write node has room; contents stay; the write node moves, by one, exactly when it was full |
| LinkedBuffer.Buffer.CalNodesExact | internal/buffer/buffer.go:659-669 | between 1 and 65 nodes, enough for the capped request and less than one block more than enough |
| LinkedBuffer.Buffer.Malloc | internal/buffer/buffer.go:671-683 | exactly as many nodes from the write node on as asked for, or as there were, and free space grows by the new blocks |
| LinkedBuffer.Buffer.Adjust | internal/buffer/buffer.go:685-701 | makes exactly the first n free bytes readable, and free space shrinks by n |
| LinkedBuffer.Buffer.Fill | internal/buffer/buffer.go:614-637 | hands the reader nonempty, disjoint, private windows, whose number and total length are given by the nodes that were writable and those the request adds; appends exactly as much of what the reader has as fits into them; exact error cases; on a never filled buffer they hold at least the request, capped at 262144; when nothing was appended the write node has moved, by one, exactly if it was full and the buffer not over its limit |
| LinkedBuffer.Buffer.EnoughIff | internal/buffer/buffer.go:646-683 | fills of every length are offered what they ask for, up to 262144 bytes, if and only if the writable nodes have the room of as many nodes of the present block size, or 262144 bytes |
| LinkedBuffer.Buffer.EnoughRoom | internal/buffer/buffer.go:659-683 | the condition of EnoughIff holds if no node after the write node is smaller than the present block size |
| LinkedBuffer.ShortFill | internal/buffer/buffer.go:659-725 | a buffer, made by fill, skip and release, on which a fill asked for 8193 bytes offers its reader 8192 |
| LinkedBuffer.Buffer.CopyFrom | internal/buffer/buffer.go:518-545 | appends exactly a prefix of the concatenated slices: as much as the room a fill of that length would get, and at least 262144 bytes or all on a never filled buffer; when nothing was appended the write node has moved, by one, exactly if it was full |
| LinkedBuffer.Buffer.LinkFrom | internal/buffer/buffer.go:547-599 | appends all slices, and one packet for each nonempty slice, without writing to any of them; when nothing was appended the write node has moved over exactly the unwritten nodes that took a slice |
| LinkedBuffer.Buffer.Writev | internal/buffer/buffer.go:487-492 | both ways of writing append a prefix of the given bytes of the returned length; copying keeps no reference to them and linking appends all |
| LinkedBuffer.Buffer.WritevLimited | internal/buffer/buffer.go:496-516 | refuses exactly what would pass a positive limit, changes nothing then, and never lets the contents pass the limit |
| Fifo.Apply | internal/buffer/buffer.go:149-516 | one operation, copying, lending, limited or on packets, answers and acts as on the plain sequence of unread bytes; it promises the slices it returns, and only Read, Release and OptimizeMemory end promises; if it leaves an empty buffer empty, read and write node coincide afterwards if and only if it cleaned up, or they did before and it did not move the write node |
| Fifo.Run | internal/buffer/buffer.go:99-725 | every list of operations on a new buffer is answered as by an empty byte queue, with all intermediate queues; a fill takes all its reader has that fits the room it offers; and every slice returned since the last operation that ends loans still shows its bytes, in memory not returned to the pool |
| SharedBuffer.InvKept | internal/buffer/buffer.go:335-757 | every single step of reader or writer, reads of a byte count and block peeks alike, keeps the cursor order, the stream, the counters and the limit |
| SharedBuffer.ReadsPublished | internal/buffer/buffer.go:685-701 | over every interleaving, a read of n bytes that finishes has exactly the next n bytes of the stream, all published |
| SharedBuffer.PeeksPublished | internal/buffer/buffer.go:335-359 | over every interleaving, a block peek has gathered the next bytes of the stream, all published, and the block it takes next ends within the published bytes too |
| SharedBuffer.CutActs | internal/buffer/buffer.go:350-354 | a run in which the node being peeked holds more than is published, and the cut ends the block exactly at the published count |
| SharedBuffer.DeliversPrefix | internal/buffer/buffer.go:288-331 | over every interleaving, consuming reads deliver the stream in order, each byte once, never beyond what is published |
| SharedBuffer.Accounts | internal/buffer/buffer.go:237-331 | over every interleaving, a reader wants what the step that began it asked for, the stream is what the writer's steps put below write offsets, and finished consuming reads have returned its first bytes, as many as their steps asked for |
| SharedBuffer.ReadAlone | internal/buffer/buffer.go:149-331 | from every reachable state, a read or peek of n counted bytes runs to its end by its own steps and has got exactly the next n bytes when it ends; only a consuming one delivers them and takes them off rlen |
| SharedBuffer.PeekBlocksAlone | internal/buffer/buffer.go:335-359 | from every reachable state, PeekBlocks runs to its end by its own steps, changes nothing, and has got the next published bytes when it ends, all of them unless its places run out |
| SharedBuffer.LinkAlone | internal/buffer/buffer.go:547-599 | a link write that nobody interrupts publishes exactly its bytes and changes nothing else |
| SharedBuffer.CopyAlone | internal/buffer/buffer.go:518-545 | a copying write into a new node does the same |
| SharedBuffer.FreeAlone | internal/buffer/buffer.go:704-714 | a release that nobody interrupts frees exactly the nodes before the read node |
| SharedBuffer.OptimizeAlone | internal/buffer/buffer.go:414-446 | with nothing unread, the write node gets its whole block back, or a clean-up frees every node and leaves one |
| SharedBuffer.MoreAhead | internal/buffer/buffer.go:248-284 | a reader that wants more and has read its node out is before the write node |
| SharedBuffer.ReaderBehindWriter | internal/buffer/buffer.go:237-285 | rnode and the walking reader never pass wnode, and the walk never falls off the chain |
| SharedBuffer.WriterLeaves | internal/buffer/buffer.go:518-757 | no step of the writer changes a read offset, a written byte or a node before the write node, and no write offset falls: what a reader has looked at stays true |
| SharedBuffer.FreedIsFree | internal/buffer/buffer.go:704-725 | no step touches a freed node, and freeing takes none that a writer or reader can still touch |
| SharedBuffer.WithinLimit | internal/buffer/buffer.go:496-516 | with limited writes only, rlen never exceeds the limit under a concurrent reader |
| SharedPackets.InvKept | internal/buffer/buffer.go:335-599 | with a writer that only links and a reader that only handles blocks, every step keeps cursors, counts and the queue of packets |
| SharedPackets.Boundary | internal/buffer/buffer.go:547-599 | over every interleaving, the published count ends at the end of a packet: it is the length of whole linked packets not yet taken |
| SharedPackets.PeeksPublishedPackets | internal/buffer/buffer.go:335-359 | over every interleaving, a block peek shows the next packets, whole, in order and published, and stops only when its places are full or all that was published when it began is shown |
| SharedPackets.TakesPublishedPackets | internal/buffer/buffer.go:362-410 | over every interleaving, ReadBlock and SkipBlocks take exactly the next packets, whole, in order and published, though neither cuts at the published count |
| SharedPackets.BlockIsThere | internal/buffer/buffer.go:362-378 | a reader finds rlen positive exactly when a packet is there to take |
| SharedPackets.ReaderFinds | internal/buffer/buffer.go:362-410 | the cursors stay in order, a walking reader stays within the chain, and one that wants more can always go on |
| SharedPackets.Accounts | internal/buffer/buffer.go:335-599 | over every interleaving, a reader wants what the step that began it asked for, the packets are the nonempty slices of the link steps, in order, and finished takes have returned the first of them, as many as they asked for |
| SharedPackets.TakeAlone | internal/buffer/buffer.go:362-410 | from every reachable state, a take of n published packets runs to its end by its own steps, returns exactly the next n and takes their bytes off rlen |
| SharedPackets.PeekAlone | internal/buffer/buffer.go:335-359 | from every reachable state, a peek runs to its end by its own steps, changes nothing, and has got exactly the next published packets when it ends, as many as it has places |
| SharedPackets.AttachAlone | internal/buffer/buffer.go:547-599 | a nonempty slice in a new node becomes the last published packet, and nothing else changes |
| SharedPackets.LinkAlone | internal/buffer/buffer.go:565-587 | so does one in an unwritten node, and an empty one only moves the write node |
| PacketSend.SendMMsg | netfd_linux.go:112-152 | one call offers exactly the first 32 packets at most, takes those the kernel took, drops one more exactly on a failure, and reports only would-block |
| PacketSend.Handle | netfd_linux.go:112-152 | one event on a buffer, a write of packets or a batch send, is the step of the packet ledger on its packets |
| PacketSend.RunPackets | netfd_linux.go:112-152 | every list of writes and batch sends on a new buffer is a run of the packet ledger that ends in the buffer's packets, so that conservation holds of the buffer |
| PacketQueue.Moves | netfd_linux.go:112-152 | a call moves packets from the front of the queue to the end of the sent or dropped ones and changes no fate |
| PacketQueue.Conserved | netfd_linux.go:112-152 | over every run, sent and dropped packets followed by queued ones are exactly the packets appended, in order |
| PacketQueue.Shortens | netfd_linux.go:128-150 | a call on a nonempty queue shortens it exactly when a packet was taken or the call failed other than by blocking |
| PacketQueue.Drains | netfd_linux.go:128-150 | as many calls that do not block as there are packets empty the queue |
| WriteToken.OwnedKept | internal/locker/locker.go:40-58 | the lock word moves between free, one thread and armed interest; no access can give it two owners |
| TcpWrite.OwnershipKept | tcpconn.go:419-451 | every step of flush, notify and the write callback is such a move |
| TcpWrite.DataKept | tcpconn.go:366-416 | every step keeps: accepted bytes, then bytes still to be accepted, are the appended bytes |
| TcpWrite.AttendedKept | tcpconn.go:419-451 | every step keeps: data with a free lock has a thread that will still try the lock |
| TcpWrite.StreamKept | tcpconn.go:324-451 | over every interleaving, partial write and error, the socket got the bytes of the append steps, in step order, exactly as many as its accept steps say; the rest is the end of the buffer, and all of it unless a sender has yet to skip what it sent |
| TcpWrite.HandedNext | tcpconn.go:366-416 | what the socket is handed is what was written next |
| TcpWrite.OneOwner | tcpconn.go:419-451 | at most one thread acts for the lock, and armed interest implies a held lock |
| TcpWrite.DisarmsOwnArming | tcpconn.go:796-831 | when the poller disarms, no thread is about to arm, so no later arming is cancelled |
| TcpWrite.NotStranded | tcpconn.go:796-831 | when no thread is mid-operation, leftover data means the lock is held and write interest armed |
| TcpWrite.SomeoneAttends | tcpconn.go:419-451 | at any moment leftover data has armed interest or a thread that holds or will try the lock |
| TcpWrite.CallbackDrains | tcpconn.go:796-831 | from any such quiet state one callback with a willing socket sends everything and frees the lock |
| TcpWrite.FlushAlone | tcpconn.go:428-451 | a flush that nobody interrupts does nothing when the lock is taken; else it sends what the socket takes, and frees the lock if that is all or arms write interest if not |
| TcpWrite.NotifyAlone | tcpconn.go:419-425 | a notify arms write interest exactly when the lock is free |
| TcpWrite.RecheckAlone | tcpconn.go:444-450 | a thread that unlocked arms exactly when there is data and the lock is still free |
| TcpWrite.CallbackAlone | tcpconn.go:796-831 | the write callback sends what the socket takes, stays armed with the lock unless that is all, and then disarms and frees it |
| TcpWrite.FailsOnce | tcpconn.go:419-451 | a thread that gives up with an error leaves the lock taken for good: it happens at most once, and nobody else acts for the lock from then on |
| UdpWrite.OwnershipKept | udpconn.go:187-244 | every step of direct sends, queued sends and the write callback keeps the lock with one owner |
| UdpWrite.QueueKept | udpconn.go:466-497 | over every run, each queued packet was sent once, dropped once, or is still queued in order |
| UdpWrite.PacketsKept | udpconn.go:187-244 | over every run, the packets of the WriteTo steps are, as a multiset, those sent directly, those queued, those whose direct send failed hard and those in a thread's hands; sent directly are exactly those the socket said it took |
| UdpWrite.WriteToAlone | udpconn.go:187-244 | WriteTo that nobody interrupts queues the packet and arms when postponed, locked out or blocked; else it sends it, arming only if packets are queued; a hard error leaves all as it was |
| UdpWrite.CallbackAlone | udpconn.go:466-497 | the write callback does one batch send, stays armed with the lock unless it did not block and left nothing, and then disarms and frees it |
| UdpWrite.FailsOnce | udpconn.go:209-244 | a thread that gives up with an error leaves the lock taken for good, once at most |
| UdpWrite.CallbackIsSend | udpconn.go:466-497 | the steps of one callback, with no append in between, do to the queue exactly what one batch send does |
| UdpWrite.AttendedKept | udpconn.go:209-224 | one step leaves queued packets unattended exactly when it unlocks after a hard send error with packets queued and no other thread to look |
| UdpWrite.NotStranded | udpconn.go:187-244 | in runs without hard direct-send errors no packet is stranded |
| UdpWrite.HardErrorStrands | udpconn.go:209-224 | for every positive number of API threads, a concrete run with one hard error that strands a packet |
| UdpWrite.StrandsIffHardErrors | udpconn.go:209-244 | no run strands a packet if and only if the socket never fails a direct send hard |
| ConnClose.InvKept | tcpconn.go:454-507 | every step of any thread keeps closing single, jobs guarded and the stream whole |
| ConnClose.ClosesOnce | internal/safejob/once.go:26-28 | one thread at most closes, and no channel, descriptor or buffer is taken down twice |
| ConnClose.OneBody | internal/safejob/exclusive.go:30-84 | one thread at a time is in the body of any job but apiWrite |
| ConnClose.ReadersWoken | tcpconn.go:461-466 | when Close waits for apiRead, readTrigger is already closed |
| ConnClose.NoBodyLater | closer.go:68-95 | once the buffers are moved or freed, and at all later times, no thread is in the body of any job |
| ConnClose.NothingMissing | tcpconn.go:454-507 | a thread in sysRead finds readTrigger open, and a thread in any job finds descriptor and buffers in place |
| ConnClose.StreamContinues | tcpconn.go:895-930 | over every run, readers have got exactly as many bytes as their steps asked for, from the first byte of the receive steps on, in order and each once, across Close; the rest is kept, in closedReadBuf once the buffer is freed |
| ConnClose.DownIff | internal/safejob/once.go:26-28 | over every run, the connection is down exactly if some thread has called Close |
| ConnClose.CloseAlone | tcpconn.go:454-507 | from every reachable state where nobody has called Close and no thread is in a job, Close runs to its end by its own steps: all jobs closed, all five parts down, the unread bytes in closedReadBuf, and nothing else changed |
| ConnClose.ClosesOn | tcpconn.go:454-507 | a call of Close at any stage runs to its end by its own steps once no job is in use |
| ConnClose.JobAlone | internal/safejob/exclusive.go:30-84 | a job that is free lets a thread into its body exactly when it is not closed, and out again |
| ReadPath.InvKept | tcpconn.go:755-794 | every step of poller, tasks and readers keeps one holder of reading, data attended, and wake-ups on their way |
| ReadPath.OneTask | tcpconn.go:788-794 | at most one handler task runs, and it holds the lock |
| ReadPath.DataIsHandled | tcpconn.go:840-861 | on an active connection with nothing in flight, unread data is in the hands of a scheduled or running task |
| ReadPath.HandlerRuns | tcpconn.go:840-861 | from every reachable, settled, active state with unread data the task with the lock reaches the handler by its own steps, which change nothing else; only one whose handler has just failed closes the connection instead |
| ReadPath.LeavesWhenDone | tcpconn.go:846-856 | over every run, a task lets the lock go only after it saw a length of zero or an inactive connection, or its handler failed |
| ReadPath.HandlerAlone | tcpconn.go:845-861 | after a handler returns, a failure closes the connection and unlocks; else the handler is called again if there is data on an active connection, and else the task ends unlocked |
| ReadPath.CallbackAlone | tcpconn.go:755-794 | the read callback adds what came in, leaves a token, and starts a task exactly when nobody has the lock; if that fails the connection closes |
| ReadPath.ParkedIsShort | tcpconn.go:255-314 | a reader parked on an empty trigger with no token on its way has fewer bytes than it asked for |
| ReadPath.ReadyIsEnough | tcpconn.go:255-314 | a reader told to go on finds its bytes, and readers take turns |
| ReadPath.Accounts | tcpconn.go:255-314 | over every run, what is unread is what the fill steps put in less what readers took, the connection is active exactly if no step closed it, its trigger is closed exactly if a step closed that, and readers took no more tokens than were offered |
| ReadPath.ReaderAlone | tcpconn.go:255-280 | a reader whose bytes are there goes on and takes any number of those there are; one whose bytes are not waits |
| ReadPath.WokenAlone | tcpconn.go:274-280 | a woken reader takes the token and looks again; on a closed connection it does not wait |
| ReadPath.ExpiredAlone | tcpconn.go:292-314 | a reader whose timer fires looks once more and leaves, with its bytes if they are there |
| TimeWheel.RoundExact | internal/asynctimer/asynctimer.go:141-158 | rounding gives the nearest multiple of the interval, halves up, and at least one interval for any delay not shorter than one |
| TimeWheel.Placement | internal/asynctimer/asynctimer.go:244-250 | for every slot count, current slot and delay of d intervals, slot and circle put a timer exactly d ticks away |
| TimeWheel.TickLeft | internal/asynctimer/asynctimer.go:203-217 | a tick takes exactly one off what a timer has left, whichever slot it is in |
| TimeWheel.DueOnTime | internal/asynctimer/asynctimer.go:203-217 | however ticks are mixed with adding and deleting other timers, a timer placed d ticks away is due on the d-th tick, and before or after it on no other |
| TimeWheel.NewTimeWheel | internal/asynctimer/asynctimer.go:110-131 | refuses exactly an interval, in nanoseconds, or slot number that is not positive, and otherwise makes an empty wheel whose slots and map agree |
| TimeWheel.ShortInterval | internal/asynctimer/asynctimer.go:110-131 | every interval below a millisecond is accepted and has zero milliseconds, by which slots are then computed |
| TimeWheel.MillisExact | internal/asynctimer/asynctimer.go:244-250 | with an interval of whole milliseconds, dividing milliseconds counts the intervals of any delay exactly |
| TimeWheel.Miscounted | internal/asynctimer/asynctimer.go:244-250 | with a remainder, a delay of as many intervals as the interval's whole milliseconds have nanoseconds is always counted too long |
| TimeWheel.MillisExactIff | internal/asynctimer/asynctimer.go:244-250 | for intervals of at least a millisecond, every number of intervals is counted right if and only if the interval is a whole number of milliseconds |
| TimeWheel.Wheel.Del | internal/asynctimer/asynctimer.go:172-177 | takes exactly this timer off; slots and map still agree |
| TimeWheel.Wheel.CalIndexAndCircle | internal/asynctimer/asynctimer.go:244-250 | the slot and circle computed are as many ticks away as the delay has intervals, and a full turn for a delay below one |
| TimeWheel.Wheel.AddTimerHandle | internal/asynctimer/asynctimer.go:236-242 | the timer is pending for as many ticks as its delay has intervals, or for a full turn if it has none, all others as before |
| TimeWheel.Wheel.TickHandle | internal/asynctimer/asynctimer.go:203-217 | fires exactly the timers with one tick left and lowers every other by one |
| TimeWheel.CarryOut | internal/asynctimer/asynctimer.go:179-254 | any list of ticks, additions and deletions on a wheel has the effect of the list on the ticks that timers have left, and each tick fires exactly the timers due by then, which DueOnTime dates |
| TimerRefresh.NeverEarly | internal/asynctimer/asynctimer.go:219-234 | over every run, with any overlap of adds, a check decides to expire exactly when the timeout has passed since begin; a check whose add is refused expires the timer too; in either case less than an interval is left, and nothing of a timeout of whole intervals |
| TimerRefresh.AddableIff | internal/asynctimer/asynctimer.go:148-150 | no add is refused in any run if and only if the timeout is a whole number of intervals |
| TimerRefresh.Dies | internal/asynctimer/asynctimer.go:219-234 | for every timeout with a remainder, a run without overlapping adds in which the timer expires once, before its timeout, and is left with a delay that refuses every add |
| TimerRefresh.DeadForGood | internal/asynctimer/asynctimer.go:141-158 | such a timer is never added again and never expires again, whatever is done with it |
| TimerRefresh.HandlerOnTimeIff | internal/asynctimer/asynctimer.go:219-242 | over every run, the handler of a check that found the timeout passed runs a timeout after begin if and only if no begin was stored since the decision, or none within the last timeout |
| TimerRefresh.RefreshTooLate | internal/asynctimer/asynctimer.go:225-228 | for every timeout, a run in which the handler is about to run though the timer was refreshed at this very tick |
| TimerRefresh.RefreshLost | internal/asynctimer/asynctimer.go:141-147 | for every timeout, a run in which a refresh sees the timer active and no check pending, and yet the timer expires at the tick of that refresh's begin and is left without a round |
| TimerRefresh.BoundsIff | internal/asynctimer/asynctimer.go:141-242 | over every run in which no add looks while another is under way, after a refresh that is not refused all such continuations without refreshes have at most two checks and two rounded timeouts on the wheel if and only if the refresh found no check pending and the timer not hanging for longer than a timeout; the latter never happens to whole timeouts |
| TimerRefresh.HangsTooLong | internal/asynctimer/asynctimer.go:219-250 | for every timeout with a remainder and a wheel of more slots than it has intervals, a run without overlapping adds that leaves the timer hanging for longer than a timeout with no check pending |
| TimerRefresh.ExpiresOnce | internal/asynctimer/asynctimer.go:141-242 | over every run in which no add looks while another is under way, a refresh that is not refused and finds no check pending is followed, once its round is over, by exactly one expiry |
| TimerRefresh.NeverExpires | internal/asynctimer/asynctimer.go:219-242 | for every timeout and every n, a run from the start with at least n checks after its last refresh and no expiry |
| TimerRefresh.PendingUnbounded | internal/asynctimer/asynctimer.go:219-242 | over every run, with or without overlapping adds, a refresh that is not refused and finds a check pending can be followed by any number of checks and no further expiry |
| TimerRefresh.OverlapBreaks | internal/asynctimer/asynctimer.go:141-158 | for every timeout of at least two intervals, two overlapping adds, with no check pending when they look or end, lead to three checks, more than two timeouts on the wheel, and two expiries |
| TimerRefresh.OverlapNeverExpires | internal/asynctimer/asynctimer.go:141-158 | for every timeout and every n, two overlapping adds that look before any check lead to n checks and no expiry |
| MCache.PowerOfTwoIff | internal/cache/mcache/mcache.go:87-89 | for x of at least one, x & (x - 1) is zero exactly for powers of two |
| MCache.CalIndexCeiling | internal/cache/mcache/mcache.go:72-85 | for capacities of at least two the class is the binary logarithm rounded up, and the only such number |
| MCache.Cache.Malloc | internal/cache/mcache/mcache.go:40-55 | the asked length with at least the asked capacity, a slice nobody else holds, and sound pools |
| MCache.Cache.Free | internal/cache/mcache/mcache.go:58-69 | the slice is free in its class; the pools stay sound if and only if its capacity is not one |
| MCache.EmptyRoundTrip | internal/cache/mcache/mcache.go:40-81 | freeing what an empty request returned puts a slice of capacity one into the class that serves capacity two |
| DescCache.Cache.Alloc | internal/poller/desc_cache.go:47-70 | returns a reset descriptor that was free or is new, never one in use or marked; all others keep their state |
| DescCache.Cache.MarkFree | internal/poller/desc_cache.go:81-85 | a descriptor in use becomes marked and is not touched |
| DescCache.Cache.FreeAll | internal/poller/desc_cache.go:88-104 | exactly the marked descriptors are reset and become free; every descriptor stays in exactly one of the three states |
| NetFd.NetFD.Close | netfd.go:105-121 | the first call marks its descriptor, once, and later calls do nothing |
| NetFd.NetFD.Control | netfd.go:156-166 | a closed netFD refuses and touches no descriptor; exact error cases |
| NetFd.NetFD.Schedule | netfd.go:124-153 | with no other call in between, takes a descriptor that was free or is new and monitors it; descriptors in use or marked are left alone; exact error cases |
| NetFd.NetFD.Prepare | netfd.go:130-149 | the part outside the lock takes a descriptor that was free or is new, or marks it if there is no poller, and leaves the netFD and all descriptors in use or marked alone |
| NetFd.CloseWhileScheduling | netfd.go:124-153 | a Close between the two parts leaves a closed netFD with a descriptor in use, and Schedule reports a closed connection |
| NetFd.ScheduleTwice | netfd.go:124-153 | two Schedule calls that both found no descriptor leave the first one's in use after Close |
| DescOwners.InvKept | netfd.go:105-166 | every section of Schedule, Control and close, of any thread on any netFD, and every recycling keeps: held descriptors in use, each with one holder, and marks in order |
| DescOwners.LeaksIff | netfd.go:124-153 | over every run, some descriptor in use is held neither by a thread nor by an open netFD if and only if some section set the descriptor of a netFD that already had one or was closed |
| DescOwners.LeaksForGood | netfd.go:105-121 | such a descriptor stays so for good, whatever is closed and recycled later |
| DescOwners.SoleOwners | netfd.go:105-153 | over every run, no two netFDs or threads hold the same descriptor, and what they hold is in use |
| DescOwners.MarkedOnce | internal/poller/desc_cache.go:81-104 | over every run, the free list names no descriptor twice, and only a descriptor in use is ever marked |
| DescRun.World.Handle | netfd.go:105-166 | one section on netFD, cache and descriptor objects is one or two steps of that protocol |
| DescRun.CarryOut | netfd.go:105-166 | any list of sections by any number of threads on any number of netFD objects is a run of it: leaks are exact, netFDs never share a descriptor, and the free list has no descriptor twice |

## Left out

- System calls, epoll and kqueue, iovec and sockaddr layouts: the socket, the kernel and the reader are parameters or nondeterministic steps.
- The 32-bit width of `rlen`, `wlen`, `r` and `w`: numbers are unbounded, as buffers stay far below 4 GiB.
- `wlen` of a buffer that memory was linked into: it is not a count of free bytes there, and nothing is claimed of it.
- FixedReadBuffer as a class: in the model of Close it is the sequence of its unread bytes, which each of its operations takes from the front of.
- websocket and tls packages, options, dialers, listeners, keepalive, metrics, logging, process restart.
- Autopostpone thresholds: whether a write is postponed is a free choice at each write.
- Real time, scheduling and fairness: ticks and arbitrary interleavings take their place, so there are no liveness claims beyond bounded numbers of steps and what a thread reaches by its own steps.
- Nonblocking mode of handlers, and deadlock of a Close called inside sysRead: only safety is proved there.
- Deleting a timer, and the order of the add and delete channels, in the refresh of one timer; an add's look, its flag and its remaining writes are separate steps, but the remaining writes are one.
- Timers with a timeout below one interval, which their first add refuses.
- TimeWheel.Wheel.CalIndexAndCircle: says nothing of intervals that are not whole milliseconds, where the code divides by zero or counts inexactly, nor of a delay below a millisecond on a wheel of one slot, which gets a negative circle; the same holds of TimeWheel.Wheel.AddTimerHandle.
- NetFd.NetFD.Schedule: one call with no other in between; all interleavings of its sections are stated by DescOwners and DescRun.
- Block reads of a stream buffer that is copied into: only peeking is modelled there under a concurrent writer, as packets are read and skipped in linked buffers.
- LinkedBuffer.Buffer.Free: says nothing of a later use of the buffer, which the code does not support before Initialize.
- UDP reading and the UDP close path, which repeat the TCP ones on packets.
