# MyNet, modelled and verified

A Dafny model of the parts of MyNet, a small C++ network library, whose correctness is hard to see
from one function: the asynchronous logger, the monitor layer with its queues, latch and thread
pool, the calendar formulas, the network buffer with its integer codecs, the time-zone tables, the
number formatting, the rolling log file, and the locking benchmark `time-sem.c`.

`dafny verify dfyconfig.toml` checks everything.

## How the model is built

- **Concurrency** (`Monitor`, `BoundedQueue`, `BlockingQueue`, `Latch`, `ThreadPool`,
  `SharedCounter`, `AsyncLogging`). A state machine with one step for each instruction that other
  threads can observe: taking the mutex, assigning `m_holder`, clearing it, going to sleep, waking,
  each statement of a critical section. A run is any sequence of actions, of any length, of any
  number of threads. Wakeups may be spurious, a signal may wake more than one sleeper, and woken
  threads compete with everybody else for the mutex. A theorem about a run is about every interleaving.
- **Code beside the machines** (`BoundedQueueCode`, `BlockingQueueCode`, `LatchCode`,
  `ThreadPoolCode`, `SharedCounterCode`, `AsyncLoggingCode`). The functions of the source, with their
  loops and their assignments, are methods of classes with the source's fields. Between two of their instructions a schedule lets the other
  threads do anything. `Valid()` of these classes says that the object is in the state in which a
  run of the machine ends, so the theorems about runs hold of it.
- **Sequential code** (`NetBuffer`, `Framing`, `FixedBuffer`, `LogStream`, `ZoneFile`, `ZoneLookup`,
  `FileUtil`, `LogFile`). Classes and loops over the source's fields and arrays, each proved against a
  plain specification: a byte sequence, a numeral, a parsed file, the concatenation of the files.
- **Arithmetic** (`Gregorian`, `DateOp`, `Endian`). Functions, with division and remainder truncated
  towards zero as in C++ and integer widths stated where they matter.

Inputs from outside are parameters: what a read or write of a descriptor delivers, what the clock
shows, whether a file opens, whom a signal wakes, and which thread runs next.

## What the code does that its documentation does not say

Each of these is a statement with a concrete input or an exact condition.

- `AsyncLogging.cc:59` uses `m_curbuff` after `release()`. The model has the code as written, which
  then uses a null pointer, and as meant, with a new buffer. `CrashExactly` gives the guard,
  `CrashExample` two lines that meet it, `AsMeantNeverCrashes` the meant behaviour. The other
  theorems about the logger hold of both.
- A thread-safe `LogFile` calls the locking `flush` while it holds its mutex. `append` hangs exactly
  when that flush is due (`LogFile.Append`). Among any number of threads the hang is for good and
  holds up every one of them (`LogFileLock.HangsForGood`), and it comes with the first append, in the
  order of the mutex, that finds a flush due (`LogFileLock.HangsExactly`). `HangsOnItsOwnMutex` gives a
  run. The mutex is initialised with default attributes; POSIX leaves it undefined what a second lock
  by its owner does, and the model has it wait for ever, as the common implementations do. The
  asynchronous logger uses such a file, so its back end can hang.
- `WriteFile::writeLine` counts and returns the length of the whole line even when an error cut it
  short. `LandsInFullExactly` says when it does: a call fails before the calls ahead of it have taken
  the whole line. `CountsWhatIsLost` gives a line of two characters.
- `readTimeZoneFile` returns true for a file that cannot be opened, and the table is then empty
  (`LoadedIsIndexed`). A negative count of transitions throws; a type index outside the type table and
  a negative count of characters are undefined. `BadHeader` gives the headers that lead there.
- The two formulas of `Date.cc` are computed in 32-bit int. They are inverse to each other exactly
  from 1 March -4800 to 18 October 1465102, the numbers -32044 to 536838867 (`DateRoundTripExactly`,
  `NumberRoundTripExactly`). The day before that range has the number of its first day
  (`RangeIsNeeded`). Later dates, exactly up to 15 December 5874689, still have a number
  (`NoOverflowFromDate`), but `getYearMonthDay` overflows on it (`NoOverflowFromNumber`);
  `TooLateToComeBack` gives one. `weekDay` leaves 0 to 6, and steps by more than a day, below the day
  number -1, and overflows on the last int (`WeekDayInRange`, `WeekDayAdvances`).
- The last check of `time-sem.c` is right exactly when the product of the arguments fits an int and no
  argument is negative or one is zero (`FinalCheckExactly`). If the product does not fit, it is
  undefined; if it fits and one argument is negative and the other not zero, the check complains
  although no update was lost. `ComplaintForOneNegative`, `ComplaintForTwoNegatives` and
  `OverflowForThreeChildren` give an input of each kind, and `WrappedCheckExactly` says when the check
  is right if the product wraps around.

## Readings of unclear source

- `Buffer` declares `readerIndex` and `writerIndex` and uses `readerIndex_` and `writerIndex_`; they
  are taken to be the same fields. `toStringPiece()` in `shrink` is taken to be the readable bytes.
- The fields `m_startPeriod`, `m_lastFlush`, `m_lastRoll` and `m_appendCount` of `LogFile` have no
  initial value in the source. They start at zero.
- `ThreadPool::run` without workers builds an empty task and runs nothing (`ThreadPool.cc:79`). The
  model forgets the task too.

## Model

| member | source | states |
|---|---|---|
| AsyncLogging.LinesAreConserved | MyNet/base/AsyncLogging.cc:42-143 | In every interleaving of producers, back end and stop, at every statement, also after drops and when an append to the log file hangs: the accepted lines are, in order, those of the batches taken, then of m_buffs, then of m_curbuff; and the lines in the log file, then those still to be written, are those of the batches, with no other gap than the buffers after the first two of a batch with more than 25 |
| AsyncLogging.NothingLostWithoutDrop | MyNet/base/AsyncLogging.cc:75-140 | In particular, while no batch of more than 25 buffers was taken, the accepted lines are those in the log file, then the unwritten rest of the batch, then m_buffs, then m_curbuff: nothing is lost, doubled or reordered |
| AsyncLogging.OutputOfReports | MyNet/base/AsyncLogging.cc:100-112 | The log of any row of batches holds their lines except those of the buffers after the first two of a batch with more than 25 |
| AsyncLogging.NoticesCountDropped | MyNet/base/AsyncLogging.cc:100-112 | The texts and the numbers in the drop notices add up to the buffers taken: none is dropped in silence |
| AsyncLogging.FittingLinesAreAccepted | MyNet/base/AsyncLogging.cc:42-64 | With line 59 as meant, in every run the accepted lines are those handed to append that fit into an empty buffer, in order of the calls |
| AsyncLogging.AcceptedExactly | MyNet/base/AsyncLogging.cc:42-64 | An append that does not crash accepts its line exactly when the line fits into an empty buffer, although it looks only at the room in the current one |
| AsyncLogging.AppendMovesExactly | MyNet/base/AsyncLogging.cc:46-62 | A line stays in the current buffer if and only if it leaves room there, and then only that buffer changes; otherwise that buffer joins m_buffs and m_nextbuff takes its place, or a new buffer only if there is none |
| AsyncLogging.DropsOnlyUnderLoad | MyNet/base/AsyncLogging.cc:46-107 | In every run of lines that fit, a batch holds at least half of what its buffers could, so a batch of which something is dropped holds at least thirteen buffers full of characters |
| AsyncLogging.SectionExactly | MyNet/base/AsyncLogging.cc:75-96 | The back end leaves its loop only without the flag and waits only without a full buffer; it takes all full buffers and the current one, leaves its first spare for that and its second if m_nextbuff is missing |
| AsyncLogging.BuffersAreOwned | MyNet/base/AsyncLogging.cc:75-138 | In every run no buffer is at two places, spares are empty, a missing m_nextbuff means a queued buffer, both back-end spares are there at the loop head, and the asserts at lines 97, 123 and 132 hold, also after a drop and the resize to two |
| AsyncLogging.CrashExactly | MyNet/base/AsyncLogging.cc:46-61 | As written, an append uses a null pointer exactly when the line needs a new buffer and m_nextbuff is gone |
| AsyncLogging.CrashExample | MyNet/base/AsyncLogging.cc:46-61 | Two lines as long as a buffer reach that state for every buffer size |
| AsyncLogging.AsMeantNeverCrashes | MyNet/base/AsyncLogging.cc:42-64 | With a new buffer at line 59 no run ever uses a null pointer |
| AsyncLogging.StepKeepsInv | MyNet/base/AsyncLogging.cc:42-143 | Every step of every thread keeps conservation, the shape of the log, ownership and the place of each buffer |
| AsyncLoggingCode.AsyncLogging.Append | MyNet/base/AsyncLogging.cc:42-64 | The code of append does what one producer step of the machine does and leaves the back end alone |
| AsyncLoggingCode.AsyncLogging.StopAndJoin | MyNet/base/AsyncLogging.cc:36-40 | Under any schedule of the other threads, stop returns only when the back end has left its loop; the log is then the report of the batches taken, and what else was accepted is still in m_buffs and m_curbuff |
| AsyncLoggingCode.AsyncLogging.Stop | MyNet/base/AsyncLogging.cc:38-38 | The first statement of stop is one step of the machine at any moment of a run |
| AsyncLoggingCode.AsyncLogging.TakeBatch | MyNet/base/AsyncLogging.cc:77-96 | The critical section, with or without a wait, hands over one non-empty batch |
| AsyncLoggingCode.AsyncLogging.DropTooMany | MyNet/base/AsyncLogging.cc:97-107 | Of a batch larger than 25 the first two buffers are kept and a notice is logged, of a smaller one all; it goes on unless the append of the notice hangs |
| AsyncLoggingCode.AsyncLogging.WriteBatch | MyNet/base/AsyncLogging.cc:109-112 | The write loop logs every buffer of the batch in order while producers go on, or, when an append hangs, those up to that one |
| AsyncLoggingCode.AsyncLogging.Recycle | MyNet/base/AsyncLogging.cc:114-139 | Afterwards both spares are there and empty and the batch is empty: the spares are the first two buffers of the batch, or the last of these two if only one was missing; the asserts hold |
| AsyncLoggingCode.AsyncLogging.ThreadFunc | MyNet/base/AsyncLogging.cc:65-143 | With line 59 as meant, under any schedule of the other threads and whatever the log file does, the back end follows a run of the machine and its log file agrees with the log; it returns only when m_running is false, and unless it hangs the log is then the report of the batches it took |
| LogOutput.LogOutput.Append | MyNet/base/AsyncLogging.cc:105-111 | The bytes of a buffer, or the 256 characters of a notice, go to the thread-safe log file; the call hangs exactly when this file finds a flush due |
| LogOutput.FilesHoldLog | MyNet/base/AsyncLogging.cc:69-141 | Without failing writes the log files hold the bytes of what was logged, in order, however often they rolled, also when the last call hangs |
| AsyncLoggingCode.EveryByteIsSomewhere | MyNet/base/AsyncLogging.cc:42-143 | From append to the disk: while no batch of more than 25 buffers was taken and no write failed, the log files, the rest of the batch, m_buffs and m_curbuff hold the bytes of the accepted lines, each once and in order |
| Monitor.AdvanceSound | MyNet/base/Mutex.h:24-44 | Every instruction of lock, unlock and wait keeps: exactly the owner is at an owning position, and m_holder names it exactly while it is in the critical section |
| Monitor.SectionSound | MyNet/base/Condition.h:23-37 | Entering, leaving, waiting and waking keep the same |
| Monitor.MutualExclusion | MyNet/base/Mutex.h:24-87 | No two threads are in the section; m_holder is non-zero exactly for the thread in it, and zero, as the destructor asserts, when nobody owns the mutex |
| Monitor.QuietMeansAsleep | MyNet/base/Mutex.h:24-87 | When no thread can execute an instruction, the mutex is free and everybody in an operation is asleep |
| MutexRuns.EveryRunFromInitial | MyNet/base/Mutex.h:24-87 | In every run of lock, unlock, wait, signal and spurious wakeups, a non-zero m_holder names the owner, and two threads are never in the section |
| MutexRuns.HolderIsOwner | MyNet/base/Mutex.h:24-87 | The same from any sound state, for every run |
| BoundedQueue.PushKeepsInv | MyNet/base/BoundedBlockingQueue.h:33-34 | The assert before push_back holds, so push_back adds the item and never drops the front |
| BoundedQueue.Fifo | MyNet/base/BoundedBlockingQueue.h:26-50 | In every run the items delivered and then the queue are the items accepted, in order; the queue never exceeds its capacity, so nothing is overwritten |
| BoundedQueue.NoLostWakeups | MyNet/base/BoundedBlockingQueue.h:26-50 | Whenever the mutex is free: a consumer asleep means no more items than woken consumers, a producer asleep no more free slots than woken producers |
| BoundedQueue.NoDeadlock | MyNet/base/BoundedBlockingQueue.h:26-50 | When nothing can move, sleeping consumers face an empty queue, sleeping producers a full one, and with a capacity never both sleep |
| BoundedQueue.InsideProceeds | MyNet/base/BoundedBlockingQueue.h:29-35 | A thread in the critical section always has a next statement; the asserts in it do not stop it |
| BoundedQueue.StepKeepsInv | MyNet/base/BoundedBlockingQueue.h:26-50 | Every step of every thread keeps the invariant behind these theorems |
| BoundedQueueCode.BoundedBlockingQueue.Put | MyNet/base/BoundedBlockingQueue.h:26-36 | Under any schedule, a put that returns has been accepted once with its value; one that does not return has not. With the mutex free and room in the queue it returns and the value is at the end |
| BoundedQueueCode.BoundedBlockingQueue.Get | MyNet/base/BoundedBlockingQueue.h:38-50 | Under any schedule, a get that returns gives an item delivered to this caller once. With the mutex free and an item in the queue it returns the first |
| BoundedQueueCode.BoundedBlockingQueue.FallAsleep | MyNet/base/Condition.h:23-27 | The first half of a wait gives the mutex up and leaves the thread asleep on its condition |
| BoundedQueueCode.BoundedBlockingQueue.WaitOn | MyNet/base/Condition.h:23-27 | After that half and some wakeup, the thread has the mutex again when the wait returns |
| BoundedQueueCode.BoundedBlockingQueue.PushBackItem | MyNet/base/BoundedBlockingQueue.h:34-34 | push_back appends the item and is one step of the machine |
| BoundedQueueCode.BoundedBlockingQueue.PopFrontItem | MyNet/base/BoundedBlockingQueue.h:46-47 | front and pop_front take the first item and are one step of the machine |
| BlockingQueue.EveryRun | MyNet/base/BlockingQueue.h:24-39 | In every run: first in first out and exactly once, no lost wakeup, and a getter sleeps for good only on an empty queue |
| BlockingQueueCode.BlockingQueue.Put | MyNet/base/BlockingQueue.h:34-39 | Under any schedule, a put that returns has been accepted once with its value; with the mutex free it returns and the value is at the end |
| BlockingQueueCode.BlockingQueue.Get | MyNet/base/BlockingQueue.h:24-33 | Under any schedule, a get that returns gives an item delivered to this caller once; with the mutex free and an item in the queue it returns the first |
| Latch.EveryRun | MyNet/base/CountDownLatch.cc:3-16 | In every run no wait returns before countDown was called as often as the count says, and afterwards nobody is asleep unsignalled whenever the mutex is free |
| Latch.NoWaiterForgotten | MyNet/base/CountDownLatch.cc:3-16 | When nothing can move, a waiter sleeps only if calls of countDown are missing |
| LatchCode.CountDownLatch.Wait | MyNet/base/CountDownLatch.cc:3-8 | Under any schedule, a wait returns only when the count is down and countDown was called as often as it said; with the count down and the mutex free it returns |
| LatchCode.CountDownLatch.CountDown | MyNet/base/CountDownLatch.cc:10-16 | Under any schedule, a countDown that returns has counted down once and one that does not return has not; once the count is down nobody is asleep when it returns; with the mutex free it returns with the count one lower |
| ThreadPool.Fifo | MyNet/base/ThreadPool.cc:75-117 | In every run the tasks taken and then the queue are the tasks accepted, in order, so no task goes to two workers; the queue keeps its maximum |
| ThreadPool.NoLostWakeups | MyNet/base/ThreadPool.cc:75-117 | Whenever the mutex is free: a worker asleep means the pool runs and every task has a woken worker, a caller asleep that every free slot has a woken caller |
| ThreadPool.NoDeadlock | MyNet/base/ThreadPool.cc:75-117 | With a worker and a positive maximum, when nothing can move while the pool runs, every accepted task was taken and no caller is blocked |
| ThreadPool.FreeMutexMeansStopped | MyNet/base/ThreadPool.cc:47-53 | Once the flag is cleared and the mutex is free, no worker is asleep |
| ThreadPool.StepKeepsStopped | MyNet/base/ThreadPool.cc:47-74 | From then on no step lets a worker sleep again |
| ThreadPool.AtMostOneMoreTask | MyNet/base/ThreadPool.cc:59-74 | After stop each worker dequeues at most one further task, in every continuation |
| ThreadPool.WorkersRunOut | MyNet/base/ThreadPool.cc:59-117 | After stop each worker makes at most nine more steps, whatever the others do |
| ThreadPool.WorkerProceeds | MyNet/base/ThreadPool.cc:59-117 | After stop a worker that has not left can step, or the owner of the mutex can |
| ThreadPool.ShutdownCompletes | MyNet/base/ThreadPool.cc:47-74 | When nothing can move after stop, every worker has left runInThread |
| ThreadPool.Shutdown | MyNet/base/ThreadPool.cc:47-117 | All of this after any run in which stop has cleared the flag and the mutex is free |
| ThreadPool.StepKeepsInv | MyNet/base/ThreadPool.cc:47-117 | Every step of every thread keeps the invariant behind these theorems |
| ThreadPoolCode.ThreadPool.Run | MyNet/base/ThreadPool.cc:75-91 | Under any schedule, a call that returns has its task accepted once, one that does not return has not; with the mutex free and room it returns and the task is at the end; without workers the task is forgotten |
| ThreadPoolCode.ThreadPool.GetTask | MyNet/base/ThreadPool.cc:93-108 | It returns a task that only this worker took, or none when the pool does not run; with the mutex free it returns the first task if there is one, stopped or not, and none if there is none and the pool is stopped |
| ThreadPoolCode.ThreadPool.RunInThread | MyNet/base/ThreadPool.cc:59-74 | Under any schedule a worker executes exactly the tasks it took, in order, and leaves only after stop; one that begins after stop executes none |
| ThreadPoolCode.ThreadPool.StopSection | MyNet/base/ThreadPool.cc:49-53 | When the section of stop is over no worker is asleep, and by StepKeepsStopped none ever will be |
| ThreadPoolCode.ThreadPool.Stop | MyNet/base/ThreadPool.cc:47-58 | Under any schedule, stop with its joins returns only when every worker has left runInThread |
| DateOp.DateRoundTripExactly | MyNet/base/Date.cc:9-32 | In 32-bit int, a valid date has a day number and comes back from it if and only if it is not before 1 March -4800 and not after 18 October 1465102 |
| DateOp.NumberRoundTripExactly | MyNet/base/Date.cc:9-32 | In 32-bit int, a day number gives a valid date that maps back to it if and only if it is from -32044 to 536838867 |
| DateOp.TooLateToComeBack | MyNet/base/Date.cc:9-32 | 1 January 2000000 has a day number and does not come back from it |
| DateOp.DateComesBack | MyNet/base/Date.cc:9-32 | Without a limit on int the first of these bounds alone decides for dates |
| DateOp.NumberComesBack | MyNet/base/Date.cc:9-32 | Without a limit on int the first of these bounds alone decides for numbers |
| DateOp.RangeIsNeeded | MyNet/base/Date.cc:9-17 | 29 February -4800 has the number of the day after it |
| DateOp.BelowRangeHasNoDay | MyNet/base/Date.cc:19-32 | Below -32044 the day of the month is never positive |
| DateOp.NextDayNumber | MyNet/base/Date.cc:9-17 | The next calendar day, by month lengths and the leap rule, has the next number |
| DateOp.NumberCountsDays | MyNet/base/Date.cc:9-17 | The closed form agrees with counting days one at a time, from any date and any number of days |
| DateOp.DateCountsDays | MyNet/base/Date.cc:19-32 | The inverse formula names the date that counting from 1 March -4800 reaches |
| DateOp.OrderAgrees | MyNet/base/Date.h:74-82 | The operators < and == on dates are the lexicographic order and identity of (year, month, day) |
| DateOp.WeekDayInRange | MyNet/base/Date.h:66-69 | For every int, weekDay is defined and a day of the week if and only if the number is not the last int and is at least -1 or one less than a multiple of seven |
| DateOp.WeekDayAdvances | MyNet/base/Date.h:66-69 | For every int, the weekdays of it and the next number are defined and one apart modulo seven exactly from -1 to the last int but two, and below -1 except where truncation restarts them |
| DateOp.WeekDayOfDate | MyNet/base/Date.h:66-69 | From Monday 1 January 1900 on, weekDay is the weekday that counting days gives |
| DateOp.NoOverflowFromNumber | MyNet/base/Date.cc:19-32 | Of all numbers, no value of getYearMonthDay overflows 32-bit int if and only if the number is from -536902956 to 536838867 |
| DateOp.NoOverflowFromDate | MyNet/base/Date.cc:9-17 | With 32-bit int every term and partial sum fits if and only if the date is not after 15 December 5874689 |
| NetBuffer.Buffer.MakeSpace | MyNet/net/Buffer.h:345-365 | Growing and compacting keep the readable bytes; it compacts to position 8 exactly when that makes room and otherwise grows to exactly what is needed; the assert kCheapPrepend < readerIndex_ holds |
| NetBuffer.Buffer.CopyForward | MyNet/net/Buffer.h:358-360 | The overlapping copy towards the front moves the bytes unharmed |
| NetBuffer.Buffer.EnsureWritableBytes | MyNet/net/Buffer.h:163-170 | Afterwards there is room, and the readable bytes are the same |
| NetBuffer.Buffer.Append | MyNet/net/Buffer.h:151-156 | Appends to the readable bytes |
| NetBuffer.Buffer.Prepend | MyNet/net/Buffer.h:310-316 | Puts the data before the readable bytes |
| NetBuffer.Buffer.Unwrite | MyNet/net/Buffer.h:188-192 | Drops readable bytes at the end |
| NetBuffer.Buffer.Retrieve | MyNet/net/Buffer.h:92-103 | Drops readable bytes at the front, and starts over when none is left |
| NetBuffer.Buffer.RetrieveAsString | MyNet/net/Buffer.h:143-149 | Returns the bytes that it drops |
| NetBuffer.Buffer.Shrink | MyNet/net/Buffer.h:318-326 | Keeps the readable bytes in a buffer of 8 bytes and 1024 or, if that is more, the readable and the reserved ones |
| NetBuffer.Buffer.Swap | MyNet/net/Buffer.h:42-47 | Exchanges contents and geometry |
| NetBuffer.Buffer.FindCRLF | MyNet/net/Buffer.h:76-82 | Finds the first bytes 13 and 10 from a position on, or says that there are none |
| NetBuffer.Buffer.FindEOL | MyNet/net/Buffer.h:84-90 | Finds the first byte 10 from a position on, or says that there is none |
| NetBuffer.Buffer.RetrieveLine | MyNet/net/Buffer.h:70-110 | findCRLF and retrieveUntil together take exactly the first complete line, or nothing |
| NetBuffer.Buffer.RetrieveLineOf | MyNet/net/Buffer.h:70-110 | Content that is a text without a line end, the bytes 13 and 10, and more, gives the text with these two bytes and leaves the rest |
| NetBuffer.Buffer.ReadFd | MyNet/net/Buffer.cc:15-47 | What arrived is appended whole, also when it spills into the overflow area; an error changes nothing |
| NetBuffer.Buffer.constructor | MyNet/net/Buffer.h:32-40 | An empty buffer with room for eight bytes in front and the asked room behind |
| NetBuffer.Buffer.RetrieveAll | MyNet/net/Buffer.h:132-136 | Nothing is readable and both indexes are at the start |
| NetBuffer.Buffer.HasWritten | MyNet/net/Buffer.h:182-186 | What was written behind the readable bytes becomes readable, in order |
| BufferShape.SpaceBound | MyNet/net/Buffer.h:42-191 | Over every run of every operation on two buffers, with swaps, each storage stays within the larger of its start and twice the peak demand on it plus 8, whichever buffer it ends up in |
| BufferShape.SpaceBoundByPeak | MyNet/net/Buffer.h:345-364 | When only append, prepend, retrieve and readFd work on a storage, the bound is twice its peak number of readable bytes plus 8 |
| BufferShape.HeaderRoom | MyNet/net/Buffer.h:132-136 | Without prepend there is always room for an eight-byte header |
| BufferRuns.ExecuteAll | MyNet/net/Buffer.h:42-364 | Any allowed run on two buffers of every operation, the integer codecs and swap included, leaves the contents and hands back the bytes and numbers that the same run on plain byte sequences does, on a host of either byte order, within the space bound |
| BufferRuns.AllowedExactly | MyNet/net/Buffer.h:92-316 | The asserts and the two areas of readFd allow an operation exactly when it fits the plain sequence, a prepend the room in front, and a read the tail and, if that is below 65536 bytes, as many more |
| BufferRuns.AllowedRunFits | MyNet/net/Buffer.h:92-191 | A run that the asserts allow is allowed on the plain sequences |
| Endian.BytesOfValue | MyNet/net/Endian.h:12-40 | Network byte order gives the value back, for any width |
| Endian.ValueOfBytes | MyNet/net/Endian.h:12-40 | Every byte sequence is the network order of its value |
| Endian.NetworkOrder | MyNet/net/Endian.h:12-25 | In one, two and four bytes the most significant comes first |
| Endian.LongNetworkOrder | MyNet/net/Endian.h:12-15 | In eight bytes the high half comes before the low half |
| Endian.HostOrder | MyNet/net/Endian.h:12-40 | A little-endian host has the least significant byte first in memory, a big-endian host the most significant |
| Endian.SignedRanges | MyNet/net/Buffer.h:194-215 | Two's complement at 8, 16, 32 and 64 bits, in numbers |
| Endian.WireOrder | MyNet/net/Endian.h:12-25 | On a host of either byte order the converted integer lies in memory most significant byte first |
| Endian.WireValue | MyNet/net/Endian.h:27-40 | On a host of either byte order the bytes of the network give the value back |
| Endian.SignedTrip | MyNet/net/Buffer.h:194-277 | Every signed value of every width survives the trip between any two hosts |
| NetBuffer.Buffer.AppendInt | MyNet/net/Buffer.h:194-215 | Appends the two's complement in network byte order and moves the indexes as append does |
| NetBuffer.Buffer.PrependInt | MyNet/net/Buffer.h:282-306 | Prepends the two's complement in network byte order and moves the indexes as prepend does |
| NetBuffer.Buffer.PeekInt | MyNet/net/Buffer.h:244-277 | The number of the first bytes in network byte order, on a host of either byte order |
| NetBuffer.Buffer.ReadInt | MyNet/net/Buffer.h:217-242 | The same, and drops these bytes |
| Endian.UnwireOnAnyHost | MyNet/net/Endian.h:27-40 | What a host takes from the wire does not depend on its byte order |
| Endian.SignedRoundTrip | MyNet/net/Buffer.h:194-277 | Two's complement of every width gives every value that fits back |
| Framing.Send | MyNet/net/Buffer.h:291-316 | The length goes into the room before the payload |
| Framing.Deliver | MyNet/net/Buffer.cc:15-47 | However the wire is cut into reads, with errors in between, the receiver has all of it in order |
| Framing.Receive | MyNet/net/Buffer.h:143-149 | readInt32 and retrieveAsString take exactly one message |
| Framing.Exchange | MyNet/net/Buffer.h:143-316 | While reads deliver parts of the wire the receiver takes a message as soon as it is complete: what it has taken is always the first of the messages sent, and every message whose last byte has arrived is among them |
| Framing.TakeComplete | MyNet/net/Buffer.h:217-277 | Looking at the length first, the receiver takes the messages that have arrived whole and no other |
| Framing.Converse | MyNet/net/Buffer.h:143-316 | Any messages whose length fits 32 bits, between any two hosts and through any cuts, are recovered exactly and in order, with reading and delivery interleaved |
| Framing.FrameUnique | MyNet/net/Buffer.h:291-316 | A stream can be cut into frames in one way only |
| Framing.WriteFields | MyNet/net/Buffer.h:194-215 | Fields of mixed width are written one after the other |
| Framing.ReadFields | MyNet/net/Buffer.h:217-277 | They are read back in order on any host |
| Framing.SendFields | MyNet/net/Buffer.h:194-316 | A message of mixed integers: after the fields there is still room for their length in front |
| ZoneFile.ReadTimeZoneFile | MyNet/base/TimeZone.cc:141-199 | The reader with its loops and its short reads computes the parse of the file by positions, and refuses exactly the files that do not begin with the bytes of TZif |
| ZoneFile.ReadHeader | MyNet/base/TimeZone.cc:146-157 | It refuses exactly the files that do not begin with the bytes 0x54, 0x5A, 0x69 and 0x66, and finds the counts |
| ZoneFile.LoadedByPositions | MyNet/base/TimeZone.cc:155-188 | Where in the file each part of what is loaded comes from, in numbers: counts at 32, 36 and 40, then from 44 the times, the type indexes, types of six bytes and the characters |
| ZoneFile.Int32ByBytes | MyNet/base/TimeZone.cc:115-124 | An integer of four bytes as a signed number with the most significant byte first, and zeros beyond the end |
| ZoneFile.File.ReadBytes | MyNet/base/TimeZone.cc:104-113 | A short read gives what is left |
| ZoneFile.File.ReadInt32 | MyNet/base/TimeZone.cc:115-124 | A big-endian integer, with zeros for bytes beyond the end |
| ZoneFile.File.ReadUint8 | MyNet/base/TimeZone.cc:126-135 | One byte, or zero beyond the end |
| ZoneFile.ReadTimes | MyNet/base/TimeZone.cc:159-165 | The loop reads the transition times at their positions |
| ZoneFile.ReadIndexes | MyNet/base/TimeZone.cc:167-171 | The loop reads the type indexes at their positions |
| ZoneFile.ReadTypes | MyNet/base/TimeZone.cc:173-179 | The loop reads the types at their positions |
| ZoneFile.BuildTransitions | MyNet/base/TimeZone.cc:181-186 | Each transition gets the local time of its own type; an index outside the table is undefined |
| ZoneFile.ReadEncoded | MyNet/base/TimeZone.cc:141-199 | Reading an encoded well-formed version 1 block, whatever follows it, gives its types, transitions and abbreviations back |
| ZoneFile.LoadedIsIndexed | MyNet/base/TimeZone.cc:141-199 | What is loaded can be looked up if and only if the file opened and has at least one type |
| ZoneFile.BadHeader | MyNet/base/TimeZone.cc:155-188 | With memory for the counts, whatever follows the header: a negative count of transitions, and no other, throws; transitions without types and negative character counts are undefined |
| ZoneLookup.LastNotAfterIsBoundary | MyNet/base/TimeZone.cc:201-229 | On a strictly ascending table the linear definition is the one boundary between the transitions not after the sentry and those after it |
| ZoneLookup.LowerBound | MyNet/base/TimeZone.cc:210-213 | The binary search splits the table at the sentry |
| ZoneLookup.FindLocalTime | MyNet/base/TimeZone.cc:201-229 | On a strictly ascending table that can be indexed, the binary search returns the first type if the sentry is before every transition, else the type of the last transition not after it, with every index in range |
| ZoneLookup.LocalAgreesWithUtc | MyNet/base/TimeZone.cc:181-229 | A UTC instant and its local time meet the same transition if and only if the instant is not in the overlap before a transition that lowers the offset |
| ZoneLookup.OverlapMeansLowering | MyNet/base/TimeZone.cc:181-229 | In an overlap the offset is lowered and the local lookup meets a later transition |
| ZoneLookup.LoadedTableIsFit | MyNet/base/TimeZone.cc:141-229 | A block with a type and ascending times loads as a table fit for lookups by UTC, and by local time if and only if every transition comes later than the one before by more than it lowers the offset |
| Numerals.DecimalRoundTrip | MyNet/base/LogStream.cc:25-44 | Decimal output of every 64-bit value, signed or unsigned, reads back as the value, without leading zeros and in at most 20 characters |
| Numerals.WrittenOut | MyNet/base/LogStream.cc:25-59 | Three numerals written out: -128, 90 and BE0F |
| Numerals.HexRoundTrip | MyNet/base/LogStream.cc:46-59 | Hexadecimal output of every pointer value reads back as the value, without leading zeros and in at most 16 characters |
| Numerals.ReversedBackwards | MyNet/base/LogStream.cc:42-57 | The reversed digits are the digits in reading order |
| LogStream.Convert | MyNet/base/LogStream.cc:25-44 | The loop over signed remainders and the reversal write the numeral and a terminator and touch nothing else, also for the least value |
| LogStream.ConvertHex | MyNet/base/LogStream.cc:46-59 | The same for hexadecimal |
| LogStream.WriteDigits | MyNet/base/LogStream.cc:28-35 | The loop writes the digits of the absolute value backwards, whatever the sign |
| LogStream.WriteHexDigits | MyNet/base/LogStream.cc:48-55 | The same for hexadecimal |
| LogStream.ReverseInPlace | MyNet/base/LogStream.cc:42-42 | The reversal in place reverses its range and keeps the rest |
| LogStream.FormatInteger | MyNet/base/LogStream.cc:62-70 | Nothing, or the whole numeral within the buffer |
| LogStream.FormatPointer | MyNet/base/LogStream.cc:173-183 | Nothing, or 0x and the whole numeral within the buffer |
| FixedBuffer.FixedBuffer.Append | MyNet/base/LogStream.h:26-38 | The whole line or nothing, and nothing outside the buffer |
| FixedBuffer.FixedBuffer.AppendPartial | MyNet/base/LogStream.h:40-55 | As much of the line as fits |
| FixedBuffer.FixedBuffer.Add | MyNet/base/LogStream.h:62-62 | Takes over what was written at the current position |
| FixedBuffer.FixedBuffer.Reset | MyNet/base/LogStream.h:63-63 | The buffer is empty again |
| SharedCounter.NoLostUpdates | time-sem.c:529-576 | Under every schedule the counter is zero while the parent holds the mutex, the first check holds, and at the end the counter is children times iterations |
| SharedCounter.FinalCheckExactly | time-sem.c:571-576 | For all int arguments and every schedule, the last check is right if and only if the product fits an int and no argument is negative or one is zero; it is undefined exactly when the product does not fit |
| SharedCounter.WrappedCheckExactly | time-sem.c:571-576 | If the product wraps around, the check is right exactly for counts whose product fits, and with a negative argument exactly when the product is a multiple of 2 to the power of 32 |
| SharedCounter.ComplaintForOneNegative | time-sem.c:534-576 | One child with -1 iterations draws the complaint |
| SharedCounter.ComplaintForTwoNegatives | time-sem.c:534-576 | The arguments -2 and -3 draw the complaint |
| SharedCounter.OverflowForThreeChildren | time-sem.c:534-576 | With 3 and 1000000000 the counter is right, the product is undefined, and wrapped around it is another number |
| SharedCounter.SomebodyMoves | time-sem.c:534-568 | Until the parent is done, some process can move |
| SharedCounter.CounterFits | time-sem.c:539-547 | With int arguments the counter never wraps |
| SharedCounterCode.Processes.Increment | time-sem.c:543-545 | What a child writes is one more than the counter holds at that moment, whatever ran since it read the counter |
| SharedCounterCode.Processes.RunChildLoop | time-sem.c:539-548 | Under any schedule, a child that exits has incremented num_iter times |
| SharedCounterCode.Processes.RunParentLoop | time-sem.c:534-576 | Under any schedule, the first check is silent, the final counter is children times iterations, and the second check is right exactly as stated above |
| FileUtil.LandsInFullExactly | MyNet/base/FileUtil.cc:168-198 | The whole line lands if and only if no write fails before the writes ahead of it have taken the whole line |
| FileUtil.LandedBeforeFailure | MyNet/base/FileUtil.cc:177-190 | What lands when a write fails is what the writes before it took |
| FileUtil.PartialWritesLandInFull | MyNet/base/FileUtil.cc:168-198 | In particular, partial writes without failure lose nothing |
| LostLine.CountsWhatIsLost | MyNet/base/FileUtil.cc:168-198 | A line of two characters of which nothing lands is counted and returned as two |
| FileUtil.WriteFile.WriteLine | MyNet/base/FileUtil.cc:168-198 | The bytes that land are a prefix of the line given by what the writes do; the count grows by the whole line, which is what landed if and only if no write failed early |
| LogFile.LogFile.constructor | MyNet/base/LogFile.cc:8-22 | The first roll happens at once when the clock is past zero; nothing is written |
| LogFile.LogFile.RollFile | MyNet/base/LogFile.cc:97-112 | It rolls exactly in a later second than the last time, keeps everything written, and m_startPeriod stays m_lastRoll rounded down to a day |
| LogFile.LogFile.Append | MyNet/base/LogFile.cc:24-76 | The code with its fields, its mutex and its files does what AfterAppend does to a file as a value; in numbers: a new file is opened exactly in a later second when the roll size is reached, or the count on another day than that of the last roll, and a thread-safe file hangs, with the mutex taken, exactly when with room left the count is reached on the same day and the flush interval is over |
| Rolling.PeriodStartIs | MyNet/base/LogFile.cc:66-67 | The period of a time from 1970 on begins at its last midnight, a multiple of 86400 |
| Rolling.GuardsInNumbers | MyNet/base/LogFile.cc:55-73 | When a roll and when a flush is due, in bytes, counts, days of 86400 seconds and the flush interval |
| Rolling.AppendFacts | MyNet/base/LogFile.cc:52-113 | Everything written grows by what lands of the line; the file rolls, is flushed and counts exactly when due; m_startPeriod stays m_lastRoll rounded down to a day; in a later second than the last roll the open file is left below a positive roll size |
| Rolling.AllLinesLand | MyNet/base/LogFile.cc:24-113 | Over any calls without failing writes the files in roll order concatenate to the lines, despite partial writes and whatever the clock does |
| LogFile.LogFile.Flush | MyNet/base/LogFile.cc:39-50 | Whoever calls it, it gets on at once exactly when there is no mutex or nobody has it, be it the caller itself |
| LogFileLock.HangsForGood | MyNet/base/LogFile.cc:24-76 | A thread that locks the mutex again while it has it never goes on, and in no continuation does another thread get into the section or anything more get written |
| LogFileLock.HangsExactly | MyNet/base/LogFile.cc:24-76 | In every run of any number of threads, the file is what the appends make of it one after the other in the order of the mutex, and a thread hangs if and only if one of them, then the last, found a flush due by the counts, the day and the flush interval of the file |
| LogFileLock.EveryLineLands | MyNet/base/LogFile.cc:24-113 | In every run without failing writes the files of a thread-safe log file hold the lines whole, in the order of the mutex |
| LogFileLock.OthersGoOn | MyNet/base/LogFile.cc:24-50 | While nobody hangs, the owner of the mutex has a step, and if there is no owner every thread in a call has |
| LogFile.AppendAll | MyNet/base/LogFile.cc:24-112 | Thread-safe or not, the files in roll order concatenate to the lines of the calls that returned and of the one that hangs, which is the first that finds a flush due, if one does |
| LogFile.HangsOnItsOwnMutex | MyNet/base/LogFile.cc:24-76 | A thread-safe log file whose append hangs, with the mutex still held by its caller |

## Left out

- Sockets, acceptor, channel and connector: thin wrappers over system calls, or dependent on an event loop that is not in the repository.
- Process information, exceptions and whole-file reading: queries of the operating system.
- The logger front end, timestamps, `Fmt` and floating-point output: they rest on `snprintf` and `gmtime`; `operator<<(float)` only calls itself.
- `Singleton`, `ThreadLocal`, `Thread` and `Atomic`: wrappers over pthread and compiler builtins.
- `fillHMS`, `capacity()`, `getCount()`, `size()` and similar accessors: they would only add easy members.
- The mutex with its conditions is one value, held in a field by the classes that use it; its instructions are functions from one value to the next. In the code beside the machines the program counters of all threads are a field too, and what the other threads do is given by actions of the machine.
- In the machine of the asynchronous logger a critical section is one step, which mutual exclusion allows, except that the wait inside it is a step of its own; the mutex itself is the one of `Monitor`.
- Buffers of the asynchronous logger are values with an identity and the lines they hold. That a buffer of characters holds lines whole or not at all is proved of `FixedBuffer`, and aliasing appears as two places with one identity.
- In the machine of the asynchronous logger the log is a list of entries and a hang may come with any append; its code writes to a thread-safe `LogFile`, which decides. The steps that the back end takes while a thread waits in `StopAndJoin` are those of the machine.
- `start` of the logger, which waits on a latch until the thread runs; the machine begins with `m_running` set and the thread at its loop.
- What is queued in the logger when its flag goes false is conserved, not delivered.
- Memory: stack and heap are assumed to suffice. In `readTimeZoneFile` the array of `readBytes` lies on the stack and the tables grow on the heap, so counts near the limit of int can end in a crash or in `bad_alloc`.
- `waitForSeconds` is a wait that may return at any moment.
- Callers of `run` that are blocked when the pool stops, tasks that call `run` themselves, and calls without workers beyond forgetting the task: the code gives no guarantee there. A task is assumed to return.
- An infinite row of writes that make no progress and raise no error: `writeLine` would not end.
- Failing forks, signals and the individual lock implementations of `time-sem.c`: the lock is an abstract mutex.
- `append` of bytes that lie in the buffer itself, and sizes near the limit of `size_t`.
- Fairness of the scheduler: shutdown and deadlock freedom are stated as bounded steps and as what holds when nothing can move.
