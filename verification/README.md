# A verified model of the kernel's message passing, scheduler, file system and terminals

This project models the parts of a small message-passing operating system whose correctness is hardest to see by
reading one function at a time, and proves properties of them.

**Message passing and scheduling** (`Ipc`, `IpcProofs`, `IpcEffects`, `Sched`, `Kernel`). `Ipc` is an abstract
rendezvous machine: who is blocked on whom, in which order, and what is in whose message buffers. `Kernel` is the
process table itself, an array whose entries are linked into sending queues by `qSending` and `nextSending`; its methods
do what `kernel/proc.c` and `kernel/clock.c` do, field by field, and each is proved to be one step of the abstract
machine and one step of the abstract scheduler. The assertions of the C code stand in the methods where they stand in C
and are proved. `IpcProofs` shows what holds on every run of the machine; `Sched` bounds how long a runnable process can
be kept waiting.

**The file system** (`Bytes`, `Device`, `Layout`, `Maps`, `Extents`, `Inodes`, `SuperBlocks`, `Directory`,
`ReadWrite`, `FsInv`, `FsSteps`, `Descriptors`, `FsState`, `FsCalls`, `Mkfs`, `FileSystem`, `FileContents`, `FsRuns`,
`NewFiles`, `FsFaults`). The device is an array of bytes, read and written by sectors through the one buffer `fsbuf`.
The lower modules prove each loop of `fs/*.c` against what it means: bits of the two maps, records of the inode array,
entries of the directory as a map from names to inode numbers, chunks of a file. `FsInv` says what is true of the
device between requests, `FsState` adds the inode table, the file descriptors and the reference counts, and the class
`FileSystem` shows that making a file system establishes all of it, that open, create, close, unlink, read and write
keep it, and that starting again on the device finds every file there. `FsFaults` holds sequences of its calls that
reach what goes wrong.

**Terminals** (`Console`, `Tty`, `TerminalRead`, `TerminalProofs`, `TerminalLines`, `TerminalFaults`, `TerminalRuns`).
The scrolling console with its termination argument; the ring of keys and the line discipline; and the protocol
between user processes, the file system task and the terminal task for suspended and resumed reads, as programs over
the machine of `Ipc`: from the keys typed on a terminal to the count and the line its reader has in the end, which
calls are never answered, and where the two tasks run into the deadlock panic.

**Numerals** (`Numerals`). The two printers of numbers.

Where the code does not do what one would expect, the code is modelled as it is, a lemma says exactly when the expected
property holds, and for the main ones a run shows that the code gets there:

- `IpcProofs.AssertionIsExact`: the last assertion of `msg_receive` fails exactly when an interrupt is pending and the
  caller asks for a process that is not sending to it. `IpcProofs.AssertionFails` is a run of one interrupt.
- `IpcProofs.InterruptCommutes`: an interrupt before or after a receive comes to the same exactly when the receive
  buffer was clear but for source and type.
- `FsSteps.RemoveIsExact` and `FsSteps.FullSectorIsCut`: unlinking cuts live entries off the directory exactly when the
  walk ends at the last entry of a full sector and another live entry has a hole before it; in a full directory that is
  every entry of the last sector but the last. `FsFaults.UnlinkTooMuch` creates 28 files and unlinks the first: no files
  and blocks make the device one in order then, and an unlink of the last file frees it but does not find its entry.
- `FsCalls.RemovableExactly` and `FsRuns.RefusedForever`: a refused unlink keeps a reference, so the file can never be
  removed afterwards, whatever is called. `FsFaults.UnlinkInVain` unlinks a file while it is open and after it is
  closed.
- `FileContents.ReadKeepsSizeExactly` and `FileContents.FirstReadLengthens`: a read moves the position although it reads
  from the start, and so lengthens a file exactly when the position and what is asked for exceed its size; one that has
  just been opened by any read that asks for anything. `FsFaults.ReadWhatIsNotThere` reads a byte of an empty file.
- `ReadWrite.WriteIsExact`, `FileContents.WriteReachesNext` and `ReadWrite.ReadIsExact`: when a transfer runs past the
  extent, into the first bytes of the file behind it, or past the end of the file. `FileContents.ReadAnswers` and
  `FileContents.WriteAnswers` say how far. `FsFaults.WriteIntoAnother` fills one
  file and writes a byte more.
- `FsCalls.OpenHalts`, as a clause of `FileSystem.FileSystem.DoOpen`: opening the root directory always fails an
  assertion, which compares its inode number with a device number.
- `Console.ScrollingEnds`: showing a character never ends exactly for a backspace out of the top of a window that is
  below the top of a console that has not wrapped yet. `Console.GetStuck` gets there from a new screen with newlines
  and backspaces.
- `Console.ScrollingBackExactly` and `Console.ScrollingOnExactly`: from which states repeated scrolling comes to the
  oldest line and to the newest.
- `TerminalFaults.LostExactly` and `TerminalFaults.DeadlockOfTasks`: which calls are never answered, and when the system
  stops. `TerminalRuns.EmptyReadIsLost`, `TerminalRuns.OvertakenReadIsLost`, `TerminalRuns.FileSystemDeadlocks` and
  `TerminalRuns.TerminalDeadlocks` are runs into each case.
- `Numerals.DecimalExactly`, `Numerals.HexExactly`, `Numerals.ZeroPaddedExactly`: which numbers print wrongly.

The panic of `alloc_imap_bit` (`fs/open.c:138`) is never reached, as its loop returns in its first round; with a full
map it answers 0, and so does the model.

## Model

| member | source | states |
|---|---|---|
| IpcProofs.PostKeepsInv | kernel/proc.c:292-355 | a send keeps the global invariant: queues hold exactly the blocked senders, nobody waits for a message that is there, chains of senders end |
| IpcProofs.TakeKeepsInv | kernel/proc.c:372-523 | a receive keeps it, whether it takes an interrupt, a queued sender or blocks |
| IpcProofs.InterruptKeepsInv | kernel/proc.c:533-556 | so does an interrupt |
| IpcProofs.StepKeepsInv | kernel/proc.c:68-104 | every step keeps the invariant and the history: per sender, what was posted is what arrived and then what is in flight, and queues are in order of posting |
| IpcProofs.RunIsSafe | kernel/proc.c:251-276 | in every state of every run that has not panicked the invariant holds and no cycle of senders exists |
| IpcProofs.DeliveredAtMostOnce | kernel/proc.c:304-344 | on every run the letters of a sender that have arrived are a prefix of those it posted: each at most once, in order, as sent |
| IpcProofs.SenderWaitsForDelivery | kernel/proc.c:328-351 | a blocked sender runs again exactly in the step in which its own letter is delivered |
| IpcProofs.TakesLongestQueued | kernel/proc.c:412-431 | a receive from anybody takes the process queued longest and leaves the rest of the queue |
| IpcProofs.TakesTheNamedSender | kernel/proc.c:438-486 | a receive from one process takes it out of the middle of the queue and keeps the order of the others |
| IpcProofs.DeadlockIsExact | kernel/proc.c:251-302 | a send is refused exactly when queueing the sender would close a cycle |
| IpcProofs.AssertionIsExact | kernel/proc.c:372-523 | when, and only when, the assertion on the pending interrupt fails |
| IpcProofs.AssertionFails | kernel/proc.c:506-519 | it fails on a run of one interrupt, for any process and any other it then asks |
| IpcProofs.RendezvousCommutes | kernel/proc.c:292-326 | send then receive and receive then send end in the same state with the same message |
| IpcProofs.InterruptCommutes | kernel/proc.c:386-408 | interrupt then receive and receive then interrupt end in the same state exactly when the buffer was clear |
| IpcEffects.SendEffect | kernel/proc.c:292-355 | what a send changes, place by place |
| IpcEffects.ReceiveEffect | kernel/proc.c:372-523 | what a receive changes, place by place |
| Sched.OneRefillDecides | kernel/proc.c:38-52 | one refill makes somebody ready exactly when a runnable process has a positive priority, and a second refill changes nothing |
| Sched.BestIsUnique | kernel/proc.c:39-46 | the choice of the scan is unique |
| Sched.RefillsByPriority | kernel/proc.c:36-53 | when no runnable process has ticks the one chosen has the greatest priority of the runnable ones and as many ticks, and every blocked process keeps what it has |
| Sched.ChargedItsPriority | kernel/proc.c:48-51 | from one refill to the next a process that is runnable at both is charged exactly its priority, on every run between |
| Sched.BoundFalls | kernel/clock.c:13-28 | no kernel entry raises what a waiting process may still have to wait for, and every charge lowers it |
| Sched.NobodyStarves | kernel/clock.c:13-28 | over any run a runnable process that does not get the processor sees at most that many charges |
| Sched.EveryTickCharges | kernel/clock.c:16-27 | without nested interrupts every clock interrupt charges somebody |
| Sched.RunsWithinBound | kernel/clock.c:13-28 | so it runs within that many clock interrupts |
| Kernel.ProcTable.constructor | kernel/main.c:26-90 | the table at the start is an initial state of both machines |
| Kernel.TasksStartAhead | kernel/main.c:35-48 | every task starts ahead of every other process, in ticks and in priority |
| Kernel.TasksAreChosen | kernel/proc.c:36-53 | so whenever fresh ticks are given a task is chosen, if one can run |
| Kernel.ProcTable.Schedule | kernel/proc.c:33-53 | picks the lowest-numbered of the runnable processes with most ticks, after at most two scans, and changes nothing but ticks |
| Kernel.ProcTable.Deadlock | kernel/proc.c:251-276 | ends, and is true exactly when a chain of senders leads from dest to src |
| Kernel.ProcTable.MsgSend | kernel/proc.c:292-355 | on the linked table does the abstract send and one scheduler step |
| Kernel.ProcTable.LinkBehind | kernel/proc.c:328-344 | the walk to the end of the list appends the sender to the queue it stands for |
| Kernel.ProcTable.MsgReceive | kernel/proc.c:372-523 | on the linked table does the abstract receive and one scheduler step |
| Kernel.ProcTable.FindSender | kernel/proc.c:411-469 | finds the process the abstract machine chooses, with its place in the list; all the assertions on receiver and sender hold |
| Kernel.ProcTable.WalkTo | kernel/proc.c:445-457 | the walk to a named sender ends at it, with its predecessor |
| Kernel.ProcTable.Unlink | kernel/proc.c:477-498 | taking the entry out of the head or the middle removes exactly it from the queue |
| Kernel.ProcTable.InformInt | kernel/proc.c:533-556 | does the abstract interrupt |
| Kernel.ProcTable.SysSendrec | kernel/proc.c:68-104 | stamps the real sender and does one step of the abstract machine; which arguments fail which check |
| Kernel.ProcTable.ClockHandler | kernel/clock.c:13-28 | advances the clock with its wrap, charges, wakes the terminal task and reschedules as one scheduler step |
| Kernel.LinkedAppend | kernel/proc.c:333-344 | appending at the end of one chain of links leaves every other chain |
| Kernel.LinkedRemove | kernel/proc.c:477-486 | so does removing from the head or the middle |
| Bytes.WordRoundTrip | fs/main.c:279-282 | a 32-bit field written as four bytes reads back as itself |
| Bytes.LowBytesFirst | fs/main.c:279-282 | the bytes of a number start with the lowest: times 256 is one byte further |
| Layout.RegionsAreDisjoint | fs/main.c:113-122 | the regions mkfs lays out follow one another without overlap |
| Layout.SmapReaches | fs/main.c:120-120 | the sector map has a bit for every sector of the device and one more, in no more sectors than that takes |
| Maps.AllocImapBit | fs/open.c:116-140 | marks exactly the lowest clear bit of the inode map, or answers 0 when all are set |
| Maps.AllocSmapBit | fs/open.c:142-177 | succeeds exactly when the run at the first clear bit is clear, and then marks exactly it, across bytes and sectors |
| Maps.FreeImapBit | fs/link.c:56-66 | succeeds exactly when the bit was set, and clears only it |
| Maps.FreeSmapBits | fs/link.c:68-103 | succeeds exactly when all the bits were set, and clears exactly them, for every start and count |
| Maps.AllocateThenFree | fs/link.c:68-103 | freeing what was allocated restores the map byte for byte |
| Extents.FirstClearStartsBlock | fs/open.c:155-167 | in a map of whole blocks the first clear bit starts a free block |
| Extents.BlockAllocationIsExact | fs/open.c:162-175 | so an allocation fails none of its assertions exactly while some whole block is free |
| Extents.AllocatingAddsBlock | fs/open.c:142-177 | an allocation adds exactly the lowest free block |
| Extents.FreeingRemovesBlock | fs/link.c:68-103 | freeing a held block finds its bits set and removes exactly it |
| Inodes.PatchedRecord | fs/main.c:270-284 | writing the four fields of a record gives that record and changes no other byte |
| Inodes.RewritesOneRecord | fs/main.c:270-284 | every other record stays |
| Inodes.Table.GetInode | fs/main.c:225-263 | gives the live entry with one reference more, or loads the record into the first free one; fails exactly when there is neither |
| Inodes.Table.SyncInode | fs/main.c:270-284 | rewrites exactly the record of the entry's inode |
| Inodes.GotKeepsCache | fs/main.c:225-263 | afterwards live entries still agree with the device and are unique |
| Inodes.RewriteKeepsCache | fs/main.c:270-284 | changing a live entry together with its record keeps the agreement |
| Directory.StripPath | fs/misc.c:16-33 | the name in a path: one slash dropped, at most twelve bytes, none of them a slash |
| Directory.PathsName | fs/misc.c:16-33 | one slash at the start makes no difference, the first twelve bytes after it are the name unless a slash is among them, and what follows these, or a zero byte, is ignored |
| Directory.LooksUpName | fs/misc.c:16-63 | a name is looked up with or without a slash before it and gives its inode or 0; a slash alone, and nothing, give the root |
| Directory.SearchFile | fs/misc.c:35-63 | gives the inode of the first entry compared that has the name, for any contents of the directory, and compares one entry too many where that is in a sector it reads |
| Directory.FindsIsLookup | fs/misc.c:35-63 | in a directory in order that is lookup in the map it stands for |
| Directory.PaddedIsInjective | fs/misc.c:54-54 | comparing the twelve bytes compares the names |
| Directory.InsertRefines | fs/open.c:196-226 | an entry written into the first hole, or behind the last entry, inserts exactly its pair |
| Directory.RemoveRefines | fs/link.c:133-137 | clearing an entry removes exactly its name |
| Directory.NewDirEntry | fs/open.c:196-226 | the walk and the write insert exactly the name, in the first hole or behind the last entry, and only a directory without holes grows |
| Directory.RemoveDirEntry | fs/link.c:114-148 | the walk clears the entry of the inode exactly if it is among those the directory's size covers, and gives the directory's new size |
| Directory.ShrinkIsExact | fs/link.c:145-148 | cutting the directory to its live count keeps the map exactly when no hole comes before a live entry |
| ReadWrite.Transfer | fs/read_write.c:69-96 | wherever the chunks it touches lie on the device, a write changes exactly the bytes it was given, a read copies out exactly those at the position, and the count is what the chunks cover |
| ReadWrite.WriteIsExact | fs/read_write.c:66-96 | a write that fits the extent moves all its bytes; otherwise it runs past the extent unless it starts beyond it |
| ReadWrite.ReadIsExact | fs/read_write.c:63-96 | a read returns what was asked for if the file has it, and runs past the file's end if not |
| FsInv.DataWriteKeepsDisk | fs/read_write.c:84-91 | writing inside an extent leaves maps, inodes and directory in order |
| FsInv.ResizeKeepsDisk | fs/read_write.c:97-101 | so does changing a file's size |
| FsInv.CreatedIsOk | fs/open.c:98-113 | after a creation the device is in order with the file and its block added |
| FsInv.RemovedIsOk | fs/link.c:52-148 | after a removal it is in order exactly if the directory still stands for the remaining files |
| FsSteps.CreateKeepsDisk | fs/open.c:98-226 | the five writes of a creation together: an inode and a block nobody had, and the device in order |
| FsSteps.TookIsFresh | fs/open.c:116-140 | the inode is the lowest that no file has |
| FsSteps.FullDirectoryFits | fs/open.c:218-221 | the directory never has more entries than there are inode numbers |
| FsSteps.SizeAfterIsExact | fs/link.c:119-148 | the size unlink leaves keeps the map exactly when no live entry is cut off |
| FsSteps.FullSectorIsCut | fs/link.c:128-148 | in a full last sector every entry but the last cuts the directory when it is removed |
| FsSteps.RemoveIsExact | fs/link.c:52-148 | the writes of a removal together keep the device in order exactly when no live entry is cut off |
| Descriptors.OpenKeepsFilp | fs/open.c:71-75 | every used descriptor stays held by exactly one pointer when one is opened |
| Descriptors.CloseKeepsFilp | fs/open.c:228-236 | and when one is closed |
| Descriptors.OpenKeepsRefs | fs/open.c:71-75 | reference counts stay open descriptors plus refused unlinks plus one for the root |
| Descriptors.RefuseKeepsRefs | fs/link.c:42-51 | also over a refused unlink |
| Descriptors.CloseKeepsRefs | fs/open.c:228-236 | and over a close |
| FsState.OpenFilesExist | fs/main.c:225-268 | an open file is in use, is not the root, and is cached as it is on the device |
| FsState.MoveKeepsTables | fs/read_write.c:94-101 | moving a position and lengthening the file keep the tables in order, positions within their files |
| FsCalls.OnlyTheRootCannot | fs/open.c:77-91 | every file in use passes the checks of open but the root |
| FsCalls.RemovableExactly | fs/link.c:42-51 | a file can be removed exactly when it is regular, not open and no unlink of it was ever refused |
| FsCalls.CreatedIsFound | fs/open.c:36-75 | a file that has been created is found by every path with its name, and what other paths find stays |
| FsCalls.UnlinkedIsGone | fs/link.c:114-148 | a file that has been removed is found by no path, and what other paths find stays |
| FsRuns.RefusedForever | fs/link.c:42-51 | over every sequence of calls, an inode whose unlink was refused stays in use and cannot be removed |
| FsCalls.AfterTransfer | fs/read_write.c:62-96 | moving bytes leaves the device and the inode table in order, past the extent too |
| SuperBlocks.WriteSuper | fs/main.c:114-135 | sector 1 then holds the super block word for word, and no other byte has changed |
| SuperBlocks.ReadSuper | fs/main.c:286-313 | what is read back is the super block that was written, so there is at most one |
| SuperBlocks.SaysWhereRegionsAre | fs/main.c:115-124 | the sizes and starts the super block tells are those of the regions |
| SuperBlocks.SaysWhereInodesAre | fs/main.c:124-126 | and what it says of the fields of an inode is where they are |
| Mkfs.SaysWhereEntriesAre | fs/main.c:127-130 | and of a directory's entry |
| FsCalls.SuperIsThere | fs/main.c:83-95 | a device in order has the magic number and its super block, so none of its files is lost to a second mkfs |
| FsCalls.FirstState | fs/main.c:61-95 | when the file system starts the only reference is that to the root |
| Mkfs.MakeFs | fs/main.c:147-208 | the maps, inodes and entries written are those of the root and three terminals, in order |
| Mkfs.WriteSmap | fs/main.c:164-179 | exactly bit 0 and the root's block are set in the sector map |
| Mkfs.TerminalsAreInOrder | fs/main.c:188-207 | the file dev_tty with the decimal numeral of a terminal behind it is the inode two after that number, the TTY device with that number as its minor |
| FileSystem.FileSystem.constructor | fs/main.c:60-67 | on any device in order, starting establishes the invariant of the whole with nothing open and the files the device has |
| FileSystem.FileSystem.InitFs | fs/main.c:59-96 | a device without the magic number gets the new file system; one that has it keeps every byte, and so its files and blocks |
| FileSystem.FileSystem.CreatFile | fs/open.c:98-113 | creates exactly when an inode, a whole block and a table slot are free; takes the lowest inode and block, puts the name in the first hole or behind the last entry, and touches no byte of a file |
| FileSystem.FileSystem.DoOpen | fs/open.c:20-96 | exactly when it halts, when it answers -1 and changes nothing, and otherwise which descriptor, entry and inode it ties together |
| FileSystem.FileSystem.DoClose | fs/open.c:228-236 | gives up exactly the descriptor, its entry and its reference |
| FileSystem.FileSystem.DoUnlink | fs/link.c:14-150 | exactly when it halts, answers -1 or is refused; otherwise the file, its block and its name are gone and nothing else, and the invariant holds exactly unless a live entry was cut off |
| FileSystem.FileSystem.RemoveFile | fs/link.c:55-148 | the bits are set and get freed, the record and the slot are cleared, then the entry is if the directory has it; on a device in order it does |
| FileSystem.FileSystem.DoRdwt | fs/read_write.c:14-104 | what a read and a write change, wherever behind the directory a write goes, by whom they are refused, and that the invariant is kept |
| FileContents.WriteOverwrites | fs/read_write.c:62-102 | after a write the file is what it was with the data in place of the bytes at the position |
| FileContents.WriteLeavesOthers | fs/read_write.c:62-102 | the record and every byte of every other file are as before |
| FileContents.WriteReachesNext | fs/read_write.c:66-96 | a write of no more than the extent has room for leaves the next file's first byte; a longer one overwrites it |
| FileContents.ReadGivesPrefix | fs/read_write.c:28-93 | a read gives the first bytes of the file, whatever the position |
| FileContents.WriteThenRead | fs/read_write.c:62-102 | what was written is read back |
| FileContents.WritesAdd | fs/read_write.c:62-102 | a write and another behind it leave what one write of all the bytes would |
| FileContents.ReadAnswers | fs/read_write.c:63-96 | a read answers all that is asked for up to the end of the last sector of the file where the buffer holds the file, else up to the end of the buffer the file ends in |
| FileContents.WriteAnswers | fs/read_write.c:66-96 | a write answers all it is given where the extent has room for it, else up to the end of the buffer the extent ends in |
| FileContents.ReadKeepsSizeExactly | fs/read_write.c:94-101 | a read leaves the size exactly when the position and the length asked for stay within it, and lengthens the file otherwise |
| FileContents.FirstReadLengthens | fs/read_write.c:28-101 | the first read of a file just opened lengthens it exactly when it asks for anything, by what it reads |
| FsFaults.UnlinkTooMuch | fs/link.c:145-148 | from an empty device, 28 creations and one unlink that succeeds: no files and blocks make the device one in order, the last file is found by its name, and its unlink frees it and fails the assertion that its entry is there |
| FsFaults.UnlinkInVain | fs/link.c:42-51 | from an empty device, a file unlinked while open is refused, and again when nobody has it open |
| FsFaults.WriteIntoAnother | fs/read_write.c:66-96 | from an empty device, a write of one byte to one file changes another |
| FsFaults.ReadWhatIsNotThere | fs/read_write.c:28-100 | from an empty device, a read of a new file answers one byte and makes the file a byte long |
| Tty.Terminal.PutKey | kernel/tty.c:153-161 | a key is appended to the queue the ring stands for, or dropped when 256 are waiting |
| Tty.Terminal.TakeKey | kernel/tty.c:243-248 | takes the oldest key |
| Tty.Terminal.DoRead | kernel/tty.c:123-132 | opens a read, forgetting any that was open, and answers with a suspension |
| Tty.Terminal.DrainKey | kernel/tty.c:242-271 | one key: what is left and what is transferred make up what was asked for, the buffer holds the line of the keys taken, and the read is answered exactly when a key ends it |
| Tty.Terminal.DevWrite | kernel/tty.c:241-273 | an open read takes exactly the keys up to the one that ends it, is answered at most once, and all other keys are lost |
| Tty.Terminal.DoWrite | kernel/tty.c:134-151 | the bytes of a write are shown in order, whatever the chunks |
| Tty.PlacesAreKept | kernel/tty.c:250-261 | the line consists of exactly those printable keys that no later backspace is left over for |
| Tty.LineAtPlaces | kernel/tty.c:250-261 | and these stand in it in the order typed |
| Tty.KeyEdits | kernel/tty.c:250-261 | a key from space to tilde is appended, a backspace takes the last character, and every other key leaves the line |
| Tty.TextIsLine | kernel/tty.c:250-256 | so a text typed is the line, character for character |
| Tty.EchoIsLine | kernel/tty.c:251-260 | the echo, typed again, gives the same line |
| Tty.EchoShowsChanges | kernel/tty.c:251-260 | a key is echoed exactly when it changes the line |
| Tty.TextIsTaken | kernel/tty.c:241-271 | a read of more characters than a line of text has takes the line and its newline, and no key behind that |
| Tty.TextFillsRead | kernel/tty.c:250-269 | a text as long as was asked for ends the read without a newline |
| Console.Screen.constructor | kernel/console.c:20-44 | the part of the video memory each console gets, and the line its title takes |
| Console.Screen.ScrollScreen | kernel/console.c:123-166 | keeps the window on a line boundary within the console |
| Console.ScrollsOneBack | kernel/console.c:125-149 | scrolling back moves the window up one line; before the first wrap it stops at the console's top, afterwards at the oldest line, or at the top where the window cannot go round |
| Console.ScrollingBackExactly | kernel/console.c:125-149 | it can be repeated to the oldest line exactly before the first wrap, or when the cursor is in the console's first lines or its last |
| Console.ScrollsOneOn | kernel/console.c:150-159 | scrolling on moves the window down one line, round the end after the first wrap, until it ends with the cursor's line |
| Console.ScrollingOnExactly | kernel/console.c:150-159 | and can be repeated until it does exactly when so many lines are there and the window is not below them before the first wrap |
| Console.CursorMoves | kernel/console.c:60-76 | a character moves the cursor on by one, a newline to the start of the next line, a backspace back by one |
| Console.Screen.OutChar | kernel/console.c:52-96 | the scroll loop ends, and the window ends where it shows the cursor, moved no further than that takes |
| Console.PutPlaces | kernel/console.c:60-88 | the cursor stays in the console, and wraps exactly behind its last word |
| Console.ScrollFollows | kernel/console.c:90-93 | each scroll of the loop comes nearer, also round the end of the console |
| Console.ScrollingEnds | kernel/console.c:90-93 | the loop ends exactly when the character is not a backspace out of the window's top before the first wrap |
| Console.GetStuck | kernel/console.c:90-93 | characters that bring a new screen to where it does not |
| TerminalProofs.RunIsOk | fs/main.c:23-56 | on every run of the users and the two tasks every call is where somebody has it, and the buffers hold what the programs expect |
| TerminalProofs.ReplyIsToOwnRequest | fs/read_write.c:54-57 | what the file system takes inside a terminal read or write is the reply to its own request, with its count |
| TerminalProofs.AnsweredAtMostOnce | fs/main.c:41-55 | nobody is sent an answer without a call, and nobody two for one call |
| TerminalProofs.AnswerIsDue | fs/main.c:52-55 | an answered user has the count of its write, or the length of the line of the keys its read was completed with |
| TerminalLines.StepKeepsLines | kernel/tty.c:241-273 | the buffer of an open read begins with the line of the keys taken for it, consecutive ones of its terminal, none of which ended it |
| TerminalLines.DueIsForLastCall | fs/read_write.c:41-57 | what an answer must say is what the user's last call asked for, with a line only for a read, and of the terminal it named |
| TerminalLines.AskedIsCalled | fs/read_write.c:41-54 | on every run what the terminal task is asked is what the user asked whose call is being carried out: the terminal that call named, its count and its kind |
| TerminalLines.ReaderGetsItsLine | kernel/tty.c:262-269 | on every run an answered reader has the count of its line, no more than it asked for, and the line in its buffer: that of consecutive keys of the terminal it asked for up to the first that ends the read; an answered writer has the count it wrote |
| TerminalLines.TextIsAnswered | kernel/tty.c:250-269 | where the keys were text and a newline, the line is that text and the count its length |
| TerminalFaults.LostIsForsaken | kernel/tty.c:123-132 | a call is lost exactly when its user waits and neither task has it, nor is it open on a terminal |
| TerminalFaults.LostExactly | kernel/tty.c:123-132 | that comes about exactly when a read for nothing is taken up, or one while another is open on the terminal |
| TerminalFaults.LostForever | kernel/tty.c:123-132 | and then the user waits in every later state of the run |
| TerminalFaults.DeadlockOfTasks | kernel/proc.c:299-302 | no system call of users or tasks fails but the two tasks' sends to each other, of a request, an opening or a resumption, and these exactly while the other is sending back |
| TerminalRuns.EmptyReadIsLost | kernel/tty.c:123-132 | a run on which a read of nothing is never answered |
| TerminalRuns.OvertakenReadIsLost | kernel/tty.c:123-132 | a run on which a read is never answered because another user read the terminal |
| TerminalRuns.FileSystemDeadlocks | kernel/proc.c:299-302 | a run into the deadlock panic of the file system task |
| TerminalRuns.TerminalDeadlocks | kernel/proc.c:299-302 | and one into that of the terminal task |
| Numerals.I2A | lib/vsprintf.c:14-24 | writes the digits at the pointer, and nothing before it |
| Numerals.DigitsAreCanonical | lib/vsprintf.c:14-24 | for a number that is not negative they are a numeral without leading zeros that has its value |
| Numerals.CanonicalIsUnique | lib/vsprintf.c:14-24 | and the only one |
| Numerals.CodeIsCharacter | lib/vsprintf.c:21-21 | the digits are the characters 0 to 9 and A to F |
| Numerals.NegativeDigits | lib/vsprintf.c:16-21 | for a negative number they are no numeral |
| Numerals.HexExactly | lib/vsprintf.c:73-77 | %x prints the bits exactly for numbers that are not negative |
| Numerals.DecimalExactly | lib/vsprintf.c:78-86 | %d reads back as the number exactly unless it is the least int |
| Numerals.FormatNumber | lib/vsprintf.c:65-103 | the field is the text padded on the left, through the inner buffer |
| Numerals.PaddedLength | lib/vsprintf.c:96-103 | its length is the greater of the width and the text's, and the text stands at its end |
| Numerals.ZeroPaddedExactly | lib/vsprintf.c:52-103 | with zeros for padding the field still reads back exactly when no zero came to stand before a minus sign |
| Numerals.Itoa | lib/klib.c:62-92 | prints 0x and what the recursive printer gives for the 32 bits read without a sign |

## Left out

- Interrupts inside a system call: every system call and every handler is one step.
- Processes other than the idle one never being runnable: process 7, which never calls the kernel, is taken to exist,
  as it does in the table the system starts with (`kernel/main.c:181-183` is its loop); without it the scheduler's
  loop need not end.
- The unions of the message body: a message is the largest of the three layouts.
- Addresses: a process's memory is a map from addresses to messages, and buffers of reads and writes are values.
- Process creation, which copies table entries with their links, and everything of the memory manager.
- Descriptor `fd_cnt`, which only process creation uses.
- More than one device, so the `i_dev` of an inode: there is one device.
- The disk driver: a sector is read or written at once, and 32-bit overflow of byte positions is not modelled.
- Mkfs.MakeFs: a device is expected to hold zeros in the directory's extent behind its first sector, which mkfs does not
  clear and directory walks later read.
- FileSystem.FileSystem.InitFs: so is a new device; one that has the magic number is expected to be in order.
- `do_lseek`, which no message reaches.
- FileSystem.FileSystem.DoOpen: names of twelve bytes or more are excluded when a file is created, because copying
  one runs over the next entry.
- FileSystem.FileSystem.CreatFile: so are they here.
- Directory.NewDirEntry: names of twelve bytes are excluded for the same reason.
- Kernel.ProcTable.SysSendrec: a SEND to ANY or INTERRUPT is excluded, as the code then indexes the table outside its
  bounds; so are system calls of the idle process, which makes none.
- FileSystem.FileSystem.DoRdwt: transfers whose chunks do not all lie on the device and positions beyond an int are
  excluded.
- FileSystem.FileSystem.DoClose: a descriptor that is not open is excluded, as the code follows the null pointer.
- Maps.AllocImapBit: looks at the first sector of the inode map only, as the code does; mkfs makes no other.
- The sector allocator does not compare with the number of sectors of the device, and neither does the model.
- Video memory contents, the cursor and start-address registers and the switching of consoles.
- Tty.Terminal.DrainKey: the echo is a list of the characters shown, not calls of `Console.Screen.OutChar`.
- TerminalProofs.RunIsOk: the other tasks do not take part, and file system calls that do not concern a terminal are
  one kind of call that is answered at once; a terminal is named by its number, where the code finds it through a
  path or a descriptor.
- The keyboard's scan codes and its own ring, the command line and the debugging output.
- The parsing of format strings, and the %c and %s cases.
