# ChairmanOS: a verified model

ChairmanOS is a small x86 kernel with three text terminals, a six-slot process table, a read-only file
system and a handful of user programs. This project models the parts of it that carry state or
arithmetic worth proving, in the form the C and assembly have (classes over mutable arrays, loops with
invariants), and proves each routine against a specification on values, about which the real laws are
then proved, most of them over whole runs.

`dafny verify dfyconfig.toml` checks everything.

## How it is organised

| module | models |
|---|---|
| `Bytes`, `Text`, `Platform` | bytes, blits, C strings, lines, and the sizes that kernel and programs share |
| `Machine` | what the scheduler promises: one stack of processes per terminal, and a CPU; laws over whole runs |
| `KernelState` | the kernel's variables as a value, what each routine writes, and the proof that every write carries out a step of the stack machine |
| `Kernel` | `sys_execute`, `sys_halt`, `schedule`, `context_switch` in place on the pid table, control blocks, terminals, TSS and page directory |
| `Paging` | `paging.c` in place, and the two-level page walk of 32-bit paging (section 4.3 of the Intel SDM, Volume 3A) |
| `Screen` | one logical terminal as a value: `putc`, `scroll`, `backspace`, `clear`, the line editor, the endless canvas |
| `Terminals` | the three logical terminals, over whole runs of keys, program output and reads |
| `Pages` | a second account of the terminals in their users' terms: endless sheets, of which a screen shows 25 rows; the terminals follow it over whole runs |
| `Storage` | where the logical terminals are stored: one live copy and three backing copies |
| `Console` | the terminal code in place on physical memory, `keyboard_buffer`, `terminal_buffer` and the cursor arrays |
| `System` | kernel and console together, sharing one set of page tables |
| `FileSys`, `Grep`, `Frames` | `read_data`/`file_read`, the chunked line search of grep, the two-file merger of fish |
| `BlinkNode`, `BlinkPool`, `Blink` | fish's blinking characters: one node's clock, the linked list in its fixed pool with what the screen shows of it, and the routines in place |
| `Lib` | `memset`, `memcpy`, `memmove`, `strlen`, `strrev`, `itoa`, `%#x` |

The kernel never stores the process stacks; it encodes them in `pidlist`, in the `parent_pid` of the
control blocks and in `terminals[t].shell_pid`. `KernelState.Refines` says what the encoding is. A pid is
reused as soon as it is free, so a parent's pid may exceed its child's; the stacks, not the pids, give
the order.

## What was found

* `sys_execute` reads and writes the *displayed* terminal where it means the *scheduled* one
  (student-distrib/syscall.c:137-140). A program that is started while another terminal is displayed
  leaves a state that encodes no process stacks at all; in every other case the encoding is kept.
  `KernelState.ExecuteRefines` proves both directions for one call and `System.System.Drive` for whole
  runs. Its header promises 0 or -1 for success or failure,
  but a full process list returns 0 (syscall.c:122-125), and the model does too.
* The messages of a failing `sys_execute` (syscall.c:66, 99, 103, 124) go through `puts` to the displayed
  terminal, whoever called it. A program that fails to start another in the background so writes into
  the line that the user is typing on the displayed terminal: `System.MessageHidesLine`.
* The three terminals share one `terminal_buffer`. An entered line reaches the next reader as it is
  if and only if it fills the buffer or the buffer was empty from the line's length on; what was there
  beyond it is delivered too (`Terminals.LineDelivery`).
* `terminal_read` does not count the newline it appends: if the pending line has at least `nbytes` characters
  it writes and reports one byte more than was asked for (`Console.Console.TerminalRead`).
* grep cuts lines after 1024 bytes. On every text it prints what it should if and only if no line
  that contains the pattern is longer than that (`Grep.FoundIsMatched`); other long lines do no harm.
* `read_data` clamps a request correctly if and only if `length + offset` does not wrap around 32 bits
  (`FileSys.GrantedExact`).
* A negative count reaches `read_data` as a large unsigned one, so that `file_read` then delivers all the rest
  of the file (`FileSys.OpenFiles.FileRead`).
* `mp1_ioctl_add` accepts location 0, which cannot be told from a free slot. The next add that succeeds
  takes the same slot again and makes the node point at itself, so that the tick never ends
  (`BlinkPool.AddedAtZero`).
* `mp1_ioctl_sync` always redraws with the off character, because the flags `testb` leaves never let
  `cmovl` move (fish/blink.S:281-282). `Blink.BlinkList.Sync` states when the cell is right all the same;
  with distinct locations it is right again from the tick that ends the node's phase (`Blink.BlinkList.Wait`).
* A blink length of 0 or above 0x8000 lasts one tick, because the countdown is compared as a signed
  number; `BlinkNode.Phase` holds for all 16-bit lengths.
* `scroll` writes the colour of its last loop one row too high (lib.c:331, lib.c:348), so the attributes of
  the last row stay as they were. The model does the same.
* `memcpy` is documented for disjoint ranges but is right whenever the destination does not start inside
  the source after its first byte.

## Model

| member | source | states |
|---|---|---|
| `Machine.ReachableStates` | student-distrib/syscall.c:454-524 | in every state reachable from boot the three stacks are well formed (base pid t under terminal t, other pids in 3..5, none twice) and every suspended process resumes on its own kernel stack |
| `Machine.RunKeeps` | student-distrib/syscall.c:470-524 | over any run, the saved esp of every suspended process stays inside the kernel stack of its pid |
| `Machine.StepPlaced` | student-distrib/syscall.c:198-214 | each tick, execute and halt keeps it so |
| `Machine.FreeFrom` | student-distrib/syscall.c:121-136 | the pid chosen is the least unused one; none exactly if all are used |
| `Machine.ResumePointsDistinct` | student-distrib/syscall.c:198-214 | two suspended processes never share a resume point |
| `Machine.RegionsDisjoint` | student-distrib/syscall.c:144-159 | user pages, control blocks and kernel stacks of two pids never overlap, and the stacks stay below the user pages |
| `Machine.LowerProcessesKept` | student-distrib/syscall.c:365-404 | while a terminal stays above depth d, nothing that happens on any terminal changes its lowest d processes |
| `Machine.HaltReturnsToCaller` | student-distrib/syscall.c:198-228 | LIFO returns: after any run in which the program is preempted and starts others, its halt resumes exactly the context of the execute call that started it |
| `Machine.HaltRestartsShell` | student-distrib/syscall.c:385-388 | a halt at depth 1 enters a fresh shell with the same pid, alone on the same terminal |
| `Machine.ExecuteStarts` | student-distrib/syscall.c:120-214 | a program that starts is entered under the least unused pid from 3 up, on top of its suspended caller; otherwise everything stays and the caller goes on |
| `Machine.TickStarts` | student-distrib/syscall.c:487-495 | the first tick to an unseen terminal enters its base shell there and suspends the running process |
| `Machine.OthersKept` | student-distrib/syscall.c:365-524 | a step changes no stack but the running one and that of a terminal it starts |
| `Machine.DescheduledFrozen` | student-distrib/syscall.c:470-484 | a started terminal that is not scheduled keeps its stack over any run |
| `Machine.PreemptedResumes` | student-distrib/syscall.c:497-524 | a preempted process goes on at exactly the context the tick saved, whatever the other terminals did meanwhile |
| `KernelState.BootRefines` | student-distrib/keyboard.c:506-530 | the variables after the first shell's start encode the boot stacks |
| `KernelState.FreeAgrees` | student-distrib/syscall.c:121-136 | the pids with flag 1 are exactly those on a stack: the search in the pid table finds the least unused pid |
| `KernelState.TickRefines` | student-distrib/syscall.c:454-524 | a tick, also one that starts a terminal, carries out the machine's tick and keeps the encoding |
| `KernelState.ChildRefines` | student-distrib/syscall.c:120-214 | an execute on the displayed terminal pushes one process and keeps the encoding |
| `KernelState.ContinueRefines` | student-distrib/syscall.c:92-126 | an execute that fails or finds the process list full changes no stack |
| `KernelState.ExecuteRefines` | student-distrib/syscall.c:110-141 | the new state encodes some stacks if and only if no program was started or the displayed terminal is the scheduled one, and then it encodes the stacks one execute later |
| `KernelState.OwnerIsScheduled` | student-distrib/keyboard.c:630-639 | the search of recover_terminal_curr_pid always stops at the scheduled terminal |
| `KernelState.HaltRefines` | student-distrib/syscall.c:365-404 | a halt pops the child, or restarts the base shell under the same pid on the same terminal, and keeps the encoding |
| `KernelState.ParentChain` | student-distrib/syscall.c:137-177 | following parent_pid from any live process visits the processes below it in order and stays at the base pid t |
| `Kernel.Kernel.constructor` | student-distrib/syscall.c:34-43 | init_pid and the first execute reach the boot machine |
| `Kernel.Kernel.EnterProgram` | student-distrib/syscall.c:143-214 | control block, TSS and user page of the new process; no other page-directory slot changes |
| `Kernel.Kernel.SysExecute` | student-distrib/syscall.c:110-214 | both branches of pid selection, every error return and the message handed to puts, on the whole state |
| `Kernel.Kernel.Execute` | student-distrib/syscall.c:49-231 | the system call keeps the kernel valid, and its variables encode any stacks at all, if and only if it returns an error or its caller's terminal is displayed; the value returned, and the text printed, character by character |
| `KernelState.SaidText` | student-distrib/syscall.c:65-126 | every failing exit but the missing file prints a line, ended by a newline; nothing is printed for a program that runs |
| `KernelState.SaidReads` | student-distrib/syscall.c:65-126 | character by character, each failing exit prints its own text, and no two print the same |
| `Kernel.Kernel.RecoverTerminalCurrPid` | student-distrib/keyboard.c:630-639 | the first terminal showing the pid, and only that one, is set to the parent |
| `Kernel.Kernel.SysHalt` | student-distrib/syscall.c:365-404 | the whole new state, for a child and for a base shell |
| `Kernel.Kernel.Halt` | student-distrib/syscall.c:365-404 | the system call carries out the machine's halt |
| `Kernel.Kernel.ContextSwitch` | student-distrib/syscall.c:470-525 | the whole new state, for a started and for an unseen terminal |
| `Kernel.Kernel.Schedule` | student-distrib/syscall.c:454-462 | the timer tick carries out the machine's tick |
| `Kernel.Kernel.UserPageMapped` | student-distrib/syscall.c:500-506 | in every valid state user addresses translate to 8 MB + 4 MB * current_pid, current_pid is the scheduled terminal's top process and tss.esp0 the top of its kernel stack |
| `System.MachineSide` | student-distrib/syscall.c:454-524 | typing and output never reach the process state: a mixed run is, for the scheduler, the run of its ticks, executes and halts |
| `System.TerminalSide` | student-distrib/keyboard.c:459-497 | a mixed run is, for the terminals, the run of its keys, of the writes and reads under the terminals scheduled by then, and of the messages of failing executes on the displayed one; nothing else reaches them |
| `System.RunSeat` | student-distrib/keyboard.c:459-497 | over any mixed run, each terminal's sheet, edit line and read flag follow from the events alone: keys and messages reach the displayed terminal, output and reads the scheduled one |
| `System.OutputShown` | student-distrib/keyboard.c:471-490 | a program's output extends what its own terminal shows, whichever is displayed, and changes nothing else |
| `System.OffstageKept` | student-distrib/keyboard.c:459-571 | a terminal neither displayed nor scheduled in any state of a run keeps its screen, cursor, edit line and flag |
| `System.StepSides` | student-distrib/syscall.c:454-524 | ticks, executes and halts, and no other event, move the stacks, and only a switch key changes which terminal is displayed |
| `System.EchoKept` | student-distrib/keyboard.c:222-373 | echo survives any mixed run in which output, the messages of sys_execute included, goes to terminals with no line under edit |
| `System.MessageHidesLine` | student-distrib/syscall.c:65-126 | a failing execute, also of a background program, breaks the echo of a line under edit on the displayed terminal |
| `System.RunPlaced` | student-distrib/syscall.c:470-524 | saved stack pointers stay on their stacks in mixed runs too |
| `System.System.Boot` | student-distrib/keyboard.c:506-530 | page tables, terminals and first shell together reach a valid system with empty edit lines |
| `System.System.Handle` | student-distrib/keyboard.c:459-571 | every event, handled by the kernel or the console in place, carries out one step of stacks and terminals, messages included, unless it starts a program in the background; exactly then the kernel's variables encode no stacks afterwards |
| `System.System.Drive` | student-distrib/syscall.c:454-524 | any run of ticks, executes, halts, keys, writes and reads follows the specification to its end if and only if no program is started in the background; after the first such start the variables encode no stacks |
| `System.System.AddressSpace` | student-distrib/paging.c:79-153 | at any time all 2^32 addresses translate as promised: the kernel's memory to itself, the user page to the running process, each terminal's video page to the memory that holds its screen, nothing else; tss.esp0 agrees |
| `System.RunningTranslation` | student-distrib/paging.c:208-253 | the page walk behind it, from what each table holds |
| `Paging.BootTranslation` | student-distrib/paging.c:79-153 | right after pagingInit: identity on [4 KB, 8 MB) and [200 MB, 240 MB), three video pages, nothing else |
| `Paging.Mmu.PagingInit` | student-distrib/paging.c:79-131 | the loops and entry writes leave exactly those tables, for every linear address |
| `Paging.Mmu.AllocateKmallocMem` | student-distrib/paging.c:142-153 | ten 4 MB pages from 200 MB, every other slot unchanged |
| `Paging.Mmu.AllocatePage` | student-distrib/paging.c:208-216 | the 4 MB region translates to the given page, every other address as before |
| `Paging.Mmu.VidmemAlloc` | student-distrib/paging.c:250-253 | one entry of the video table, present for users, and no other |
| `Screen.CanvasWindow` | student-distrib/lib.c:221-355 | text of any length written after a clear shows as the last 25 rows of its layout on an endless 80-column sheet, the cursor is the sheet's end relative to that window, and every cell keeps the terminal's colour |
| `Screen.ShowsAll` | student-distrib/lib.c:221-355 | a terminal that shows a sheet at any moment goes on showing it, extended, as any text is written |
| `Screen.LineBreakHidesLine` | student-distrib/lib.c:262-291 | output that ends a row leaves a blank before the cursor, so that a line under edit is no longer echoed |
| `Screen.ShowsPut` | student-distrib/lib.c:221-300 | one putc extends the sheet by one character or to the next row, scrolling or not |
| `Screen.ScrolledRows` | student-distrib/lib.c:308-355 | row by row what scrolling leaves, with the forgotten attributes of the last row |
| `Screen.CountedIs` | student-distrib/keyboard.c:472-479 | terminal_write counts every byte but NUL |
| `Screen.PutPainted` | student-distrib/lib.c:308-355 | the attribute that scroll forgets does not show on a screen of one colour |
| `Screen.PutBounded` | student-distrib/lib.c:262-291 | putc keeps the cursor on the screen and at least as far as the edit line is long, scrolling included |
| `Screen.PressedBounded` | student-distrib/keyboard.c:222-281 | so does every key: neither backspace nor Enter moves the cursor off the screen |
| `Screen.PressedEchoes` | student-distrib/keyboard.c:222-373 | every key keeps the cells before the cursor equal to the edit line, even if it wraps or scrolls |
| `Screen.PressedEdits` | student-distrib/keyboard.c:222-373 | every key does to keyboard_buffer what it means: append up to 128, drop the last, clear |
| `Terminals.Run` | student-distrib/keyboard.c:243-281 | over any mixture of typing, switching, output and reads every cursor stays on its screen and at or beyond input_count |
| `Terminals.EchoAgreement` | student-distrib/keyboard.c:222-373 | over any run in which programs write only to terminals with an empty edit line, every terminal's cells before its cursor spell its edit line |
| `Terminals.EditLineIsTyped` | student-distrib/keyboard.c:243-373 | a terminal's edit line is the fold of the keys pressed while it was displayed |
| `Terminals.TbufKept` | student-distrib/keyboard.c:255-281 | only Enter and reads change terminal_buffer |
| `Terminals.LineDelivery` | student-distrib/keyboard.c:255-280 | after any run, other terminals' lines entered and read included, what was typed on a terminal and then entered is what its next read finds, followed by what terminal_buffer held beyond it; it is delivered as it is if and only if it fills the buffer or the buffer was empty from its length on |
| `Pages.KeyedPage` | student-distrib/keyboard.c:222-373 | every key does to screen and line what it means on the sheet: append a character, take the last one back, begin a new row, clear; a screen that has scrolled does not scroll back |
| `Pages.PrintedPage` | student-distrib/lib.c:221-355 | output appends to the sheet, and the screen follows the cursor down |
| `Pages.RunPage` | student-distrib/keyboard.c:222-571 | over any run of keys, switches, output and reads, every terminal shows the sheet that its own events spell |
| `Pages.Bystander` | student-distrib/keyboard.c:459-571 | events on other terminals change nothing on this one |
| `Pages.ColoursKept` | student-distrib/lib.c:221-355 | over any run every screen keeps its terminal's colour |
| `Pages.Readiness` | student-distrib/keyboard.c:261-262 | a terminal's flag is up exactly if its last Enter came after its last read |
| `Pages.ReadWaits` | student-distrib/keyboard.c:425-442 | after a read the terminal's flag is down until the next Enter there, the other flags stay, and terminal_buffer is empty until the next Enter |
| `Storage.DrawnView` | student-distrib/lib.c:231-295 | storing a new value for one terminal changes no other logical terminal, displayed or hidden |
| `Storage.SwitchInvisible` | student-distrib/keyboard.c:540-571 | switch_terminal's four copies change no logical screen, cursor or edit line |
| `Console.Console.TerminalInit` | student-distrib/keyboard.c:506-530 | establishes the invariant: sound terminals, the displayed one blank, video pages mapped to their screens, hardware cursor right |
| `Console.Console.Scroll` | student-distrib/lib.c:308-355 | the nested in-place loops shift the rows up, byte for byte, and touch no other memory |
| `Console.Console.Clear` | student-distrib/lib.c:44-64 | the displayed terminal becomes blank in its colour with the cursor home |
| `Console.Console.Putc` | student-distrib/lib.c:221-300 | the displayed or the hidden scheduled terminal, wherever it is stored, becomes one character longer; no other byte changes |
| `Console.Console.StepBack` | student-distrib/lib.c:747-769 | the cursor steps back across row starts and blanks its new cell |
| `Console.Console.TerminalWrite` | student-distrib/keyboard.c:459-497 | only the scheduled logical terminal changes, in the same way whether it is visible or hidden; returns nbytes less the NULs among them; error returns |
| `Console.Console.Puts` | student-distrib/lib.c:202-212 | prints on the displayed logical terminal, whoever calls it, and on no other |
| `Console.Console.KeyChar` | student-distrib/keyboard.c:319-373 | a character is stored and echoed unless the line is full |
| `Console.Console.KeyBackspace` | student-distrib/keyboard.c:243-252 | erases from line and screen unless the line is empty |
| `Console.Console.KeyCtrlL` | student-distrib/keyboard.c:223-227 | clears screen and line length |
| `Console.Console.KeyEnter` | student-distrib/keyboard.c:255-281 | hands the line over, clears it, and ends the row without leaving a blank one after a wrap |
| `Console.Console.SwitchTerminal` | student-distrib/keyboard.c:540-571 | only the displayed terminal's number changes for the user; video pages follow |
| `Console.Console.KeyPress` | student-distrib/keyboard.c:175-375 | every key acts on the displayed logical terminal and on nothing else |
| `Console.Console.TerminalRead` | student-distrib/keyboard.c:411-445 | returns min(nbytes, pending length) characters of the pending line followed by a newline, one more than it counts against nbytes, lowers the terminal's flag and no other, and empties terminal_buffer; error return |
| `Console.Console.Deliver` | student-distrib/keyboard.c:255-445 | end to end: what is typed on a terminal, in whatever company, and entered fills the next reader's buffer as edited, followed by a newline, and terminal_buffer is all zero again |
| `Console.Console.SysVidmap` | student-distrib/syscall.c:435-446 | the address handed out translates, byte by byte, to the memory that holds the caller's screen; bad pointers are refused |
| `Console.Console.Drive` | student-distrib/keyboard.c:175-497 | any run of keys, output and reads, in place, is the run of the logical terminals |
| `FileSys.ConcatenatedAt` | student-distrib/filesys.c:118-136 | byte i of the concatenated data blocks is byte i mod 4096 of block i / 4096 |
| `FileSys.SliceOfFile` | student-distrib/filesys.c:118-136 | the bytes fetched block by block are a slice of the file |
| `FileSys.GrantedExact` | student-distrib/filesys.c:116-116 | the length check grants min(length, rest of file) if and only if the 32-bit sum does not wrap |
| `FileSys.FileSystem.ReadBlocks` | student-distrib/filesys.c:118-136 | the bytes before the first bad block number are copied, no other byte of the buffer changes, and the count is returned if and only if there was no bad block; otherwise -1 |
| `FileSys.FileSystem.ReadData` | student-distrib/filesys.c:102-137 | bad inode, offset at or past the end, bad block, and the exact slice; the buffer needs room only for what the file holds |
| `FileSys.WholeFile` | student-distrib/filesys.c:102-137 | on a file that is wholly on the disk a request within it meets no bad block and yields exactly [offset, offset + length) |
| `FileSys.OpenFiles.FileRead` | student-distrib/filesys.c:256-272 | for every int32 count: the next bytes of the file and the new position; a negative count asks for all the rest; a bad block leaves the position, a bad descriptor or inode number leaves everything |
| `FileSys.OpenFiles.ReadOpened` | student-distrib/filesys.c:256-272 | on a file wholly on the disk: exactly [position, min(position + count, file length)), and 0 for a positive count only at the end |
| `FileSys.OpenFiles.ReadMany` | student-distrib/filesys.c:256-272 | any sequence of reads yields consecutive slices, concatenating to the file from the first position to the last |
| `Grep.Strncmp` | syscalls/ece391support.c:35-46 | zero exactly if the pattern is a prefix of the rest of the line |
| `Grep.StrcpyDown` | syscalls/ece391support.c:14-17 | the overlapping copy moves the line's rest to the front, and touches nothing past its terminator |
| `Grep.SearchLine` | syscalls/ece391grep.c:42-51 | finds the pattern exactly if it occurs somewhere in the line |
| `Grep.MatchesIs` | syscalls/ece391grep.c:42-44 | which is to say, exactly if the line is something, then the non-empty pattern, then something |
| `Grep.FillBuffer` | syscalls/ece391grep.c:22-27 | carried-over bytes followed by the unread file stay the same text |
| `Grep.ScanBuffer` | syscalls/ece391grep.c:28-57 | printed output plus what is still to be printed is conserved over one buffer |
| `Grep.DoOneFile` | syscalls/ece391grep.c:10-66 | for every NUL-free file and pattern, the output's lines are the matching pieces, each once and in the order of the file, however lines straddle buffers; they are the matching lines if and only if no matching line exceeds 1024 bytes |
| `Grep.FoundListing` | syscalls/ece391grep.c:42-50 | the output read back line by line is fname:line for each matching index once, in increasing order, and an empty line at the end |
| `Grep.OutputSize` | syscalls/ece391grep.c:42-50 | as many lines are printed as match |
| `Grep.PiecesRejoin` | syscalls/ece391grep.c:29-39 | cutting loses nothing: the pieces, put together again, are the file |
| `Text.LinesJoin` | syscalls/ece391grep.c:31-32 | the lines of a text, joined by newlines, are the text |
| `Grep.FoundIsMatched` | syscalls/ece391grep.c:29-57 | the same equivalence, on texts |
| `Grep.FittingFound` | syscalls/ece391grep.c:33-39 | cutting is harmless for every line in which the pattern does not occur |
| `Frames.AddFrames` | fish/fish.c:80-149 | terminates, and issues exactly one addition for every position not blank in both files, in their order |
| `Frames.AddRow` | fish/fish.c:101-131 | one row of it, the shorter line going on with spaces |
| `Frames.NextChar` | fish/fish.c:103-117 | lockstep: a file whose line is over waits, and end of file counts as an empty line |
| `Frames.AllCovered` | fish/fish.c:119-129 | the additions are those for the positions not blank in both files, each once, row by row and column by column, with those characters at row * 80 + col + 40 |
| `Blink.BlinkList.Malloc` | fish/fish.c:161-171 | the first slot with location 0, or null exactly if there is none |
| `Blink.BlinkList.FindHelper` | fish/blink.S:351-379 | the most recent node at the location, or null exactly if none is there |
| `Blink.BlinkList.Add` | fish/blink.S:105-184 | prepends the node, on, in the first free slot and shows it; fails without change exactly if the location is off the screen or the pool is full; what it makes of a well-formed list is one if and only if the location is not 0; also on a list with such a node in it, where it stays a list if and only if the slot was not in it |
| `BlinkPool.AddedAtZero` | fish/blink.S:140-162 | after an add at location 0 the next add that succeeds makes the list's first node point at itself, and no sequence of slots is the list any more |
| `BlinkPool.PoolFull` | fish/fish.c:161-171 | malloc fails exactly when the list has as many nodes as the pool has slots |
| `Blink.BlinkList.Remove` | fish/blink.S:187-237 | takes exactly the most recent node at the location out of the list and clears its slot; every other node keeps all but its link |
| `Blink.BlinkList.Find` | fish/blink.S:302-349 | a copy of the most recent node at a location |
| `Blink.BlinkList.Sync` | fish/blink.S:240-300 | the target takes over lengths, countdown and status; its cell shows the off character, which is right if and only if it is off or both characters are equal |
| `Blink.BlinkList.Tick` | fish/blink.S:49-99 | every node of the list ticks once, no other slot changes, and the screen is redrawn in list order |
| `Blink.BlinkList.Wait` | fish/fish.c:41-44 | any number of ticks, on any list; with distinct locations every node's cell shows the character its status selects, and the cell that sync left wrong does again from the tick that ends its node's phase |
| `Blink.BlinkList.Drive` | fish/fish.c:36-57 | any run of ticks and adds, as main mixes them, plays out the nodes' clocks, and if every node has a location of its own every cell shows the character its status selects |
| `BlinkNode.Phase` | fish/blink.S:64-86 | closed form: k ticks after it was added a node is on if and only if k mod (on + off) < on, and its countdown is what is left of the phase |
| `BlinkPool.AddedPhase` | fish/blink.S:64-86 | the closed form for a node added at any moment of a run that goes on with ticks and adds |
| `BlinkNode.StillCounting` | fish/blink.S:64-66 | a phase under way ends with the tick its countdown announces, not before |
| `BlinkNode.StayInStep` | fish/blink.S:267-275 | synchronised nodes keep equal countdown and status on every later tick |
| `BlinkPool.AddShows` | fish/blink.S:164-170 | an add at a new location keeps every cell showing its node |
| `BlinkPool.TickShows` | fish/blink.S:68-86 | a tick redraws exactly the nodes whose phase ends, in whatever order, and keeps the others shown |
| `BlinkPool.RemoveShows` | fish/blink.S:206-223 | removing a node leaves the others shown if no two share a location |
| `BlinkPool.SyncShows` | fish/blink.S:277-285 | after sync the target is shown if its face is the off character, and every other node as before |
| `BlinkPool.UnlinkedChain` | fish/blink.S:206-217 | relinking the predecessor leaves an acyclic list without that node |
| `BlinkPool.UnlinkedUsed` | fish/blink.S:214-223 | after the slot is cleared the list is again exactly the slots in use |
| `Lib.Memset` | student-distrib/lib.c:451-488 | byte-by-byte meaning for every length and alignment |
| `Lib.Memcpy` | student-distrib/lib.c:552-592 | byte-by-byte meaning for every length and alignment, on disjoint ranges and on copies downwards |
| `Lib.Memmove` | student-distrib/lib.c:604-625 | the destination receives the old source bytes for every overlap |
| `Lib.Strlen` | student-distrib/lib.c:432-440 | index of the first NUL |
| `Lib.Strrev` | student-distrib/lib.c:407-423 | the string is reversed in place, its terminator and all other bytes stay |
| `Lib.Itoa` | student-distrib/lib.c:365-398 | writes the numeral and a NUL, for every 32-bit value and radix 2..36 |
| `Lib.NumeralCorrect` | student-distrib/lib.c:365-398 | that numeral parses back to the value, holds no NUL and has no leading zero except "0" |
| `Lib.ParseDigits` | student-distrib/lib.c:386-391 | the digits of the loop, reversed, parse back to the value |
| `Lib.FormatHex8` | student-distrib/lib.c:125-135 | %#x hands puts a string of exactly 8 hexadecimal digits that parses back to the value |

## Left out

- Port I/O, PIC, PIT, RTC, IDT, GDT, trap handlers and the assembly entry and exit wrappers: an interrupt is one atomic step, and cli/sti and IRQ masking are not modelled.
- Boot parsing, kmalloc and the mouse driver; the source of the last two is not part of this model.
- Command parsing, directory lookup and program loading in sys_execute: a `Command` says which of the checks of lines 65-105 fails, if any; the "shell" image always loads.
- The descriptor table of sys_open and sys_close, read_dentry_by_name, dir_read, sys_getargs, RTC system calls: finite and easy.
- Contents of kernel stacks and user pages: a saved context is its esp and ebp, and returning to it is the `Control` value of a step.
- ss0, ret_addr, arg and the file array of the control block, the other page-entry bits, TLB flushes, remap_video_memory; clearPage, since allocatePage never fails.
- Scan-code tables and the shift, caps-lock, ctrl and alt flags: a key press arrives as a `Key`, and typed characters are never NUL or a line break. Keys that do nothing are not modelled.
- The Esc key: it clears both buffers and halts the running process; only the halt is modelled.
- Programs that write to the screen through the page from sys_vidmap.
- printf other than %#x, memset_word, memset_dword, strcpy and strncpy of the kernel; the direction flag that memmove leaves set.
- The RTC read that paces fish's loop, ioctl results that add_frames ignores, its repeated close of a finished file, and files that fail to open.
- The other user programs and the drafts under temp/: thin clients of the system calls.
- System.System.Drive: what the kernel does after a program was started in the background is not followed further; Kernel.Kernel.Execute says exactly what that one call does.
- Console.Console.TerminalRead: the wait for the flag is a precondition, and so is room for the bytes written, the newline included.
- Grep.DoOneFile: text files without NUL, a file that opens and is wholly on the disk, and, unless the whole file fits, a stack buffer whose last byte is not a newline when the function is entered; output is a sequence of bytes.
- FileSys.FileSystem.ReadData: requests whose end wraps around 32 bits are excluded, since they run past the inode's block table; GrantedExact says what the check does with them.
- FileSys.OpenFiles.FileRead: for the same reason, a negative count is excluded when the position is at or beyond its absolute value.
- Frames.AddFrames: two different descriptors, opened at position 0, on files that are wholly on the disk; the blink lengths are constant and left out.
- Blink.BlinkList.Add: the user's structure always copies, so that failure path is absent.
- Blink.BlinkList.Wait: if two nodes share a location, the clocks are followed but not which of them the cell shows.
