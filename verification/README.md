# A verified model of a three-terminal teaching kernel

The kernel runs up to seven processes on three terminals (ttys). Each tty has a shell; a shell
executes programs, which may execute others; a timer hands the processor from tty to tty. Programs
read a read-only file system through file descriptors. A keyboard driver edits one command line per
tty and echoes it on an 80 by 25 text screen that wraps and scrolls. The project models these parts,
two of the user programs (`cat` and `grep`), the list of blinking characters of the `fish` program,
and number printing, and proves what they promise over every input and every run.

## How it is organised

* **File system** (`FileSystem`): a file is a flat byte sequence; the block walk of `read_data` is
  proved to deliver exactly a slice of it, or to fail exactly when it consults a bad block.
* **Processes.** `Processes` gives the process table as a value and one function per kernel entry
  (`Next`). `Chains` defines the machine the table stands for, one stack of slots per tty and an
  active tty, and a relation `Represents`; every entry is a step of that machine. `Runs` starts from
  the state bootup leaves and carries the relation through every sequence of entries in which no read
  stores over the kernel (`Orderly`). On it rest `Scheduling` (bounded waiting, no stale context),
  `Nesting` (halt undoes execute), `Isolation` (program images), `Launch` (what a new process and the
  shells start with), `Descriptors` (reads follow the file) and `Handles` (open, close and directory
  reads). `SlotMask` holds the loops over the 8-bit mask. `Kernel` has the entries as they update
  fields in place, each proved to leave exactly the state the functions of `Processes` describe.
* **User programs** (`Cat`, `GrepText`, `Grep`): on top of the in-place kernel's open, read and close;
  the bytes of a read pass through the process's own memory. `Interludes` lets any other processes run
  between a program's calls, and between a read and the use of its bytes.
* **Terminal.** `Screen` states what the buffer should show (a window on the wrapped layout of
  everything written) and proves it; `ScreenDriver` is the in-place driver. `Editor` is a simple line
  editor and `Scancodes` says what each key does in it; `Keyboard` is the driver on its 1024-byte buffers. `Console` joins the driver, the three
  screens, and what programs print and read.
* **Blink list** (`BlinkList`, `BlinkPool`): the list as a value with its timing, and the linked list
  inside its pool of 2000 structures.
* **Numbers** (`Numbers`, `Division`): `itoa`, `strrev` and the padded hexadecimal form.
* `Basics` holds the byte type, minimum and maximum, and a few facts about sequences.

## What is a parameter

An `Event` is one kernel entry by the current process, a timer interrupt, or one user-mode store.
`execute` and `halt` are single steps because every vector from 32 on is an interrupt gate, so no
timer interrupt falls inside them. `read` re-enables interrupts, so timer interrupts can fall inside
it. It is still one step here because what it uses is its own: no step of another process touches its
PCB (`Runs.OthersUntouched`) or its program region (`Isolation.StepKeepsImage`), and the disk never
changes. The one exception is the directory counter, which all processes share: two directory reads
that interleave inside each other are not covered.

How far a kernel stack has grown when its pointers are saved is part of the event; so is uninitialised
stack memory that the code can read (`junk`, `junkArgs`), the scancodes, what the keyboard holds for a
terminal read (`typed`), and the contents of buffers before the first read. A saved stack pointer pair
stands for the suspended computation. Page directories, the page table and physical memory are part of
the state; addresses are translated as section 4.3 of the Intel SDM, Volume 3A, describes for 32-bit
paging with 4 KB and 4 MB pages. PCB and page-directory memory starts zeroed (`PowerOn`).

What the rest of the system does between two steps of a user program is a parameter too
(`Interludes.Others`): a function of the state that may give any run of timer interrupts and of entries
of other processes, as long as none stores over the kernel and the program gets the processor back.

`read` stores through the caller's buffer pointer in supervisor mode and checks it only for NULL. The
process table, the page directories and the kernel stacks lie in the kernel's page, from 4 MB up to
8 MB, so a read into that range overwrites them. What is then left of the kernel is a parameter of the
event (`wreck`): any state at all. `Chains.ReadKeepsTableIff` gives the exact condition on the
addresses under which a read keeps the table in order, and every theorem about whole runs is about
runs all of whose reads meet it (`Orderly`). `Isolation.ReadIntoPcbBreaksTable` shows the damage on the
actual layout of a PCB: any other value read over a process's number or its parent's breaks the table.

## Where the code differs from its comments, or from what one expects

* `read_data` looks at the next block number before it tests for the end of the file. A read that
  runs past the end of a file whose size is a multiple of 4096 therefore fails if that extra block
  number is out of range. `ReadFailsIff` gives the exact condition. `grep` can fail for it on a file that
  `cat` prints: whether it does depends on where the lines end, and `Grep.SearchFile` says exactly when.
* `fs_load` returns 0 only for an empty file, against its comment (`Kernel.Kernel.FsLoad`); `execute`
  ignores the result. A program with a block that cannot be read is started half loaded:
  `Isolation.ImageLoaded` says byte by byte what the process finds.
* `execute` never writes the child mark of the new PCB and `open` never writes the file position.
  Both are right only because of invariants over the whole run, which are proved.
* The branch of `execute` for a lone first process (mask 0xC0) is never taken after bootup.
* `halt` of a root shell leaves the process table as it is.
* A failed file read adds -1 to the position of the descriptor. After a failed read at the start of a
  file the next read returns 0, although nothing was received: `Descriptors.ZeroAfterFailure`. So "0
  means the whole file" holds as long as no read fails (`Descriptors.ZeroMeansWholeFile`). With failures
  the position is the sum of all returns, 0 comes back exactly when that sum is the size or -1
  (`Descriptors.ZeroMeans`), and from -1 on nothing is ever received (`Descriptors.StuckBeforeStart`).
* `terminal_read` leaves the command buffer unfit for use when no byte is asked for and the line is
  not empty. `Keyboard.CommandLine.TakeLine` states exactly when, and
  `Keyboard.CommandLine.ReadAfterEmptyRead` what the next reader then finds behind the next line.
* `terminal_read` waits for its own tty's line but takes the active tty's: a program gets its own line if
  and only if its tty is still the active one, or the two lines agree as far as it asks (`Console.OwnLineIff`).
* Every key reprints the line at the command location, also when a program has printed since that was
  set; the line then covers the output (`Console.OutputIsOverwritten`).
* Backspace does not take back a character typed into a full line, because that character was never
  inserted: `Editor.BackspaceUndoesInsert` gives the exact condition.
* A blinking character at location 0 is accepted, but 0 is also the mark of a free structure.
  The next add is given the same structure and makes it point at itself, and the list no longer ends
  (`BlinkPool.SecondAddLoops`). An add keeps the list finite if and only if the structure it is given
  is not on the list (`BlinkPool.AddEndsIff`).
* A blink length of 0 or above 32768 lasts one tick (`BlinkList.TimingClosedForm` covers all lengths).

## Model

| member | source | states |
|---|---|---|
| FileSystem.ReadFailsIff | student-distrib/files.c:309-384 | read_data fails if and only if the inode number is out of range or, with the offset inside the file, some block from the offset's to the last one consulted is; otherwise its bytes are exactly that slice of the flat file |
| FileSystem.ReadFlat | student-distrib/files.c:309-384 | on a file whose blocks are all good a read is a slice of the flat file for every offset and length, and returns its length |
| FileSystem.StopsAtBadBlock | student-distrib/files.c:350-364 | at the first bad block consulted a read returns -1, having stored exactly the bytes before that block |
| FileSystem.ReachesEnd | student-distrib/files.c:350-383 | a read that meets only good blocks delivers everything up to its own end or the file's |
| FileSystem.WholeRead | student-distrib/files.c:309-384 | a read of the whole file delivers exactly the bytes before the first bad block, all of them if and only if every block that holds the file can be read, and returns 0 if and only if the file is empty |
| FileSystem.LegibleIs | student-distrib/files.c:309-384 | what can be read of a file is its longest prefix all of whose blocks can be, and the whole file if and only if every block that holds it can be read |
| FileSystem.CopyBlocks | student-distrib/files.c:350-383 | the block-by-block copy loop: what it stored of any text laid out along the blocks, why it stopped, and that nothing else in the buffer changed |
| FileSystem.ContentLaid | student-distrib/files.c:350-383 | the flat file is what a walk over its blocks meets |
| FileSystem.ReadData | student-distrib/files.c:309-384 | the in-place read: return value and stored bytes are those of the flat specification, the rest of the buffer is untouched |
| FileSystem.LookupIsFirst | student-distrib/files.c:233-257 | a name stands for the first of the 63 entries that carries it, and for nothing if and only if none does |
| FileSystem.NamesFileIff | student-distrib/files.c:233-257 | a name stands for a file if and only if the first entry that carries it has that inode number, in range |
| FileSystem.ReadDentryByName | student-distrib/files.c:233-257 | the entry returned is the first of the 63 with the name; none if and only if no entry has it |
| SlotMask.ClaimSlot | student-distrib/syscalls.c:258-273 | execute's shift loop sets the first clear bit of the mask and no other, or finds the mask full |
| SlotMask.ReleaseSlot | student-distrib/syscalls.c:108-113 | halt's shift loop clears exactly the halting slot's bit |
| SlotMask.FindNext | student-distrib/scheduler.c:60-91 | the scheduler's scan stops at the cyclically nearest running slot other than 0 that has no child, or back at the current one |
| SlotMask.OnlyFirstTwo | student-distrib/syscalls.c:309-321 | 0xC0 is the mask of exactly slots 0 and 1 |
| SlotMask.BootMasks | student-distrib/syscalls.c:507-511 | the power-on mask holds slot 0 and bootup's mask adds exactly slots 1 to 3 |
| Processes.MaskFindsPcb | student-distrib/types.h:13-16 | masking any stack pointer of a slot's kernel stack with ALIGN_8KB gives that slot's PCB |
| Processes.EntryReadSucceeds | student-distrib/syscalls.c:246-279 | if the first file read of execute succeeds, the read of the entry point cannot fail |
| Processes.EntryPointIs | student-distrib/syscalls.c:275-286 | what that read gives is bytes 24 to 27 of the file |
| Processes.SpawnEnters | student-distrib/syscalls.c:297-350 | after execute has claimed a slot, the new PCB, the caller's child mark, stack bottom, esp0, CR3 and directory are those of a child of the caller, and its arguments those given |
| Processes.ScanFindsNearest | student-distrib/scheduler.c:60-91 | the next process to run is the nearest leaf after the current one |
| Chains.LeavesAreTops | student-distrib/scheduler.c:66-83 | the schedulable processes are exactly the tops of the three stacks |
| Chains.CallerFound | student-distrib/syscalls.c:297-307 | masking the calling process's stack pointer finds its own PCB |
| Chains.ExecuteEnters | student-distrib/syscalls.c:246-350 | a command that passes the checks always gets to the end of execute and enters a child of the running process |
| Chains.ExecuteSimulates | student-distrib/syscalls.c:187-360 | execute is a push on the running tty's stack, or nothing |
| Chains.HaltSimulates | student-distrib/syscalls.c:70-172 | halt is a pop of the running tty's stack, or nothing for a root shell |
| Chains.NextTtyIsNearest | student-distrib/scheduler.c:60-91 | the tty chosen is the one whose top comes first after the running slot |
| Chains.NextLeafIsNextTop | student-distrib/scheduler.c:60-97 | the scan of the process table picks the top of that tty |
| Chains.TickSimulates | student-distrib/scheduler.c:42-164 | a timer interrupt is a change of the active tty and moves no process |
| Chains.OpenSimulates | student-distrib/syscalls.c:623-692 | open moves no process and keeps every descriptor invariant |
| Chains.ReadSimulates | student-distrib/syscalls.c:535-574 | what the code of read does to its own fields moves no process and keeps every descriptor invariant |
| Chains.ReadKeepsTableIff | student-distrib/syscalls.c:546-563 | a read keeps the process table in order, for sure, if and only if no byte it stores has an address from 4 MB up to 8 MB |
| Chains.CloseSimulates | student-distrib/syscalls.c:745-774 | close moves no process and keeps unused descriptors at position 0 |
| Chains.Simulates | student-distrib/syscalls.c:70-360 | every kernel entry that does not store over the kernel acts on the process table as its operation on the three stacks |
| Runs.ShellRound | student-distrib/syscalls.c:412-506 | one round of bootup's loop readies one shell slot and touches no other slot |
| Runs.BootRepresents | student-distrib/syscalls.c:385-520 | bootup leaves three stacks of one shell each with the first one running |
| Runs.EveryRunRepresents | student-distrib/syscalls.c:70-360 | every orderly run of the process table is a run of the three stacks |
| Runs.AncestorAtDepth | student-distrib/syscalls.c:322-336 | the process at depth k of a tty's stack reaches the tty's root shell by k steps to the parent |
| Runs.EveryRunKeepsThreeChains | student-distrib/syscalls.c:70-520 | in every state of an orderly run after bootup, which is a run of the three stacks, every running process reaches the root shell of its tty by fewer than eight steps to the parent, roots are slots 1 to 3, child marks are exact and clear in free slots, each tty has exactly one leaf, current is one of them, and current, stack bottom, esp0 and CR3 name the same slot, whose PCB the 8 KB mask finds |
| Runs.RootedTable | student-distrib/syscalls.c:108-120 | slots 0 to 3 are never given up, every other running process hangs below a running process of its own tty, and following parents leads from every running process to its tty's root |
| Runs.MarkExact | student-distrib/syscalls.c:116-120 | a process is marked as having a child if and only if it runs and a running process names it as its parent |
| Runs.LeavesOfTable | student-distrib/scheduler.c:66-83 | each tty has exactly one schedulable process, and the current process is one |
| Runs.FailedExecuteChangesNothing | student-distrib/syscalls.c:246-321 | execute changes the state if and only if its checks pass and a slot is free; then it takes exactly the first free slot, its later reads succeed, and the 0xC0 branch is not taken |
| Runs.StacksDisjoint | student-distrib/types.h:13-16 | the eight 8 KB kernel stacks do not overlap |
| Runs.OthersUntouched | student-distrib/syscalls.c:70-360 | a step changes no other running process's PCB or page directory, save the parent's child mark at a halt |
| Runs.SelfKeepsIdentity | student-distrib/syscalls.c:297-350 | a process's own step keeps its number, parent, tty, arguments, way back and page directory; only a tick writes its saved context |
| Scheduling.TickWhileWaiting | student-distrib/scheduler.c:60-97 | the number of ticks a waiting tty can still be passed over strictly drops at each tick |
| Scheduling.StepWhileWaiting | student-distrib/scheduler.c:60-97 | no execute, halt or other entry of another tty makes a waiting tty wait longer |
| Scheduling.BoundedWaiting | student-distrib/scheduler.c:60-97 | from every reachable state a leaf without the processor gets it within at most seven ticks, whatever happens in between |
| Scheduling.WaitersKeepContext | student-distrib/scheduler.c:99-152 | a waiting leaf's saved context is written only by the tick that takes the processor from it |
| Scheduling.NoStaleContext | student-distrib/scheduler.c:99-152 | along every run a waiting leaf's PCB holds the context in which it last lost the processor, and it lost it to the timer |
| Scheduling.ResumeFrom | student-distrib/scheduler.c:113-152 | a tick resumes another process, on that process's own kernel stack, in the context it last lost the processor in |
| Scheduling.ResumedWhereLeft | student-distrib/syscalls.c:490-494 | after bootup the same holds of every tick, with bootup's frame as the first context of a shell that has not run |
| Nesting.StepKeepsSuspended | student-distrib/syscalls.c:70-169 | while a tty's stack stays above a suspended chain no step of any tty changes the chain |
| Nesting.ExecuteSuspends | student-distrib/syscalls.c:257-350 | execute suspends the calling chain and keeps the caller's context in the child |
| Nesting.HaltForm | student-distrib/syscalls.c:104-169 | halt of a non-root process gives up its slot, clears the parent's mark, restores the parent's stack and directory, and returns in the context kept at execute |
| Nesting.HaltRestores | student-distrib/syscalls.c:104-169 | the halt that brings the stack back to a suspended chain restores every process of the chain and the processor |
| Nesting.HaltUndoesExecute | student-distrib/syscalls.c:70-169 | when a process started by execute halts, its tty's chain, the slots running on the tty, child marks, stack bottom, page directory and kernel context are those at the execute, whatever other ttys did in between, and the table is that of the stacks with the process popped |
| Nesting.SlotsRestored | student-distrib/syscalls.c:104-120 | tables with the same stack for a tty run the same slots on it |
| Isolation.ProgramFrame | student-distrib/paging.c:122-204 | the 128 MB region of slot p is 4 MB frame p + 1 for every access |
| Isolation.FramesDistinct | student-distrib/paging.c:122-204 | distinct running processes' program regions translate to distinct frames, none the kernel's |
| Isolation.StoreStaysHome | student-distrib/paging.c:134-198 | a user-mode store lands in the low 4 MB or in the storing process's own frame |
| Isolation.ImageIsFile | student-distrib/files.c:158-183 | what fs_load copies is the file up to its first bad block, the whole file if and only if every block that holds it can be read |
| Isolation.ExecutedNamesFile | student-distrib/syscalls.c:246-255 | whatever passes execute's checks is a file of the disk |
| Isolation.ImageLoaded | student-distrib/syscalls.c:288-294 | execute leaves byte k of the program file at the program address of the new process if every block up to it can be read, and otherwise leaves there what the frame held |
| Isolation.StoresKeep | student-distrib/files.c:376-380 | stores by kernel code under one process's directory leave every other process's region alone, and in its own change only the addresses they cover |
| Isolation.ReadDelivers | student-distrib/files.c:376-380 | the bytes a read stores in the caller's region are what the caller finds there |
| Isolation.ReadIntoPcbBreaksTable | student-distrib/syscalls.c:546-563 | a read that puts any other value over the number of a running process, or over its parent's, at their places in the PCB leaves a table that no longer stands for the stacks, whatever else it leaves |
| Isolation.StepKeepsImage | student-distrib/syscalls.c:288-294 | a step changes a byte of a running process's program region only if it is that process's own store to the byte or its own read into a buffer that covers the byte |
| Isolation.ImageSurvives | student-distrib/paging.c:122-204 | over every orderly run a byte of a process's region survives as long as the process stays and does not itself overwrite that byte |
| Isolation.ProgramStaysLoaded | student-distrib/syscalls.c:288-294 | from its execute on, a program finds each byte of its file in place through every run in which it does not overwrite that byte itself |
| Launch.CommandParts | student-distrib/syscalls.c:215-240 | the name is what comes before the first space of the command and the arguments what comes behind it |
| Launch.LoadableIff | student-distrib/syscalls.c:209-255 | execute's checks pass if and only if the name has at most 32 characters and is that of a file whose first block can be read and whose first four bytes are 0x7f and "ELF" |
| Launch.ArgumentsStored | student-distrib/syscalls.c:215-235 | the new process's arguments are what follows the first space of the command |
| Launch.ArgumentsStay | student-distrib/syscalls.c:345-347 | over every orderly run a process keeps its arguments as long as it stays in the table |
| Launch.ArgumentsThroughRun | student-distrib/syscalls.c:345-347 | from its execute on a process finds the rest of its command, whatever it and the others do |
| Launch.ChildDescriptors | student-distrib/syscalls.c:338-354 | a new process has the terminal's input as descriptor 0 and its output as 1, and all others free at position 0 |
| Launch.ProgramAt | student-distrib/syscalls.c:288-294 | byte k of the program file is what the new process finds at 0x8048000 + k |
| Launch.AddressSpace | student-distrib/paging.c:122-204 | where every address of every process leads in every state: page 0 nowhere, the rest of the low 4 MB and the kernel's page to themselves, the kernel's only for the kernel, 128 MB to 132 MB to the process's own frame, all else nowhere |
| Launch.StoreIsFound | student-distrib/paging.c:122-204 | what a process stores it finds, and everything else as it was |
| Launch.ShellsLoaded | student-distrib/syscalls.c:412-425 | after bootup each of the three shells finds the file "shell" in its own region |
| Launch.ShellsReady | student-distrib/syscalls.c:434-502 | each shell has the standard descriptors, is the root of its tty and resumes 60 bytes below the bottom of its stack |
| Descriptors.OpenedAtStart | student-distrib/syscalls.c:655-687 | open returns the lowest free descriptor in 2 to 7, at position 0, and fails, changing nothing, if and only if the name is unknown or none is free |
| Descriptors.StepKeepsReading | student-distrib/syscalls.c:535-574 | only the process's own read or close of a descriptor changes it |
| Descriptors.ReadTakesNextSlice | student-distrib/syscalls.c:535-574 | every successful read returns the next slice of the file and moves the position over exactly that slice |
| Descriptors.ReadsFollowTheFile | student-distrib/syscalls.c:535-574 | the pieces of successive successful reads of a descriptor, of any sizes and with any steps in between, concatenate to the part of the file the position moved over, whatever blocks of the file are bad |
| Descriptors.ZeroMeansWholeFile | student-distrib/syscalls.c:535-574 | while no read has failed, what was received is a prefix of the file, and a read of at least one byte returns 0 if and only if it is the whole file |
| Descriptors.ReplyAnywhere | student-distrib/syscalls.c:559-573 | what a read returns from every position it can be at, -1 to the size: 0, for at least one byte, if and only if that is the size or -1 |
| Descriptors.PositionIsSumOfReturns | student-distrib/syscalls.c:559-573 | over every orderly run, with reads failing or not, the position of an open descriptor is the sum of what its reads returned and stays between -1 and the size |
| Descriptors.ZeroMeans | student-distrib/syscalls.c:559-573 | after every such run a read of at least one byte returns 0 if and only if the returns so far add up to the size or to -1 |
| Descriptors.StuckBeforeStart | student-distrib/syscalls.c:559-573 | once the position is -1 no later read receives a byte, whatever happens in between |
| Descriptors.AfterFailedRead | student-distrib/syscalls.c:569-573 | the read after a failed one starts one byte before the failed one did; at the start of the file it returns 0 at once, and otherwise a read of at least one byte never does |
| Descriptors.ZeroAfterFailure | student-distrib/syscalls.c:569-573 | with a bad first block the first read fails and the second returns 0 with nothing received of a file that is not empty |
| Handles.CloseFrees | student-distrib/syscalls.c:745-774 | close returns 0 if and only if the descriptor is one from 2 to 7 in use; it is then free at position 0 and nothing else has changed; otherwise nothing changes |
| Handles.ClosedIsUseless | student-distrib/syscalls.c:546-549 | a read or another close of a closed descriptor returns -1 and changes nothing |
| Handles.ReopenAfterClose | student-distrib/syscalls.c:655-687 | the next open of a known name returns a descriptor at most the closed one, and exactly that if and only if all lower ones are in use, at position 0 |
| Handles.OpenCloseOpen | student-distrib/syscalls.c:623-774 | open, close and open again return the same descriptor |
| Handles.OpenTouchesOne | student-distrib/syscalls.c:655-687 | an open changes one descriptor and its name; entries of type 0, 1 and 2 give clock, directory and file descriptors |
| Handles.OpenStandardStream | student-distrib/syscalls.c:632-646 | names that start like the standard streams' reopen descriptor 0 or 1 and return 0 |
| Handles.ReplyByKind | student-distrib/syscalls.c:546-566 | when a read is refused, and what it gives on the terminal, the clock and standard output |
| Handles.ReadTouchesOne | student-distrib/syscalls.c:546-573 | whatever its kind, a read moves its own descriptor's position by what it returns, in 32 bits, and changes nothing else but the memory it stores into and the directory counter |
| Handles.ReadsListDirectory | student-distrib/files.c:480-500 | over every orderly run the directory reads, by whichever processes, are given the names in their order, then an end mark, and again |
| Kernel.SplitCommand | student-distrib/syscalls.c:215-240 | the character loop splits the command at its first space and rejects exactly names above 32 characters |
| Kernel.FsReadInto | student-distrib/files.c:106-126 | a read by name stores and returns what the flat specification says |
| Kernel.CheckProgram | student-distrib/syscalls.c:193-255 | the checks pass if and only if the command is present, the name short enough, and the first four bytes read are the ELF mark |
| Kernel.ReadEntryPoint | student-distrib/syscalls.c:275-286 | the entry point is bytes 24 to 27 of the file |
| Kernel.FillPcb | student-distrib/syscalls.c:297-347 | the field-by-field PCB writes of execute amount to its specification |
| Kernel.FindFd | student-distrib/syscalls.c:655-665 | the lowest descriptor from 2 on that is not in use |
| Kernel.DirRead | student-distrib/files.c:480-500 | the next name with its terminator, or the end of the directory with the counter reset |
| Kernel.Kernel.SetupNewTask | student-distrib/paging.c:122-207 | the table and directory loops leave the identity map of the low 4 MB without page 0, the kernel page and the slot's own program page; an invalid slot changes nothing |
| Kernel.Kernel.ExecuteCommand | student-distrib/syscalls.c:187-360 | the in-place execute leaves exactly the specified state and returns the entry point or -1 |
| Kernel.Kernel.HaltProcess | student-distrib/syscalls.c:70-172 | the in-place halt leaves exactly the specified state |
| Kernel.Kernel.PitInterruption | student-distrib/scheduler.c:42-164 | the in-place timer interrupt leaves exactly the specified state |
| Kernel.Kernel.OpenFile | student-distrib/syscalls.c:623-692 | the in-place open: new state and return value |
| Kernel.Kernel.StoreBytes | student-distrib/files.c:376-380 | the byte-by-byte stores of kernel code go through the loaded page directory |
| Kernel.Kernel.FsLoad | student-distrib/files.c:158-183 | the file is copied to the program address up to its first bad block, and 0 is returned if and only if the file exists and is empty |
| Kernel.Kernel.ReadFile | student-distrib/syscalls.c:535-574 | the in-place read: position, directory counter, return value, and the bytes stored through the page directory |
| Kernel.Kernel.CloseFile | student-distrib/syscalls.c:745-774 | the in-place close: new state and return value |
| Kernel.Kernel.StoreByte | student-distrib/paging.c:122-204 | a user-mode store goes through the loaded page directory as a user access |
| Kernel.Kernel.PerformAll | student-distrib/syscalls.c:70-774 | the in-place entries in any order leave exactly the state the run of the specification leaves |
| Kernel.Kernel.StartShell | student-distrib/syscalls.c:412-506 | one round of bootup's loop leaves exactly the specified state |
| Kernel.Kernel.Bootup | student-distrib/syscalls.c:385-520 | bootup leaves the state from which every run is considered and starts at the shell's entry point, or fails unchanged if and only if that cannot be read |
| Interludes.StaysLeaf | student-distrib/scheduler.c:60-97 | a schedulable process that makes no step stays one, whatever the others do |
| Interludes.ReadingUndisturbed | student-distrib/syscalls.c:535-574 | its open descriptors are as it left them when it gets the processor back |
| Interludes.MemoryUndisturbed | student-distrib/paging.c:122-204 | and so is every byte of its program region |
| Interludes.BackAgain | student-distrib/scheduler.c:99-152 | and it is again the current process of a table in order |
| Interludes.Pause | student-distrib/scheduler.c:42-164 | the in-place kernel runs whatever the others do and comes back to the process |
| Cat.RegularRead | syscalls/ece391cat.c:21-25 | a read of a regular file into the program's own region keeps clear of the kernel, fails if and only if a block it consults is bad, and the program finds there exactly the next piece of the file |
| Cat.NextPiece | syscalls/ece391cat.c:21-25 | one read system call, with other processes running before it and before its bytes are used, gives the program the next piece of a regular file, or -1 if and only if a block it consults is bad |
| Cat.AlignedRead | syscalls/ece391cat.c:21-25 | a 1024-byte read at a multiple of 1024 fails if and only if the block it starts in is bad |
| Cat.CopyOut | syscalls/ece391cat.c:21-28 | whatever other processes do in between, the read-and-write loop ends; it has written exactly the file if and only if every block that holds the file can be read, and otherwise exactly what can be read of it |
| Cat.PrintFile | syscalls/ece391cat.c:16-30 | whatever other processes do in between: status 2 if and only if the file cannot be opened; otherwise status 0 with exactly the file written if and only if every block that holds it can be read, else status 3 with exactly the file up to the first bad block and then the message |
| GrepText.LinesRoundTrip | syscalls/ece391grep.c:29-32 | splitting a file into lines and joining them gives the file back, and no line holds a newline |
| GrepText.ReportIsMatching | syscalls/ece391grep.c:42-51 | the report is the matching lines in their order, each behind the file's name and a colon and with a newline |
| GrepText.LongRunIsLongLine | syscalls/ece391grep.c:33-39 | a full window without a newline lies within one line that does not fit the window |
| GrepText.CourseFollows | syscalls/ece391grep.c:21-39 | where the windows end, stated on the lines of the text: each window is filled from the start of the line the last one ended in |
| GrepText.LedgerBalances | syscalls/ece391grep.c:40-51 | what the matching lines call for from any position on is what the line there calls for and then the rest |
| GrepText.PrintedBefore | syscalls/ece391grep.c:40-51 | when the account of a search stands at the start of a line, exactly the matching lines before it are printed |
| GrepText.MatchHere | syscalls/ece391support.c:40-52 | the comparison succeeds if and only if the pattern stands there within the terminated line |
| GrepText.SearchLine | syscalls/ece391grep.c:42-51 | the line is found if and only if it contains the pattern |
| GrepText.CopyDown | syscalls/ece391support.c:16-20 | the overlapping copy moves the terminated string to the front and changes nothing behind it |
| GrepText.PrintLine | syscalls/ece391grep.c:40-51 | one line of the buffer is terminated, searched, and printed once if it matches |
| GrepText.ScanLine | syscalls/ece391grep.c:29-51 | one line of the window: an unfinished one is moved to the front, any other is printed if and only if it matches |
| GrepText.ScanBuffer | syscalls/ece391grep.c:28-57 | one pass prints exactly what the complete lines of the window call for and keeps the unfinished line |
| Grep.ReadOnTrack | syscalls/ece391grep.c:22-27 | a read that succeeds stays within what can be read, and fills the next window of the course or has run past the end of the file and seen every block |
| Grep.FailureIsFinal | syscalls/ece391grep.c:22-26 | a read of the search that fails, on a file with any bad blocks, rules success out, and comes exactly when the last window inside what can be read is used up |
| Grep.ReadAndScan | syscalls/ece391grep.c:22-57 | a read, which fails if and only if a block it consults is bad, and a scan keep the account of what is printed and what is left of the text that can be read; a read that fails rules success out and ends the search in the line in which the last window ends |
| Grep.SearchFile | syscalls/ece391grep.c:10-66 | whatever other processes do in between and whatever blocks are bad, do_one_file ends; it succeeds if and only if the file can be opened, every block that holds it can be read and, unless the windows end exactly at the end of the file, so can the block behind a full last block; it then has printed exactly the lines of the file that contain the pattern, once each and in order, and on a failed read exactly those among the lines before the one in which the last window ends, and then the message |
| Grep.LastBlockHoldsData | syscalls/ece391grep.c:22-26 | without a full last block it succeeds if and only if every block that holds the file can be read |
| Grep.FirstBlockBad | syscalls/ece391grep.c:22-26 | a file whose first block is bad is among those covered: the search fails and prints nothing of it |
| Screen.LayoutGrows | student-distrib/lib.c:464-490 | one more character extends the last row of the wrapped layout |
| Screen.LayoutBreaks | student-distrib/lib.c:464-490 | a line break adds an empty row to the wrapped layout |
| Screen.PutByByte | student-distrib/lib.c:464-490 | which bytes break the line, which is written without moving the cursor, and where any other goes and leaves the cursor |
| Screen.DownShows | student-distrib/lib.c:251-271 | going a line down, scrolling or not, keeps the buffer a window on the last 25 rows |
| Screen.PutShows | student-distrib/lib.c:464-490 | putc of a printable character keeps the buffer a window on the layout extended by it |
| Screen.ScreenShowsLayout | student-distrib/lib.c:464-490 | after any text without NUL on a cleared screen the buffer shows exactly the last 25 rows of the 80-column layout of the whole text, and the cursor is where the text ends |
| Screen.TextContinues | student-distrib/lib.c:464-490 | text put on a screen that shows a text goes on where that ends |
| Screen.NewLineShows | student-distrib/lib.c:284-292 | new_line is a line break: next row, first column, and at the bottom everything moves up with the command location |
| Screen.EchoStep | student-distrib/lib.c:464-490 | each echoed character lands in the cell after the one before it, across wraps and scrolls |
| Screen.EchoAgrees | student-distrib/keyboard.c:328-339 | reprinting leaves the line followed by NUL in the cells from the command location on and the cursor right behind the line, however often it scrolls, and the location stays on the screen |
| Screen.EchoLeavesNothing | student-distrib/keyboard.c:328-339 | reprinting a line at most one character shorter leaves only blanks behind it if there were only blanks behind the one before |
| Screen.PrintKeepsAhead | student-distrib/lib.c:464-490 | whatever bytes are printed, only blanks are ahead of the cursor if that was so before |
| ScreenDriver.Terminal.Scroll | student-distrib/lib.c:251-271 | the cell-by-cell scroll: every row moves up, the last is blank, a command at the corner moves with its text |
| ScreenDriver.Terminal.PutChar | student-distrib/lib.c:464-490 | the in-place putc, for every byte |
| ScreenDriver.Terminal.Write | student-distrib/keyboard.c:206-227 | the write loop is putc of every byte in order |
| ScreenDriver.Terminal.Clear | student-distrib/lib.c:140-147 | a cleared screen with the cursor and command location at the origin |
| ScreenDriver.Terminal.NewLine | student-distrib/lib.c:284-292 | the cursor goes to the start of the next line, scrolling at the bottom |
| ScreenDriver.Terminal.SetCommandLocation | student-distrib/lib.c:201-204 | the command location becomes the cursor position, in range |
| ScreenDriver.Terminal.PrintBuffer | student-distrib/keyboard.c:328-339 | the in-place reprint leaves the command line shown from the command location on |
| Editor.KeyChar | student-distrib/keyboard.c:12-123 | every character key gives a graphic character |
| Editor.KeyKeepsWf | student-distrib/keyboard.c:355-500 | every scancode keeps the cursor within the line and the line below 1024 characters |
| Editor.StepKeepsWf | student-distrib/keyboard.c:355-500 | the same for three ttys under scancodes, changes of tty and reads |
| Editor.BackspaceUndoesInsert | student-distrib/keyboard.c:289-316 | backspace takes back an insertion if and only if there was room for it or the cursor was at the start |
| Editor.BackspaceIsLeftDelete | student-distrib/keyboard.c:355-500 | backspace is the left arrow followed by delete |
| Editor.TypingAppends | student-distrib/keyboard.c:355-500 | character keys at the end of a line append their characters, and no other tty changes |
| Scancodes.LayoutPlain | student-distrib/keyboard.c:12-67 | which character each of the 48 character keys gives without and with shift |
| Scancodes.LayoutCaps | student-distrib/keyboard.c:67-120 | and the same under caps lock: the case of the letters is swapped and nothing else |
| Scancodes.CharacterInserted | student-distrib/keyboard.c:366-378 | a character key puts its character in front of the cursor while there is room and Ctrl is up |
| Scancodes.LeftDeleteIsBackspace | student-distrib/keyboard.c:385-407 | 0xE0 0x4B and then 0x53 is 0x0E |
| Scancodes.Erases | student-distrib/keyboard.c:385-407 | 0x0E takes out the character in front of the cursor and 0x53 the one behind it |
| Scancodes.ArrowsUndo | student-distrib/keyboard.c:455-468 | a right arrow takes back a left one if and only if the cursor was not at the start or the line is empty, and the other way round |
| Scancodes.ArrowsMove | student-distrib/keyboard.c:455-468 | m arrows move the cursor m places as far as the line goes, and change nothing else |
| Scancodes.InsertsAfterArrows | student-distrib/keyboard.c:366-468 | a character typed after m left arrows stands m places in front of where the cursor was |
| Scancodes.EnterMakesReady | student-distrib/keyboard.c:380-383 | 0x1C makes the line ready and changes nothing else |
| Scancodes.ModifiersSetFlags | student-distrib/keyboard.c:409-479 | which flag each modifier code sets, clears or toggles |
| Scancodes.CtrlLClears | student-distrib/keyboard.c:481-493 | Ctrl-L hands over an empty line and lets Ctrl go |
| Scancodes.OtherCodesIgnored | student-distrib/keyboard.c:355-500 | no other code changes the line |
| Scancodes.FunctionKeysChooseTty | student-distrib/keyboard.c:444-453 | Alt with F1, F2 and F3 chooses the first, second and third tty and touches no line; every other key goes to the active line alone |
| Keyboard.CommandLine.PlaceCharacter | student-distrib/keyboard.c:289-316 | the shift loop inserts the character at the cursor and keeps the terminator |
| Keyboard.CommandLine.RemoveAt | student-distrib/keyboard.c:355-500 | the shift loop removes one character and moves the terminator |
| Keyboard.CommandLine.ProcessKey | student-distrib/keyboard.c:355-500 | every scancode does to the text in the buffer what it does to the simple editor's line, and to the bytes behind it what the shift loops do, terminated or not |
| Keyboard.CommandLine.TakeLine | student-distrib/keyboard.c:163-190 | the reader gets what the buffer holds, that much of it is blanked, and the line is reset; the buffer is empty and in order again if and only if a byte was asked for or the line was empty |
| Keyboard.FirstBehindLine | student-distrib/keyboard.c:355-500 | through every sequence of keys the byte behind the line is NUL if and only if it was before or Ctrl-L has blanked a line |
| Keyboard.TypedTail | student-distrib/keyboard.c:289-316 | characters typed push the first byte behind the line along and leave the others where they are |
| Keyboard.CommandLine.ReadAfterEmptyRead | student-distrib/keyboard.c:163-190 | after a read of no bytes and any sequence of keys the next reader gets the line the keys make and behind it what they have left of the old line; the new line is terminated if and only if there was no old line or Ctrl-L has blanked one since |
| Keyboard.Driver.constructor | student-distrib/keyboard.c:239-273 | three empty lines, the first tty active |
| Keyboard.Driver.Process | student-distrib/keyboard.c:355-500 | a key changes the active tty's line as the editor does, or the active tty, and no other line |
| Keyboard.Driver.Read | student-distrib/keyboard.c:163-190 | a read of 1 to 1024 bytes for a tty whose line is ready yields the first characters of the active line, terminated if there is room, and empties it |
| Keyboard.Driver.Interrupt | student-distrib/keyboard.c:512-546 | for every sequence of scancodes and changes of tty each buffer is the line of the simple editor followed by NUL |
| Console.NextInOrder | student-distrib/keyboard.c:163-227 | a key, either end of a read and a write each keep every tty in order: nothing ahead of the cursor, and the line from the command location up to the cursor or no line at all; a key shows its line with the terminator |
| Console.EveryScreenInOrder | student-distrib/keyboard.c:512-546 | over every run of keys, changes of tty, writes and reads nothing is written off a screen, each tty's line stands on its own screen from its latest command location on, and there is nothing ahead of any cursor |
| Console.KeysAreCourteous | student-distrib/keyboard.c:512-546 | from right command locations every sequence of keys and changes of tty is among those runs |
| Console.OutputIsOverwritten | student-distrib/keyboard.c:328-339 | whatever has been printed, a cell behind the command location keeps its character at the next reprint if and only if that is the line's own |
| Console.OutputStaysIff | student-distrib/keyboard.c:328-339 | text printed from the command location on outlasts the next reprint if and only if it is the start of the line |
| Console.OwnLineIff | student-distrib/keyboard.c:167-187 | the bytes a waiting program gets are those of its own line if and only if its tty is still the active one or the two lines agree as far as it asks; otherwise its own line stays |
| Console.StartsInOrder | student-distrib/keyboard.c:239-273 | empty lines on cleared screens are in order, so the runs from there are covered |
| Console.OthersUntouched | student-distrib/keyboard.c:512-546 | a tty keeps its line and its whole screen over every run of keys, writes and reads that do not touch it |
| Console.WriteDisplays | student-distrib/keyboard.c:206-227 | a write goes on where the text on the program's own tty ends and changes no line and no other screen |
| Console.ReadBreaksLine | student-distrib/keyboard.c:175-175 | the end of a read is a line break on the active screen |
| Console.ReadMovesDown | student-distrib/keyboard.c:175-175 | after it the cursor is at the start of the next row, or of the last one with everything moved up |
| Console.Screens.Reprint | student-distrib/keyboard.c:328-339 | the in-place reprint changes one tty's screen and neither of the others |
| Console.Console.HandleKey | student-distrib/keyboard.c:512-546 | one round of the in-place handler: the key's line and the screen it calls for |
| Console.Console.Read | student-distrib/keyboard.c:163-190 | from its wake-up on terminal_read starts a new line on the active screen and gives its caller the active line, which is its own exactly under that condition |
| Console.Console.HandleAll | student-distrib/keyboard.c:163-546 | the in-place driver and screens leave the lines and screens that any run of keys, writes and reads calls for |
| BlinkList.TimingClosedForm | fish/blink.S:49-99 | t ticks after its add an element is on if and only if t modulo its period is below its on span, with the countdown in closed form, for all 16-bit lengths |
| BlinkList.OrdinaryTiming | fish/blink.S:135-138 | for lengths 1 to 32767 the period is the sum of the lengths |
| BlinkList.ElementFollowsTicks | fish/blink.S:49-99 | whatever is added, removed or synced around it, an element depends only on how often the tasklet ran |
| BlinkList.AddedElementTiming | fish/blink.S:105-184 | the closed form holds along every run that spares the element |
| BlinkList.SyncedStayInStep | fish/blink.S:267-275 | after a sync the two elements' lengths, countdown and status stay equal through every run that spares both |
| BlinkList.SyncChangesTiming | fish/blink.S:267-275 | a sync changes the timing of its target and nothing else, and nothing at all if it fails |
| BlinkList.AddedInFront | fish/blink.S:131-163 | an add puts the element as given, switched on for its first span, in front of the list |
| BlinkPool.Conserved | fish/fish.c:161-176 | structures on the list and free structures add up to 2000 |
| BlinkPool.Acyclic | fish/blink.S:159-162 | each element points at the next one and at no other, and the last holds NULL |
| BlinkPool.UnlinkedIntact | fish/blink.S:201-222 | unlinking and freeing one element leaves a list of exactly the taken structures |
| BlinkPool.UnlinkedElements | fish/blink.S:214-222 | and keeps the order and contents of the rest |
| BlinkList.RemovesLastAdded | fish/blink.S:187-237 | in every run a remove takes out, of all elements with the location, the one whose add came last, and keeps the rest in order |
| BlinkPool.AllocatorSeesRoom | fish/fish.c:161-171 | the allocator fails if and only if the list fills the pool |
| BlinkPool.Blinker.Malloc | fish/fish.c:161-171 | the first structure with location 0, NULL if and only if there is none |
| BlinkPool.AddEndsIff | fish/blink.S:159-162 | an add keeps the list finite if and only if the structure it is given is not on the list |
| BlinkPool.SecondAddLoops | fish/fish.c:161-171 | after an add at location 0 the next add is given the same structure, which then points at itself, and the list no longer ends |
| BlinkPool.Blinker.Add | fish/blink.S:105-184 | on any list that ends: fails if and only if the location is off the screen or no structure is free; the new element goes in front; the list goes on ending if and only if the structure given is not on it; a good list stays good if the location is not 0 |
| BlinkPool.Blinker.Find | fish/blink.S:351-379 | the first element with the location, NULL if there is none |
| BlinkPool.Blinker.Remove | fish/blink.S:187-237 | the first element with the location in the lower half of the argument leaves the list, the rest keep their order, and its structure is free; -1 and no change if and only if there is none |
| BlinkPool.Blinker.Sync | fish/blink.S:240-300 | the first element with the lower-half location gets the lengths, countdown and status of the first with the upper-half one; every element keeps its location and characters, all others are unchanged; -1 and no change if and only if one is missing |
| BlinkPool.Blinker.Tasklet | fish/blink.S:49-99 | every element ticks once, in place |
| BlinkPool.Blinker.PerformAll | fish/blink.S:49-300 | over every sequence of calls without an add at location 0 the pool stays an acyclic list of exactly the taken structures, and the list is the one the calls make |
| Numbers.NumeralUnique | student-distrib/lib.c:565-598 | a number has only one numeral without leading zeros in a radix |
| Numbers.TextReadsBack | student-distrib/lib.c:565-598 | the digits of a number read back as the number and have no leading zero, for every radix from 2 to 36 |
| Numbers.SingleDigit | student-distrib/lib.c:565-598 | a number below the radix is written as its digit, 0 to 9 and then A to Z |
| Numbers.NumeralIsText | student-distrib/lib.c:565-598 | every numeral is the text of the number it stands for |
| Numbers.TextFits | student-distrib/lib.c:347-355 | a 32-bit value takes at most 32 digits, and at most 8 in hexadecimal |
| Numbers.StrRev | student-distrib/lib.c:612-628 | the swap loop reverses the string in place and touches nothing else |
| Numbers.Itoa | student-distrib/lib.c:565-598 | the buffer holds the numeral of the value, terminated, and is otherwise unchanged |
| Numbers.PaddedHex | student-distrib/lib.c:355-365 | the padded form is exactly eight hexadecimal digits and a NUL, with the same value |

## Left out

- Port I/O, PIC, RTC and PIT programming, end-of-interrupt, the RTC file operations: hardware effects.
- IDT, GDT and TSS descriptors, the boot code and the entry in kernel.c: configuration.
- The inline assembly that switches stacks (`leave`, `ret`, `iret`): a saved pointer pair stands for it.
- memset, memcpy and memmove in assembly: taken as copies of sequences.
- Waiting loops (`allow_terminal_read`, `interrupt_occurred`): an enabled step, not time.
- halt's restart of a root shell beyond the unchanged process table: it does not return.
- Command arguments of 100 characters or more, and names of exactly 32 characters in a directory entry or command buffer, where the C code writes or reads one byte beyond the array.
- Program bytes beyond the mapped 4 MB page: the fault of a load that long is not modelled; those bytes are not stored.
- The status that halt hands to the parent's execute: the way back is modelled, not the register.
- The write, getargs, vidmap, set_handler and sigreturn system calls, and the waiting of the RTC and terminal branches of read.
- The tie between a terminal read's bytes in the process model, a parameter of the event, and those `Keyboard.Driver.Read` delivers.
- What a read that stores over the kernel leaves of it, beyond the process and parent numbers: any state, since the rest depends on where the linker puts the tables.
- The fault of a read whose buffer runs into unmapped pages: those bytes are not stored.
- Two directory reads that interleave inside each other and share the directory counter.
- terminal_read of more than 1024 bytes, which runs past the command buffer.
- process_term_number, delc, placec, strncpy, update_cursor and the hardware cursor: unused by the rest or device output.
- Console.EveryScreenInOrder: is about runs in which keys come while the tty's command location is where its line belongs, or clear the screen, a program prints or starts to read while nothing is typed on its tty, and a reader is woken while its tty is active; otherwise the line is reprinted over output, or another tty's line is taken.
- The directory listing of ls and grep's main loop over the directory.
- Chains.ReadKeepsTableIff: the only-if half allows the kernel to be left in any state; what a store does to the table itself is stated for the process and parent numbers only (`Isolation.ReadIntoPcbBreaksTable`).
- Cat.PrintFile: writes are taken to succeed, and the file is a regular one whose name does not start with a standard stream's, read into a buffer in the program region.
- Grep.SearchFile: holds when the text up to the first bad block has no NUL and lines below 1024 bytes, for a pattern without NUL or newline, a last buffer byte that is not initially a newline, and a buffer in the program region, as the code needs.
- Isolation.StoreStaysHome: the low 4 MB is mapped for every process, so stores there are not confined.
- ScreenDriver.Terminal.PrintBuffer: needs the command location on the screen, where set_command_location puts it.
- mp1_ioctl_find and the characters the blink code writes to video memory: only the list and its timing are modelled.
- printf's other conversions and the signed decimal form.
- The shell, hello, counter, pingpong, sigtest, testprint and the Linux emulation layer: plain output or foreign calls.
