# AnssOS, verified in Dafny

A model of the parts of AnssOS where a mistake in one function shows up in another: the scheduler that calls itself
from inside `wait()`, the two terminals that must understand the same bytes, pipes and their reference counts, the
filesystem tree and its on-disk image, the heap, page and page-table allocators, the ELF loader and its start-up
stack, and the two kinds of device ring. Each part has three layers:

- a specification: the state as a value, and each operation as a function on it, or as a relation where the
  page allocator or a device has a choice (`KernelModel`, `VtModel`,
  `ConsoleModel`, `PipeModel`, `FsModel`, `HeapModel`, `ElfModel`, `PmmModel`, `VmmModel`, `VirtioModel`, `CycleRing`);
- what holds of it: an invariant every operation keeps, theorems about every run, every input or every tree, and for
  each call what its caller gets, said without the operation (`SchedulerCalls`, `PipeCalls`, `FsWalks`, `FsCalls`,
  `FsSizes`, `HeapCalls`, `BackendColors`, `TerminalSequences`, `VmmAccess`, `VirtioOrder`, `ElfBytes`);
- the code's own form: a class with the fields the kernel updates, whose methods, loops and pointer walks are
  proved to compute the specification (`ProcessTable`, `Screens`, `PipeRing`, `FsNodes`, `FsDisk`, `HeapLists`,
  `ElfLoader`, `ElfStack`, `PmmBitmap`, `VmmWalk`, `VmmTables`, `VirtioQueue`, `CycleRings`).

`dafny verify dfyconfig.toml` checks everything.

## How each part is modelled

- **Scheduler.** `wait()` blocks by calling `run_until()` again, so the state holds the stack of activations, each
  with the dispatch it is inside. A step is one system call, one interrupt in ring 3 or one pass of the innermost
  loop. Every free goes through one function that raises a fault when the resource is not allocated or an activation
  will still use it; safety is that no run raises it.
- **Terminals.** tile's `Vt`, the kernel console at cell level, and the bytes `AnssBackend` queues. The agreement
  theorem is an if-and-only-if: the domain it names is exactly where the two agree.
- **Pipes.** All processes' descriptors, stdio ends and the pipes they name. Claims the code forgets are counted in a
  history variable, so the equation between counts and entries is exact in every run.
- **Filesystem.** Vnodes as a map from identities to names, parents and ordered children; the class keeps the
  child, sibling and parent pointers and shows that they spell that map. Trees are a datatype; `Depicts` says that a
  node holds one. Names are UTF-8 byte strings.
- **Memory.** The heap's list of blocks against the regions it grew; page tables as frames of entries, where no
  frame may be reached twice; the page bitmap at byte and bit level.
- **ELF.** Segments as a value (address, file bytes, size); the reference is "the last segment covering a byte says
  what it is", for any number of segments. The stack is bytes, read back by the loads `_start` makes.
- **Rings.** The driver's side is the code; the device is any device that takes submissions in order and completes
  in any order (virtio, section 2.7 of Virtio 1.2) or follows cycle bits and the link (section 4.9 of xHCI 1.2).

## Where code and comments differ

The model follows the code.

- tile's terminal is documented to understand exactly what the console does
  (userland/rust/tile/src/vt.rs:4-7); it does so on the domain of `TerminalAgreement.StepAgreesIff`, and
  `TerminalAgreement.BellDisagrees` is an input outside it.
- The over-aligned allocation's comment bounds the shift by `align - 8` (kernel/src/mm/heap.rs:134-136); it can be
  the full `align`, which the extra bytes still cover (`HeapRuns.ShiftFits`).
- The block list is documented to be in address order (kernel/src/mm/heap.rs:23); across regions it is in the order
  they were grown, so two free blocks that touch may stay two (`HeapCalls.FreeIs`, `HeapCalls.NeighboursStayApart`).
  Freeing from the highest address down makes a region whole again only when nothing below was free
  (`HeapCalls.WholeAgainIff`).
- A saved filesystem loads back with each directory's children in the opposite order, and not at all as it was when
  something named `.` or `..` has contents (`FsLimits.LoadsBackIff`).
- A pipe whose descriptors are open at exit is never freed (`PipeRuns.ExitLeaksPipes`).
- A nested `wait()` need not return (`SchedulerDeadlock.DeadlockIsReachable`); exactly when it can is
  `SchedulerWaits.WaitCanReturnIff`.
- A program with more than 17 loadable segments may lose a page, because the loader remembers only 16
  (`ElfProofs.LoadedMemoryIsIff`, `ElfPrograms.EighteenCanFail`).
- A program with a segment on one of the stack's pages has the stack mapped over it
  (`ElfPrograms.ProgramMemoryIsIff`, `ElfPrograms.StackCanCoverASegment`).
- Cloning is documented to report any failed allocation (kernel/src/mm/vmm.rs:130-134); that of a table is not
  noticed, and `VmmFrames.RunsDryIff` says exactly when it can happen.
- On a terminal of one row the window the backend reports includes the cell whose drawing scrolls
  (`BackendRoundTrip.OneRowScrollsAway`).

## Model

| member | source | states |
|---|---|---|
| `SchedulerRuns.EveryRunIsSafe` | kernel/src/exec/process.rs:325-386 | In every state of every run from boot, of any spawn, fork, exec, wait, exit, crash, yield and preempt steps: the Running slots are exactly the slots on the nested dispatch stack, each once; while a process has the CPU, `current`, the current task, CR3 and RSP0 are its own; no free ever hit something not allocated or still needed by an activation; and the allocated address spaces and kernel stacks are exactly those held, each by one task or one pending slot |
| `SchedulerRuns.ParentGetsItsChildsStatus` | kernel/src/exec/syscall.rs:597-606 | Whatever runs and waits between the opening and the end of a wait: its target is a child of the caller and stays alive in its slot throughout, the result is the status that child ended with, and control is back in the caller with the stack of activations as it was |
| `SchedulerRuns.StatusWasGivenToExit` | kernel/src/exec/syscall.rs:673-683 | Each recorded status was passed to exit by that very process at an earlier step, or is a crash's -1 |
| `SchedulerRuns.ExecFindsPendingEmpty` | kernel/src/exec/process.rs:246-281 | When exec runs, both pending slots are empty, so no number of exec calls loses an address space or a stack |
| `SchedulerRuns.WaitGoesOn` | kernel/src/exec/process.rs:325-386 | Any step inside a wait leaves its target alive in its slot and the activations below it untouched |
| `SchedulerRuns.WaitEnds` | kernel/src/exec/process.rs:328-336 | A wait ends only in a pass of its own activation, with its target a zombie, and returns the recorded status |
| `SchedulerRuns.StackIsRunning` | kernel/src/arch/x86_64/usermode.rs:41-81 | The slots on the dispatch stack are the Running ones |
| `SchedulerRuns.StepIsInnermost` | kernel/src/exec/process.rs:325-386 | A step changes only the innermost activation, opens one inside it, or closes it |
| `SchedulerCalls.WaitOpensIff` | kernel/src/exec/syscall.rs:597-602 | wait blocks if and only if the caller has a live child, of that pid when one is given; otherwise nothing changes |
| `SchedulerCalls.WaitTakes` | kernel/src/exec/process.rs:125-134 | It waits for the first child in the table that has exited, if there is one, else for the first child |
| `SchedulerCalls.WaitIsOverAtOnceIff` | kernel/src/exec/process.rs:121-133 | The next pass of its activation ends a wait if and only if such a child has exited already; it then has that child's status, the child's slot is free and no other slot has changed |
| `SchedulerCalls.RootPassIs` | kernel/src/exec/process.rs:337-349 | The outermost loop returns to the kernel if and only if every process is gone or has exited, and then everything allocated has been freed; otherwise it runs one; nothing that had exited is left |
| `SchedulerCalls.WaitPassIs` | kernel/src/exec/process.rs:351-356 | Inside a wait the CPU is idle if and only if no process can run |
| `SchedulerCalls.ForkIs` | kernel/src/exec/process.rs:179-239 | fork fails if and only if the table is full; otherwise the caller has exactly one more child, ready to run, under a pid nobody has |
| `SchedulerCalls.SpawnIs` | kernel/src/exec/process.rs:148-157 | The same of a program the kernel starts, as nobody's child |
| `SchedulerCalls.ForkThenWait` | kernel/src/exec/syscall.rs:597-602 | The pid fork gives is one its caller can wait for, and the wait is for that very child |
| `SchedulerCalls.LeavesTheCpu` | kernel/src/arch/x86_64/usermode.rs:66-103 | After exit, a crash, exec, yield or preemption the activation that dispatched the caller has the CPU back in its own address space; the caller is what it asked to be and no other process has changed |
| `SchedulerProofs.StepSafe` | kernel/src/exec/process.rs:148-386 | Every step keeps the invariant that the run theorems rest on |
| `SchedulerProofs.ReapTargetSafe` | kernel/src/exec/process.rs:328-336 | Reaping the innermost wait's target and returning frees nothing in use and leaves every outer wait's target alone |
| `SchedulerProofs.EnterSafe` | kernel/src/arch/x86_64/usermode.rs:41-65 | Entering a process saves what its activation will unwind to and keeps every resource held once |
| `SchedulerProofs.LeaveSafe` | kernel/src/arch/x86_64/usermode.rs:66-103 | Leaving a process, with whatever it has just taken on, unwinds to the activation that dispatched it |
| `SchedulerProofs.ExecSafe` | kernel/src/exec/process.rs:246-281 | exec keeps the invariant: the old address space and stack move to the pending slots, the new ones take over |
| `SchedulerProofs.FreePendingSafe` | kernel/src/exec/process.rs:286-293 | Freeing what exec left behind never frees something in use |
| `SchedulerProofs.ReapSafe` | kernel/src/exec/process.rs:298-304 | Reaping a zombie frees its address space and stack once, and neither is in use |
| `SchedulerProofs.ForkSafe` | kernel/src/exec/process.rs:179-239 | fork keeps the invariant; the child's memory is its own |
| `SchedulerProofs.WaitSafe` | kernel/src/exec/syscall.rs:597-606 | Opening a wait keeps the invariant: its target is a live child and no other activation's target |
| `SchedulerProofs.DieSafe` | kernel/src/exec/syscall.rs:673-683 | exit keeps the invariant |
| `SchedulerProofs.StopSafe` | kernel/src/arch/x86_64/idt.rs:227-234 | Yield and preemption keep the invariant |
| `SchedulerFairness.BoundedWaiting` | kernel/src/exec/process.rs:306-313 | In any run through which a slot stays Runnable fewer than 16 picks happen, counting those of all nested activations, and each brings its turn closer |
| `SchedulerFairness.PickComesCloser` | kernel/src/exec/process.rs:306-313 | The round-robin search picks a given runnable slot or one strictly before it in the round |
| `SchedulerFairness.WaitCanReturnIffTargetOffStack` | kernel/src/exec/process.rs:325-386 | The innermost wait can return in some run if and only if its target is not itself Running further down the dispatch stack |
| `SchedulerWaits.WaitCanReturnIff` | kernel/src/exec/process.rs:325-386 | A wait at any depth can return in some run if and only if no wait from it upward is for a process that an activation below that wait is in the middle of running |
| `SchedulerFairness.StuckForever` | kernel/src/exec/process.rs:325-386 | A wait for a process that is on the dispatch stack below it is still waiting after any number of steps |
| `SchedulerDeadlock.DeadlockIsReachable` | kernel/src/exec/process.rs:325-386 | Twelve steps from boot reach a wait that no run brings back: a child waits, and its parent, picked inside that wait, waits for the child |
| `ProcessTable.Machine.SlotOfPid` | kernel/src/exec/process.rs:94-100 | The slot of a live pid, or none |
| `ProcessTable.Machine.AllocateSlot` | kernel/src/exec/process.rs:136-138 | The first unused slot |
| `ProcessTable.Machine.FindChildOf` | kernel/src/exec/process.rs:125-134 | The child with that pid, else an exited child first, else any child; characterized by `SchedulerCalls.WaitTakes` |
| `ProcessTable.Machine.PickNextRunnable` | kernel/src/exec/process.rs:306-313 | The next Runnable slot in the round, remembered as the last pick |
| `ProcessTable.Machine.FreePendingOf` | kernel/src/exec/process.rs:286-293 | Frees and clears the pending slots, nothing else |
| `ProcessTable.Machine.ReapSlot` | kernel/src/exec/process.rs:298-304 | Frees pending, address space and stack; the slot becomes unused |
| `ProcessTable.Machine.ReapZombies` | kernel/src/exec/process.rs:338-348 | The sweep reaps every zombie in table order and says whether a process is left |
| `ProcessTable.Machine.Fork` | kernel/src/exec/process.rs:179-239 | The table `SchedulerCalls.ForkIs` is about, and the new pid, or None exactly when no slot is free |
| `ProcessTable.Machine.Spawn` | kernel/src/exec/process.rs:148-157 | The table `SchedulerCalls.SpawnIs` is about, and the new pid, or None exactly when no slot is free |
| `ProcessTable.Machine.Wait` | kernel/src/exec/syscall.rs:597-603 | The activation `SchedulerCalls.WaitTakes` is about, and the pid it waits for |
| `ProcessTable.Machine.Exec` | kernel/src/exec/process.rs:246-281 | Old resources pending, new ones in place |
| `ProcessTable.Machine.BecomeZombie` | kernel/src/exec/syscall.rs:673-683 | Zombie with the status given |
| `ProcessTable.Machine.BecomeRunnable` | kernel/src/exec/syscall.rs:658-672 | Runnable, with its frame on the stack RSP0 names |
| `ProcessTable.Machine.BeginDispatch` | kernel/src/arch/x86_64/usermode.rs:41-65 | Saves the caller's context and switches to the process's |
| `ProcessTable.Machine.EndDispatch` | kernel/src/arch/x86_64/usermode.rs:66-103 | Restores what the dispatch saved |
| `ProcessTable.Machine.ReturnFromRunUntil` | kernel/src/exec/process.rs:376-386 | `current` and RSP0 are the caller's again |
| `ProcessTable.Machine.RunUntilPass` | kernel/src/exec/process.rs:325-386 | One pass of the scheduler loop is the transition system's pass |
| `TerminalAgreement.StreamsAgree` | userland/rust/tile/src/vt.rs:140-296 | On every stream in the domain, tile's terminal and the kernel console stay equal up to glyphs: grid, cursor, attributes, parser state |
| `TerminalAgreement.AgreeThroughoutIff` | kernel/src/console/fbconsole.rs:237-414 | They agree after every byte of a stream if and only if every byte is agreeable; on two or more columns, if and only if every byte is in the domain |
| `TerminalAgreement.StepAgreesIff` | kernel/src/console/fbconsole.rs:324-414 | From agreeing states of any size, one byte keeps agreement if and only if it is in the domain (outside a sequence a printable byte, one of LF, CR, BS, ESC, or 0x80 and above; inside, below 0x80 and a parameter within 65535) or is drawn unseen: in the only column of the last row, with a scroll that leaves the grid as it was |
| `TerminalAgreement.WideIsInDomain` | kernel/src/console/fbconsole.rs:305-322 | On two or more columns nothing is drawn unseen |
| `TerminalAgreement.ControlAgreesIff` | kernel/src/console/fbconsole.rs:324-414 | A control byte outside the domain, drawn by the console and ignored by the pane, keeps agreement if and only if it is drawn unseen |
| `TerminalAgreement.StepAgrees` | userland/rust/tile/src/vt.rs:146-227 | One byte in the domain keeps the two in agreement, whatever the width |
| `TerminalAgreement.CsiAgrees` | userland/rust/tile/src/vt.rs:234-286 | Every complete control sequence does the same on both |
| `TerminalAgreement.SgrAgrees` | kernel/src/console/fbconsole.rs:237-302 | The two read graphic rendition parameters alike |
| `TerminalAgreement.EraseDisplayAgrees` | userland/rust/tile/src/vt.rs:105-115 | Both erase the same cells, in every mode |
| `TerminalAgreement.BrokenSequence` | kernel/src/console/fbconsole.rs:324-414 | A UTF-8 sequence cut short draws a question mark on both and the byte is taken afresh |
| `TerminalAgreement.BellDisagrees` | userland/rust/tile/src/vt.rs:1-12 | The documented equivalence with the console fails: a bell is drawn by the console and ignored by the pane |
| `VtModel.Feed` | userland/rust/tile/src/vt.rs:140-144 | Whatever bytes arrive, the cursor stays on the grid and the grid keeps its size |
| `ConsoleModel.Write` | kernel/src/console/fbconsole.rs:324-414 | Whatever bytes arrive, the cursor stays on the grid and the grid keeps its size |
| `VtModel.FeedConcat` | userland/rust/tile/src/vt.rs:140-144 | How a stream is cut into writes does not matter |
| `BackendRoundTrip.DrawRoundTrip` | userland/rust/tui/src/backend.rs:186-200 | For any cell updates that keep clear of the bottom-right cell, the backend's bytes change exactly those cells to the shown character and pen, never scroll, and leave the backend's cursor and pen equal to the terminal's; those bytes are what draw queues |
| `BackendRoundTrip.DrawIs` | userland/rust/tui/src/backend.rs:186-200 | What draw queues, put together from the cells' bytes |
| `BackendColors.NamedIs` | userland/rust/tui/src/backend.rs:119-138 | The sixteen named colors, in ANSI order, are palette entries 0 to 15, and so are the indexed colors of those numbers |
| `BackendColors.RgbIs` | userland/rust/tui/src/backend.rs:148-148 | An RGB color is the palette entry nearest to it, the lowest of equals |
| `BackendColors.CubeIs` | userland/rust/tui/src/backend.rs:143-147 | A color of the 6x6x6 cube is the entry nearest to its RGB value |
| `BackendColors.GreyIs` | userland/rust/tui/src/backend.rs:139-142 | A step of the grey ramp is the entry nearest to it |
| `BackendColors.PaletteIsItself` | userland/rust/tui/src/backend.rs:104-117 | A palette entry's own color is that entry |
| `BackendColors.NamedBytes` | userland/rust/tui/src/backend.rs:80-98 | The bytes that choose a named foreground: 31 for red |
| `BackendColors.DrawNamed` | userland/rust/tui/src/backend.rs:186-200 | A cell drawn in named colors is on the terminal in the colors of their ANSI numbers, and no other cell has changed |
| `BackendColors.ShownIsItselfIff` | userland/rust/tui/src/backend.rs:172-174 | A character is shown as itself if and only if the console has it |
| `BackendColors.ShownOther` | userland/rust/tui/src/backend.rs:165-171 | No character is a blank, several a question mark |
| `BackendColors.ShownStandIn` | userland/rust/tui/src/backend.rs:175-181 | Heavy and double lines are shown light, partial blocks full, anything else as a question mark |
| `TerminalSequences.MoveRead` | userland/rust/tile/src/vt.rs:241-244 | Cursor movement by n in each direction, stopping at the edge, and nothing else |
| `TerminalSequences.MoveByOne` | userland/rust/tile/src/vt.rs:229-232 | Without a number, or with 0, by one |
| `TerminalSequences.CupClamps` | userland/rust/tile/src/vt.rs:237-240 | A cursor address past the edge is the edge |
| `TerminalSequences.EraseDisplayRead` | userland/rust/tile/src/vt.rs:245-255 | Exactly the cells from the cursor on, up to it, or all, in reading order, are blank; no other cell, nor cursor or pen, has changed |
| `TerminalSequences.EraseLineRead` | userland/rust/tile/src/vt.rs:256-260 | The same within the cursor's row |
| `TerminalSequences.LineFeedRead` | userland/rust/tile/src/vt.rs:123-129 | To the start of the next row; on the last, every row moves up one and a blank one comes in |
| `TerminalSequences.CarriageReturnRead` | userland/rust/tile/src/vt.rs:216-216 | To the start of the row, nothing else |
| `TerminalSequences.BackspaceRead` | userland/rust/tile/src/vt.rs:217-222 | A space of the current pen left of the cursor, which goes there; nothing at the edge |
| `TerminalSequences.CursorRead` | userland/rust/tile/src/vt.rs:288-296 | The private sequences show and hide the cursor, nothing else |
| `TerminalSequences.SgrSequenceRead` | userland/rust/tile/src/vt.rs:261-283 | One rendition code changes the pen by it |
| `TerminalSequences.EmptySgrRead` | userland/rust/tile/src/vt.rs:261-264 | No code makes it plain |
| `TerminalSequences.SgrTakesBack` | userland/rust/tile/src/vt.rs:265-282 | Each code changes the attribute it is about, and has one that takes it back |
| `TerminalSequences.OnConsole` | kernel/src/console/fbconsole.rs:324-414 | Whatever the pane reads this way, a console that agrees with it reads alike |
| `BackendRoundTrip.DrawLeaves` | userland/rust/tui/src/backend.rs:186-200 | For any updates anywhere on the grid: each paints its cell, the bottom-right one also scrolls, and cursor and pen stay in step |
| `BackendRoundTrip.PositionRoundTripsIff` | userland/rust/tui/src/backend.rs:186-200 | A position round-trips on every tracked terminal of a size, with every cell, if and only if it is not the bottom-right cell |
| `BackendRoundTrip.RoundTripsIff` | userland/rust/tui/src/backend.rs:186-200 | On a given terminal: if and only if it is not the bottom-right cell, or the scroll changes nothing |
| `BackendRoundTrip.CornerIsLost` | userland/rust/tui/src/backend.rs:186-200 | A visible character there never round-trips |
| `BackendRoundTrip.ReportedIsInWindow` | userland/rust/tui/src/backend.rs:241-244 | The reported window keeps clear of the bottom-right cell if and only if there are two rows or the column is not the last |
| `BackendRoundTrip.ClearRead` | userland/rust/tui/src/backend.rs:223-227 | clear() leaves a blank screen, with pen and cursor still in step |
| `BackendRoundTrip.DrawOnConsole` | userland/rust/tui/src/backend.rs:186-200 | The same bytes on the kernel console show the glyph of every cell drawn, with its pen |
| `BackendRoundTrip.OneRowScrollsAway` | userland/rust/tui/src/backend.rs:241-244 | On one row the backend still reports the last column, and the bytes it sends for it blank the whole screen |
| `BackendRoundTrip.UpdateRead` | userland/rust/tui/src/backend.rs:186-200 | One update anywhere on the grid takes a terminal the backend tracks to one it tracks |
| `BackendRoundTrip.GotoRead` | userland/rust/tui/src/backend.rs:190-192 | After the bytes for a move, which may be none, the cursor is where the update goes |
| `BackendRoundTrip.PenRead` | userland/rust/tui/src/backend.rs:48-53 | After the bytes for a pen change, which may be none, the attributes are the cell's pen |
| `BackendRoundTrip.SgrRead` | userland/rust/tui/src/backend.rs:80-98 | One written rendition sequence leaves the terminal's attributes equal to the pen, whatever they were |
| `BackendRoundTrip.CupRead` | userland/rust/tui/src/backend.rs:43-46 | A written cursor address is read back as that position |
| `BackendRoundTrip.CharRead` | userland/rust/tile/src/vt.rs:146-227 | Any printable character sent as UTF-8 is drawn as itself |
| `BackendRoundTrip.SymbolRead` | userland/rust/tui/src/backend.rs:165-181 | The character drawn changes one cell, scrolls only at the bottom-right one, and leaves the cursor on the next column where there is one |
| `BackendRoundTrip.DecimalRead` | userland/rust/tui/src/backend.rs:80-98 | A decimal number up to 65535 is read back into the parameter being given |
| `BackendModel.ShownIsDrawable` | userland/rust/tui/src/backend.rs:165-181 | What is sent is in the console's font, so it is never drawn as the fallback |
| `BackendModel.NearestOf` | userland/rust/tui/src/backend.rs:111-117 | The palette entry at the least squared distance, the lowest index among equals |
| `BackendModel.PaletteIndex` | userland/rust/tui/src/backend.rs:119-150 | A palette index for every color but the default, which has none |
| `BackendModel.Shown` | userland/rust/tui/src/lib.rs:45-48 | Always a character the console has |
| `Terminal.RowStartIsProduct` | userland/rust/tile/src/vt.rs:93-100 | The start of a row, counted row by row, is the product the code indexes with |
| `Screens.VtScreen.SetCell` | userland/rust/tile/src/vt.rs:97-100 | One cell of the flat array, at the computed index |
| `Screens.VtScreen.constructor` | userland/rust/tile/src/vt.rs:75-91 | A blank grid with the cursor at home |
| `Screens.VtScreen.Erase` | userland/rust/tile/src/vt.rs:105-115 | Blanks a run of cells, cut at the row's end |
| `Screens.VtScreen.ScrollUp` | userland/rust/tile/src/vt.rs:117-121 | Every row moves up one, the last is blank |
| `Screens.VtScreen.NextRow` | userland/rust/tile/src/vt.rs:123-129 | Down one row, or a scroll on the last |
| `Screens.VtScreen.Put` | userland/rust/tile/src/vt.rs:131-138 | Draws, advances, and wraps at once after the last column |
| `Screens.VtScreen.FeedBytes` | userland/rust/tile/src/vt.rs:140-144 | The stream, byte by byte |
| `Screens.VtScreen.ByteIn` | userland/rust/tile/src/vt.rs:146-227 | The parser step |
| `Screens.VtScreen.CsiByte` | userland/rust/tile/src/vt.rs:146-227 | Digits, separators and final bytes |
| `Screens.VtScreen.Digit` | userland/rust/tile/src/vt.rs:146-227 | A digit joins the current parameter, saturating |
| `Screens.VtScreen.PlainByte` | userland/rust/tile/src/vt.rs:146-227 | Control and printable bytes |
| `Screens.VtScreen.LeadByte` | userland/rust/tile/src/vt.rs:160-171 | Starts a UTF-8 sequence or draws a question mark |
| `Screens.VtScreen.ParamOr` | userland/rust/tile/src/vt.rs:230-232 | A missing or zero parameter takes its default |
| `Screens.VtScreen.Csi` | userland/rust/tile/src/vt.rs:234-286 | The action of a final byte |
| `Screens.VtScreen.Move` | userland/rust/tile/src/vt.rs:234-286 | Cursor movement, clamped to the grid |
| `Screens.VtScreen.SelectGraphics` | userland/rust/tile/src/vt.rs:234-286 | The loop over rendition parameters |
| `Screens.VtScreen.EraseDisplay` | userland/rust/tile/src/vt.rs:234-286 | The part of the screen the mode names |
| `Screens.VtScreen.EraseLine` | userland/rust/tile/src/vt.rs:234-286 | The part of the line the mode names |
| `Screens.VtScreen.PrivateCsi` | userland/rust/tile/src/vt.rs:288-296 | Cursor visibility |
| `Screens.FbConsole.constructor` | kernel/src/console/fbconsole.rs:419-434 | A blank screen with the cursor at home |
| `Screens.FbConsole.DrawGlyph` | kernel/src/console/fbconsole.rs:123-128 | One cell, by the glyph the font has for it |
| `Screens.FbConsole.EraseCells` | kernel/src/console/fbconsole.rs:186-194 | A run of cells, cut at the row's end |
| `Screens.FbConsole.Scroll` | kernel/src/console/fbconsole.rs:198-208 | Every row moves up one, the last is blank |
| `Screens.FbConsole.HandleCsi` | kernel/src/console/fbconsole.rs:237-302 | The action of a final byte |
| `Screens.FbConsole.Move` | kernel/src/console/fbconsole.rs:237-302 | Cursor movement, clamped to the grid |
| `Screens.FbConsole.SelectGraphics` | kernel/src/console/fbconsole.rs:237-302 | The loop over rendition parameters |
| `Screens.FbConsole.SgrParam` | kernel/src/console/fbconsole.rs:237-302 | One rendition parameter |
| `Screens.FbConsole.Newline` | kernel/src/console/fbconsole.rs:305-312 | Down one row, or a scroll on the last |
| `Screens.FbConsole.PutGlyph` | kernel/src/console/fbconsole.rs:316-322 | Draws, advances and wraps |
| `Screens.FbConsole.Putc` | kernel/src/console/fbconsole.rs:324-414 | The parser step |
| `Screens.FbConsole.NormalByte` | kernel/src/console/fbconsole.rs:324-414 | A byte outside any sequence |
| `Screens.FbConsole.CsiByte` | kernel/src/console/fbconsole.rs:324-414 | A byte inside a control sequence |
| `Screens.FbConsole.Write` | kernel/src/console/fbconsole.rs:324-414 | The stream, byte by byte |
| `Screens.AnssBackend.Goto` | userland/rust/tui/src/backend.rs:43-46 | Always queues the position sequence and moves the shadow cursor |
| `Screens.AnssBackend.SetPen` | userland/rust/tui/src/backend.rs:48-53 | No bytes when the pen is unchanged |
| `Screens.AnssBackend.DrawOne` | userland/rust/tui/src/backend.rs:186-200 | One cell, and the cursor it leaves; no move is queued when the cursor is already there |
| `Screens.AnssBackend.Draw` | userland/rust/tui/src/backend.rs:186-200 | All cells, in order |
| `PipeRuns.EveryRunCountsRight` | kernel/src/exec/pipe.rs:71-89 | In every run of any processes' calls: no freed pipe is touched; each end's count is the entries that name it plus the claims earlier steps abandoned; every entry names a pipe that is there; and a pipe is there exactly while some claim on it is |
| `PipeRuns.EndOfFileIff` | kernel/src/exec/pipe.rs:57-69 | A read reports end of file if and only if every byte taken was handed out, no process holds the write end and none abandoned it |
| `PipeRuns.EndOfFileIsForever` | kernel/src/exec/pipe.rs:57-69 | Once nobody claims the write end, no later step of anybody adds a byte or a writer |
| `PipeRuns.BytesArriveInOrder` | kernel/src/exec/pipe.rs:38-69 | In every run what readers were given is a prefix of what writers were told was taken, at most 4096 bytes are in flight, and at end of file nothing is missing |
| `PipeCalls.WriteTakes` | kernel/src/exec/pipe.rs:41-53 | After any run: a write is refused if and only if nobody claims the read end, and otherwise takes exactly the bytes, from the front of the data, that one buffer has room for beside those in flight |
| `PipeCalls.ReadGives` | kernel/src/exec/pipe.rs:57-69 | After any run: a read hands out exactly the next bytes of all that was taken, as many as are in flight or fit; with none in flight it is end of file if and only if nobody claims the write end |
| `PipeCalls.PipeCarries` | kernel/src/exec/syscall.rs:486-498 | What is written into a pipe just made comes out of its other end, up to one buffer |
| `PipeCalls.PipeGives` | kernel/src/exec/syscall.rs:486-498 | pipe fails if and only if two descriptors are not free; otherwise two that were are the ends of a new pipe, and no other has changed |
| `PipeCalls.StdioIs` | kernel/src/exec/syscall.rs:504-516 | The ends moved onto stdio are those the two descriptors named, which are then free |
| `PipeCalls.CloseIs` | kernel/src/exec/syscall.rs:182-189 | One descriptor is free, and its claim, if it had one, is gone |
| `PipeCalls.ForkGives` | kernel/src/exec/process.rs:179-211 | The child names the same ends by the same descriptors, and each is claimed once more |
| `PipeCalls.ExitIs` | kernel/src/exec/process.rs:163-172 | The two stdio ends lose a claim, descriptors keep theirs |
| `PipeCalls.ExecIs` | kernel/src/exec/process.rs:246-281 | To the pipes exec changes nothing |
| `PipeCalls.OpenIs` | kernel/src/exec/syscall.rs:148-180 | Opening a file takes one free descriptor, if there is one, and no claim |
| `PipeRuns.LosesAClaimIff` | kernel/src/exec/process.rs:163-172 | A step abandons a claim if and only if it reaps a process that exited with pipe descriptors open, is a fork that runs out of memory after counting, or a use_as_stdio over pipes already in place |
| `PipeRuns.CountsAreExactIff` | kernel/src/exec/process.rs:163-239 | The counts equal the entries in use, for every end of every pipe, if and only if no step of the run abandoned a claim |
| `PipeRuns.ForgottenIsForever` | kernel/src/exec/pipe.rs:71-89 | An abandoned claim is never taken up again, and its pipe outlives every process |
| `PipeRuns.ExitLeaksPipes` | kernel/src/exec/process.rs:163-172 | A run of a few steps that ends with a pipe nobody holds, still there |
| `PipeCounts.StepSafe` | kernel/src/exec/syscall.rs:486-516 | Every call keeps the count invariant |
| `PipeCounts.ForkSafe` | kernel/src/exec/process.rs:179-239 | Inheriting every entry, and failing half way, keep the count invariant |
| `PipeCounts.CloseSafe` | kernel/src/exec/syscall.rs:182-189 | Closing a descriptor keeps the count invariant and frees the pipe with its last claim |
| `PipeCounts.MakePipeSafe` | kernel/src/exec/syscall.rs:486-498 | A new pipe, or none when descriptors run out, keeps the count invariant |
| `PipeCounts.UseAsStdioSafe` | kernel/src/exec/syscall.rs:504-516 | Moving two descriptors onto stdio keeps the count invariant, abandoning what was there |
| `PipeCounts.ExitSafe` | kernel/src/exec/process.rs:163-172 | Closing stdio at exit keeps the count invariant, abandoning the rest |
| `PipeRing.Pipe.constructor` | kernel/src/exec/pipe.rs:13-36 | Empty, with one reader and one writer |
| `PipeRing.Pipe.Write` | kernel/src/exec/pipe.rs:41-52 | Appends as much as fits to the ring's contents, or refuses when nobody reads |
| `PipeRing.Pipe.Read` | kernel/src/exec/pipe.rs:57-69 | Hands out the oldest bytes, leaves the rest of the buffer alone, and tells empty from ended |
| `PipeRing.PipeTable.constructor` | kernel/src/exec/process.rs:66-90 | No process and no pipe |
| `PipeRing.PipeTable.CountInherited` | kernel/src/exec/process.rs:179-239 | Counts every inherited descriptor and both stdio ends |
| `PipeRing.PipeTable.FindUnused` | kernel/src/exec/process.rs:136-138 | The first unused slot |
| `PipeRing.PipeTable.Fork` | kernel/src/exec/process.rs:179-239 | The pipe side of fork, on both its failure paths |
| `FsRuns.EveryRunKeepsOneTree` | kernel/src/fs/vfs.rs:88-354 | From an empty filesystem, whatever calls any processes make in whatever order: the nodes are one consistently linked tree under the root, with unique names in each directory, and every working directory is a directory in it |
| `FsRuns.StepKeeps` | kernel/src/exec/syscall.rs:191-237 | Every filesystem call keeps that |
| `FsRuns.UnlinkKeepsCwds` | kernel/src/exec/syscall.rs:212-223 | Unlink never frees a directory some process is in |
| `FsWalks.DotsLead` | kernel/src/fs/vfs.rs:138-143 | `.` is the node itself; `..` is the node whose line of ancestors is one shorter, and the top itself at the top |
| `FsWalks.OnlyRootIsItsOwnParent` | kernel/src/fs/vfs.rs:138-143 | In one tree only the root is its own `..` |
| `FsWalks.NameLeads` | kernel/src/fs/vfs.rs:144-150 | An ordinary name leads to the child of that name, one further from the root, if there is one |
| `FsWalks.ResolveOn` | kernel/src/fs/vfs.rs:131-155 | Following `p/q` is following `p` and then `q`, without its leading slashes, from there; after an empty `p`, from the root |
| `FsWalks.PathDownAndUp` | kernel/src/fs/vfs.rs:131-155 | From any base, any path of ordinary names and then as many `..` lead back to the base |
| `FsWalks.DownAndUp` | kernel/src/fs/vfs.rs:131-155 | The same of components |
| `FsWalks.LeafLeads` | kernel/src/fs/vfs.rs:159-170 | A path leads where its leaf leads from its parent; one without a parent leads nowhere, unless it is all slashes |
| `FsWalks.LeafOf` | kernel/src/fs/vfs.rs:159-170 | The leaf is the last name, whatever slashes follow, and what is before it leads to the parent |
| `FsWalks.ResolveStays` | kernel/src/fs/vfs.rs:131-155 | When nodes are only added, what led somewhere still leads there |
| `FsCalls.CreateIs` | kernel/src/fs/vfs.rs:172-205 | Creation succeeds if and only if the path names a new entry of a directory; then there is one more node, empty, and the path leads to it unless its name is `.` or `..` |
| `FsCalls.WriteIs` | kernel/src/fs/vfs.rs:334-354 | Writing succeeds if and only if the path leads to a file or could be created; then it leads to a file that holds exactly the data, and no other node has changed |
| `FsCalls.RemoveIs` | kernel/src/fs/vfs.rs:220-236 | Removal succeeds if and only if the path leads to a node that is not the root nor an ancestor of the working directory; then exactly its subtree is gone and the path leads nowhere |
| `FsCalls.MoveIs` | kernel/src/fs/vfs.rs:298-330 | A move succeeds exactly when the destination names a free entry, or the source's own, of a directory outside what is moved; then the source is found there |
| `FsCalls.CopyIs` | kernel/src/fs/vfs.rs:271-296 | A copy succeeds exactly when the destination names a free entry of a directory outside what is copied; then a mirrored copy is found there |
| `FsCalls.ChdirIs` | kernel/src/exec/syscall.rs:191-199 | chdir succeeds if and only if the path leads to a directory; then a path from there is that path through it |
| `FsCalls.UnlinkIs` | kernel/src/exec/syscall.rs:212-223 | unlink removes what the path leads to unless it is the root or some process is in it |
| `FsCalls.MakeCallIs` | kernel/src/exec/syscall.rs:201-210 | mkdir makes a directory, creating a file a file, or nothing |
| `FsCalls.WriteCallIs` | kernel/src/fs/vfs.rs:334-354 | The same of a process's call |
| `FsCalls.MoveCallsAre` | kernel/src/exec/syscall.rs:225-237 | rename and copy are those moves and copies, and leave working directories alone |
| `FsCalls.ForkAndExitAre` | kernel/src/exec/process.rs:179-187 | A child starts where its parent is |
| `FsRuns.MoveSafe` | kernel/src/fs/vfs.rs:298-330 | A move adds and loses no node and no data, never makes a cycle, and changes nothing when it fails |
| `FsRuns.CopySafe` | kernel/src/fs/vfs.rs:271-296 | A copy keeps one tree with every old node in place, and changes nothing when it fails |
| `FsOps.MoveNodeSafe` | kernel/src/fs/vfs.rs:298-330 | Only the moved node changes name and parent, and only the two directories change lists |
| `FsOps.RemoveNodeSafe` | kernel/src/fs/vfs.rs:220-236 | Exactly one subtree goes; every other node stays as it was but for one entry of one list |
| `FsOps.CreateSafe` | kernel/src/fs/vfs.rs:172-194 | Adds one node under a fresh name, or nothing |
| `FsOps.AddSafe` | kernel/src/fs/vfs.rs:172-194 | The new entry comes first in its directory; nothing else changes |
| `FsOps.ParentAndLeafOk` | kernel/src/fs/vfs.rs:159-170 | A non-empty leaf is a valid name: UTF-8, no slash, at most 63 bytes |
| `FsCopy.CopyNodeSafe` | kernel/src/fs/vfs.rs:238-296 | The copy holds the source's tree with each directory's order reversed, under its new name, on nodes of its own; old nodes change only by the one new entry |
| `FsCopy.DepictsOne` | kernel/src/fs/vfs.rs:28-73 | A node holds at most one tree, so the tree a copy holds is the only one |
| `FsCopy.CopyTreeSafe` | kernel/src/fs/vfs.rs:238-255 | The recursive copy is detached, mirrored and leaves the rest of the forest alone |
| `FsCopy.MoveKeepsTree` | kernel/src/fs/vfs.rs:298-330 | A moved node takes everything under it along, in the same order |
| `FsCopy.MirrorTwice` | kernel/src/fs/vfs.rs:238-255 | Two copies in a row give back the original order |
| `FsPaths.PathLeadsBackIff` | kernel/src/fs/vfs.rs:404-419 | Resolving a node's own path gives that node if and only if no name on it is a dot or two dots |
| `FsTree.LinkSafe` | kernel/src/fs/vfs.rs:88-94 | Linking a detached subtree keeps the forest consistent, with no cycle |
| `FsTree.UnlinkSafe` | kernel/src/fs/vfs.rs:96-109 | Unlinking keeps it, wherever in the list the child is |
| `FsTree.FreeSafe` | kernel/src/fs/vfs.rs:204-218 | Freeing a detached subtree frees exactly it |
| `FsTree.LinkLine` | kernel/src/fs/vfs.rs:88-94 | The line of ancestors of every node after a link |
| `FsTree.UnlinkLine` | kernel/src/fs/vfs.rs:96-109 | The line of ancestors of every node after an unlink |
| `Names.CutIsUtf8` | kernel/src/fs/vfs.rs:47-54 | Cutting between characters leaves UTF-8 on both sides |
| `Names.Cut` | kernel/src/fs/vfs.rs:52-54 | A prefix of at most 63 bytes; the whole name when it is that short |
| `Names.Floor` | kernel/src/fs/vfs.rs:52-54 | The greatest character boundary at or below a position |
| `Names.SplitJoin` | kernel/src/fs/vfs.rs:131-157 | Splitting a joined path gives its components back |
| `Names.LastSlash` | kernel/src/fs/vfs.rs:159-170 | The last slash, or none |
| `FsNodes.VnodeStore.constructor` | kernel/src/fs/vfs.rs:122-125 | A nameless root directory and nothing else |
| `FsNodes.VnodeStore.FindChild` | kernel/src/fs/vfs.rs:70-73 | The child of that name, searching the sibling list |
| `FsNodes.VnodeStore.IsAncestorOrSelf` | kernel/src/fs/vfs.rs:111-120 | Whether a node is above another, or is it |
| `FsNodes.VnodeStore.LinkChild` | kernel/src/fs/vfs.rs:88-94 | Pointers after linking spell the specified forest |
| `FsNodes.VnodeStore.EntryBefore` | kernel/src/fs/vfs.rs:96-109 | The entry before a child in its list |
| `FsNodes.VnodeStore.UnlinkChild` | kernel/src/fs/vfs.rs:96-109 | Pointers after unlinking spell the specified forest |
| `FsNodes.VnodeStore.Resolve` | kernel/src/fs/vfs.rs:131-157 | The node a path names, or none |
| `FsNodes.VnodeStore.NamesUp` | kernel/src/fs/vfs.rs:404-419 | The names up to the root |
| `FsNodes.VnodeStore.JoinBack` | kernel/src/fs/vfs.rs:404-419 | Joins them in path order |
| `FsNodes.VnodeStore.Path` | kernel/src/fs/vfs.rs:404-419 | The node's path |
| `FsNodes.VnodeStore.FreeChildren` | kernel/src/fs/vfs.rs:204-218 | Frees the subtrees of all children, reading each sibling pointer before it goes |
| `FsNodes.VnodeStore.FreeTree` | kernel/src/fs/vfs.rs:204-218 | Frees a subtree in place, children first |
| `FsNodes.VnodeStore.AllocVnode` | kernel/src/fs/vfs.rs:75-86 | One fresh detached node |
| `FsNodes.VnodeStore.ParentAndLeaf` | kernel/src/fs/vfs.rs:159-170 | The directory and the last name of a path |
| `FsNodes.VnodeStore.Create` | kernel/src/fs/vfs.rs:172-194 | mkdir and create_file |
| `FsNodes.VnodeStore.WriteBytes` | kernel/src/fs/vfs.rs:334-354 | Creates the file if need be and replaces its contents |
| `FsNodes.VnodeStore.RemoveVnode` | kernel/src/fs/vfs.rs:220-236 | Unlinks and frees |
| `FsNodes.VnodeStore.Remove` | kernel/src/fs/vfs.rs:220-236 | Refuses the root and an ancestor of the working directory |
| `FsNodes.VnodeStore.Target` | kernel/src/fs/vfs.rs:257-264 | Into a directory under the old name, or under a new one |
| `FsNodes.VnodeStore.SetName` | kernel/src/fs/vfs.rs:52-54 | Stores the name cut to length |
| `FsNodes.VnodeStore.MoveVnode` | kernel/src/fs/vfs.rs:298-330 | Unlink, rename, link |
| `FsNodes.VnodeStore.Move` | kernel/src/fs/vfs.rs:298-330 | With all its refusals |
| `FsNodes.VnodeStore.CopyRecursive` | kernel/src/fs/vfs.rs:238-255 | The recursive copy, child by child |
| `FsNodes.VnodeStore.CopyVnode` | kernel/src/fs/vfs.rs:271-296 | Copy and link |
| `FsNodes.VnodeStore.Copy` | kernel/src/fs/vfs.rs:271-296 | With all its refusals |
| `FsLimits.LoadsBackIff` | kernel/src/fs/blkfs.rs:100-169 | Saving a tree and loading the disk into a fresh root succeeds with the same tree, each directory's children in the opposite order, if and only if nothing named with a dot or two dots has anything in it |
| `FsLimits.ReadsBackIff` | kernel/src/fs/blkfs.rs:22-93 | The same for the bytes alone, read to the last one |
| `FsLimits.TwiceIsIdentity` | kernel/src/fs/blkfs.rs:100-169 | Save, load, save, load gives the very tree back, order included |
| `FsLimits.LoadReadsSaved` | kernel/src/fs/blkfs.rs:100-169 | Loading a saved disk reads exactly the bytes written |
| `FsLimits.SavedBytes` | kernel/src/fs/blkfs.rs:144-169 | Header fields and data sectors of a saved disk |
| `FsLimits.DotLosesItsContents` | kernel/src/fs/blkfs.rs:60-93 | A file in a directory named with a dot does not survive |
| `FsLimits.ReadNodeClean` | kernel/src/fs/blkfs.rs:60-93 | Reading any bytes whatever into a clean tree leaves one consistent tree, and stops inside the buffer |
| `FsSizes.SavesIff` | kernel/src/fs/blkfs.rs:144-156 | A tree is saved if and only if the disk has room for one sector and, for each node, six bytes, its name and its contents |
| `FsSizes.SaveKeepsRest` | kernel/src/fs/blkfs.rs:157-166 | What lies past the sectors written is left alone |
| `FsSizes.BlankLoadsNothing` | kernel/src/fs/blkfs.rs:109-115 | A disk never saved to loads nothing and is no error |
| `FsSizes.TooLongIsRefused` | kernel/src/fs/blkfs.rs:125-130 | A disk that claims more bytes than it has is refused |
| `FsSizes.EmptyRootBytes` | kernel/src/fs/blkfs.rs:22-34 | The bytes of an empty root |
| `FsSizes.OneFileBytes` | kernel/src/fs/blkfs.rs:22-34 | The bytes of a root with one file in it |
| `FsRoundTrip.ReadBack` | kernel/src/fs/blkfs.rs:22-93 | A record read where it was written adds exactly its tree, mirrored, and ends where the next begins |
| `FsRoundTrip.ReadRootBack` | kernel/src/fs/blkfs.rs:22-93 | The same for the root's record |
| `FsRoundTrip.HeadRead` | kernel/src/fs/blkfs.rs:22-93 | The reader finds the type, name and size field that were written |
| `FsDisk.Writer.Node` | kernel/src/fs/blkfs.rs:22-35 | Appends the tree's record, walking the pointers |
| `FsDisk.Writer.Count` | kernel/src/fs/blkfs.rs:22-35 | The number of children in a list |
| `FsDisk.Writer.Kids` | kernel/src/fs/blkfs.rs:22-35 | Appends the children's records in list order |
| `FsDisk.Reader.Take` | kernel/src/fs/blkfs.rs:43-47 | The next bytes, or none past the end |
| `FsDisk.Reader.Field` | kernel/src/fs/blkfs.rs:53-55 | A 32-bit field |
| `FsDisk.Reader.Start` | kernel/src/fs/blkfs.rs:61-66 | Type and name, or a refusal |
| `FsDisk.Reader.FileRecord` | kernel/src/fs/blkfs.rs:68-78 | Creates the file and fills it |
| `FsDisk.Reader.FillFrom` | kernel/src/fs/blkfs.rs:74-77 | The file's contents from the buffer |
| `FsDisk.Reader.MakeDirectory` | kernel/src/fs/blkfs.rs:80-88 | Makes and finds the directory |
| `FsDisk.Reader.FileRest` | kernel/src/fs/blkfs.rs:68-78 | The rest of a file's record |
| `FsDisk.Reader.DirRest` | kernel/src/fs/blkfs.rs:80-93 | The rest of a directory's record |
| `FsDisk.Reader.DirContents` | kernel/src/fs/blkfs.rs:89-92 | The records of a directory just made |
| `FsDisk.Reader.Records` | kernel/src/fs/blkfs.rs:89-91 | So many records in a row |
| `FsDisk.Reader.Record` | kernel/src/fs/blkfs.rs:60-93 | Replays one record, for any bytes, leaving what `FsLimits.ReadsBackIff` is about, or stops |
| `HeapRuns.EveryRunIsSafe` | kernel/src/mm/heap.rs:46-154 | In every run of allocations and valid frees the blocks tile the grown regions exactly, sizes are multiples of 16, and every grant is backed by a block of its own |
| `HeapRuns.GrantsApart` | kernel/src/mm/heap.rs:129-154 | What two callers hold never overlaps, no stash lies where a caller may write, and every pointer has the alignment asked for |
| `HeapRuns.BytesConserved` | kernel/src/mm/heap.rs:46-119 | Every byte ever taken from the page allocator is in exactly one block, and sizes add up to what was taken |
| `HeapRuns.NothingLeaks` | kernel/src/mm/heap.rs:101-119 | When everything was given back no block is in use |
| `HeapRuns.FirstFit` | kernel/src/mm/heap.rs:84-99 | Allocation fails if and only if no free block is large enough and there are no pages; where one is, the block used is itself free and large enough, and none before a fitting one is passed over |
| `HeapCalls.MallocIs` | kernel/src/mm/heap.rs:70-99 | A successful malloc carves exactly the rounded size off the front of a block and leaves the rest free, unless that is under 48 bytes: one of the heap's if any fits, else the fewest new pages; no other block changes |
| `HeapCalls.FreeIs` | kernel/src/mm/heap.rs:101-118 | Freeing joins a block with the free one that starts where it ends if and only if the list goes on that far -- not at the edge of a region followed by one grown at another time; otherwise only its flag changes; no other block changes |
| `HeapOrder.EveryRunIsLinked` | kernel/src/mm/heap.rs:22-29 | In every run the list is in address order within a region, and regions are in the order they were grown |
| `HeapCalls.NeighboursStayApart` | kernel/src/mm/heap.rs:106-118 | A run that leaves two free blocks touching, which nothing joins |
| `HeapCalls.GivingBackLeaves` | kernel/src/mm/heap.rs:101-118 | On one region, giving every grant back from the highest address down leaves one block more than there were free blocks with another after them |
| `HeapCalls.WholeAgainIff` | kernel/src/mm/heap.rs:101-118 | It leaves the one block the region was grown as if and only if no block but the last was free |
| `HeapCalls.AGapStays` | kernel/src/mm/heap.rs:101-118 | A run for which it does not |
| `HeapRuns.ShiftFits` | kernel/src/mm/heap.rs:129-144 | The aligned pointer lies within the extra bytes; the shift reaches the full alignment, not the alignment less 8 as the comment says |
| `HeapRuns.FoundAgain` | kernel/src/mm/heap.rs:146-154 | The stashed start leads back to the very block granted |
| `HeapRuns.AllocSafe` | kernel/src/mm/heap.rs:129-144 | Any allocation keeps the invariant |
| `HeapRuns.DeallocSafe` | kernel/src/mm/heap.rs:146-154 | Any valid free keeps the invariant |
| `HeapProofs.SplitOk` | kernel/src/mm/heap.rs:70-82 | Splitting keeps the tiling |
| `HeapProofs.ReleaseOk` | kernel/src/mm/heap.rs:101-119 | Freeing, with forward coalescing only when the next block is adjacent, keeps the tiling |
| `HeapProofs.GrowOk` | kernel/src/mm/heap.rs:49-65 | Growing keeps the tiling and gives a block that is large enough |
| `HeapProofs.MallocOk` | kernel/src/mm/heap.rs:84-99 | Allocation keeps the tiling |
| `HeapProofs.BlocksApart` | kernel/src/mm/heap.rs:46-119 | Two blocks share no byte |
| `HeapLists.KernelHeap.Grow` | kernel/src/mm/heap.rs:49-65 | Appends at the tail |
| `HeapLists.KernelHeap.Split` | kernel/src/mm/heap.rs:70-82 | Carves the front off, fixing the tail |
| `HeapLists.KernelHeap.Find` | kernel/src/mm/heap.rs:84-91 | First fit along the list |
| `HeapLists.KernelHeap.FindOrGrow` | kernel/src/mm/heap.rs:84-96 | First fit, else a new region |
| `HeapLists.KernelHeap.TakeBlock` | kernel/src/mm/heap.rs:84-99 | Split and mark used |
| `HeapLists.KernelHeap.Mark` | kernel/src/mm/heap.rs:84-103 | One flag |
| `HeapLists.KernelHeap.Malloc` | kernel/src/mm/heap.rs:84-99 | The payload address, or none |
| `HeapLists.KernelHeap.Free` | kernel/src/mm/heap.rs:101-119 | Marks free and joins with an adjacent free successor |
| `HeapLists.KernelHeap.Merge` | kernel/src/mm/heap.rs:109-117 | The join itself, fixing the tail |
| `ElfProofs.LoadedMemoryIsIff` | kernel/src/exec/elf.rs:113-187 | For any number of segments: the mapped pages are exactly the segments' pages, on distinct frames; each byte is the last covering segment's, file byte or zero, else zero; every duplicate frame was given back; the heap starts above them all -- if and only if no segment shares a page with earlier ones that are all past the 16th |
| `ElfProofs.FewAreTidy` | kernel/src/exec/elf.rs:182-185 | Up to 17 segments always meet that |
| `ElfPrograms.EighteenCanFail` | kernel/src/exec/elf.rs:182-185 | Eighteen one-page segments, the last two on one page, at given frames: a frame named by the lemma is taken, on no page, and never given back |
| `ElfProofs.UntidyLeaks` | kernel/src/exec/elf.rs:156-187 | Otherwise there is a frame that the load took, that is on no page at the end and was not given back |
| `ElfPrograms.ProgramMemoryIsIff` | kernel/src/exec/elf.rs:113-204 | With the stack mapped last: the image is right, the stack is its own zeroed pages and nothing else was taken -- if and only if the segments meet that condition and none is on a page of the stack |
| `ElfPrograms.StackCanCoverASegment` | kernel/src/exec/elf.rs:189-204 | A segment on the first page of the stack: it loads right, and the stack is then mapped over it |
| `ElfLoader.Loader.Stack` | kernel/src/exec/elf.rs:189-204 | The loop that maps the stack, page by page |
| `ElfProofs.SegmentSafe` | kernel/src/exec/elf.rs:127-187 | Loading one more segment, sharing only pages the loader remembers, keeps that |
| `ElfProofs.LoadSafe` | kernel/src/exec/elf.rs:113-187 | The whole loop keeps that |
| `ElfBytes.FileBytesArrive` | kernel/src/exec/elf.rs:137-154 | Each byte of a segment is where it asked to be, the file's or zero past the file's, unless a later segment has the address |
| `ElfBytes.LoadShows` | kernel/src/exec/elf.rs:113-187 | When segments load right, memory is the reference at every address, 0 where no segment is |
| `ElfBytes.HeapStarts` | kernel/src/exec/elf.rs:186-186 | The heap starts on the first page past every segment, and not a page further |
| `ElfBytes.PagesAre` | kernel/src/exec/elf.rs:137-139 | A segment's pages are those, from the one it starts on, that begin before its end |
| `ElfStack.Arrives` | kernel/src/exec/elf.rs:224-235 | Of any argument vector the program gets the first 16, of each the first 127 bytes up to a NUL |
| `ElfStack.ArgvArrivesIff` | kernel/src/exec/elf.rs:224-256 | The vector itself arrives if and only if it has at most 16 arguments of at most 127 bytes without a NUL |
| `ElfLoader.Loader.Shared` | kernel/src/exec/elf.rs:158-163 | The frame of the first loaded segment on a page, or none |
| `ElfLoader.Loader.OwnPage` | kernel/src/exec/elf.rs:146-154 | A zeroed page with the segment's bytes in it |
| `ElfLoader.Loader.CopyInto` | kernel/src/exec/elf.rs:168-180 | Overlays the segment's own bytes, zero tail included, on a shared page |
| `ElfLoader.Loader.Page` | kernel/src/exec/elf.rs:156-181 | One page of a segment |
| `ElfLoader.Loader.constructor` | kernel/src/exec/elf.rs:113-125 | Nothing loaded yet |
| `ElfLoader.Loader.Segments` | kernel/src/exec/elf.rs:127-187 | The loop over the program headers |
| `ElfLoader.Loader.Segment` | kernel/src/exec/elf.rs:127-187 | All pages of a segment |
| `ElfStack.AlwaysFits` | kernel/src/exec/elf.rs:214-256 | For every argument vector the frame and strings fit, apart and 16-aligned, so the does-not-fit branch is never taken |
| `ElfStack.DecodesBack` | userland/rust/anssos/src/start.rs:14-23 | The reads at program start give argc and every argument up to its first NUL, then a null pointer |
| `ElfStack.ArriveWholeIff` | kernel/src/exec/elf.rs:214-256 | The arguments, cut to 16 of 127 bytes, arrive whole if and only if none holds a NUL |
| `ElfStack.PutStrings` | kernel/src/exec/elf.rs:224-235 | The strings, last argument highest, with their addresses |
| `ElfStack.PutString` | kernel/src/exec/elf.rs:227-235 | One string with its NUL, below those already there and touching none of them |
| `ElfStack.PutFrame` | kernel/src/exec/elf.rs:237-256 | argc, pointers and zero words below them |
| `ElfStack.PutWords` | kernel/src/exec/elf.rs:246-256 | Words in a row, nothing else touched |
| `ElfStack.BuildStack` | kernel/src/exec/elf.rs:214-256 | Any argument vector gives a laid-out stack |
| `PmmBitmap.EveryRunCountsRight` | kernel/src/mm/pmm.rs:53-159 | In every run from start-up: the free count is the number of clear bits, what callers hold are usable pages, never page 0 nor the bitmap's own, and the next call hands out nothing that anybody holds |
| `PmmModel.AllocPageIs` | kernel/src/mm/pmm.rs:115-124 | Fails if and only if no page is free, wherever the cursor is; otherwise takes exactly one free page, never page 0 |
| `PmmModel.AllocPageGoesAround` | kernel/src/mm/pmm.rs:36-47 | The first free page after the one last taken, going around at the end |
| `PmmModel.AllocPagesIs` | kernel/src/mm/pmm.rs:139-159 | Takes the lowest run long enough, and fails if and only if there is none |
| `PmmModel.FreePageIs` | kernel/src/mm/pmm.rs:126-134 | A page in use becomes free; a free or unknown one is ignored |
| `PmmModel.StepSafe` | kernel/src/mm/pmm.rs:115-159 | What a call hands out was held by nobody and is not reserved |
| `PmmModel.LowestRun` | kernel/src/mm/pmm.rs:139-159 | The first run of clear pages of a length, or proof there is none |
| `PmmModel.FirstClear` | kernel/src/mm/pmm.rs:36-47 | The first clear page of a range, or proof there is none |
| `PmmBitmap.StartedIsInv` | kernel/src/mm/pmm.rs:53-111 | What init leaves is a state runs may start from |
| `PmmBitmap.Boot` | kernel/src/mm/pmm.rs:53-111 | Gives up if and only if no usable region can hold the bitmap; else the bitmap is parked in the first that can, and exactly the usable pages are free, less its own and page 0 |
| `PmmBitmap.TotalPages` | kernel/src/mm/pmm.rs:60-66 | The end of the highest region that is or will be memory |
| `PmmBitmap.CountPages` | kernel/src/mm/pmm.rs:60-66 | That maximum, by a loop |
| `PmmBitmap.FindPlace` | kernel/src/mm/pmm.rs:67-77 | The first usable region that can hold the bitmap, or none when none can |
| `PmmBitmap.PageBitmap.constructor` | kernel/src/mm/pmm.rs:66-79 | Every page in use |
| `PmmBitmap.PageBitmap.FreeRegion` | kernel/src/mm/pmm.rs:82-88 | Frees a usable region, counting |
| `PmmBitmap.PageBitmap.ClawOne` | kernel/src/mm/pmm.rs:93-107 | One page taken back, counted once |
| `PmmBitmap.PageBitmap.ClawBack` | kernel/src/mm/pmm.rs:90-98 | The pages of the bitmap itself |
| `PmmBitmap.PageBitmap.Init` | kernel/src/mm/pmm.rs:53-111 | Exactly the usable pages are free, less page 0 and the bitmap's own |
| `PmmBitmap.PageBitmap.Test` | kernel/src/mm/pmm.rs:24-26 | The bit |
| `PmmBitmap.PageBitmap.Set` | kernel/src/mm/pmm.rs:28-30 | One bit, in the byte that holds it |
| `PmmBitmap.PageBitmap.Clear` | kernel/src/mm/pmm.rs:32-34 | One bit, in the byte that holds it |
| `PmmBitmap.PageBitmap.TryAllocFrom` | kernel/src/mm/pmm.rs:36-47 | The first free page of a range, taken |
| `PmmBitmap.PageBitmap.AllocPage` | kernel/src/mm/pmm.rs:115-124 | From the cursor, then from the start; characterized by `PmmModel.AllocPageIs` |
| `PmmBitmap.PageBitmap.FreePage` | kernel/src/mm/pmm.rs:126-134 | Clears the bit and counts it, unless the page is unknown or free already; characterized by `PmmModel.FreePageIs` |
| `PmmBitmap.PageBitmap.CountPage` | kernel/src/mm/pmm.rs:145-150 | One page of the counting scan: the run so far, or the lowest run found |
| `PmmBitmap.PageBitmap.FindRun` | kernel/src/mm/pmm.rs:144-157 | The counting scan finds the lowest run |
| `PmmBitmap.PageBitmap.SetAll` | kernel/src/mm/pmm.rs:152-155 | Takes a run |
| `PmmBitmap.PageBitmap.AllocPages` | kernel/src/mm/pmm.rs:139-159 | Takes the lowest run long enough or returns 0; characterized by `PmmModel.AllocPagesIs` |
| `VmmProofs.MapTranslates` | kernel/src/mm/vmm.rs:53-101 | Mapping changes the translation of exactly one page, whatever tables had to be made and whatever frames they are on |
| `VmmProofs.MapsIff` | kernel/src/mm/vmm.rs:53-101 | Mapping goes through if and only if there is a free frame for each table missing on the way |
| `VmmProofs.MapTakes` | kernel/src/mm/vmm.rs:53-101 | It takes exactly as many frames as tables were missing |
| `VmmProofs.MapKeepsRest` | kernel/src/mm/vmm.rs:53-101 | Of the top-level table one entry changes at most: no user mapping touches the kernel half |
| `VmmKernel.MapTranslatesAnywhere` | kernel/src/mm/vmm.rs:53-101 | The same for every address, kernel half included, where pages may be mapped twice or be free: only the tables must form a tree |
| `VmmProofs.MapSafe` | kernel/src/mm/vmm.rs:53-101 | Mapping an absent page keeps the tables a tree in which no frame is reached twice or free |
| `VmmClone.CloneIsFaithful` | kernel/src/mm/vmm.rs:110-146 | A clone translates exactly the pages its source does, with the same low flags and bytes, on frames that were free; its kernel half is the one it was made with; the source and everything else is untouched |
| `VmmClone.CloneStepIff` | kernel/src/mm/vmm.rs:135-146 | A page can be cloned if and only if there is a free frame for it and for each table missing on the way; it takes exactly those |
| `VmmClone.CloneThenFree` | kernel/src/mm/vmm.rs:135-170 | Freeing a clone, finished or abandoned after any number of pages with however few frames left, restores exactly the free frames there were |
| `VmmFrames.CompletesIff` | kernel/src/mm/vmm.rs:135-146 | A clone can be completed if and only if there are as many free frames as its pages and the tables on the way to them |
| `VmmFrames.TakenIsCost` | kernel/src/mm/vmm.rs:135-146 | After any number of pages every clone has taken the same number of frames, whichever the page allocator chose |
| `VmmFrames.LackIs` | kernel/src/mm/vmm.rs:53-68 | A table costs a frame exactly when no earlier page's path begins the same way |
| `VmmFrames.MapLeaves` | kernel/src/mm/vmm.rs:53-101 | After a page is mapped, the tables missing for another are those missing before, less the ones on the common part of the two paths |
| `VmmFrames.RunsDryIff` | kernel/src/mm/vmm.rs:53-60 | Some clone has a frame for a page but not for its tables if and only if the free frames run out inside one page's share |
| `VmmFrames.OnePageIsDryIff` | kernel/src/mm/vmm.rs:53-68 | For a single page: one, two or three free frames |
| `VmmFrames.OnePageRunsDry` | kernel/src/mm/vmm.rs:135-146 | A memory with two free frames in which that happens |
| `VmmAccess.MapGrants` | kernel/src/mm/vmm.rs:46-60 | With the user and write bits on every table, a page may be used and written from ring 3 if and only if it was mapped with those bits; for other pages nothing changes |
| `VmmAccess.CloneGrants` | kernel/src/mm/vmm.rs:127-146 | In a finished clone ring 3 may use and write exactly the pages it may in the source |
| `VmmAccess.NewIsOpen` | kernel/src/mm/vmm.rs:84-91 | A new address space grants nothing, and its tables will not be what stops a grant |
| `VmmAccess.LeafDecides` | kernel/src/mm/vmm.rs:46-52 | Through such tables the leaf's own bits decide |
| `VmmAccess.PathLeadsBack` | kernel/src/mm/vmm.rs:110-118 | The address put together from a path's indexes has those indexes |
| `VmmAccess.AddressLeadsBack` | kernel/src/mm/vmm.rs:62-68 | An address of 48 bits leads, by its indexes, to the start of its page |
| `VmmClone.FreesExactly` | kernel/src/mm/vmm.rs:153-170 | Freeing an address space frees each of its frames once, none already free, and no other |
| `VmmClone.LeafIsMapped` | kernel/src/mm/vmm.rs:110-125 | Every leaf the walk meets is a mapped user page |
| `VmmClone.MappedIsLeaf` | kernel/src/mm/vmm.rs:110-125 | The walk meets every mapped user page |
| `VmmWalk.UserLeaves` | kernel/src/mm/vmm.rs:110-125 | The walk as nested loops |
| `VmmWalk.FreeTables` | kernel/src/mm/vmm.rs:153-170 | The calls to the page allocator, in order |
| `VmmTables.PageTables.constructor` | kernel/src/mm/vmm.rs:70-75 | One top-level table, its user half empty |
| `VmmTables.PageTables.GetOrCreate` | kernel/src/mm/vmm.rs:53-60 | A fresh zeroed table in an absent entry, else the one there |
| `VmmTables.PageTables.WalkCreate` | kernel/src/mm/vmm.rs:62-68 | Down to the last level, tables made on the way |
| `VmmTables.PageTables.MapPage` | kernel/src/mm/vmm.rs:98-101 | The memory `VmmProofs.MapTranslates` is about: tables made, one entry written |
| `VmmTables.PageTables.NewAddressSpace` | kernel/src/mm/vmm.rs:84-91 | User half zeroed, kernel half copied |
| `VmmTables.PageTables.ClonePage` | kernel/src/mm/vmm.rs:135-146 | One page copied and mapped |
| `VmmTables.PageTables.CloneUserPages` | kernel/src/mm/vmm.rs:135-146 | All of them one after the other, or as many as there are frames for: it succeeds if and only if the frames are as many as the clone costs, and otherwise none is left |
| `VmmTables.PageTables.FreeSpace` | kernel/src/mm/vmm.rs:153-170 | Every frame back |
| `VirtioProofs.EveryRunPartitions` | kernel/src/drivers/virtio/mod.rs:302-381 | In every run, whatever order the device completes in: each descriptor is free or in exactly one chain in flight, the free count is exact, every chain reads back as submitted, and the avail and used rings name exactly the chains not yet taken and not yet reaped, oldest first |
| `VirtioWrap.NothingOverwrittenIff` | kernel/src/drivers/virtio/mod.rs:355-360 | In every run the avail ring names every submission the device has not read, if and only if the size divides 65536 |
| `VirtioWrap.EntryIsLost` | kernel/src/drivers/virtio/mod.rs:355-360 | For any other size, a run in which the oldest unread entry is overwritten at the wrap of the index |
| `VirtioProofs.RingNeverOverlapsIff` | kernel/src/drivers/virtio/mod.rs:355-360 | As many entries in a row as the ring has slots land in different slots if and only if the size divides 65536 |
| `VirtioProofs.SubmitSafe` | kernel/src/drivers/virtio/mod.rs:325-363 | A submission takes the front of the free list, carries its buffers in order, and overwrites no entry the device has yet to read |
| `VirtioProofs.TakeSafe` | kernel/src/drivers/virtio/mod.rs:355-360 | What the device reads next is the oldest submission it has not read |
| `VirtioProofs.FinishSafe` | kernel/src/drivers/virtio/mod.rs:369-381 | No completion overwrites one the driver has yet to see |
| `VirtioProofs.ReapSafe` | kernel/src/drivers/virtio/mod.rs:307-320 | Reaping frees exactly the oldest finished chain, reversed onto the front of the free list |
| `VirtioProofs.IndicesTell` | kernel/src/drivers/virtio/mod.rs:369-372 | The wrapped indices differ if and only if something is waiting |
| `VirtioProofs.FlightFits` | kernel/src/drivers/virtio/mod.rs:325-381 | Never more chains in flight than descriptors in use |
| `VirtioProofs.WalkIs` | kernel/src/drivers/virtio/mod.rs:307-320 | Following flags and next fields from a chain's head visits that chain and stops |
| `VirtioOrder.BuffersArriveInOrder` | kernel/src/drivers/virtio/mod.rs:325-381 | In every run: what the device has read out of memory, and then what waits in the avail ring, is exactly the lists of buffers posted, in order |
| `VirtioOrder.SubmitsIff` | kernel/src/drivers/virtio/mod.rs:325-330 | A list of buffers is taken if and only if it is not empty, at most 8 long, and as many descriptors are free |
| `VirtioKeyboard.DescriptorKeepsItsBuffer` | kernel/src/drivers/virtio/input.rs:73-133 | From the first post on, whatever the device takes and completes between posts and polls: descriptor i of those posted is in flight carrying event buffer i, so the buffer read is the one just filled |
| `VirtioKeyboard.PollMatched` | kernel/src/drivers/virtio/input.rs:124-133 | Reaping an event and posting it again puts the same descriptor and buffer back |
| `VirtioKeyboard.PostMatched` | kernel/src/drivers/virtio/input.rs:73-117 | The next post gives its buffer the descriptor of the same number, whatever the device has done so far |
| `VirtioQueue.Virtqueue.constructor` | kernel/src/drivers/virtio/mod.rs:276-300 | All descriptors free, threaded in order |
| `VirtioQueue.Virtqueue.ThreadAll` | kernel/src/drivers/virtio/mod.rs:276-279 | Each next field names the descriptor after it |
| `VirtioQueue.Virtqueue.FreeChain` | kernel/src/drivers/virtio/mod.rs:307-320 | The loop frees the chain from its head |
| `VirtioQueue.Virtqueue.PickFree` | kernel/src/drivers/virtio/mod.rs:331-338 | Reads the indices before their next fields change |
| `VirtioQueue.Virtqueue.FillIn` | kernel/src/drivers/virtio/mod.rs:341-353 | Writes the chain |
| `VirtioQueue.Virtqueue.PublishHead` | kernel/src/drivers/virtio/mod.rs:355-361 | The head goes into the ring slot the index names, and the index moves on |
| `VirtioQueue.Virtqueue.SubmitChain` | kernel/src/drivers/virtio/mod.rs:325-363 | The queue `VirtioProofs.SubmitSafe` is about, or nothing changed when the chain is empty, longer than 8 or larger than the free list |
| `VirtioQueue.Virtqueue.TryWait` | kernel/src/drivers/virtio/mod.rs:369-381 | The oldest finished chain, if there is one |
| `CycleRing.ReadsWhatWasPushed` | kernel/src/drivers/usb/mod.rs:167-217 | Across any number of wraps and stalls, with fewer than 255 TRBs outstanding: the consumer gets exactly the pushed TRBs in order and finds nothing exactly when it has caught up, at the enqueue position with the producer's cycle bit |
| `CycleRing.NothingIsMissed` | kernel/src/drivers/usb/mod.rs:193-211 | Without a stall no pushed TRB is skipped |
| `CycleRing.FetchIs` | kernel/src/drivers/usb/mod.rs:193-211 | What one fetch gives, from anywhere on the lap or at the link |
| `CycleRing.PushBehind` | kernel/src/drivers/usb/mod.rs:193-211 | A push keeps the consumer in step if and only if it does not complete a lap on a consumer still at the link |
| `CycleRing.FullLapTrapsReader` | kernel/src/drivers/usb/mod.rs:193-211 | The bound is sharp: at 255 outstanding a consumer still at the link finds nothing |
| `CycleRing.ResumeIs` | kernel/src/drivers/usb/mod.rs:213-217 | The controller reads the enqueue position and cycle bit back out of the resume address |
| `CycleRing.StepKeeps` | kernel/src/drivers/usb/mod.rs:167-217 | Pushes, fetches and recovery after a stall keep producer and consumer in step |
| `CycleRing.WatchIs` | kernel/src/drivers/usb/mod.rs:387-403 | The event ring's consumer sees its own cycle bit exactly when an event is unread, and it is the next one |
| `CycleRing.ControllerWrites` | kernel/src/drivers/usb/mod.rs:387-403 | The controller may be a whole event ring ahead |
| `CycleRings.TransferRing.constructor` | kernel/src/drivers/usb/mod.rs:167-177 | Zeroed, linked, cycle bit set |
| `CycleRings.TransferRing.PushTrb` | kernel/src/drivers/usb/mod.rs:193-211 | Writes one TRB, and the link at the end of a lap; its address |
| `CycleRings.EventRing.constructor` | kernel/src/drivers/usb/mod.rs:387-403 | A zeroed ring with nothing to read |
| `CycleRings.EventRing.ProcessEvents` | kernel/src/drivers/usb/mod.rs:387-408 | Handles all events written, oldest first, and stops at the controller's position |

## Left out

- Pids and pipe counts are unbounded: the wrap of a 32-bit pid or count after 2^31 steps is not modelled.
- Failures of fork and exec for want of memory are steps without effect in the scheduler; what elf::load leaks on its error paths is not modelled.
- Floating-point state saved and restored around a dispatch, and the assembly that switches stacks.
- Pixels: the console is modelled at cell level; glyph bitmaps and colors on screen are not.
- Console additions that overflow 32 bits wrap in the model; a debug build would stop there.
- VmmTables.PageTables.WalkCreate: the three calls of walk_create are one loop over levels. A free frame for each missing table is a precondition, and `VmmProofs.MapsIff` shows it is the exact one: the code has no path for a failed table allocation.
- VmmTables.PageTables.CloneUserPages: a frame for the page but not for every table on the way to it (`VmmFrames.Dry`, exact by `VmmFrames.RunsDryIff`) is excluded, for the same reason. The leaves are collected before the copying starts, which changes nothing they say.
- ElfProofs.LoadedMemoryIsIff: header parsing and 64-bit overflow of address plus size are not modelled, nor is the heap base of a file without loadable segments.
- Screens.FbConsole.constructor: the grid size is a parameter; computing it from the framebuffer is not modelled.
- FsLimits.LoadsBackIff: block reads and writes succeed, and the serialized tree is shorter than 2^64 bytes; sector numbers of 2^32 and above are not modelled.
- FsLimits.ReadNodeClean: a corrupt image is read as far as it goes; which of its records survive is not characterized further.
- FsRuns.UnlinkKeepsCwds: open files on an unlinked vnode and the kernel shell's own working directory are not protected by the code, so nothing is claimed for them.
- PmmBitmap.Boot: regions are page-aligned and not empty, as the boot loader promises; the bitmap is an array of its own rather than memory inside the region it is parked in.
- VmmKernel.MapTranslatesAnywhere: four-level walks of 4 KiB pages; the large pages a boot loader may use are not modelled, nor is the flush of the translation cache.
- Vnode identities are never reused in the model, so a dangling pointer cannot look valid.
- PipeRing.PipeTable.Fork: the pipe side of fork only; the process side is in the scheduler.
- CycleRing.ReadsWhatWasPushed: a TRB is its contents and cycle bit; the controller's other errors and the ordering of memory writes are not modelled.
- VirtioProofs.EveryRunPartitions: the size divides 65536, as the standard requires (`VirtioWrap.NothingOverwrittenIff` is what fails otherwise); the device returns only heads it was given; buffer addresses and lengths are one number.
- The kernel shell, the block, audio, timer and USB class drivers, PCI and ACPI discovery, boot code, the audio spectrum display and the other user programs: straight-line code or register-level protocols, with no invariant across operations to prove.
- Time: timer ticks appear only as preemption steps.
