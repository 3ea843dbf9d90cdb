# Proofs about the maiko virtual machine

This project models the parts of maiko, a C implementation of the Medley Lisp virtual machine, in which storage is
worked on cell by cell and bit by bit, and proves what they do to it for every input and over every run. The model is
that of a RELEASE 351 build (`inc/version.h`: BIGVM, NEWCDRCODING) with the layouts of a machine that is not
byte-swapped. Every native pointer is an index into one array of cells.

Check it with `dafny verify dfyconfig.toml`.

**Bit-block transfer** (`inc/bb.h`, `src/bbtsub.c`). Memory is an array of 32-bit words; bit 0 is the most significant
bit of word 0. The specification (`BitSpec`) says in one line what a line transfer does: every destination bit becomes
the raster operation of the source bit, complemented or not, and the old destination bit, with the source read before
anything is written. The engine does it word by word: partial words under masks, two shifts and bits carried from word
to word, upwards or downwards, with the line state advanced from line to line. `ForwardLine`, `BackwardLine` and
`BitBlt` prove the engine equal to the specification, with source and destination in one memory and overlapping.
`Bitmaps` and `Shade` prove the Lisp entry points, pixel by pixel.

**The cons heap** (`src/conspage.c`, `src/car-cdr.c`). A page of 256 words holds 124 cells. A free cell is chained
through its top eight bits; a cell in use has a four-bit cdr code there instead. The cdr of a cons is NIL, or a cons a
few cells further on, or held in a cell close by; a cons may also have been moved out, car and all, to two other cells.
The abstract heap is a map from handles to pairs. `ConsPage` and `ConsSearch` prove the surgery on the free chains,
`ConsView` the ownership of cells, `ConsShape` and `ConsSteps` what one operation does to the whole heap, `ConsHeap` the
operations on raw cells, and `ConsHistory` that any sequence of operations behaves as a store of pairs.

**The control stack** (`inc/tosfns.h`, `inc/tosret.h`, `inc/inlineC.h`, `src/binds.c`). The abstract stack is a list of
frames (`Frames`). `StackLayout` says how frames lie in the array, `ControlStack` proves the call sequences, the fast
return and the binding opcodes against the list, `StackRuns` states what holds over whole runs, and `StackBlocks` that
scanning for markers does what block structure says, and what the variables read inside a block and after it.

**Smaller parts.** `GcTable` deletes an entry from a collision chain of the reference table, `MdsPage` carves a unit of
storage into objects, and `Arith` gives the overflow tests and boxed integers. `Memory` and `Words` hold the cells,
words and sequences the others share.

Each imperative part has a value-level specification; methods over arrays are proved equal to it, and lemmas are proved
about it. Fields that the C code overlays stay overlaid: a cons cell is one 32-bit number with `CdrCode`, `CarField` and
`NextFree` as views of it.

What the proofs found out about the code:

- `find_close_prior_cell` compares with the unsigned `oldoffset - 14`. For a cons at offset 8, 10 or 12 it never finds a
  cell, close or not; a heap in which it misses one is given. `N_OP_cons` then uses a pair of cells and is still right
  (`ConsSearch.FindClosePriorCell`, `ConsSteps.PriorMissed`, `ConsHeap.Heap.Cons`).
- `B_do_dst_advance` adds `dst32lbit >> 5` where the other three advances add the bit position that has moved. Backward
  transfer is therefore right for a slow stride exactly when the stride does not carry the right end of the line into a
  later word; the entry points modelled here go backward with negated strides (`LineAdvance.BackwardDstAdvanceIsFresh`,
  `LineAdvance.BackwardDstAdvanceSlips`).
- `B_two_preloop_src` can read the word below the source, though none of its bits is used; exactly when is a condition
  on addresses and width (`BackwardLine.StraysBelow`, `BackwardLine.GuardNeeded`).
- Of the four consistency checks of `bitshade_bitmap` three can never fail; "bottom suspicious" fails when every pixel
  wanted lies above row 2048. `error` then enters the URaid debugger, and the shading is done only if the operator
  leaves it to go on (`Shade.BitshadeBitmap`).
- "cdr code too big", "page overflow", "page2 has a next page" and "loop in conspage next_pages" are never reached
  (`ConsSearch.FindPairInPage`, `ConsHeap.Heap.Cons`, `ConsHeap.Heap.NextConspage`).
- The one-sided overflow tests of `N_OP_iplusn` and `N_OP_idifferencen` are exact for operands that are not negative,
  and only for those (`Arith.PlusNExact`, `Arith.DifferenceNExact`).
- The four call sequences build the same frame exactly when the code has at least one variable slot (`pv >= 0`); without
  one, the common sequence still lays down two cells (`StackRuns.DirectAgrees`, `StackRuns.EnvAgrees`).

## Model

| member | source | states |
|---|---|---|
| `BitSpec.PutLinesBits` | inc/bb.h:740-781 | rows put one after the other at a stride of at least their width land bit for bit where they should, and nowhere else |
| `BitSpec.LinesPutSource` | inc/bb.h:740-781 | line transfers done in turn put the source rows as they stood at the start, when no line writes what a later one reads |
| `BitSpec.LinesAreRect` | inc/bb.h:740-781 | line by line equals the whole rectangle at once, computed from the old memory; all other bits kept |
| `LineWords.PartialTransfer` | inc/bb.h:515-527 | under a mask, masked bits of one word become the raster operation of source and old bit, the others stay |
| `LineWords.DestGets` | inc/bb.h:160-163 | a whole word combined in place by one of the four operations |
| `LineWords.StoreMerged` | inc/bb.h:515-527 | storing a merged word extends the finished part of the line by exactly the bits of the mask |
| `LineWords.StoreWhole` | inc/bb.h:417-448 | storing a full word extends the finished part of the line by 32 bits |
| `LineWords.Join` | inc/bb.h:166-173 | what was saved of the last source word and what is shifted in from the next are the source bits of one destination word |
| `LineWords.FetchForward` | inc/bb.h:166-168 | going up, a source word not yet overwritten still holds its old bits, for every safe overlap |
| `LineWords.FetchBackward` | inc/bb.h:176-178 | going down, the same |
| `LineState.ForwardMasks` | inc/bb.h:143-146 | the forward pre-loop, post-loop and single-word masks select exactly the bits of the line in those words |
| `LineState.BackwardMasks` | inc/bb.h:144-148 | the backward masks do |
| `LineState.ForwardGeometry` | inc/bb.h:219-262 | word address, first and last bit and word count of a line, from its bit address and width |
| `LineState.BackwardGeometry` | inc/bb.h:265-305 | the same from the right end |
| `ForwardLine.ForwardSrcSetup` | inc/bb.h:327-347 | the three set-up cases all give the source bits of the first destination word, and save what the next needs |
| `ForwardLine.GetSrcForward` | inc/bb.h:166-173 | one step of the unaligned loop |
| `ForwardLine.GetAlignedForward` | inc/bb.h:416-432 | one step of the aligned loop |
| `ForwardLine.ForwardPostloopPrep` | inc/bb.h:540-550 | the source bits of the last, partial word, with one more source word read only if needed |
| `ForwardLine.ForwardOneLine` | inc/bb.h:327-347 | set-up, partial word, loop and last word together do exactly the line transfer, any alignment, operation and complement, source and destination overlapping with the destination lower |
| `BackwardLine.BackwardSrcSetup` | inc/bb.h:350-370 | the three set-up cases going down; a word below the source is asked for only when set-up reads it |
| `BackwardLine.StraysBelow` | inc/bb.h:137 | set-up reads a word below the source if and only if the source lies in one word, ends further left in it than the destination does in its last word, and starts right enough |
| `BackwardLine.GuardNeeded` | inc/bb.h:351-358 | a transfer of three bits that reads word -1 |
| `BackwardLine.GetSrcBackward` | inc/bb.h:176-183 | one step of the unaligned loop going down |
| `BackwardLine.GetAlignedBackward` | inc/bb.h:470-486 | one step of the aligned loop going down |
| `BackwardLine.BackwardPostloopPrep` | inc/bb.h:554-564 | the source bits of the first, partial word |
| `BackwardLine.BackwardOneLine` | inc/bb.h:461-510 | a line going down does exactly the line transfer, source and destination overlapping with the destination higher |
| `LineAdvance.InitIsFresh` | inc/bb.h:219-305 | initialisation gives the state of the addressed bits, for any byte base and any offset, negative too |
| `LineAdvance.ForwardAdvanceIsFresh` | inc/bb.h:590-635 | advancing equals starting afresh one stride on, for every stride, fast path or not |
| `LineAdvance.BackwardSrcAdvanceIsFresh` | inc/bb.h:637-661 | the same for the source going down |
| `LineAdvance.BackwardDstAdvanceIsFresh` | inc/bb.h:663-688 | for the destination going down: if and only if the path is fast or the stride does not carry the right end into a later word |
| `LineAdvance.BackwardDstAdvanceSlips` | inc/bb.h:677-680 | a stride for which it does not |
| `BitBlt.Bitblt` | src/asmbbt.c:28-31 | the whole engine, gray off: memory afterwards is the given number of line transfers |
| `BitBlt.Start` | inc/bb.h:195-201 | the initial line state, in either direction |
| `BitBlt.OneLine` | inc/bb.h:751-764 | one turn of the line loop |
| `BitBlt.Advance` | inc/bb.h:765-779 | the state for the next line is the one a fresh start there would give |
| `BitBlt.GraySetup` | inc/bb.h:318-324 | replicated and rotated, the brick row shows at bit i the brick's column for that place |
| `BitBlt.GrayLine` | inc/bb.h:382-403 | one gray line puts the brick row, repeated every 16 bits, through the raster operation |
| `BitBlt.BrickRowAt` | inc/bb.h:610-616 | row i of the pattern is row (first + i) mod the brick's height |
| `BitBlt.BitbltGray` | inc/bb.h:793-806 | the gray engine: line i, column k gets the brick bit of row (first + i) and of column (sx + k) mod 16, lines done one after the other |
| `Bitmaps.OperationMeaning` | src/bbtsub.c:259-280 | operation code and complement flag together mean REPLACE, PAINT, ERASE or INVERT of the source or its inverse |
| `Bitmaps.DirectionReadsFirst` | src/bbtsub.c:411-419 | the direction chosen never overwrites a source row still to be read, for every placement in one bitmap |
| `Bitmaps.DirectionLineSafe` | src/bbtsub.c:411-419 | nor a source bit within a line |
| `Bitmaps.DirectionRunnable` | src/bbtsub.c:421-431 | so the engine's needs are met on every line |
| `Bitmaps.RectIsCopied` | src/bbtsub.c:421-431 | the rectangle of bits is the rectangle of pixels |
| `Bitmaps.BltRect` | src/bbtsub.c:758-803 | in place, whatever the overlap within one bitmap, every pixel of the rectangle is combined with its source pixel as it was before, all other bits kept; rectangles of different records may share storage if they have no bit in common |
| `Bitmaps.BitbltSub` | src/bbtsub.c:313-454 | the same for bitbltsub with an INPUT or INVERT source |
| `Bitmaps.BitbltBitmap` | src/bbtsub.c:622-803 | for every column i and row j of the request whose two ends lie in destination, clipping region, source and source window, the pixel at (dleft + i, dbottom + j) becomes the operation of the old pixel at (sleft + i, sbottom + j) and its own, every other bit is kept, and true is returned iff there is such a column and row |
| `Bitmaps.BlittedIsMoved` | src/bbtsub.c:693-803 | displacing the wanted pixels by (stodx, stody) is taking each from its own place in the source |
| `Bitmaps.ClipInside` | src/bbtsub.c:689-747 | no row or column outside either bitmap is addressed |
| `Bitmaps.ClipMayMove` | src/bbtsub.c:689-803 | what is asked of the wanted pixels, that none of one record is a source pixel of another, holds of the rectangles left by clipping |
| `Bitmaps.PastFirstWord` | src/bbtsub.c:758-803 | a bitmap that begins past the first word of memory may be moved within itself whatever the arguments: its lines never need a word below memory |
| `Shade.NibbleBit` | src/bbtsub.c:1018-1023 | a nibble of a 4x4 texture, expanded, shows its four bits over and over |
| `Shade.ChooseBrick` | src/bbtsub.c:361-398 | the brick and first line chosen show the texture: white, black, 4x4 or up to 16 rows of a bitmap |
| `Shade.ShadeRect` | src/bbtsub.c:1034-1049 | a rectangle combined with a texture, pixel by pixel |
| `Shade.GrayIsShaded` | inc/bb.h:793-806 | the gray engine's rows are the texture at absolute rows and columns |
| `Shade.BitbltSubTexture` | src/bbtsub.c:354-398 | bitbltsub with a TEXTURE source, offset by the window |
| `Shade.ShadeClip` | src/bbtsub.c:930-967 | the bounds left by clipping hold exactly the wanted pixels |
| `Shade.BitshadeBitmap` | src/bbtsub.c:898-1049 | exactly the wanted pixels are combined with the texture at their own place; which of the four checks can fail, and when |
| `Shade.ShadedPixel` | src/bbtsub.c:898-1049 | what one pixel becomes, from the fields of the arguments, the place of its bit and the rows of the texture |
| `Shade.ShadedSoFar` | src/bbtsub.c:898-1049 | after any number of rectangles a pixel shows the texture iff one of them has it |
| `Shade.CoverShadesTheSame` | src/bbtsub.c:898-1049 | replacing a rectangle equals replacing, in any order, rectangles that cover it |
| `ConsPage.CellFields` | inc/lispemul.h:29-32 | setting one overlaid field of a cell and reading it back |
| `ConsPage.HeaderFields` | inc/cell.h:56-67 | count and next_cell share a cell and do not disturb each other |
| `ConsPage.CellBits` | inc/lispemul.h:29-32 | cdr code, car, free link, count and first offset as groups of bits of one cell |
| `ConsPage.ChainBits` | inc/cell.h:56-67 | the free chain as it lies in memory, from the header on |
| `ConsPage.DropOne` | src/conspage.c:212-216 | relinking past one place of the free chain drops exactly that cell, the rest in the old order |
| `ConsPage.DropTwo` | src/conspage.c:212-217 | the two stores of the run case drop the cell before the run and the last of the run, and nothing else |
| `ConsPage.TakePair` | src/conspage.c:199-246 | the chain search with its run-skipping loop: two cells at most 7 apart come off an arbitrary chain, the rest keeps its order, count falls by two; or no neighbours are close and nothing changes |
| `ConsSearch.FindPairInPage` | src/conspage.c:191-247 | the pair is coded to reach its second cell, which holds the cdr; neither error is reached |
| `ConsSearch.FindCdrpairInPage` | src/car-cdr.c:555-617 | the same for rplacd, the first cell holding the car given |
| `ConsSearch.FindClosePriorCell` | src/car-cdr.c:478-510 | a cell is found iff the cons is at offset 14 or more and a free cell lies at most 7 before it; what is found is off the chain and coded |
| `ConsSearch.FindCloseCell` | src/car-cdr.c:525-546 | a cell is found iff a free cell lies at most 7 behind; it is off the chain |
| `ConsSearch.PopCell` | src/conspage.c:270-274 | the first free cell, off the chain and counted out |
| `ConsSearch.Xor6Is` | src/conspage.c:73-85 | `6 ^ j` turns each group of four cells round |
| `ConsSearch.FreshChainCells` | src/conspage.c:73-85 | the fresh chain visits every even offset 8..254 once, and starts with two neighbours |
| `ConsSearch.InitConspage` | src/conspage.c:63-106 | a fresh page holds that chain, counts 124 and links to the next page; nothing outside it is touched |
| `ConsView.OneChanges` | src/car-cdr.c:140-317 | if the cells of one cons are rightly coded afterwards and no other cell in use has changed, the whole heap is well coded and only that pair has changed |
| `ConsView.OthersKept` | src/car-cdr.c:92-118 | the car and cdr of every other cons stay |
| `ConsView.CellsPartitioned` | src/car-cdr.c:198-317 | every cell in use belongs to exactly one cons |
| `ConsView.CellsAreOwned` | src/car-cdr.c:92-118 | the cells a cons is read from are those it owns |
| `ConsView.NewCons` | src/conspage.c:304-334 | a free cell becomes a cons with a NIL or on-page cdr |
| `ConsView.NewPair` | src/conspage.c:386-409 | two free cells become a cons and the holder of its cdr |
| `ConsView.SetCar` | src/car-cdr.c:164-170 | storing a car, directly or in the cell moved out to |
| `ConsView.SetHeld` | src/car-cdr.c:228-252 | storing a cdr where it is held |
| `ConsView.SetCode` | src/car-cdr.c:254-260 | another on-page cdr by the code alone |
| `ConsView.AddHolder` | src/car-cdr.c:272-280 | a free cell close by takes the cdr |
| `ConsView.GoIndirect` | src/car-cdr.c:291-297 | the cons moves out to two free cells |
| `ConsShape.PageSearched` | src/conspage.c:199-246 | a search of one page leaves all other chains and the list of pages whole |
| `ConsShape.LiveWrite` | src/car-cdr.c:198-317 | writing a cell in use disturbs no chain, count or list |
| `ConsShape.DropFirst` | src/conspage.c:275-278 | dropping an empty page from the list |
| `ConsShape.MarkMeansOff` | src/conspage.c:275-278 | of all list pages exactly those off the list from dtd_nextpage have 0xFFFFFFFF as their link |
| `ConsShape.ListGrown` | src/conspage.c:131-146 | hanging two fresh pages on the end of the list |
| `ConsShape.AddPage` | src/conspage.c:63-106 | a fresh page adds 124 free cells and nothing else |
| `ConsSteps.PagesHung` | src/conspage.c:117-147 | after next_conspage the heap is well formed and no program can see a change |
| `ConsSteps.PageTotals` | src/conspage.c:63-106 | in every well-formed heap a page's count is the number of its free cells, and free and used cells total 124 |
| `ConsSteps.PairBits` | src/car-cdr.c:92-118 | the pair at a handle as it lies in memory: where car and cdr are, by the top four bits of the cell |
| `ConsSteps.ConsOne` | src/conspage.c:304-369 | the whole heap after a cons of one cell |
| `ConsSteps.ConsPair` | src/conspage.c:386-409 | the whole heap after a cons of two cells |
| `ConsSteps.NearDone` | src/car-cdr.c:272-280 | the whole heap after rplacd with a close cell |
| `ConsSteps.FarDone` | src/car-cdr.c:291-297 | the whole heap after rplacd with a pair of cells elsewhere |
| `ConsSteps.ConsNearDone` | src/conspage.c:336-369 | the whole heap after a cons whose cdr lies on the page searched |
| `ConsSteps.CodeDone` | src/car-cdr.c:254-260 | the whole heap after rplacd by another on-page cdr |
| `ConsSteps.PriorMissed` | src/car-cdr.c:478-510 | a well-formed heap with a cons at offset 10 and a free cell at offset 8, which the search does not find |
| `ConsHeap.Heap.constructor` | src/conspage.c:131-141 | the empty heap is well formed |
| `ConsHeap.Heap.DroppedAreMarked` | src/conspage.c:275-278 | in every well-formed heap: a list page has the mark that the reclaimer looks for (src/gcrcell.c:360) iff it is off the list, the links of the pages on the list lead from one to the next, and every free cell is on a page of the list |
| `ConsHeap.Heap.AllocMdspage` | src/allocmds.c:132-152 | a new unit is carved below the last one and marked as list storage |
| `ConsHeap.Heap.NextConspage` | src/conspage.c:117-147 | the two fresh pages of the unit just carved at the end of the list, the loop over the list ends, neither error is reached |
| `ConsHeap.Heap.FindCdrcodablePair` | src/conspage.c:249-261 | a pair in the first page of the list that has two chain neighbours close enough; a unit of storage is carved iff no page has, and then the pair is in it |
| `ConsHeap.Heap.FindCdrablePair` | src/car-cdr.c:627-637 | the same for rplacd; the first cell holds the car given |
| `ConsHeap.Heap.FindFreeConsCell` | src/conspage.c:263-283 | a free cell of the first page of the list that has one, or none exactly when no page has; the empty pages before it leave the list marked, so that the reclaimer finds them |
| `ConsHeap.Heap.Cons` | src/conspage.c:294-433 | a fresh handle whose car and cdr are the 28-bit arguments, all other pairs as they were; how the cdr is coded, and when a unit of storage is carved, as conditions on the heap before; "cdr code too big" is not reached |
| `ConsHeap.Heap.ConsNear` | src/conspage.c:336-369 | the on-page case: taken iff the cdr lies past the third cell of its page and a cell at most seven before it is free |
| `ConsHeap.Heap.Car` | src/car-cdr.c:54-80 | the car the pair map gives; NIL, T and other symbols as coded |
| `ConsHeap.Heap.Cdr` | src/car-cdr.c:92-118 | the cdr the pair map gives; the recursion ends after one hop |
| `ConsHeap.Heap.Rplaca` | src/car-cdr.c:140-174 | exactly the car of that pair changes; the refusals |
| `ConsHeap.Heap.Rplacd` | src/car-cdr.c:198-317 | exactly the cdr of that pair changes; which of the six branches is taken, by the cdr code that results; when a unit of storage is carved; the refusals |
| `ConsHeap.Heap.RplacdNear` | src/car-cdr.c:267-280 | the branch that finds a close cell, iff there is one |
| `ConsHeap.Heap.RplacdFar` | src/car-cdr.c:289-297 | the branch that goes indirect |
| `ConsHistory.ConsRepresents` | src/conspage.c:294-433 | a cons adds one pair at a new handle, and keeps all others |
| `ConsHistory.Operand` | inc/lsptypes.h:629-632 | the type table tells references from atoms, any other words, as the abstract machine does |
| `ConsHistory.StartMirrors` | src/conspage.c:131-141 | a history may start in any well-formed heap, with no list of its own made yet |
| `ConsHistory.RunHistory` | src/car-cdr.c:54-317 | over any history of cons, car, cdr, rplaca and rplacd, on any words that are no list storage of the history and from any state that mirrors a store of pairs, the results and the heap are those of that store up to the choice of handles; whatever else the heap held is untouched |
| `StackLayout.Entered` | inc/tosfns.h:204-232 | a frame laid above a caller that has saved its state makes a longer list of frames |
| `StackLayout.Left` | inc/tosret.h:43-52 | what a return reads is what the caller had |
| `StackLayout.CallersKept` | inc/tosfns.h:204-232 | nothing above a frame disturbs the frames below |
| `ControlStack.AdaptArgs` | inc/tosfns.h:209-217 | missing arguments become NIL, surplus ones are cut off |
| `ControlStack.LayFrame` | inc/tosfns.h:218-223 | basic frame, even alink to the caller's variables, function header |
| `ControlStack.FindMark` | inc/inlineC.h:523-524 | the scan stops at the last marker |
| `ControlStack.NOpBind` | src/binds.c:32-61 | the function form of BIND: slots, stack and marker |
| `ControlStack.NOpUnbind` | src/binds.c:72-93 | the function form of UNBIND on the pointer it is given |
| `ControlStack.NOpDunbind` | src/binds.c:109-145 | the function form of DUNBIND, marker in the register or on the stack |
| `ControlStack.Machine.Push` | inc/tos1defs.h:52-57 | pushing appends the old top to the running frame's values |
| `ControlStack.Machine.Pop` | inc/tos1defs.h:58 | popping takes the last one |
| `ControlStack.Machine.FrameInMemory` | inc/stack.h:81-115 | the running frame as it lies in memory and registers, cell by cell |
| `ControlStack.Machine.CallerInMemory` | inc/tosret.h:42-52 | its caller: where the alink leads, and what has been saved there |
| `ControlStack.Machine.OpFn` | inc/tosfns.h:184-293 | OPFN and OPFNX put a new frame on the list, its arguments and variables place by place, and suspend the caller past the call |
| `ControlStack.Machine.FnCommon` | inc/tosfns.h:345-409 | so does the common sequence, for compiled code, closures, APPLY, UFN operands and the interpreter: the caller's values without the operands of APPLY, then the operand of a UFN, then the name iff the definition is not compiled |
| `ControlStack.Machine.OpApply` | inc/tosfns.h:156-181 | OPAPPLY: the function is on top and the count below it; taken iff the count is in segment 0xE, otherwise nothing changes; the frame place by place |
| `ControlStack.Machine.EnvCall` | inc/tosfns.h:426-495 | so does ENVCALL, for any count that is an integer, small or boxed; for any other count nothing changes |
| `ControlStack.Machine.OpReturn` | inc/tosret.h:25-56 | the fast return takes the top frame off: CSTKPTR, IVAR, PVAR, FuncObj and PC are the caller's; the alink of a called frame is even |
| `ControlStack.Machine.MyArgCount` | inc/inlineC.h:606-615 | even alink: the number of arguments in the running frame; odd alink: the distance from IVAR to the blink |
| `ControlStack.Machine.Bind` | inc/inlineC.h:496-515 | BIND slot by slot: n1 slots NIL, n2 slots the values from the top of the stack down, all others kept, the values gone and one marker on top |
| `ControlStack.Machine.BindByCall` | src/binds.c:32-61 | the function form makes the same change |
| `ControlStack.Machine.Unbind` | inc/inlineC.h:517-530 | UNBIND cuts the stack back to the last value with its top bit set, keeps the top and unbinds the slots which that value names |
| `ControlStack.Machine.Dunbind` | inc/inlineC.h:532-554 | DUNBIND drops that value and all above it, or only the top if it is one |
| `ControlStack.Machine.UnbindByCall` | src/binds.c:72-93 | the function form makes the same change as UNBIND |
| `ControlStack.Machine.DunbindByCall` | src/binds.c:109-145 | the function form makes the same change as DUNBIND |
| `StackRuns.StepKeeps` | inc/tosfns.h:184-495 | an operation that does not reach the d lowest values of frame k leaves them, the frame's code and arguments, and all frames below as they were |
| `StackRuns.RunKeeps` | inc/tosfns.h:184-495 | so does any run of such operations |
| `StackRuns.MatchedReturn` | inc/tosret.h:25-56 | whatever runs between a call and its matching return, the caller comes back as it was, arguments replaced by the result, at the instruction after the call |
| `StackRuns.RegistersRestored` | inc/tosret.h:42-52 | IVAR, PVAR and FuncObj are those before the call, PC is past it, CSTKPTR has dropped the arguments |
| `StackRuns.MatchedUnbind` | inc/inlineC.h:517-530 | an UNBIND finds its own block's marker, clears that block's slots and restores the stack below, whatever ran inside |
| `StackRuns.MatchedDunbind` | inc/inlineC.h:532-554 | the same for DUNBIND |
| `StackBlocks.NestedRuns` | inc/inlineC.h:496-554 | a properly nested program of pushes, pops, binding blocks and calls, run operation by operation, does what its block structure says without any marker: each UNBIND and DUNBIND closes its own block, each return ends its own call, and no marker is left above |
| `StackBlocks.KeepBlock` | inc/inlineC.h:517-530 | a block closed by UNBIND, from BIND to end, around any nested run |
| `StackBlocks.DropBlock` | inc/inlineC.h:532-554 | a block closed by DUNBIND |
| `StackBlocks.CallReaches` | inc/tosret.h:25-56 | a call, all that its callee does, and the return |
| `StackBlocks.VariablesAfter` | inc/inlineC.h:496-554 | after any properly nested program exactly the slots its blocks have bound, at any depth, are unbound; every other variable of the frame is as it was |
| `StackBlocks.BoundReads` | inc/inlineC.h:496-515 | inside a block, after any of its items, a variable reads NIL or the value the block bound it to, and any other reads as before, until an inner block has bound the same slot |
| `StackBlocks.InBlock` | inc/inlineC.h:496-515 | and an inner block begins from such a state, so that it holds at any depth |
| `StackRuns.DirectAgrees` | inc/tosfns.h:184-409 | OPFN and the common sequence agree on compiled code iff pv >= 0 |
| `StackRuns.CommonArguments` | inc/tosfns.h:72-93 | the arguments, variables and suspended caller of a common call, place by place |
| `StackRuns.ApplyAgrees` | inc/tosfns.h:156-181 | OPAPPLY on a count and a function pushed for it reaches the state of a plain call of the definition of that function with that many arguments |
| `StackRuns.ApplyFinds` | inc/tosfns.h:163-173 | whose definition OPAPPLY enters: a symbol's own, a closure itself, and NIL's only for what is neither |
| `StackRuns.EnvAgrees` | inc/tosfns.h:426-495 | ENVCALL and the call of a closure agree iff pv >= 0 |
| `StackRuns.ArgumentsOfCall` | inc/tosfns.h:209-217 | a call makes one frame more, with as many arguments as its code asks for, or as were given if the code takes all |
| `StackRuns.CountSeen` | inc/inlineC.h:606-615 | at any time in a callee, whatever it has run and called since, MYARGCOUNT gives that number |
| `StackRuns.Perform` | inc/tosfns.h:184-495 | the machine's step for each operation is the step on the list of frames |
| `StackRuns.Follow` | inc/tosret.h:25-56 | over any run with room enough, array and registers represent the list of frames |
| `GcTable.DelLink` | inc/gcdata.h:74-90 | exactly the given entry goes; a chain of two or more or one inlined entry is left, in the old order; links are conserved between chain and free list, and those freed are cleared |
| `GcTable.FreeOne` | inc/gcdata.h:62-66 | a freed link heads the free list and disturbs no chain |
| `GcTable.Unlinked` | inc/gcdata.h:74-82 | the chain without one place, first or later |
| `GcTable.LinkTaken` | inc/gcdata.h:74-82 | relinked past and freed, one link has moved from the chain to the free list, and all other entries are where they were |
| `MdsPage.InitMdsPage` | src/allocmds.c:65-104 | for objects of two words or more, odd sizes too: disjoint objects inside the 512-word unit, threaded from the last back to prev, as many as fit, none across a page in the split case; nothing outside touched |
| `MdsPage.YieldIs` | src/allocmds.c:80-101 | how many objects, and that none crosses a page in the split case, by the remainder of 256 |
| `MdsPage.ThreadIs` | src/allocmds.c:92-104 | the free list as it lies in memory, from the last object carved back to prev, high word first |
| `MdsPage.Carve` | src/allocmds.c:92-99 | the inner loop |
| `Arith.PlusExact` | src/arithops.c:42-43 | the sign test trips iff the sum leaves 32 bits |
| `Arith.DifferenceExact` | src/arithops.c:112-113 | the same for differences |
| `Arith.TimesExact` | src/arithops.c:388-390 | the division test trips iff the product leaves 32 bits, division taken exactly |
| `Arith.TimesTestDefined` | src/arithops.c:389 | that division has a 32-bit result iff the operands are not -2^31 and -1 |
| `Arith.PlusNExact` | src/arithops.c:262-264 | the one-sided test is exact for all arguments iff n >= 0 |
| `Arith.DifferenceNExact` | src/arithops.c:292-294 | the same for the difference |
| `Arith.BoxRoundTrip` | inc/arith.h:64-126 | boxing and unboxing gives the number back, immediate iff in -65536..65535, and changes no other number |
| `Arith.NumberIs` | inc/arith.h:64-74 | which word is which integer, and which words are none |
| `Arith.Plus2Adds` | src/arithops.c:26-50 | PLUS2 from operands to result gives the sum iff both are integers and the sum fits; operands that are not both integers are handed on to floating-point addition |

## Left out

- Coordinates, strides and bit addresses are unbounded integers: that C's 32-bit `int` does not overflow in them is not shown.
- `Bitmaps.BltRect`: rectangles of two different records that have a bit in common are excluded, because the code compares records, not storage, to choose a direction.
- `Bitmaps.BitbltBitmap`: for one bitmap moved within itself, a word of memory below is required of exactly the lines whose set-up reads it; for two records, no wanted pixel may be a source pixel.
- `BitBlt.BitbltGray`: the brick is a value, so a texture bitmap that shares storage with the destination is not covered.
- `Shade.BitshadeBitmap`: what the operator may do in the debugger that `error` enters; the flag says that it was entered, and the rest is what happens if it is left to go on.
- `BitBlt.Bitblt`: the four operations times two complement flags of each inner loop are one loop that dispatches on the operation; `goto` structure and loop counters are otherwise kept.
- `new_char_bitblt_code` and the character blitters: the forward path again, without complement, behind font tables and device state.
- Bitmaps of more than one bit per pixel, the MERGE source type, and every case that is passed back to Lisp; decoding of the Lisp arguments and the failures of that decoding.
- `Bitmaps.BitbltSub`: argument records and NIL defaults are given decoded.
- Cursor hiding, screen locking, display flushing and devices; byte-swapped layouts.
- `ConsHeap.Heap.AllocMdspage`: the list of freed units, clearing of new pages and the handling of full storage; room for one more unit is required of the caller.
- Reference counting and reclamation of cons cells (`GCLOOKUP`, `freelistcell`); the counters `dtd_cnt0` and `dtd_oldcnt`.
- `ConsHeap.Heap.Car`: pointers are 28-bit, and a pointer that the type table calls a list is required to be one; `N_OP_car`, `N_OP_cdr`, `N_OP_rplaca`, `N_OP_rplacd` and the inlined forms differ only in how they refuse.
- `ConsPage.TakePair`: the search that `find_pair_in_page` and `find_cdrpair_in_page` each spell out is modelled once.
- `ControlStack.Machine.OpFn`: the stack check is required to pass and the saved program counter to fit its 16 bits; code in definition cells is given by its header address.
- `ControlStack.Machine.FnCommon`: the program counter is saved after the operands of APPLY and UFN have been moved, not before; the operand a UFN takes from the code stream is given.
- `ControlStack.Machine.OpReturn`: returns through an odd alink (`slowreturn`), context switches, stack overflow, interrupts and the byte-code interpreter.
- `GcTable.DelLink`: the search for the entry in the main table (`htfind`) and chains of one, which the code never makes.
- `MdsPage.InitMdsPage`: objects of a single word, which cannot hold the link.
- `Arith.Plus2Adds`: floating-point addition itself; the opcodes that add into an existing box.
- The non-NEWCDRCODING branches, and the inline assembly for particular processors.
