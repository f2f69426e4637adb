# Verified model of the vendored TinyCC back ends and of minimize.py

This project models the algorithms of the repository that turn one abstract request into machine words or
placements, and its delta debugger, and proves what they compute:

* constants and frames: logical immediates, constant loads and constant operations on AArch64; immediates, sums of
  immediates and address folding on ARM; the stack frame of AArch64. The words are executed by small interpreters
  (`A32Machine`, `A64Machine`, `PltRun`, `PltRunArm`), with immediates read as section A5.2.4 of the ARMv7-A Architecture Reference Manual
  and DecodeBitMasks in section J1.1 of the Armv8-A Architecture Reference Manual define them;
* jump lists threaded through the code buffer, once for three encodings (ARM, AArch64, i386);
* argument placement: the VFP register allocator and caller against callee on ARM, the AArch64 procedure call
  standard and the stores of its prologue;
* the register allocator for inline assembly, on i386 and on ARM;
* RISC-V relocations, and the procedure linkage tables of RISC-V, AArch64 and ARM, with immediates read as sections
  2.3 and 16.2 of the RISC-V Unprivileged ISA define them;
* ddmin, its fixpoint loop and the line trimming of `minimize.py`;
* the debug allocator of libtcc.

Most definitions are hidden from the proofs that do not need them (`hide`), which keeps every proof short.

## Findings

Where the code does not do what it is for on some inputs, the model keeps the code, and the condition is exact:

* `arm64_gen_opic`: a shift by 0 modulo the width writes register 0 instead of x (`A64Opic.WrongRegister`).
* `encbranch`, JAL and PCREL_HI20: the range check accepts twice what the field holds (`JumpCode.ArmExact`,
  `JumpCode.ArmTooWide`, `JumpCode.ArmMisses`, `RiscvBits.JalTooWide`, `RiscvBits.HiTooWide`).
* `gfunc_prolog` on ARM: a struct aligned to 32 bytes or more that comes after the first argument register but
  before the fifth is read from the wrong place (`ArmParams.OverAligned`, `ArmParams.Agreement`).
* `struct avail_regs`: the comment says three holes at most; four are reachable (`ArmVfp.FourHoles`), exactly by a
  request aligned to 8 at an odd register behind three holes (`ArmVfp.FourthHole`).
* `arm64_pcs_aux`: stack offsets count from 32, so a stacked argument aligned to more than 32 bytes is misaligned in
  the argument area, and exactly such a one (`A64Pcs.ArgumentAligned`, `A64Pcs.MisalignedArgument`).
* `relocate_plt` on RISC-V: the unsigned check turns down slots more than 2 KiB below the code, which it could reach,
  and accepts distances from 2 GiB - 2 KiB to 4 GiB - 2 KiB, which it does not (`PltBits.RiscvRange`).
* `asm_compute_constraints`: an input that matches an input which itself matches an operand gets no register
  (`InlineAsm.MatchingInput`, `InlineAsm.ChainedInput`); on ARM the letters K and L are handled but never accepted (`InlineAsm.KnownLetters`).
* `minimize.py`: the final assertion fails for some oracle that accepts the input exactly if the input is not a text
  of newline-terminated lines (`Ddmin.OnlyItself`, `Ddmin.UnterminatedLine`).

## Model

| member | source | states |
|---|---|---|
| `A64Encoder.EncodeBimm64` | tcc-chain-vintage/arm64-gen.c:126-173 | A result decodes, by DecodeBitMasks, to exactly the input; None is returned only if none of the 8192 encodings decodes to it; an input that repeats after 32 bits gets an encoding with N clear |
| `A64BitMask.PackDecode` | tcc-chain-vintage/arm64-gen.c:171-172 | Packing a rotation and a length of ones for an element size gives an encoding that DecodeBitMasks reads back as that rotated run, replicated |
| `A64BitMask.DecodeLegal` | tcc-chain-vintage/arm64-gen.c:126-173 | Every encoding that decodes at all is a rotated run of 1 to size-1 ones in an element of 2 to 64 bits; N clear means at most 32 |
| `A64BitMask.LegalRun` | tcc-chain-vintage/arm64-gen.c:131-134 | Every decodable value, or its complement if bit 0 is set, is one unrotated run away from bit 0, replicated: the reason for the complement trick |
| `A64BitMask.SoundRun` | tcc-chain-vintage/arm64-gen.c:164-172 | A run at a position is the rotation that the encoder computes for it, under replication |
| `A64BitMask.SoundComplement` | tcc-chain-vintage/arm64-gen.c:167-170 | The complement of a run is the run that the encoder describes after exchanging position and length |
| `A64BitMask.SingleRunIsRun` | tcc-chain-vintage/arm64-gen.c:136-166 | Period, trailing zeros and following ones determine the value if nothing is left after removing them |
| `A64BitMask.RunIsSingleRun` | tcc-chain-vintage/arm64-gen.c:136-166 | Conversely every replicated run passes the test that nothing is left, whatever element size it was written with |
| `A64BitMask.PeriodShortest` | tcc-chain-vintage/arm64-gen.c:136-147 | The chain of period tests finds a period no longer than any element the value repeats |
| `A64Encoder.StripZeros` | tcc-chain-vintage/arm64-gen.c:149-155 | Six conditional shifts remove and count all trailing zeros |
| `A64Encoder.StripOnes` | tcc-chain-vintage/arm64-gen.c:157-163 | Six conditional shifts remove and count all trailing ones |
| `A64Encoder.OnlyRuns` | tcc-chain-vintage/arm64-gen.c:165-166 | Where the encoder gives up, no encoding denotes the value |
| `A64Constant.MovI` | tcc-chain-vintage/arm64-gen.c:175-210 | A nonzero result, executed, sets exactly register r to x; zero means that no MOVZ, MOVN or ORR-immediate instruction of any form does |
| `A64Constant.NoSingleMove` | tcc-chain-vintage/arm64-gen.c:175-210 | If all fourteen tests fail, every instruction of the move group loads something else |
| `A64MovImm.MovImm` | tcc-chain-vintage/arm64-gen.c:212-241 | The emitted words set register r to x and nothing else: one word exactly if a single move of any form does it, and if none does 4 minus the larger count of all-zero or all-one halfwords |
| `A64MovImm.BlendStep` | tcc-chain-vintage/arm64-gen.c:230-239 | Inserting a halfword extends the loaded low part by 16 bits, and a halfword equal to the background needs no instruction |
| `A64Opic.GenOpic` | tcc-chain-vintage/arm64-gen.c:1620-1697 | It returns 1 exactly for the supported operations and constants; otherwise nothing is emitted; what is emitted computes the operation in both operand orders and widths, disturbing at most x30, exactly if it is not a shift by 0 modulo the width or x is register 0; one word exactly if the constant is not loaded |
| `A64Opic.GenAdd` | tcc-chain-vintage/arm64-gen.c:1622-1644 | Adding a constant through its sign and magnitude gives the sum modulo the width; by one word that writes only x exactly if the magnitude is a 12-bit number, shifted by 12 or not |
| `A64Opic.GenSub` | tcc-chain-vintage/arm64-gen.c:1646-1655 | Constant minus register, by one word that writes only x exactly for 0 and all ones |
| `A64Opic.GenLogic` | tcc-chain-vintage/arm64-gen.c:1657-1672 | Logic with a constant is done exactly if the constant has a logical-immediate encoding or is all ones under exclusive or, and is then right in both operand orders |
| `A64Opic.GenShift` | tcc-chain-vintage/arm64-gen.c:1674-1693 | Shifts by a nonzero count are right; a count of 0 copies the operand to register 0 |
| `A64Opic.WrongRegister` | tcc-chain-vintage/arm64-gen.c:1681-1684 | For every x other than 0 the word for a count of 0 does not compute the shift: a state where the result is missing |
| `A64Words.WordBitfield` | tcc-chain-vintage/arm64-gen.c:1686-1691 | A bit-field word with given fields executes as SBFM or UBFM of those fields |
| `A64Words.WordLogicImm` | tcc-chain-vintage/arm64-gen.c:1665-1671 | A logical-immediate word executes with the decoded constant of its 13-bit field |
| `A32Const.StuffConst` | tcc-chain-vintage/arm-gen.c:271-321 | A nonzero result does what the given instruction with constant c does and keeps its condition; where c is encodable it is that instruction with an immediate for c, whatever its opcode; zero is returned exactly if neither c, nor its complement under the opposite operation, is encodable and the all-ones forms do not apply |
| `A32Const.TryRotations` | tcc-chain-vintage/arm-gen.c:307-320 | The search over rotations finds a word exactly if some 12-bit field denotes c, and then the least rotation |
| `A32Const.WindowByte` | tcc-chain-vintage/arm-gen.c:312-316 | The mask test of the search holds exactly if the rotated constant fits in a byte |
| `A32Const.OppositeSame` | tcc-chain-vintage/arm-gen.c:276-306 | Add and sub, mov and mvn, and and bic exchange with the complemented constant without changing the result |
| `A32Const.NotEncodable` | tcc-chain-vintage/arm-gen.c:307-320 | If no even rotation brings c below 256 then no immediate field denotes it |
| `A32Add.StuffConstHarder` | tcc-chain-vintage/arm-gen.c:325-379 | For every v the 1 to 4 appended words do exactly what the instruction with constant v would: one word exactly if one instruction can, at most two or three exactly if v or -v fits two or three disjoint byte windows |
| `A32Add.TwoWindows` | tcc-chain-vintage/arm-gen.c:337-343 | The nested loops find a pair of windows exactly if one covers the constant |
| `A32Add.ThreeWindows` | tcc-chain-vintage/arm-gen.c:354-362 | The triple loops find three windows exactly if some cover the constant |
| `A32Add.FillWindows` | tcc-chain-vintage/arm-gen.c:333-336 | The array holds the sixteen even rotations of 0xff |
| `A32Add.WindowsApart` | tcc-chain-vintage/arm-gen.c:337-343 | Windows four or more steps apart on both sides share no bit |
| `A32Add.DisjointSum` | tcc-chain-vintage/arm-gen.c:337-343 | Parts of v under disjoint masks that cover it add up to v |
| `A32Add.Twice` | tcc-chain-vintage/arm-gen.c:334-341 | Repeating an add or sub with its destination as source adds the constants |
| `A32Add.PartEncodable` | tcc-chain-vintage/arm-gen.c:337-377 | The part of v in a window always has an encoding, so no step of a split fails |
| `A32Addr.CalcAddr` | tcc-chain-vintage/arm-gen.c:447-472 | Afterwards the offset fits its field, and running the appended words makes the new base, sign and offset denote the old address modulo 2^32 while writing at most lr; nothing is appended exactly if the offset already fitted; one word exactly if the part below or above can be added by one, and the sign turns exactly if only the part above can |
| `A32Addr.RoundUp` | tcc-chain-vintage/arm-gen.c:462-467 | Rounding the base up leaves an aligned offset of the other sign within the field |
| `A32Addr.MovesBy` | tcc-chain-vintage/arm-gen.c:447-472 | Adding the part taken out of the offset to the base preserves the address, also with the sign turned |
| `A32Asm.HalfRotation` | tcc-chain-vintage/arm-asm.c:732-737 | The assembler's loop finds the least rotation, and finds one exactly if the constant is encodable |
| `A32Asm.EncodeImmediate` | tcc-chain-vintage/arm-asm.c:728-812 | An immediate is rejected exactly if neither it nor its complement under the swapped operation is encodable; otherwise the field denotes the constant used |
| `A32Asm.SameField` | tcc-chain-vintage/arm-asm.c:741-742 | Assembler and code generator choose the same twelve bits for the same constant |
| `A32Asm.SwappedSame` | tcc-chain-vintage/arm-asm.c:745-797 | The assembler's operation swap with complemented constant has the same result, for adc and sbc with either carry |
| `A32Asm.SwapIfAny` | tcc-chain-vintage/arm-asm.c:745-797 | An operation has a swap exactly if some operation on the constant complemented by sign or by bits has the same effect; for the others there are operands that tell every operation from it |
| `A32Asm.EffectSame` | tcc-chain-vintage/arm-asm.c:745-797 | The swapped operation has the same effect, tests included |
| `A32Asm.SwappedFlags` | tcc-chain-vintage/arm-asm.c:745-797 | The swap of add, sub, adc, sbc, cmp and cmn sets the same flags exactly if the constant is not 0, for the carry, and not 2^31, for the overflow |
| `A32Asm.SwappedUnseen` | tcc-chain-vintage/arm-asm.c:728-797 | Those two are encodable, so a swap for want of an encoding sets the same flags |
| `JumpLists.RunKeeps` | tcc-chain-vintage/arm-gen.c:404-418 | Over any run of new jumps, appends and resolutions no jump is lost, all lists stay finite, acyclic and disjoint, and a resolved jump keeps reaching its address |
| `JumpLists.StepKeeps` | tcc-chain-vintage/arm64-gen.c:244-257 | Each single operation keeps the list invariant, on all three encodings |
| `JumpLists.PushKeeps` | tcc-chain-vintage/arm-gen.c:1562-1570 | A new jump that links to a list's head makes one longer proper list |
| `JumpLists.JoinKeeps` | tcc-chain-vintage/arm-gen.c:1590-1605 | Linking the last jump of one list to the head of another concatenates them and touches no other list |
| `JumpLists.ResolveKeeps` | tcc-chain-vintage/i386-gen.c:146-154 | Patching every jump of a list leaves all other lists and resolved jumps as they were |
| `JumpLists.ChainUnique` | tcc-chain-vintage/arm-gen.c:393-401 | The buffer alone determines a list: two walks from the same head are equal |
| `JumpCode.ArmExact` | tcc-chain-vintage/arm-gen.c:381-391 | A patched ARM branch lands on its target exactly if that is the next word or within 2^23 words |
| `JumpCode.ArmTooWide` | tcc-chain-vintage/arm-gen.c:381-391 | The range check accepts exactly the word distances from -2^24 on and below 2^24, everything that fits and as much again |
| `JumpCode.ArmMisses` | tcc-chain-vintage/arm-gen.c:381-391 | A branch that is accepted and lands 64 MiB below its target |
| `JumpCode.ArmPatchReaches` | tcc-chain-vintage/arm-gen.c:410-416 | The patched word is a branch or nop to the landing address with its condition kept |
| `JumpCode.A64PatchReaches` | tcc-chain-vintage/arm64-gen.c:251-254 | The patched word is a branch or nop to the target |
| `JumpCode.I386PatchReaches` | tcc-chain-vintage/i386-gen.c:146-154 | The patched displacement reaches the target modulo 2^32 |
| `JumpCode.Code.GsymAddrArm` | tcc-chain-vintage/arm-gen.c:404-418 | Succeeds exactly if every branch can be encoded; then exactly the jumps of the list are resolved and no other byte changes |
| `JumpCode.Code.GsymAddrA64` | tcc-chain-vintage/arm64-gen.c:244-257 | Succeeds exactly if every jump is within 128 MiB; then exactly the jumps of the list go to a and no other byte changes |
| `JumpCode.Code.GsymAddrI386` | tcc-chain-vintage/i386-gen.c:146-154 | Every jump of the list goes to a and no other byte changes |
| `JumpCode.Code.JumpArm` | tcc-chain-vintage/arm-gen.c:1562-1588 | Appends one branch that heads the list it links to, if the link fits the field |
| `JumpCode.Code.GjmpArm` | tcc-chain-vintage/arm-gen.c:1562-1570 | An unconditional branch word in front of the list, as one step of a run |
| `JumpCode.Code.GjmpCondArm` | tcc-chain-vintage/arm-gen.c:1578-1588 | A branch word with the condition in front of the list, as one step of a run, rejected exactly for an unknown condition or a link out of range |
| `JumpCode.Code.GjmpA64` | tcc-chain-vintage/arm64-gen.c:1519-1526 | The link word in front of the list |
| `JumpCode.Code.GjmpCondA64` | tcc-chain-vintage/arm64-gen.c:1572-1604 | The compare-and-skip words of the operand's kind and the link word in front of the list, as one step of a run |
| `JumpCode.SkipSkips` | tcc-chain-vintage/arm64-gen.c:1572-1604 | The last of those words branches over the jump on zero, or if inverted on anything else |
| `JumpMeaning.SkipMeans` | tcc-chain-vintage/arm64-gen.c:1572-1604 | Running those words skips the jump exactly if the value is zero, of either sign for floats, at its width, or if inverted exactly if it is not |
| `JumpMeaning.CondMeans` | tcc-chain-vintage/arm-gen.c:474-505 | After a comparison the condition that a token is mapped to holds exactly if the relation that the token names does, for every pair of words; a token is rejected exactly if it has no condition |
| `JumpMeaning.JccMeans` | tcc-chain-vintage/i386-gen.c:692-697 | The i386 bytes for a token jump after a comparison exactly if the relation that the token names holds |
| `JumpCode.Code.Oad` | tcc-chain-vintage/i386-gen.c:157-166 | Opcode bytes and the link field in front of the list |
| `JumpCode.Code.GjmpI386` | tcc-chain-vintage/i386-gen.c:648-651 | The e9 jump in front of the list |
| `JumpCode.Code.GjmpCondI386` | tcc-chain-vintage/i386-gen.c:692-697 | The 0f 8x jump in front of the list |
| `JumpCode.Code.GjmpAppendArm` | tcc-chain-vintage/arm-gen.c:1590-1605 | Walks to the last jump and links it to t: the lists are concatenated if the link fits, and only that jump's bytes change |
| `JumpCode.Code.GjmpAppend` | tcc-chain-vintage/arm64-gen.c:1535-1547 | Concatenates two lists by changing the last link of the first |
| `ArmVfp.AvailRegs.AssignVfpReg` | tcc-chain-vintage/arm-gen.c:946-970 | Over all requests so far, the counter and hole queue answer exactly as the search for the lowest free aligned run does, and the queue never needs a fifth entry |
| `ArmVfp.LowestIs` | tcc-chain-vintage/arm-gen.c:937-970 | The search returns the first aligned run of free registers below s16, or nothing exactly if there is none |
| `ArmVfp.Exclusive` | tcc-chain-vintage/arm-gen.c:937-970 | Over any requests no register is handed out twice, blocks are aligned and inside s0 to s15, and after one spill everything spills |
| `ArmVfp.GotIs` | tcc-chain-vintage/arm-gen.c:946-970 | What a request gets are the registers of four bytes that its size fills, from its answer on |
| `ArmVfp.NoneBelow` | tcc-chain-vintage/arm-gen.c:946-970 | Below the counter only recorded holes are free, one at a time |
| `ArmVfp.FourHoles` | tcc-chain-vintage/arm-gen.c:930-935 | Eleven arguments that record four holes in a queue declared for three |
| `ArmVfp.FourthHole` | tcc-chain-vintage/arm-gen.c:946-970 | A request records the fourth hole exactly if it is aligned to 8 and comes at an odd register behind three holes; after a list there are four exactly if four requests skipped a register |
| `ArmParams.AssignRegs` | tcc-chain-vintage/arm-gen.c:1080-1153 | The loop computes the reference placement: one plan per argument, the mask of registers to load, and the size of the argument area |
| `ArmRules.FollowsRules` | tcc-chain-vintage/arm-gen.c:1080-1153 | Stated on the plans alone: an argument starts at the next free register, rounded up to its alignment, if that is below four; its plan ends with its own last register, and for a struct behind it or at four; else it is at the next aligned place in the argument area, which a split struct starts |
| `ArmRules.SavedTight` | tcc-chain-vintage/arm-gen.c:1413-1444 | The saved registers are an even number, four in a variadic function, else less than two more than the parameters reach |
| `ArmParams.GfuncProlog` | tcc-chain-vintage/arm-gen.c:1413-1497 | The prologue computes the reference number of saved registers and frame offset of each parameter |
| `ArmParams.Agreement` | tcc-chain-vintage/arm-gen.c:1421-1497 | Every word of every parameter is read where the caller put it, with any further arguments and variadic or not, if and only if no parameter aligned to more than 16 bytes arrives when the next register is r1, r2 or r3 |
| `ArmParams.SixteenAgrees` | tcc-chain-vintage/arm-gen.c:1421-1497 | With alignments up to 16 caller and callee always agree |
| `ArmParams.OverAligned` | tcc-chain-vintage/arm-gen.c:1479-1486 | An int and a struct aligned to 32 bytes: the callee reads past the argument area |
| `ArmParams.AllPlaced` | tcc-chain-vintage/arm-gen.c:1080-1153 | No two argument words share a register or stack word, later arguments lie above earlier ones, all are aligned and inside the returned size |
| `ArmParams.TodoRegisters` | tcc-chain-vintage/arm-gen.c:1118-1132 | The registers to pop are exactly those of struct arguments |
| `ArmParams.StepAgrees` | tcc-chain-vintage/arm-gen.c:1118-1150 | One parameter keeps caller and callee counters in step and is found where it was put, unless it is misread |
| `ArmParams.SavedEnough` | tcc-chain-vintage/arm-gen.c:1413-1444 | Counting words without alignment holes and rounding to even saves every register used so far |
| `Ddmin.Oracle.DdminLines` | minimize.py:61-83 | Terminates; the result is a subsequence of the input, is the input or triggers the bug, is 1-minimal if it has two or more lines, and at most 3*L*L oracle calls are made for L lines; if it is the input no chunk of any size it tries can be removed |
| `Ddmin.Oracle.Pass` | minimize.py:64-73 | One pass either removes lines and still triggers, or changes nothing; with chunks of one line it then proves 1-minimality; it asks at most once per line, and once per chunk if it changes nothing |
| `Ddmin.BudgetReduced` | minimize.py:74-75 | A reducing pass is paid for by the lines it removes |
| `Ddmin.BudgetDoubled` | minimize.py:78-79 | A pass that only refines is paid for by the growth of the granularity |
| `Ddmin.PassCost` | minimize.py:64-73 | A pass that removes nothing asks at most twice the granularity and at most once per line |
| `Ddmin.BudgetBound` | minimize.py:61-83 | The budget is at most three times the square of the line count |
| `Ddmin.Oracle.Fixpoint` | minimize.py:112-115 | The loop around ddmin terminates with the same guarantees, and no chunk of any size that ddmin tries can be removed from its result |
| `Ddmin.Oracle.ShortestPrefix` | minimize.py:88-97 | The binary search ends at a triggering truncation or the whole line, and one character less does not trigger; if truncation is monotone nothing shorter triggers; it asks at most once per halving |
| `Ddmin.Oracle.TrimLineChars` | minimize.py:86-100 | Every line becomes a prefix of itself, the result still triggers if anything changed, each line loses the bug with one character less and is shortest where truncation is monotone |
| `Ddmin.Oracle.Minimize` | minimize.py:103-123 | The input is refused exactly if it does not trigger; the output always triggers, comes from a 1-minimal subsequence from which no chunk can be removed, and has every line trimmed; the final check fails only if nothing was removed, the rejoined lines do not trigger, and the input is not a text of newline-terminated lines |
| `Ddmin.OnlyItself` | minimize.py:103-123 | For every text there is an accepting oracle for which the final check fails, if and only if the rejoined lines differ from the text, which is if and only if it does not consist of newline-terminated lines |
| `Ddmin.UnterminatedLine` | minimize.py:103-123 | One letter without a newline, accepted by the oracle, fails the final check |
| `Ddmin.ReadBack` | minimize.py:106-119 | Splitting and rejoining gives back exactly the texts that end in a newline and have no other kind of line boundary |
| `Ddmin.SplitRender` | minimize.py:106-119 | Reading back a file of lines gives the lines |
| `Ddmin.SubsequenceLength` | minimize.py:112-115 | A subsequence of the same length is the whole, which ends the fixpoint loop |
| `InlineAsm.AsmComputeConstraints` | tcc-chain-vintage/i386-asm.c:1252-1485 | On i386 and on ARM: an error of the first pass is returned exactly if a reference or letter is not acceptable; otherwise it succeeds exactly if taking the operands by priority, each by its first satisfiable letter, gives each one a place, and ends in that state, with links in both directions and no two grants in conflict; outReg is given exactly if needed and is held by no output, and its error means that it is needed and all are held |
| `AsmLetters.OperandGets` | tcc-chain-vintage/i386-asm.c:1325-1466 | After a run that succeeds every operand that refers to no other has what the first satisfiable letter of its constraint asks for, with the lowest free register: a to d, S and D the register of that name, q one of eax, ebx, ecx and edx, r, R and p (l, r and p on ARM) any that is tried, A eax with edx, the constant letters no register and a constant, m and g a register only for an address that is itself in memory |
| `AsmLetters.StuckAt` | tcc-chain-vintage/i386-asm.c:1325-1466 | A run that fails does so at an operand none of whose letters can be satisfied when its turn comes |
| `AsmLetters.ChooseIs` | tcc-chain-vintage/i386-asm.c:1346-1460 | The scan ends with exactly the first letter that is satisfied by a free place, and is rejected exactly if there is none or an unreadable letter comes before |
| `AsmLetters.ReservedAre` | tcc-chain-vintage/i386-asm.c:1314-1323 | The registers that are never given are esp and ebp, on ARM sp and fp |
| `AsmLetters.PriorityOrder` | tcc-chain-vintage/i386-asm.c:1168-1216 | Priorities order letters by how little choice they leave: A first, a letter with part of another's registers before that one, letters without registers last |
| `AsmLetters.WantedIs` | tcc-chain-vintage/i386-asm.c:1272-1297 | What is wanted is the constraint behind its leading modifiers |
| `AsmLetters.FindByNumber` | tcc-chain-vintage/tccasm.c:1062-1097 | A reference in decimal means the operand with that number, if there is one |
| `AsmLetters.FindByName` | tcc-chain-vintage/tccasm.c:1062-1097 | A reference by name means the first operand of that name |
| `InlineAsm.DifferentRegisters` | tcc-chain-vintage/i386-asm.c:1325-1466 | Two inputs, two outputs, or an operand with a matching input or a + or & and any other have no register in common, edx of a pair included, and none is the stack or frame register, a clobbered one, or on ARM one above r8 |
| `InlineAsm.MatchingInput` | tcc-chain-vintage/i386-asm.c:1461-1465 | A matching input has the register of its operand, unless that operand itself matches another: then it has none |
| `InlineAsm.ChainedInput` | tcc-chain-vintage/i386-asm.c:1252-1485 | The operands =r, 0 and 1: accepted without an error, and the third has no register |
| `InlineAsm.Link` | tcc-chain-vintage/i386-asm.c:1263-1297 | References and priorities are accepted exactly if each reference is to an earlier operand, from an input, none twice, and all letters are known; then links agree in both directions |
| `InlineAsm.ConstraintPriority` | tcc-chain-vintage/i386-asm.c:1168-1216 | The priority is the highest among the letters, rejected exactly for a letter that has none on that processor |
| `InlineAsm.KnownLetters` | tcc-chain-vintage/arm-asm.c:2903-2937 | The allocator knows every letter that has a priority; on ARM it also knows K and L, which no operand can use because they have none |
| `InlineAsm.ChosenGeneral` | tcc-chain-vintage/arm-asm.c:3099-3113 | A chosen register is among the eight, on ARM the nine, that are tried |
| `InlineAsm.SortByPriority` | tcc-chain-vintage/i386-asm.c:1299-1312 | The operand numbers, each once, in order of priority |
| `InlineAsm.Scan` | tcc-chain-vintage/i386-asm.c:1346-1460 | The scan takes the first letter that can be satisfied |
| `InlineAsm.FirstFree` | tcc-chain-vintage/i386-asm.c:1392-1412 | The lowest register of the range that does not clash, if any |
| `InlineAsm.ChosenFits` | tcc-chain-vintage/i386-asm.c:1346-1460 | A chosen register or pair clashes with nothing recorded before |
| `InlineAsm.ChosenMask` | tcc-chain-vintage/i386-asm.c:1333-1340 | The recorded bits are those of the direction or both, and both for operands that are read and written |
| `InlineAsm.GrantConflictFree` | tcc-chain-vintage/i386-asm.c:1413-1418 | Recording a grant that fits keeps all grants free of conflict |
| `InlineAsm.GrantTallied` | tcc-chain-vintage/i386-asm.c:1413-1418 | The table keeps every bit that is held |
| `InlineAsm.GrantExact` | tcc-chain-vintage/i386-asm.c:1413-1418 | The table keeps no other bit, so a failed search means the registers really are taken |
| `InlineAsm.Allocate` | tcc-chain-vintage/i386-asm.c:1325-1466 | The loop succeeds exactly if taking the operands in sorted order does, and every unreferenced operand is granted a place |
| `InlineAsm.AllListed` | tcc-chain-vintage/i386-asm.c:1299-1312 | The sorted list contains every operand |
| `InlineAsm.FindOutReg` | tcc-chain-vintage/i386-asm.c:1468-1485 | The lowest register not marked for output, if one is needed |
| `RiscvLink.Linker.Relocate` | tcc-chain-vintage/riscv64-link.c:172-290 | Patches exactly the bytes of the reference step, remembers the last upper part, and reports an error exactly for the distances the checks turn down |
| `RiscvLink.PairsReach` | tcc-chain-vintage/riscv64-link.c:216-260 | After any run over disjoint words, a lower part reported without error belongs to the last upper part before it, and the two together reach that part's target if and only if it is within 2 GiB |
| `RiscvLink.JumpReaches` | tcc-chain-vintage/riscv64-link.c:185-290 | After any run a relocated branch, jal, call or compressed jump goes to its target if and only if the distance fits its field |
| `RiscvLink.AcceptedReaches` | tcc-chain-vintage/riscv64-link.c:185-290 | After any run a branch or compressed jump goes to its target if and only if no error was reported for it; a jal that goes to its target was accepted |
| `RiscvLink.AcceptedRange` | tcc-chain-vintage/riscv64-link.c:197-239 | Where the check is wider than the field it accepts exactly 2 MiB for jal, 4 GiB for an upper part, and every call |
| `RiscvLink.ReachedHiAccepted` | tcc-chain-vintage/riscv64-link.c:216-260 | An upper part that reaches its target with a lower part was accepted |
| `RiscvLink.CleanRun` | tcc-chain-vintage/riscv64-link.c:172-290 | In a run without an error every branch and compressed jump goes to its target, and every lower part belongs to the last upper part before it |
| `RiscvLink.RelocateAll` | tcc-chain-vintage/riscv64-link.c:172-290 | A loop over relocations ends in the state of the run, with one error for each relocation that is not accepted |
| `RiscvLink.OnlyImmediates` | tcc-chain-vintage/riscv64-link.c:185-290 | Only immediate bits of relocated instructions change, in both words of a call |
| `RiscvLink.OtherBytes` | tcc-chain-vintage/riscv64-link.c:185-290 | Bytes outside the relocated words do not change |
| `RiscvLink.HiStays` | tcc-chain-vintage/riscv64-link.c:227-228 | The last upper part is remembered up to the next one |
| `RiscvBits.BranchReaches` | tcc-chain-vintage/riscv64-link.c:185-196 | The scattered branch immediate reads back as the distance exactly if the check passes |
| `RiscvBits.JalReaches` | tcc-chain-vintage/riscv64-link.c:197-208 | The scattered jal immediate reads back as the distance exactly within 1 MiB |
| `RiscvBits.JalTooWide` | tcc-chain-vintage/riscv64-link.c:199 | The check of jal accepts exactly the even distances within 2 MiB, everything that fits and as much again |
| `RiscvBits.PairReaches` | tcc-chain-vintage/riscv64-link.c:209-260 | Upper and lower part with carry add up to the distance exactly within 2 GiB, for loads, stores and calls |
| `RiscvBits.HiTooWide` | tcc-chain-vintage/riscv64-link.c:220-221 | The check of the upper part accepts exactly the distances within 4 GiB, everything that fits and as much again |
| `RiscvBits.RvcBranchReaches` | tcc-chain-vintage/riscv64-link.c:262-274 | The compressed branch immediate reads back as the distance exactly if the check passes |
| `RiscvBits.RvcJumpReaches` | tcc-chain-vintage/riscv64-link.c:275-290 | The compressed jump immediate reads back as the distance exactly if the check passes |
| `Plt.PltSection.CreatePltEntry` | tcc-chain-vintage/riscv64-link.c:104-117 | A new entry with its GOT offset after the others, which stay as they are, on all three targets |
| `Plt.PltSection.RelocateRiscv` | tcc-chain-vintage/riscv64-link.c:121-161 | Although the offsets are overwritten in the same loop, entry k computes the slot of its own offset exactly if it is within 2 GiB, and running it then jumps to what the slot holds; the header is the code for the distance to the GOT; no error exactly if all checks pass |
| `Plt.PltSection.RelocateA64` | tcc-chain-vintage/arm64-link.c:114-158 | Entry k computes the slot of its own offset exactly if its page is within 4 GiB and it is aligned to 8, and running its four words then jumps to what the slot holds with the slot's address in x16; the header pushes x16 and x30 and jumps through the third cell of the GOT |
| `Plt.PltSection.RelocateArm` | tcc-chain-vintage/arm-link.c:145-169 | Running entry k jumps to what the slot of its own offset holds, for every 32-bit distance; the header's code is kept and its distance to the GOT is filled in |
| `PltRun.Entry64` | tcc-chain-vintage/arm64-link.c:149-155 | The four words of an entry, run: x17 from the slot, x16 its address, control to what it holds |
| `PltRun.Header64` | tcc-chain-vintage/arm64-link.c:130-140 | The header, run: x16 and x30 pushed, control to what the third cell of the GOT holds |
| `PltRun.EntryR` | tcc-chain-vintage/riscv64-link.c:154-158 | The entry, run: control to what the slot holds, with the address behind the jump in t1 |
| `PltRun.HeaderRuns` | tcc-chain-vintage/riscv64-link.c:137-146 | The header, run: control to what the first cell of the GOT holds, the second cell in t0, and in t1 half the distance of t1 from t3, less 44 |
| `PltRun.FirstCallR` | tcc-chain-vintage/riscv64-link.c:121-161 | The first call through an entry, while its slot holds the header's address, ends at the resolver with the link map in t0 and half the entry's distance from the first entry in t1 |
| `PltRunArm.EntryRuns` | tcc-chain-vintage/arm-link.c:163-166 | The four words of an entry, run: control to what the slot holds, with its address in ip |
| `PltRunArm.HeaderRuns` | tcc-chain-vintage/arm-link.c:121-128 | The header, run: lr pushed, control to what the third word of the GOT holds |
| `PltRunArm.FirstCall` | tcc-chain-vintage/arm-link.c:111-169 | The first call through an entry ends at the resolver with the slot's address in ip |
| `PltBits.RiscvReads` | tcc-chain-vintage/riscv64-link.c:154-158 | auipc and ld reach the slot exactly within 2 GiB |
| `PltBits.RiscvRange` | tcc-chain-vintage/riscv64-link.c:151-153 | The check passes exactly from -2 KiB on and below 4 GiB - 2 KiB; of these the slot is reached exactly below 2 GiB - 2 KiB; turned down although they could be reached are exactly those from -2 GiB - 2 KiB on and below -2 KiB |
| `PltBits.RiscvRangePoints` | tcc-chain-vintage/riscv64-link.c:151-153 | 2 GiB is accepted and not reached, -4 KiB is turned down and would be |
| `PltBits.A64Reads` | tcc-chain-vintage/arm64-link.c:149-155 | adrp, ldr and add reach the slot exactly if the page distance fits and, for ldr, the slot is aligned |
| `PltBits.OkFits` | tcc-chain-vintage/arm64-link.c:146-148 | A page distance that passes the check fits adrp |
| `PltBits.OkRange` | tcc-chain-vintage/arm64-link.c:146-148 | The check accepts exactly the page distances of 21 signed bits, which is all that can be reached without wrapping around |
| `PltBits.ArmReads` | tcc-chain-vintage/arm-link.c:163-166 | Three rotated adds and a load offset add up to any 32-bit distance |
| `PltBits.ArmEntryReads` | tcc-chain-vintage/arm-link.c:159-166 | The distance computed for an entry, from where pc reads, is that of its slot |
| `A64Pcs.ArmPcsAux` | tcc-chain-vintage/arm64-gen.c:814-939 | The loop computes the reference location of each argument and the size of the argument area |
| `A64PcsRules.FollowsRules` | tcc-chain-vintage/arm64-gen.c:814-939 | Stated on the locations alone: bit 0 is set exactly for structs of more than 16 bytes that are no float aggregate; an argument starts at the next free register of its class, at an even one exactly if it is 16-aligned and takes more than one integer register or is a struct; it is in registers exactly if those left suffice, and else at the next place on the stack of its alignment; the area ends with the last of them |
| `A64Pcs.ArgumentsApart` | tcc-chain-vintage/arm64-gen.c:814-939 | No two arguments share a register or stack byte, and once one of a register class is on the stack all later ones are |
| `A64Pcs.ArgumentInside` | tcc-chain-vintage/arm64-gen.c:814-939 | Registers are among the eight of their class, stack slots are multiples of 8 inside the returned size, and bit 0 of a location is set exactly for arguments passed by pointer |
| `A64Pcs.ArgumentAligned` | tcc-chain-vintage/arm64-gen.c:872-935 | The location of a stacked argument is a multiple of its alignment; its offset in the argument area, which is 32 less, exactly up to an alignment of 32 |
| `A64Pcs.MisalignedArgument` | tcc-chain-vintage/arm64-gen.c:814-939 | Three aggregates of four long doubles aligned to 64: the third is at offset 32 |
| `A64Pcs.PlaceBetween` | tcc-chain-vintage/arm64-gen.c:821-936 | Each argument takes exactly what lies between the counters before and after it |
| `A64Pcs.CountSaved` | tcc-chain-vintage/arm64-gen.c:1213-1227 | The prologue's pair counts cover every register that holds a parameter, and are no more than the parameter that needs most takes |
| `A64Prolog.GfuncProlog` | tcc-chain-vintage/arm64-gen.c:1213-1275 | After all stores of the prologue every register of every parameter is where the callee reads it, the members of float aggregates their own size apart; the frame record and x8 are kept and the stacked arguments untouched; in a variadic function all registers behind the parameters' are where they were saved |
| `A64Prolog.OtherStill` | tcc-chain-vintage/arm64-gen.c:1263-1273 | Storing the members of one aggregate again leaves every other parameter as it was saved |
| `A64Prolog.MemberWord` | tcc-chain-vintage/arm64-gen.c:1263-1273 | The str word of member j stores that register at the offset plus j member sizes |
| `A64Prolog.PairStores` | tcc-chain-vintage/arm64-gen.c:1229-1239 | The stp words store the register pairs 16 and 8 bytes apart |
| `A64Frame.AllocateFrame` | tcc-chain-vintage/arm64-gen.c:1466-1505 | Only the two reserved words change; together they lower sp by exactly the 16-byte multiple below 2^24, else by a multiple of 16 that is enough and less than 17/16 of it |
| `A64Frame.RoundFrame` | tcc-chain-vintage/arm64-gen.c:1486-1495 | The rounding loops end with fields that fit, a product that covers the size and stays below 17/16 of it; for a 32-bit size one 16-bit step is enough |
| `A64Frame.StaysTight` | tcc-chain-vintage/arm64-gen.c:1486-1495 | One rounding step of a large value loses less than a sixteenth |
| `DebugHeap.Heap.Malloc` | tcc-chain-vintage/libtcc.c:335-362 | The new block heads the list, the total grows by its size modulo 2^32, and the peak is the largest total reached |
| `DebugHeap.Heap.Free` | tcc-chain-vintage/libtcc.c:364-382 | Exactly the block leaves the list, wherever it is; the check fails exactly for a block whose size is the mark of freed ones |
| `DebugHeap.Heap.Realloc` | tcc-chain-vintage/libtcc.c:392-418 | The block keeps its place in the list under its new address and size, and both neighbours and the chain follow it |
| `DebugHeap.Unlink` | tcc-chain-vintage/libtcc.c:371-379 | Pointing the neighbours at each other leaves a consistent list without the block |
| `DebugHeap.Replace` | tcc-chain-vintage/libtcc.c:402-411 | Telling the neighbours the new address leaves a consistent list with the block moved |
| `DebugHeap.LinkFirst` | tcc-chain-vintage/libtcc.c:351-358 | Linking in front leaves a consistent list |

## Left out

- The value stack (`gv`, `vtop`, `vstore`), `type_size`, tokenising, sections and symbols: types are records of kind, size and alignment, and the text section is a sequence of words or bytes. `nocode_wanted` and the growth of section buffers are not modelled.
- A64Machine: registers and words are natural numbers, and the OR of disjoint instruction fields is written as a sum.
- A32Machine: r15 is an ordinary register and flags are not kept; in the search of `stuff_const` the masks and shifts by a variable amount are written as rotations.
- A32Add.StuffConstHarder: the two nests of loops for v and for -v share one method each.
- A32Asm.EncodeImmediate: operand parsing and shifted operands are not modelled, nor is the carry that a rotated immediate gives to and, bic, mov and mvn with the S bit.
- JumpMeaning.SkipMeans: fetching the value into registers is not modelled; the two integer registers of a long double are different ones.
- JumpCode.Code: each list head is used once; addresses are non-negative ints; a link outside the ARM field is outside the lists.
- ArmParams.Agreement: the soft-float convention only, where `assign_regs` plans and before `copy_params` moves the values; hard-float calls use `ArmVfp` alone.
- ArmParams.AssignRegs: the hard-float branch that asks `ArmVfp` for registers is not part of it.
- ArmParams.GfuncProlog: the hard-float branch is not part of it.
- A64Pcs.ArmPcsAux: the walk over struct members that counts a homogeneous float aggregate is a number and a member size in the type; the return value, Mach-O variadic calls and `va_list` offsets are not modelled.
- A64Frame.RoundFrame: `loc` has 32 bits; for wider sizes the second loop could take five steps, one more than the instruction's shift holds.
- InlineAsm.AsmComputeConstraints: no register variables; identifiers are strings and the digits of a reference do not overflow. The functions of the two targets differ only in letters and registers, so they are one method with the processor as a parameter.
- RiscvLink.Linker.Relocate: the data relocations (32, 64, ADD, SUB, SET) are plain additions and are not modelled; the GOT slot of GOT_HI20 is a parameter.
- Plt.PltSection: Thumb stubs and the GOT words filled from the PLT's relocations are not modelled.
- PltRun: memory is cells of eight bytes; in PltRunArm it is words, and the pushed word is none that the header reads later.
- DebugHeap.Heap: memory is a map from addresses to headers and the system allocator is the choice of an unused address; magic words, file names, line numbers, semaphores and the report at exit are not modelled.
- Ddmin.Oracle: the oracle is any function on texts with a call counter; subprocesses, temporary files and progress output are not modelled.
- The C67 and IL back ends, the opcode tables of the assemblers, option parsing and diagnostics.
