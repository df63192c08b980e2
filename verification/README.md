# brio, where it argues against a machine

brio's drivers and its image checks rest on arguments about silicon: what a flag says once a
counted number of bytes has been written, what a STOP leaves on its way, what an erase
checks. This project states the machines as transition relations, the software as methods
interleaved with them, and proves what the comments beside the code promise - or exactly
when it holds.

`dafny verify dfyconfig.toml` checks everything.

## What is modelled

**SPI engines** (`SpiHost*`, `SpiClient*`). A step is a CLK_PER cycle. The host's block clocks
itself; the client's is clocked by a host that does what it likes. Before every register
access any number of cycles passes, so a delay of any length - an interrupt, a slow turn - is
covered by every theorem. `SpiHostBurst.SpiHost.Burst` and
`SpiClientRun.SpiClient.ServeBuffered` are the two engines' loops. `SpiSettings` and
`SpiTransaction` are the rate chooser, the register bytes an `SpiHost` keeps, and a whole
transaction as the wire sees it.

Serving a buffer-mode run turned out to promise a little less than its comment: the cut takes
one more byte on DREIF without looking at the late flags beside it, and under BUFWR a host
that clocks past the run can overwrite the run's last byte behind the last test. The client's
silicon numbers every byte with its transfer and keeps the first one overwritten, so the
contract is exact: what `ServeBuffered` stores is the first transfers' bytes, in order, if and
only if none of those was overwritten; and when one was, it is the last of three or more
counted, the host clocked more than was counted, and either the select is high with DREIF and
TXCIF standing together - which a load of INTFLAGS behind the call shows - or the run is a
complete one under BUFWR. `SpiClientGap` is such a run for every host that clocks four or more
and every run of three or more, with BUFWR and without; for no other is there one. How a run
ends is exact too: every flag its waits ended on is kept, and it is late on the flags that said
so and on no others, where a transfer did end dry; it stalls on a transmitter that was full or
a budget waited out; so a host that clocks a whole run against a client in time has it
complete.

**The vector guard** (`Listing`, `JumpTable*`, `Machine`, `WindowGaps`, `CallGraph*`,
`Trampoline*`, `Guard`). Decoded listings go in. Two machines say what the answers mean: one
with a program counter, registers and return addresses for the walk and the jump tables, one
with byte memory for a trampoline's slots. Their hypotheses:

- the listing's annotations are right: a resolved address is the one jumped to, and an `addi`
  that names a symbol leaves that symbol's address;
- a call comes back to the instruction behind it, and returns pair with calls;
- a function's instructions are listed in the order of their addresses;
- no run leaves the listed instructions, past a function's end or into the middle of one;
- functions do not overlap (`CallGraph.ExactIffDisjoint`: the owner search is right exactly then);
- register `zero` is an ordinary register to the jump-table machine, and nothing writes it;
- no store changes a word of the loaded image;
- the hardware saves the sixteen integer registers a callee may clobber, and a body keeps the
  others, the f-registers a callee keeps and everything at or above its stack pointer;
- a trampoline's frame does not wrap around the address space.

What the recognizers take is said without them, of the instructions one by one: gcc's dispatch
shape and what makes its table (`JumpTableShape.TableIff`), a trampoline that calls and returns
(`Trampoline.PlainIff`), one that saves the float state (`TrampolineHalves.FloatIff`). So an
entry's promise (`Guard.NoFloatInInterrupts`) begins at the handler's own first instruction.

A recognized `jr` is not assumed to jump to a word of its table: that is proved of every run
whose dispatches are sheltered (`Machine.Sheltered`), five conditions the recognizer leaves
unchecked. Three are on the window, and `JumpTableGaps` shows a run that escapes for each of
them dropped alone: no call in it, the compared register unwritten, a constant that is not
negative. Two are on what may land in it - the recognizer looks at the function's own named
targets and at nothing else - and `WindowGaps` shows a program the walk passes, and a run of
it that escapes, for each: a word of the function's own tables, and a target named in another
function.

The float-trampoline recognizer compares slot offsets and adds up the stack pointer's moves. `TrampolineFrame.FloatRestoresIff` is the exact
condition under which what it accepts loses nothing of the interrupted program's - its stack,
its integer registers, its float state: every slot is loaded where its bytes still lie, the
body's stack and every slot lie below the interrupted one's, and fcsr goes through registers
the hardware saves. `TrampolineShapes.OwnSlotsIff` reads that off a whole family of shapes, the
macro's among them. A leaf handler bound in two vectors fails the guard at the second
(`Guard.MarksOnce`).

**Nonvolatile memory** (`EepromSilicon`, `Eeprom`, `FlashGuard`). The AVR EA's page buffer is
a machine whose operation may end between any two accesses, and whose buffer may hold
anything at the start. `eeprom_write_block` of nothing writes CTRLA without waiting: it is the
one way these verbs collide with a running operation, and the contract says so. On the DA/DB
the controller checks the first page of an erase alone.

**The ADC** (`AdcSilicon`, `AdcLabels`, `AdcClock`). Cycles of CLK_PER with an unbuffered mux;
triggers come no closer than a period, conversions end within a longest time, a result lands
at most half a CLK_ADC and a CLK_MAIN behind its conversion's end, and the RESRDY body is
taken the cycle after - with interrupts on, as the comment beside the wait asks, and no other
handler in its way (`AdcLabels.MaskedLies`). A select costs a conversion or a trigger and not both exactly when
the triggers come no faster than the longest conversion and the STOP together
(`AdcLabels.BothIff`), and more than one trigger exactly when the STOP outlasts a period
(`AdcLabels.TwoLostIff`).

**Arithmetic and a lexer** (`OpampLadder`, `DynamicClock`, `Delay`, `TimerChoice`,
`CommentSpans`, `CommentTiles`, `DigitSeparators`). Integer widths are written out where they matter; rationals are exact.

## Where the code says less than its comments

- `serve_buffered`'s cut may count a byte it should not (spi.hpp:2024-2028), and a host that
  clocks past a BUFWR run may take its last byte's place (`SpiClientGap`).
- a jump table may lead back into its own dispatch, and another function into the middle of it
  (`WindowGaps.WordLands`, `WindowGaps.OtherLands`).
- functions that overlap hide addresses from the owner search (`CallGraph.ExactIffDisjoint`).
- an empty `ceiling_` clamps nothing, and a rate is rounded down before it is compared
  (`SpiSettings.CeilingIff`, `SpiSettings.HonestIff`).
- slots are not checked to be apart, `sp` to be still between them, its moves to make room or
  to be a multiple of sixteen, nor the fcsr step's register to be one the hardware saves
  (`TrampolineShapes.AcceptedYetLost`, `TrampolineShapes.MacroAndThree`,
  `TrampolineSp.SpForgotten`).
- `erase_ignoring_protection` admits one block outside the device, whose end wraps to zero
  (`FlashGuard.LastBlock`).
- a select's worst case is a conversion and a trigger, not one or the other.
- the DA/DB's `rebase` drifts, as its comment admits: `AdcClock.BackIff` says when it does not.
- behind a fallback to an oscillator of another rate `DynamicClock::set` programs another rate
  than it names, and the timebase may fall short of it (`DynamicClock.Dynamic.Set`,
  `DynamicClock.CoversAllIff`).
- the saturated delay factor is short, not long, and the 16-bit one wraps above 63,999,023 Hz
  (`Delay.RuntimeWaitsIff`, `Delay.RateWaitsIff`); a constant length whose cycles pass 32 bits
  is cut (`Delay.FoldedWaitsIff`).
- a pulse longer than a period of 65536 ticks is never high (`TimerChoice.PulseIff`).
- an odd CLK_PER halved for the TCB can come out short (`TimerChoice.ShortIff`).
- a digit separator opens a literal in the scanner (`DigitSeparators.AgreesIff`,
  `DigitSeparators.AnswersIff`, `DigitSeparators.HidesIff`).

## Model

| member | source | states |
|---|---|---|
| SpiClientRun.SpiClient.ServeBuffered | brio/avrxt/spi.hpp:1957-2039 | for every length, BUFWR setting, delay and host: what is stored is the first transfers' bytes, in order, exactly when none of those was overwritten; all but the last always are; when the last is not, three or more were counted, the host clocked more than that, and the select is high with DREIF and TXCIF together, or the run is a complete BUFWR one; so a complete run against a host within the length holds the bytes clocked; a complete run counted all and saw no transfer before its last run dry; a close with no dry transfer leaves nothing unread, and counts one byte more exactly for the flag it asked for last; a run ends late exactly on the first DREIF beside TXCIF or BUFOVF, where a transfer ended dry, and counts the bytes read before it; it stalls on a full transmitter or a budget waited out; with neither, and a host that clocks all, it is complete; the answers on the wire are the caller's, in order; INTFLAGS and the select are asked no more often than the budget allows |
| SpiClientRun.SpiClient.Await | brio/avrxt/spi.hpp:1847-1873 | the loads that did not find the flag, four a round and a look at the select behind them; it ends on a load that does, on the select high, or - 256 rounds at a time taken off the budget - on the last round's low select |
| SpiClientRun.SpiClient.AwaitSelect | brio/avrxt/spi.hpp:1875-1883 | it ends on the first look that finds the select low or load that finds RXCIF, or after exactly the budget's rounds, 2^32 for a budget of zero |
| SpiClientRun.SpiClient.Preload | brio/avrxt/spi.hpp:1885-1901 | one answer loaded, two under BUFWR, or none when the budget went on loads that found no room |
| SpiClientRun.SpiClient.FlushReceive | brio/avrxt/spi.hpp:776-795 | the receiver is empty behind one read and at most three more |
| SpiClientRun.SpiClient.SteadyTurns | brio/avrxt/spi.hpp:1907-1930 | each turn stores the next byte clocked and loads the next answer, the transfer counted not yet dry; it is late on the flags of its last turn and on no others |
| SpiClientRun.SpiClient.Turn | brio/avrxt/spi.hpp:1683-1703 | a turn's read leaves a byte behind, so it returns the next one and is taken |
| SpiClientRun.SpiClient.Cut | brio/avrxt/spi.hpp:2024-2028 | what a run cut short may still count; its last byte is not vouched for only with DREIF and TXCIF together behind the close, or under BUFWR on a host past the run |
| SpiClientRun.SpiClient.Tail | brio/avrxt/spi.hpp:2031-2039 | the tail stores the transfers' bytes in order, its second one exactly when that was not overwritten |
| SpiClientInvariant.LossIsFlagged | brio/avrxt/spi.hpp:1932-1956 | a third unread byte overwritten means a transfer ended dry: TXCIF stands whether BUFOVF does or not |
| SpiClientRun.LateIsDry | brio/avrxt/spi.hpp:1903-1905 | TXCIF or BUFOVF stands only where a transfer has ended dry |
| SpiClientInvariant.TickKeeps | brio/avrxt/spi.hpp:1683-1703 | the counting argument's invariant survives every cycle and everything a host can do in it |
| SpiClientInvariant.OnDre | brio/avrxt/spi.hpp:1932-1956 | DREIF without TXCIF: as many transfers have ended as answers were written, none dry and no byte lost |
| SpiClientInvariant.ReadNext | brio/avrxt/spi.hpp:1038-1079 | a read that leaves a byte behind or meets no arrival returns the next byte and keeps the stream |
| SpiClientInvariant.DoKeepsPassed | brio/avrxt/spi.hpp:1932-1956 | whatever the host does, the receiver holds the transfers' bytes one by one up to the first overwritten, and later ones from its place on |
| SpiClientInvariant.SecondOfTwo | brio/avrxt/spi.hpp:2031-2039 | the last read stores the transfer due there exactly when it was not overwritten, in an empty receiver and a stuck one too |
| SpiClientGap.GapAtTheCut | brio/avrxt/spi.hpp:2024-2028 | for every host that clocks four or more, a run from the flush to its close that stores one transfer's byte where the one before it was due |
| SpiClientGap.GapUnderBufwr | brio/avrxt/spi.hpp:2018-2028 | the same under BUFWR, cut, and complete in a run of three |
| SpiHostBurst.SpiHost.Burst | brio/avrxt/spi.hpp:1416-1488 | exactly the bytes given are on the wire in order, exactly the bytes received are stored in order, with no write over a full buffer, no byte overwritten and no read that empties the FIFO under a byte |
| SpiHostBurst.ClearDecides | brio/avrxt/spi.hpp:1475-1484 | behind the last store and the clear TXCIF rises within the transmitter's remaining cycles, or never: which, exactly |
| SpiHostBurst.UnmaskedCanHang | brio/avrxt/spi.hpp:1475-1484 | a handler three transfers long between the two stores makes the tail wait for ever |
| SpiHostInvariant.TickKeeps | brio/avrxt/spi.hpp:1038-1079 | at most three bytes outstanding, none lost, everything sent and received accounted for, over every cycle |
| SpiHostInvariant.WriteKeeps | brio/avrxt/spi.hpp:168-178 | a write on DREIF starts no transfer over a held byte |
| SpiHostInvariant.ReadKeeps | brio/avrxt/spi.hpp:1038-1079 | a read that leaves a byte, or meets an idle transmitter, returns the next byte received |
| SpiHostInvariant.Finished | brio/avrxt/spi.hpp:1483-1488 | TXCIF behind the clear and every byte read: idle again, all sent, all received |
| SpiSettings.FoldRoundTrip | brio/avrxt/spi.hpp:434-464 | the register byte of a rate reads back as that rate |
| SpiSettings.FoldInjective | brio/avrxt/spi.hpp:1362-1380 | comparing the two folded bytes compares the rate and the mode |
| SpiSettings.ClockFor | brio/avrxt/spi.hpp:471-481 | the fastest division admitted, or none when all are too fast |
| SpiSettings.NoneIff | brio/avrxt/spi.hpp:471-481 | there is none exactly when CLK_PER/128 is too fast |
| SpiSettings.CeilingHolds | brio/avrxt/spi.hpp:1355-1360 | under a ceiling in force the rate used keeps to it as rounded, is the fastest that does, and passes it exactly when it is the limit with a remainder |
| SpiSettings.CeilingIff | brio/avrxt/spi.hpp:1232-1236 | every request keeps to the ceiling exactly when some division does |
| SpiSettings.HonestIff | brio/avrxt/spi.hpp:471-481 | an admitted rate is really above the limit, by less than a hertz, exactly when the quotient is the limit and leaves a remainder |
| SpiTransaction.Host.Rebase | brio/avrxt/spi.hpp:1226-1236 | the setup time's base is the cycles of a microsecond rounded up, and the ceiling's division the fastest admitted, at the new rate |
| SpiTransaction.Host.Init | brio/avrxt/spi.hpp:1192-1224 | refused, nothing written, exactly when no division keeps to the ceiling or the resource refuses; else mode 0 at the ceiling's division, or 16 without one, the kept pair is the registers' and the receiver is empty |
| SpiTransaction.Host.Reprogram | brio/avrxt/spi.hpp:1382-1414 | one SCK edge when CPOL changes and none otherwise, SCK ending at the new idle level |
| SpiTransaction.Host.Apply | brio/avrxt/spi.hpp:1372-1380 | nothing is written when the settings are those kept |
| SpiTransaction.Host.Prime | brio/avrxt/spi.hpp:1258-1267 | the settings in force before a caller's own select |
| SpiTransaction.Host.Start | brio/avrxt/spi.hpp:1269-1329 | on the wire: a command is one phase with D/C low that sends exactly its bytes; the data are one phase behind it with D/C high, the caller's bytes or 0xFF; there is no other; all in one select window, at the clamped rate and the mode asked for, with no SCK edge in the window but the transfers'; under a ceiling in force each phase keeps to it with no faster admitted rate passed over; the data phase's bytes are handed back; a refused or an empty request touches nothing |
| SpiTransaction.Host.Recover | brio/avrxt/spi.hpp:1331-1349 | a dropped host is re-armed, the pair kept holds again, and the receiver is empty |
| JumpTable.LastWriterIff | cli/vector_guard.py:171-184 | the search answers an instruction exactly when it writes the register and nothing behind it does or might |
| JumpTableScan.FindLastWriter | cli/vector_guard.py:171-184 | the backward scan finds it |
| JumpTableScan.NarrowedNames | cli/vector_guard.py:233-241 | the loop collects the registers the index was narrowed from |
| JumpTableScan.Compares | cli/vector_guard.py:242-255 | the last compare's count, and the earliest of what the compares load |
| JumpTableScan.ReadTable | cli/vector_guard.py:192-264 | the loops answer the table, which TableIff says when there is |
| JumpTableShape.RecognizeIff | cli/vector_guard.py:192-255 | a dispatch is answered exactly where the window has gcc's shape - a load, an add, a base by li, by an addi of a symbol or by lui, an index scaled by four, a loaded bound on one of its names - and then with that base, the last such bound and the earliest instruction it rests on |
| JumpTableShape.TableIff | cli/vector_guard.py:192-264 | a table is answered exactly where that shape is, nothing the function names lands in it, and the words it gives are addresses of the function |
| JumpTableShape.OrdinaryFound | cli/vector_guard.py:218-221 | gcc's window with a lui and an addi of any symbol is answered, at that symbol and one entry more than its last index |
| JumpTableMachine.ChainBounds | cli/vector_guard.py:187-189 | every register the index was narrowed from is no smaller than it, unsigned |
| JumpTableMachine.BoundHolds | cli/vector_guard.py:242-253 | falling through the compare leaves the register below the count |
| JumpTableMachine.IndexBelow | cli/vector_guard.py:233-253 | so is the index, where it is scaled |
| JumpTableMachine.DispatchLoads | cli/vector_guard.py:198-232 | what is jumped to is the word at the base plus four times the index |
| JumpTableMachine.TableSound | cli/vector_guard.py:192-264 | when a table is answered, a run of registers that falls through the window jumps to one of its words, all of them in the function - with no call in between, the compared register unwritten, and a constant that is not negative |
| Machine.StepFalls | cli/vector_guard.py:256-260 | a step of the whole machine arrives behind a sheltered dispatch's first instruction only by falling there; a return goes back to no such place |
| Machine.Trail | cli/vector_guard.py:192-197 | a run at a recognized jr has come instruction by instruction from the dispatch's first |
| Machine.JumpsToTable | cli/vector_guard.py:192-264 | so it jumps to a word of the table, whatever ran before |
| WindowGaps.WordLands | cli/vector_guard.py:256-264 | a program the walk passes, every other condition met, whose table leads into its own dispatch: a run jumps outside table and function |
| WindowGaps.OtherLands | cli/vector_guard.py:256-260 | the same through a jump of another function past the compare |
| WindowGaps.OrdinarySheltered | cli/vector_guard.py:192-197 | with neither, that dispatch meets all that the walk's soundness asks |
| Machine.FirstIsOutside | cli/vector_guard.py:256-260 | so does a run that starts at a function's first instruction |
| JumpTableGaps.EachConditionMatters | cli/vector_guard.py:242-264 | for each of the three dropped alone, a table accepted and a run that jumps outside it |
| CallGraph.FindOwner | cli/vector_guard.py:440-442 | the binary search answers the last start at or before the address, when its function holds it |
| CallGraph.OwnerIff | cli/vector_guard.py:440-442 | of functions that do not overlap, exactly the one the address lies in |
| CallGraph.ExactIffDisjoint | cli/vector_guard.py:440-442 | the search is right of every address exactly when no two functions overlap |
| CallGraph.FaultIff | cli/vector_guard.py:267-290 | an instruction is a fault exactly when it touches the floating-point unit, is four undecoded bytes, or goes where no address says and no table; and goes exactly where the listing names |
| CallGraph.Visit | cli/vector_guard.py:497-521 | one function's faults and strays, all of them, and everything it enters met |
| CallGraph.Chain | cli/vector_guard.py:522-527 | the parents lead from a function to the body, edge by edge, and the walk up them ends |
| CallGraph.Walk | cli/vector_guard.py:488-527 | the functions reached are exactly those the body reaches, the report is empty exactly when all are faultless, every fault and every stray transfer of each is in it, and every failure names a fault and a real way to it |
| CallGraphRuns.WalkSound | cli/vector_guard.py:23-45 | no run of a body with an empty report, its dispatches sheltered, leaves the functions reached, fetches a floating-point instruction or an unresolved transfer, or jumps through a table to anything but its words |
| CallGraphRuns.FindLeafFaults | cli/vector_guard.py:386-408 | the faults of a leaf, in order |
| CallGraphRuns.LeafIff | cli/vector_guard.py:386-408 | a leaf is exactly a faultless function that enters no other and calls nothing |
| CallGraphRuns.LeafSound | cli/vector_guard.py:46-57 | a leaf's run stays in it, makes no call and uses no f-register, its dispatches sheltered |
| Trampoline.Recognize | cli/vector_guard.py:323-383 | the recognizer's loops and answers, which PlainIff and FloatIff say when they are |
| Trampoline.PlainIff | cli/vector_guard.py:326-336 | a trampoline is plain, its body at an address, exactly when it is a call that resolves there and an mret, with the auipc of a two-instruction call before them or nothing |
| Trampoline.JudgeHalves | cli/vector_guard.py:342-383 | the two halves folded one instruction at a time |
| TrampolineHalves.HalvesIff | cli/vector_guard.py:342-383 | of two halves, by their instructions' places: which are a float trampoline's, which one that does not restore, and which none |
| TrampolineHalves.WhyIff | cli/vector_guard.py:373-382 | the reason given is the first that is true: not the twenty, another slot, no step of fcsr, not a slot of its own, sp moved |
| TrampolineHalves.FloatIff | cli/vector_guard.py:323-383 | a handler is a float trampoline exactly when around its one resolved call each of the twenty is last stored to the slot it is last loaded from, fcsr goes through a slot of its own, the moves of sp cancel, and nothing else is there |
| TrampolineRuns.SavingHolds | cli/vector_guard.py:345-372 | what memory holds behind the first half, byte by byte, for every state |
| TrampolineRuns.RestoringHolds | cli/vector_guard.py:345-372 | what the second half loads into each f-register and fcsr |
| TrampolineRuns.RoundTrip | cli/vector_guard.py:342-383 | every f-register, fcsr and the stack pointer come back, whatever the body does above its frame, under the condition |
| TrampolineRuns.NotKept | cli/vector_guard.py:342-383 | a state and a body that lose a register whenever the condition fails |
| TrampolineSp.SpForgotten | cli/vector_guard.py:357-370 | fcsr moved through sp: the stack pointer a run ends with does not depend on its first |
| TrampolineSp.FloatBackIff | cli/vector_guard.py:323-383 | the float state and the stack pointer come back exactly when each slot is loaded where its bytes still lie, above the body's stack, and fcsr does not go through sp |
| TrampolineFrame.RestoresAll | cli/vector_guard.py:342-347 | so do the interrupted stack and every integer register the hardware does not save, under the rest of the condition |
| TrampolineFrame.Escapes | cli/vector_guard.py:342-383 | a state and a body that lose one of them whenever that fails |
| TrampolineFrame.FloatRestoresIff | cli/vector_guard.py:323-383 | what is called a float trampoline loses nothing of the interrupted program's - stack, integer registers, float state - exactly when each slot is loaded where its bytes still lie, the body's stack and every slot lie below the interrupted one's, and fcsr goes through registers the hardware saves |
| TrampolineSlots.ApartRestores | cli/vector_guard.py:342-347 | slots of their own below the interrupted stack, a stack pointer that is still, and a register the hardware saves are enough |
| TrampolineShapes.AllFloat | cli/vector_guard.py:373-383 | twenty stores and loads at any spacing, with any move of the stack pointer and any register for fcsr, are called a float trampoline |
| TrampolineShapes.OwnSlotsIff | cli/vector_guard.py:342-347 | of those with a slot each, the ones that restore are exactly those whose move makes room for the hundred bytes and whose register the hardware saves |
| TrampolineShapes.MacroAndThree | cli/vector_guard.py:342-383 | the macro's restores; no move at all, a move up, and s0 for fcsr are accepted and do not |
| TrampolineShapes.AcceptedYetLost | cli/vector_guard.py:373-383 | all in one slot, or the stack pointer moved in between: accepted, and ft0 is lost, whatever the moves and the register |
| Guard.Check | cli/vector_guard.py:447-527 | an entry's report is empty exactly when it is what it must be, and every complaint in it is true of it |
| Guard.GuardImage | cli/vector_guard.py:446-530 | an image's report is empty exactly when every entry is and every leaf mark is used |
| Guard.MarksOnce | cli/vector_guard.py:455-459 | each leaf mark is borne by one entry alone |
| Guard.HandlerEnters | cli/vector_guard.py:488-492 | a plain trampoline's call enters exactly the body that was walked, and nothing else in it goes anywhere |
| Guard.NoFloatInInterrupts | cli/vector_guard.py:7-16 | in an image that passes, no run from an entry's own first instruction to its return - handler, body and all they reach - touches the floating-point unit, but for a float trampoline's, given of each jump table it reaches what the guard leaves unchecked |
| EepromSilicon.CheapestChoice | brio/avrxt/nvm.hpp:1609-1616 | no legal operation that stores the run is cheaper than the one chosen |
| EepromSilicon.LastPageWins | brio/avrxt/nvm.hpp:1253-1256 | loads in two pages land in the last one's |
| EepromSilicon.LeftoverRides | brio/avrxt/nvm.hpp:1263-1270 | a byte left in the buffer ANDs itself into the next operation |
| Eeprom.Nvm3.WaitIdle | brio/avrxt/nvm.hpp:1445-1465 | the bounded wait answers whether the controller is idle, and gives up only behind as many busy polls as its bound |
| Eeprom.Nvm3.Open | brio/avrxt/nvm.hpp:1573-1582 | an idle controller and an empty buffer, or nothing touched |
| Eeprom.Nvm3.RunOp | brio/avrxt/nvm.hpp:1592-1608 | one operation over exactly the run, or nothing touched |
| Eeprom.Nvm3.StoreRun | brio/avrxt/nvm.hpp:1609-1650 | `src` in place once the operation ends, no other byte changed, only the bytes that differed cycled, no write onto a byte not erased, no collision; refused only for a run that leaves its page, under EEWP, or behind a wait given up |
| Eeprom.Nvm3.ClearCommand | brio/avrxt/nvm.hpp:1467-1471 | the memory as it was; refused with a collision exactly when an operation runs |
| Eeprom.Nvm3.WriteBlock | brio/avrxt/nvm.hpp:1712-1735 | any length in place with at most one operation for each page, in order, a prefix in place when it gives up - which is for a range outside, under EEWP, or behind a wait's full bound of busy polls -, and no collision but for an empty block under a running operation |
| FlashGuard.WritableIff | brio/avrxt/nvm.hpp:640-664 | the two ends checked say that every byte of the range may be written, for all fuses |
| FlashGuard.PageInOneSection | brio/avrxt/nvm.hpp:204-207 | a page lies in one section |
| FlashGuard.SectionsAreTheFuses | brio/avrxt/nvm.hpp:605-638 | the sections found by the two boundaries are those the fuses cut, block by block |
| FlashGuard.LayoutAgrees | brio/avrxt/nvm.hpp:343-391 | under matching fuses the compile-time boundaries are the run-time ones, and what the layout admits is what the part does with its locks open, never BOOT |
| FlashGuard.ClaimSafeIff | brio/avrxt/nvm.hpp:343-391 | under any fuses a claim admits no byte of BOOT exactly when BOOT ends no later than it says |
| FlashGuard.ErratumIff | brio/avrxt/nvm.hpp:640-664 | the controller alone erases a protected byte exactly when its first page may be written and a later byte may not |
| FlashGuard.OnePageSpared | brio/avrxt/nvm.hpp:696-721 | a single page needs no more than the controller's check |
| FlashGuard.Flash.Erase | brio/avrxt/nvm.hpp:696-721 | asked for exactly when the range is aligned to its span, inside the device and writable to the byte and the wait before succeeds; then it reads 0xFF and the rest as it did, and the wait behind is the answer; nothing in BOOT or a locked section changes; 32-bit addresses that wrap included |
| FlashGuard.Flash.EraseIgnoringProtection | brio/avrxt/nvm.hpp:723-753 | which requests are admitted, exactly - the last block of the 32-bit space among them, which is no byte of the device -, when they are asked for, and that the range is blank exactly when its first page may be written |
| FlashGuard.Flash.WriteBlock | brio/avrxt/nvm.hpp:777-799 | asked for exactly when address and length are even, the length not zero and every byte writable; then a word behind each wait that succeeds, cleared into place in order, protected bytes untouched, and all of them down exactly when every wait did |
| AdcLabels.LoopsCover | brio/avrxt/adc.hpp:1412-1420 | for every prescaler the wait covers the latency and one loop less would not |
| AdcLabels.TickKeeps | brio/avrxt/adc.hpp:1377-1386 | whatever converts, lands or waits is the selected input's, over every cycle and event |
| AdcLabels.TickAccounts | brio/avrxt/adc.hpp:1377-1386 | every conversion begun has ended, was aborted or runs, and each that ended was read, waits to be, or is on its way |
| AdcLabels.AdcMux.Halt | brio/avrxt/adc.hpp:1395-1398 | behind the STOP and the wait nothing converts, lands or waits to be read, and every conversion that ended has been read, in order |
| AdcLabels.AdcMux.Select | brio/avrxt/adc.hpp:1387-1401 | every result read is labelled with the input it sampled, whole, and none that ended is dropped; one conversion aborted at most, one trigger lost at most while the STOP fits a period, and one of the two while the longest conversion does with it |
| AdcLabels.ShortWaitLies | brio/avrxt/adc.hpp:1412-1420 | one loop less leaves a result on its way when the mux moves |
| AdcLabels.MaskedLies | brio/avrxt/adc.hpp:1377-1386 | with interrupts off a result is read under the next input's label |
| AdcLabels.BothIff | docs/avrxt/adc.md:583-590 | for every pace and stop, a select can cost a conversion and a trigger both exactly when the period is shorter than the longest conversion and the STOP together |
| AdcLabels.TwoLostIff | docs/avrxt/adc.md:583-590 | it can cost two triggers exactly when the STOP outlasts a period |
| AdcClock.TableEA | brio/avrxt/adc.hpp:690-701 | the divisor's arithmetic is the data sheet's table |
| AdcClock.FindPresc | brio/avrxt/adc.hpp:839-854 | the loop answers the search's prescaler |
| AdcClock.SearchNearest | brio/avrxt/adc.hpp:839-854 | the first of the prescalers in range nearest the target, the slowest when none is |
| AdcClock.DistinctClocks | brio/avrxt/adc.hpp:806-822 | two divisors in range make two rates |
| AdcClock.OnlyTheLast | brio/avrxt/adc.hpp:1108-1120 | after any rebases the prescaler is the last rate's alone |
| AdcClock.AdcRate.Init | brio/avrxt/adc.hpp:1050-1095 | refused, nothing touched, exactly when CLK_ADC is out of its range or SAMPDUR below its floor |
| AdcClock.FloorIff | brio/avrxt/adc.hpp:823-837 | SAMPDUR's floor is four microseconds of CLK_ADC for an internal reference, and eleven for a burst through the PGA |
| AdcClock.AdcRate.Rebase | brio/avrxt/adc.hpp:1121-1135 | the nearest in range to init's CLK_ADC, and clock_ok exactly when one is in range and SAMPDUR long enough at it |
| AdcClock.RoundTrip | brio/avrxt/adc.hpp:1108-1120 | init's rate brings init's prescaler back, whatever came between |
| AdcClock.AnswersIff | brio/avrxt/adc.hpp:226-241 | a prescaler in range is the one answered exactly when the target lies between its clock and its neighbours' |
| AdcClock.BackIff | brio/avrxt/adc.hpp:376-404 | on the DA/DB, whatever rates came between, init's rate brings init's prescaler back exactly when the CLK_ADC they left lies between its clock and its neighbours' |
| AdcClock.BackFromOne | brio/avrxt/adc.hpp:376-404 | for one rate between, that is a test on it |
| AdcClock.DriftDADB | brio/avrxt/adc.hpp:376-404 | a rate that fails it |
| OpampLadder.FindGcd | brio/avrxt/opamp.hpp:247-251 | the loop is the greatest common divisor |
| OpampLadder.LowestUnique | brio/avrxt/opamp.hpp:252-255 | equal fractions in lowest terms are the same |
| OpampLadder.ReduceIff | brio/avrxt/opamp.hpp:252-255 | reduced forms agree exactly when the rationals do |
| OpampLadder.WiperFor | brio/avrxt/opamp.hpp:278-294 | a wiper exactly when its gain is the rational asked for |
| OpampLadder.GainAmplifies | brio/avrxt/opamp.hpp:278-294 | that rational is what an ideal stage with its ladder at the wiper makes of every voltage, inverting or not |
| OpampLadder.OneWiper | brio/avrxt/opamp.hpp:278-294 | no two wipers make one gain |
| OpampLadder.RowAmplifies | brio/avrxt/opamp.hpp:815-836 | for every row and all voltages the output is the gain times the difference |
| OpampLadder.SevenGains | brio/avrxt/opamp.hpp:788-827 | two wipers make a difference amplifier exactly when they are a row of the table |
| CommentSpans.Scan | cli/prose.py:132-165 | the scanner answers the reference lexer's spans on every text, and its position reaches the end |
| CommentSpans.AllProper | cli/prose.py:132-136 | the spans are apart and in order, each one comment, whole, at its line; and one begins exactly where a comment opens in the lexer's code |
| CommentSpans.NewlinesAre | cli/prose.py:132-165 | a line is one more than the newlines before it, counted |
| CommentTiles.SpansAreComments | cli/prose.py:132-165 | without a lexer: every text falls into characters, comments and literals - each from its quote to the first like it behind an even number of backslashes - and, however it does, the spans are its comments |
| CommentTiles.WalksLiteral | cli/prose.py:142-149 | inside a literal the lexer is in one, escaped exactly behind an odd number of backslashes |
| CommentSpans.LineOfMatch | cli/prose.py:168-182 | a match's reported line is its line in the text |
| DigitSeparators.AgreesIff | cli/prose.py:132-149 | the scanner stands at every character where its own lexer taught digit separators does exactly when the text has none |
| DigitSeparators.AnswersIff | cli/prose.py:132-165 | on every text it answers what that lexer does exactly when, wherever a comment could open, the two agree whether it does |
| DigitSeparators.HidesIff | cli/prose.py:142-149 | behind a first separator with no apostrophe to follow it answers no comment, and is right exactly when none opens there |
| DigitSeparators.OneHidden | cli/prose.py:142-149 | a comment it hides |
| DynamicClock.DivFor | brio/avrxt/clock.hpp:578-588 | the prescaler that makes the rate exactly, or none when none does |
| DynamicClock.OneDivider | brio/avrxt/clock.hpp:578-588 | there is one at most |
| DynamicClock.TimebaseCoversIff | brio/avrxt/clock.hpp:637-645 | the timebase covers a microsecond up to 31 MHz and is the least that does |
| DynamicClock.Dynamic.Set | brio/avrxt/clock.hpp:1033-1069 | the rate, its index and the prescaler agree and an unreachable rate changes nothing; the users are told first; CLK_PER runs at the rate named exactly when the source requested is the one running; the timebase covers it behind every write while that source is no faster than the microseconds of the one requested |
| DynamicClock.Dynamic.Fallback | brio/avrxt/clock.hpp:872-922 | a boot that fell back runs at the rate requested |
| DynamicClock.CoversAllIff | brio/avrxt/clock.hpp:1050-1069 | behind every rate that can be set the timebase covers the source that runs exactly when it covers it undivided |
| DynamicClock.BootAtMostIff | brio/avrxt/clock.hpp:872-922 | the boot never passes its final rate, but for a switch made late after it was given up |
| Delay.Cpu.Loops | brio/avrxt/delay.hpp:95-104 | the chunks turn exactly as often as asked |
| Delay.Cpu.Fixed | brio/avrxt/delay.hpp:116-131 | the turns of every slice, each product in its 32 bits and each slice in its 16 |
| Delay.Cpu.Runtime | brio/avrxt/delay.hpp:164-181 | the cycles of both shapes, the short one's products and turns in their 16 bits |
| Delay.Cpu.Dispatch | brio/avrxt/delay.hpp:224-241 | the current index's rate and no other is waited at; past the last index, nothing is |
| Delay.DispatchWaits | brio/avrxt/delay.hpp:224-263 | under a dynamic clock up to 63,999,023 Hz every rate is waited out, for every length |
| Delay.FixedWaits | brio/avrxt/delay.hpp:116-131 | a factor that is not short makes no wait short, for every length |
| Delay.FixedClose | brio/avrxt/delay.hpp:116-131 | and none longer than its factor by more than a turn a slice |
| Delay.RateWaitsIff | brio/avrxt/delay.hpp:106-114 | every length is waited out exactly up to 63,999,023 Hz |
| Delay.RuntimeWaitsIff | brio/avrxt/delay.hpp:140-181 | exactly when a byte of cycles per microsecond is waited out |
| Delay.RuntimeClose | brio/avrxt/delay.hpp:164-181 | below 256 us it is waited out to less than a turn |
| Delay.FoldedWaitsIff | brio/avrxt/delay.hpp:197-214 | a constant length is waited out exactly while its cycles fit 32 bits |
| TimerChoice.TcaTiming | brio/avrxt/tca.hpp:617-631 | the smallest divisor whose rounded-up count fits, and none exactly when none does |
| TimerChoice.PeriodNearest | brio/avrxt/tca.hpp:632-635 | the nearest count to a rate's period |
| TimerChoice.PulseIff | brio/avrxt/tca.hpp:975-980 | a pulse is high for its width, or throughout, exactly when TOP + 1 does not wrap |
| TimerChoice.TcbForUs | brio/avrxt/tcb.hpp:409-422 | a count that lasts as long, but for an odd CLK_PER halved when its rounding does not make up for the half; the least such; none exactly when none fits |
| TimerChoice.ShortIff | brio/avrxt/tcb.hpp:416-422 | an odd CLK_PER halved comes out short exactly when twice the rounding is less than the microseconds |
| TimerChoice.TcbForHz | brio/avrxt/tcb.hpp:423-430 | the nearest count to the rate, or none when none fits |

## Left out

- SpiClientRun.SpiClient.ServeBuffered: the last byte counted is right exactly when its transfer's was not overwritten; that is a fact of the run and no test the caller could make before it.
- Machine.JumpsToTable: its five conditions are each shown needed, but not that a table is lost whenever one fails: another instruction may happen to bound the index.
- JumpTableScan.ReadTable: an image is a map of words, so for a count of zero or less an address is accepted when its own word is in the image.
- CallGraphRuns.WalkSound: one way only; a reported function need not be one some run enters.
- SpiTransaction.Host.Init: the route's pins, and a package without them, are not part of this model.
- SpiTransaction.Host.Start: what each burst sends and stores is SpiHostBurst's; the select's setup delay (Delay.RuntimeWaitsIff) is not counted on the wire; a caller's buffers are values, so their lending is not modelled.
- OpampLadder.WiperFor: a numerator of -32768 and a denominator that is not positive are outside it.
- DynamicClock.Dynamic.Fallback: a boot that finds another oscillator rate in the fuse keeps the reset clock and timebase, whose values are not modelled.
- AdcLabels.AdcMux.Select: the software pace and the select start are single stores with nothing to wait for and are not modelled.
- AdcClock.AdcRate.Init: the rest of the configuration's validity is the caller's.
- DigitSeparators.AgreesIff: C++'s raw strings, spliced lines and header names are in neither of the two lexers, so a text with one may be read as C++ does not.
- CommentSpans.Scan: the regular expressions of check_text are not part of this model.
- the client's normal-mode runs and `answer` in buffer mode (spi.hpp:2042-2150): the first have no count to prove, the second shares the preload and the transmitter's half of the argument.
- `Spi::setup_pins` and `release_pins`, `Spi::init` and the per-bit verbs: register writes over finite tables.
- `Adc::convert`, the PGA and window rules, `opamp_timebase`, the tasks of TCA and TCB beyond their arithmetic, and the EEPROM's byte verbs, a run of one: they would add easy members.
- `describe`, the counts in guard's summary line, its candidates' text, and the ELF and objdump parsing.
- the kernel, the arbiter, inline assembly, CCP keys, analog settling and oscillator start-up times.
