# The SPI-NOR flasher, the coverage folds and the template reconciler, verified

`tools/flash_puck_usb.py` erases, programs and reads back regions of an 8 MiB
SPI-NOR chip over a USB bridge that can die silently in the middle of a session:
from then on every read answers 0x00 with a good status and every write is
ignored. This project models the chip, that fault, and the flasher on top of it,
and proves what a run that returns has done, what no run ever does, and how long
a session must last for a run to return. Two smaller parts model the
branch-coverage folds of `gale-ec/renode/` and the hostapd parser and template
reconciler of `openwisp/build-templates.py`.

## How the flasher is modelled

- `Nor`: the chip as a value: cells, write-enable latch, busy polls, protection
  bits. Erases set bytes to 0xFF; a page program ANDs bytes into one page and
  wraps in it; a busy chip answers status reads only.
- `Bench`: a `World` fixes every choice the hardware makes (the transactions that
  each session's bus survives, USB losses before or after the chip saw a
  transaction, AP bytes before a transaction or between the guard's poll and its
  answer, polls of the AP console that raise, the polls of each wait, each wait's
  deadline in polls, failing bring-ups), so a theorem for all worlds is one for all runs. The class
  `Rig` holds the current `Board`, which also records the memory after every
  transaction: that is how statements about every moment of a run are made.
- `Bridge`, `Sessions`: the classes `SpiBridge` and `Session` with their fields,
  the inline AP guard and the session factory.
- `Planning`, `Region`, `Writing`: erase plan, program chunks, polls, reads and
  `write_region`, as methods with loops proved against functions on memories.
- `Flashing`, `Reading`, `Fmap`, `FmapLayout`, `Plan`, `Flash`, `Boot`: the
  downshifting `flash_region`, the sessioned read, the flash map, the plan,
  `cmd_flash` and the boot verdict.

A world is *quiet* from some transaction on when from then on nothing but the session
budgets can fail, whatever happened before, and *uniform* when each wait then also takes
exactly `slowest` = p polls. A piece or region is
*sound* when "it returned" implies "its data is in the cells". Exceptions are
values: `Fatal` is the program's own FatalError, `Crash` any other exception.

## Main results

1. **Soundness of success.** In every world, if `flash_region` returns, SR2.CMP is
   clear and every 4 KiB sector of the data has a nonzero byte, then the region
   holds the data; if it fails at a minimum-size piece, all the data before that
   piece is stored. No other byte changes at any moment, and on a chip that is
   protected or has CMP set no byte at all (`Flashing.FlashRegion`). With CMP set
   success means less: a blank chip passes, and `Writing.BlankSoundIff` says for
   which data that is unsound.
2. **The nonzero condition is exact.** In a uniform world the outcome is a function
   of the session budgets alone (`Writing.WriteRegion`, `Flashing.FlashRegion`),
   and that function is sound for every choice of death points if and only if
   every sector has a nonzero byte (`Writing.VerifySoundIff`,
   `Flashing.RunSoundIff`, `Flashing.FlashSoundIff`, `Flashing.BudgetsHappen`).
   An all-zero sector fails as follows: the session dies right after the erase,
   WREN, page programs and polls "succeed" against zeros, and so does the
   read-back. `Flashing.RunEscapes` builds the budgets for any such data.
3. **Exact cost and progress.** n sectors cost exactly
   2 + n(5+p) + 80n(2+p) + ceil(4096n/62) transactions whenever the bus outlives the
   program loop, and it does in every successful write of data with a nonzero byte.
   In a quiet world sessions that last two RDIDs plus the cost of one sector are
   enough for any region and any plan.
4. **Sessions.** n sectors open at most 2n-1 sessions, one at a time, and each is
   torn down on every path. Sessions that last a piece flash n bytes in
   ceil(n / 0x180000) of them. The downshift halves: when the first session on a piece
   of 2m or 2m-1 sectors fails and the next two last m sectors each, these three
   flash it (`Flashing.Do`, `Flashing.FlashRegion`).
5. **RO-last, and exactly when.** At every moment of every run of `cmd_flash`, failed
   or not, if a byte of the rounded GBB span has changed then each RW span without
   an all-zero sector holds the image (`Flash.RoLast`); nothing is asked of GBB
   itself, nor of the chip. If an RW span has an all-zero sector, some world with
   nothing but dying sessions flashes GBB over that unwritten span and returns
   (`Flash.RoLastFails`, `Flash.PlanSoundIff`). In every run nothing outside the plan
   changes, and without `--allow-ro` nothing below 4 MiB (`Flash.NothingBelowGuard`).
   The exit code is stated by the markers in the boot log (`Flash.CmdFlash`).
6. **Planning.** Erase plans tile their range; program chunks cut the data at page
   and payload boundaries; executing both gives exactly the data. An FMAP at the
   conventional offset parses back whatever surrounds it. A planned span is flashed
   in full exactly if it ends inside the chip (`Flash.SourceWhole`). The neighbour test of
   `flash_plan` refuses, for nonempty areas, exactly the overlapping plans.
7. **AP guard, per session.** From an AP byte to the guard's error at most
   `abort_every` transactions are answered, and at most `abort_every` - 1 of them began
   after the byte, wherever between two polls it lands
   (`Bridge.SpiBridge.Transact`); the bound is reached, for every `abort_every`
   (`Bridge.LateByte`). The error ends the session. It ends the run exactly if the
   piece has minimum size: a larger region goes on in fresh sessions, and returns with
   its data stored if they are calm and last (`Flashing.FlashRegion`,
   `Flashing.Overheard`).
8. **Coverage.** The streaming fold and the edge-collecting fold agree exactly when
   no branch whose target is its own fall-through was executed into its
   successor; after any runs the cache is what the traces show since the last fresh
   start, so accumulation does not depend on order or splitting. A hostapd
   configuration written from sections parses to exactly what was written.
9. **Reconciler.** A run finishes unless a stated condition fails, and then every
   device has exactly the templates it should, by name; nothing else is attached and
   nothing else comes off; a second run changes nothing; renames keep rows; no key
   line is lost.

## Model

| member | source | states |
|---|---|---|
| Bytes.AndErased | tools/flash_puck_usb.py:531-537 | programming an erased (0xFF) cell by AND stores the byte itself |
| Bytes.AndIsBitwise | tools/flash_puck_usb.py:531-537 | a bit of the AND is set exactly if it is set in both bytes, so programming only clears bits |
| Bytes.AddrOfAddr3 | tools/flash_puck_usb.py:130-131 | the three address bytes of a command decode to the low 24 bits of any address |
| Nor.StatusBits | tools/flash_puck_usb.py:70-75 | the WIP, WEL and BP/TB masks of SR1 read back exactly the chip's busy state, latch and protection |
| Nor.BurnStaysInPage | tools/flash_puck_usb.py:531-537 | a page program, wrapping or not, changes no cell outside its 256-byte page |
| Nor.BurnWithoutWrap | tools/flash_puck_usb.py:531-537 | a program that does not cross its page ANDs each byte into its own cell and touches no other |
| Bridge.SpiBridge.Transact | tools/flash_puck_usb.py:426-459 | exactly rcount bytes or an error, one delivery at most, no retry; size errors before anything is sent; the guard's refusals, and nothing else, raise its two errors; after an AP byte at most abort_every transactions are answered, fewer than that begun after it |
| Bridge.SpiBridge.AbortCheck | tools/flash_puck_usb.py:941-950 | the guard raises its FatalError exactly for a waiting byte that it can read, and another exception exactly if the console read fails |
| Bridge.SpiBridge.Poll | tools/flash_puck_usb.py:434-435 | only every abort_every-th transaction polls; 0 is a division by zero; a refusal leaves the board as it was or one transaction later |
| Bridge.GuardStep | tools/flash_puck_usb.py:432-435 | one more answered transaction keeps both bounds, wherever the byte lands |
| Bridge.LateByte | tools/flash_puck_usb.py:432-435 | for every abort_every = k, a byte just after the poll of transaction k is followed by k answers, and transaction 2k aborts |
| Bridge.SpiBridge.Arm | tools/flash_puck_usb.py:1065 | installing abort_every leaves the transaction count alone and starts the exposure at zero |
| Sessions.Settle | tools/flash_puck_usb.py:1008-1018 | two RDIDs around the installation of the guard; with two smooth transactions it succeeds exactly on a budget of two |
| Region.CheckRdid | tools/flash_puck_usb.py:476-481 | success means that the bus was alive and nothing changed; a live bus with an idle chip succeeds |
| Region.ReadSr | tools/flash_puck_usb.py:484-487 | two transactions; each register reads its value or, on a dead bus, zero |
| Region.WaitWipClear | tools/flash_puck_usb.py:540-550 | it returns after at most wip + 1 polls; if all polls were answered, exactly then, with the chip idle and the latch dropped; an answered wait that outlasts the deadline fails, and no other wait is called stuck |
| Region.SendRead | tools/flash_puck_usb.py:499-500 | a read of up to 62 cells at any address fits the transfer limits and returns the cells while the bus lives, zeros after |
| Region.AnswersCells | tools/flash_puck_usb.py:499-500 | an idle chip answers READ with exactly the addressed cells, starting over past its end, and READ changes no chip |
| Region.ReadBackAppend | tools/flash_puck_usb.py:499-501 | chunks read one after the other keep: byte j came with transaction j/62, a cell if the bus still lived then, else zero |
| Region.ReadRegion | tools/flash_puck_usb.py:493-509 | for any range, exactly length bytes in ceil(length/62) transactions, each one the cell or, from the bus's death on, zero; never a size error |
| Region.EraseEffect | tools/flash_puck_usb.py:576 | a self-aligned erase command blanks exactly its entry on a latched, unprotected chip and does nothing otherwise |
| Region.EraseStartsOver | tools/flash_puck_usb.py:576 | past the chip's end an erase starts over at its beginning: why regions must end inside the chip |
| Region.Latch | tools/flash_puck_usb.py:571-575 | if the WEL check passes, the bus answered WREN and the status read, and the latch is set |
| Region.Diagnose | tools/flash_puck_usb.py:585-598 | the ERASE NO-OP report says "responds" exactly when the bus was alive at the diagnosis |
| Region.CheckBlank | tools/flash_puck_usb.py:578-598 | success means a live bus; the chip is blamed only when the bus is alive and the entry's first 62 cells are not blank |
| Region.EraseEntry | tools/flash_puck_usb.py:568-598 | a pass that succeeds was answered completely; an obeying chip has blanked its entry at 5 + p and is never blamed for a no-op; an ignoring one passes unchanged, at six, if it is blank there |
| Region.EraseNext | tools/flash_puck_usb.py:568-598 | one turn of the erase loop keeps: everything so far was answered, and the blank memory and cost are those of the entries so far |
| Region.ErasePhase | tools/flash_puck_usb.py:568-598 | an erase loop that ends was answered completely and leaves the plan's blank memory at n(5+p), or an ignoring chip's memory as it was at 6n |
| Region.ProgramEffect | tools/flash_puck_usb.py:605-607 | a chunk's command programs exactly its cells on a latched, unprotected chip and does nothing otherwise |
| Region.ProgramSent | tools/flash_puck_usb.py:605-607 | WREN and the page program change the cells exactly if both are answered and the chip obeys |
| Region.ProgramEntry | tools/flash_puck_usb.py:604-608 | a chunk is stored exactly if the bus answers both of its commands and the chip obeys; the pass cannot tell, and succeeds on a dead bus too |
| Region.ProgrammedStep | tools/flash_puck_usb.py:604-608 | each pass keeps: the stored chunks are a prefix, all of them while the bus lives, decided by the budget in a uniform world |
| Region.ProgramNext | tools/flash_puck_usb.py:604-608 | one turn of the program loop keeps what is stored and what it cost |
| Region.ProgramPhase | tools/flash_puck_usb.py:601-608 | after the program loop a prefix of the chunks is stored, all of them exactly if the session lasted to its last page program |
| Planning.ErasePlan | tools/flash_puck_usb.py:512-528 | refused exactly when unaligned; else self-aligned entries that tile the range, block-sized exactly where allowed, aligned and fitting |
| Planning.TileBounds | tools/flash_puck_usb.py:512-528 | every entry of a plan starts inside the range |
| Planning.PlanErasesRange | tools/flash_puck_usb.py:512-528 | executing a plan, in either mode, blanks exactly the range |
| Planning.ProgramChunks | tools/flash_puck_usb.py:531-537 | nonempty chunks in order, each a piece of the data in its place, in one page, at most 58 bytes, and as long as that permits |
| Planning.ChunksJoin | tools/flash_puck_usb.py:531-537 | the chunks concatenate to the data |
| Planning.ChunkPosition | tools/flash_puck_usb.py:531-537 | chunks of a page-aligned range start at 0, 58, 116, 174 and 232 in each page |
| Planning.ChunkCount | tools/flash_puck_usb.py:531-537 | a sector-aligned range takes exactly 80 chunks per sector |
| Planning.ProgramBlank | tools/flash_puck_usb.py:604-608 | on blank cells a chunk inside one page is stored as it is |
| Planning.ProgramPrefix | tools/flash_puck_usb.py:601-608 | programming the first k chunks over blank cells stores exactly that prefix of the data |
| Planning.EraseThenProgram | tools/flash_puck_usb.py:562-608 | erase plan (either mode) plus chunks leave the data in the range and everything else unchanged |
| Writing.NonzeroLength | tools/flash_puck_usb.py:616-618 | the data without its trailing zeros, the part of a read-back that needs a live bus |
| Writing.VerifySoundIff | tools/flash_puck_usb.py:560-625 | returning implies storage for every session budget if and only if the data has a nonzero byte |
| Writing.ReadBackNeeds | tools/flash_puck_usb.py:616-618 | with the data in the cells, the read-back matches if and only if the bus lives to the last nonzero byte |
| Writing.MismatchFound | tools/flash_puck_usb.py:618-622 | on a bus that outlives the read-back, the reported address is the first cell that differs from the source |
| Writing.Verify | tools/flash_puck_usb.py:616-624 | success means that the read-back of the data is the data; the length-mismatch error is unreachable; a reported address is the first mismatch |
| Writing.CheckProtection | tools/flash_puck_usb.py:558-560 | a live bus passes exactly an unprotected chip; a protected chip passes only on a dead bus |
| Writing.EraseRegion | tools/flash_puck_usb.py:557-598 | if status check, plan and erase loop end, the chip is unprotected and the bus lived through it; an obeying chip's range is blank, at 2 + n(5+p); a blank chip with CMP set passes too |
| Writing.EraseEnds | tools/flash_puck_usb.py:557-598 | status check and erase loop together: memory, budget and cost |
| Writing.ProgramEnds | tools/flash_puck_usb.py:601-608 | the program loop stores the data exactly when the session lasted all but the last wait of its 80n(2+p); otherwise the last cell is still 0xFF |
| Writing.ReadBackMatches | tools/flash_puck_usb.py:601-618 | after the program loop the read-back matches exactly when the bus still lives to the last nonzero byte |
| Writing.BudgetDecides | tools/flash_puck_usb.py:601-618 | the same in terms of the budget before the program loop; a match of nonzero data implies storage |
| Writing.MatchIsAlive | tools/flash_puck_usb.py:616-618 | a read-back with a nonzero byte matches only if that byte came from a live bus |
| Writing.ProgramAndVerify | tools/flash_puck_usb.py:601-625 | over blank cells: sound for data with a nonzero byte, exact cost, and in a uniform world returning and storing are decided by the budget; on a chip that ignores programs it returns exactly if the data is what the dying bus shows |
| Writing.BlankShows | tools/flash_puck_usb.py:616-623 | what a blank chip with CMP set lets pass is not stored exactly if the data is 0xFF for a number of whole reads and zero from there on |
| Writing.BlankSoundIff | tools/flash_puck_usb.py:558-560 | on such a chip, which passes the status check, a return means storage for every budget if and only if the data is not of that form |
| Writing.WriteEnds | tools/flash_puck_usb.py:553-625 | the phases together give the guarantee of write_region |
| Writing.WriteRegion | tools/flash_puck_usb.py:553-625 | only the region changes, at any moment, and nothing on a chip that is protected or has CMP set; a protected chip is refused; success with a nonzero byte is sound with CMP clear, and the budget covered every erase, program and poll; exact cost for any data when the bus outlives the program loop; enough budget returns; in a uniform world, and on a blank chip with CMP set, the budget decides the outcome |
| Sessions.Session.BringUp | tools/flash_puck_usb.py:952-1019 | a session that comes up has spent two transactions of its budget on a live bus, has an armed guard and an idle chip, and changed no cell |
| Sessions.Session.Teardown | tools/flash_puck_usb.py:1021-1039 | one session fewer is open, its bus is gone, and chip and history are as they were |
| Sessions.NewSession | tools/flash_puck_usb.py:1050-1067 | one session is begun; it is up with abort_every installed, or it is torn down and the error is the bring-up's |
| Flashing.HalfSplits | tools/flash_puck_usb.py:687-691 | both halves are nonempty, 4 KiB-aligned and strictly smaller, their sectors add up, and they are equal or the first is one sector larger |
| Flashing.Attempt | tools/flash_puck_usb.py:674-683 | one session per attempt, torn down on every path; outcome and stored data as in write_region, two RDIDs later; a guard that refuses the first transaction is the outcome |
| Flashing.Do | tools/flash_puck_usb.py:674-691 | one piece with its downshift: sound, framed, at most 2n-1 sessions one at a time, prefix stored when it fails; a FatalError in its first session ends it exactly if it has minimum size; one session if that lasts the piece, and three in all if the first fails and the next two last half of its sectors each, rounded up; returns on sector-long sessions; follows the run function |
| Flashing.Retry | tools/flash_puck_usb.py:683-691 | a minimum-size piece is given up with its address and cause and nothing more happens; a larger one opens another session and has its halves' outcome |
| Flashing.Halves | tools/flash_puck_usb.py:690-691 | both halves returned means that the whole piece is stored; two sessions if each lasts its half; the first failure ends it with the data before it stored |
| Flashing.HandlerLasts | tools/flash_puck_usb.py:683-691 | after a failed session on 2m or 2m-1 sectors, two sessions that last m sectors each are enough for the halves |
| Flashing.PrefixJoins | tools/flash_puck_usb.py:690-691 | a stored first half and a stored prefix of the second are a stored prefix |
| Flashing.BothHalves | tools/flash_puck_usb.py:690-691 | frame, session count and soundness of the two calls are those of the piece |
| Flashing.RunSound | tools/flash_puck_usb.py:674-691 | with a nonzero byte in every sector, a downshifting run that returns has stored its data, for all death points |
| Flashing.RunEscapes | tools/flash_puck_usb.py:674-691 | for any data with an all-zero sector there are death points after which the run returns without the data being stored |
| Flashing.RunSoundIff | tools/flash_puck_usb.py:674-691 | the downshift of one piece is sound for every choice of death points if and only if every sector has a nonzero byte |
| Flashing.RunLocal | tools/flash_puck_usb.py:663-695 | a run depends only on the budgets of the sessions it opens |
| Flashing.RunProgress | tools/flash_puck_usb.py:663-695 | if every session lasts the cost of one sector, the downshift returns |
| Flashing.SectorIsEnough | tools/flash_puck_usb.py:493-509 | one sector costs 2 + 2 + (5+p) + 80(2+p) + 67 with its bring-up |
| Flashing.RunSessions | tools/flash_puck_usb.py:674-691 | a piece of n sectors takes at most 2n-1 sessions |
| Flashing.FlashSoundIff | tools/flash_puck_usb.py:663-695 | flash_region is sound for every choice of death points if and only if every 4 KiB sector of the data has a nonzero byte |
| Flashing.RunAllProgress | tools/flash_puck_usb.py:663-695 | the whole region returns on sector-long sessions |
| Flashing.RunAllSessions | tools/flash_puck_usb.py:663-695 | a region of n sectors takes at most 2n-1 sessions, over all its pieces |
| Flashing.RunAllEscapes | tools/flash_puck_usb.py:663-695 | the death points that defeat verification, for the whole region |
| Flashing.BudgetsHappen | tools/flash_puck_usb.py:628-635 | every assignment of budgets to sessions, with any p, is that of a world in which nothing else fails |
| Flashing.LinkStep | tools/flash_puck_usb.py:693-695 | each piece of the region keeps: what is stored so far and the rest of the run decide the whole run |
| Flashing.LoopStep | tools/flash_puck_usb.py:693-695 | each piece of the region keeps the guarantee of the whole: frame, sessions, stored prefix, the first session's part, and the rest of the run |
| Flashing.CountStep | tools/flash_puck_usb.py:693-695 | each piece of the region keeps the session counts of the whole |
| Flashing.PieceNumber | tools/flash_puck_usb.py:693-695 | the pieces start at the multiples of 0x180000, are at most 384 sectors long, and the last one ends the region |
| Flashing.CrashIff | tools/flash_puck_usb.py:683 | in a quiet world whose sessions come up, the run ends with an exception other than a FatalError if and only if abort_every is 0 |
| Flashing.Overheard | tools/flash_puck_usb.py:674-691 | an input for any region of more than one sector: the guard hears the AP in the first session, and the region is flashed all the same |
| Flashing.FlashRegion | tools/flash_puck_usb.py:663-695 | refused when unaligned with nothing done; else sound, framed at every moment, at most 2n-1 sessions one at a time and all torn down; ceil(n / 0x180000) sessions for n bytes if each lasts a piece, and three for a single piece whose first session fails and whose next two last half of its sectors; fails only at a minimum-size piece with everything before it stored, or by an exception from one of three causes; the first session's FatalError ends the run exactly if the region is one sector; progress; in a uniform world exactly the run function |
| Reading.ReadRegionSessioned | tools/flash_puck_usb.py:646-660 | for any range and positive piece size, in every world, a result is exactly what the sessions' budgets let through: cells, and silent zeros from each bus's death on; never writes, one session at a time, each torn down; returns on any chip if every session it opens comes up |
| Reading.ReadRunLasts | tools/flash_puck_usb.py:646-660 | if each session it opens outlives its piece, the sessioned read is exactly the cells, as the plain one |
| Reading.ReadPiece | tools/flash_puck_usb.py:651-656 | one piece in one session: the cells that its budget covers and zeros after them |
| Reading.LiveReadIsExact | tools/flash_puck_usb.py:493-509 | a bus that outlives a read delivers exactly the cells, memory[offset..offset+length] inside the chip |
| Fmap.ParseFmap | tools/flash_puck_usb.py:698-739 | the sane map at 0x300000, else the first sane one, else none |
| Fmap.ParseAt | tools/flash_puck_usb.py:711-735 | a signature is accepted exactly if its header and bounded table are sane, with exactly the table's areas |
| Fmap.ReadTable | tools/flash_puck_usb.py:722-733 | all records or none; a later record replaces a namesake |
| Fmap.Find | tools/flash_puck_usb.py:707 | the first signature at or after the start |
| Fmap.FmapUnique | tools/flash_puck_usb.py:698-739 | that description determines the result |
| Fmap.FmapExists | tools/flash_puck_usb.py:698-739 | and there is one for every image |
| Fmap.CStringIs | tools/flash_puck_usb.py:712-728 | a name is everything before its field's first zero byte |
| Fmap.HeaderIff | tools/flash_puck_usb.py:708-721 | in the bytes of the image: a signature is taken up exactly if a map name of 1 to 32 printable bytes, 1 to 255 areas and a total of 1 byte to 256 MiB follow it, and skipped otherwise |
| Fmap.DictLast | tools/flash_puck_usb.py:733 | a dictionary filled by a loop has each key with the value that came last |
| Fmap.DictHas | tools/flash_puck_usb.py:733 | and no other keys |
| Fmap.SaneIff | tools/flash_puck_usb.py:708-735 | a map is accepted exactly if its header is, all its records fit, and the last record of each name ends within the total |
| Fmap.AsciiIff | tools/flash_puck_usb.py:728 | a decoded name equals an ASCII name only if it has its very bytes: one with a byte above 0x7F is never a region's name |
| FmapLayout.HeaderDecodes | tools/flash_puck_usb.py:711-721 | an encoded header decodes to its total and count and is sane |
| FmapLayout.EntryDecodes | tools/flash_puck_usb.py:727-728 | an encoded record decodes to its offset, size and name |
| FmapLayout.LayoutIsSane | tools/flash_puck_usb.py:698-735 | an encoded flash map with distinct names is sane and yields exactly its dictionary |
| FmapLayout.FmapRoundTrip | tools/flash_puck_usb.py:698-739 | a map written at 0x300000 parses back to exactly its areas, whatever the other bytes of the image are |
| Plan.CoverIsLeast | tools/flash_puck_usb.py:1134-1140 | the rounded span is the least 4 KiB-aligned cover of its area |
| Plan.SortBySorts | tools/flash_puck_usb.py:1142-1148 | the sorts return sorted permutations |
| Plan.SortedUnique | tools/flash_puck_usb.py:1147-1148 | a list with distinct keys has one sorted arrangement |
| Plan.NeighboursSuffice | tools/flash_puck_usb.py:1143-1145 | if neighbours in offset order are apart, all pairs are |
| Plan.OverlapTest | tools/flash_puck_usb.py:1142-1145 | the neighbour test passes only if no two spans share a byte, and always then if the spans are nonempty |
| Plan.FindOverlap | tools/flash_puck_usb.py:1143-1145 | the first span that starts before its predecessor's end, if there is one |
| Plan.OrderRestored | tools/flash_puck_usb.py:1146-1148 | the second sort undoes the first: the covers in FLASH_ORDER |
| Plan.PlanOf | tools/flash_puck_usb.py:1128-1149 | the covers in FLASH_ORDER, or the first missing region, or the first overlapping span |
| Plan.FlashPlan | tools/flash_puck_usb.py:1121-1149 | the outcome for every image: wrong size, no map, or the plan of its one map |
| Plan.PlanRefusedIff | tools/flash_puck_usb.py:1142-1145 | an accepted plan has no shared byte; for nonempty areas it is refused if and only if two covers share a byte |
| Plan.PlanInChip | tools/flash_puck_usb.py:1121-1149 | a map whose total is at most 8 MiB gives spans inside the chip |
| Flash.FlashedStep | tools/flash_puck_usb.py:1168-1170 | flashing the next span keeps, at every moment: only planned bytes change, and a span changes only when every span before it without an all-zero sector is written |
| Flash.WrittenStays | tools/flash_puck_usb.py:1168-1170 | flashing a span leaves an earlier one written or unwritten as it was |
| Flash.SpanStep | tools/flash_puck_usb.py:1168-1170 | one more span keeps the guarantee of the loop: frame, order, where a failure is and what is stored before it, progress, and the run function |
| Flash.StillInOrder | tools/flash_puck_usb.py:1168-1170 | where no cell ever changes, nothing is out of order |
| Flash.SourceWhole | tools/flash_puck_usb.py:1170 | the image slice has all of a span's bytes if and only if the span is empty or ends inside the chip; one that reaches past the chip has the image's rest |
| Flash.WrittenWhole | tools/flash_puck_usb.py:1168-1170 | a written span inside the chip holds all of its bytes |
| Flash.OutsideIsVacuous | tools/flash_puck_usb.py:1170 | of a span past the chip nothing is flashed and nothing is checked |
| Flash.PastTheChip | tools/flash_puck_usb.py:1121-1149 | an image that flash_plan accepts with its GBB past the chip, of which no byte is flashed |
| Flash.RunPlanSound | tools/flash_puck_usb.py:1168-1170 | whenever the plan returns, a span without an all-zero sector is stored |
| Flash.RunPlanEscapes | tools/flash_puck_usb.py:1168-1170 | for any span with an all-zero sector there are death points after which the plan returns with exactly that span not stored |
| Flash.PlanSoundIff | tools/flash_puck_usb.py:1166-1170 | the first n spans are stored after every returning run, whatever the death points, if and only if none of them has an all-zero sector |
| Flash.CheckReadOnly | tools/flash_puck_usb.py:1162-1165 | passes exactly with --allow-ro or when all spans are above 4 MiB; else names the first that is not |
| Flash.CmdFlash | tools/flash_puck_usb.py:1152-1176 | the plan's refusals and a dry run touch nothing; every moment keeps frame and order; success means every span without an all-zero sector holds its image slice, all its bytes if it ends inside the chip; a failure is at one span, with the spans before it written; sector-long sessions suffice; in a uniform world the budgets decide the outcome; when all is flashed the result is 0 without a boot check, verify_boot's exception if it raises, and else 2 exactly if a bad marker is in the log, 0 exactly if only good ones are, 3 exactly if none is |
| Flash.VerdictIsExitCode | tools/flash_puck_usb.py:1172-1176 | the exit code by the markers in the boot log |
| Flash.RoLast | tools/flash_puck_usb.py:65-68 | at every moment of every run, on any chip, a changed byte in the GBB span implies that each RW span without an all-zero sector already holds the image, whatever GBB holds |
| Flash.RoLastFails | tools/flash_puck_usb.py:65-68 | if an earlier span has an all-zero sector and the chip's last span differs from the image, in some world with nothing but dying sessions every run returns with the last span changed and the earlier one not written |
| Flash.NothingBelowGuard | tools/flash_puck_usb.py:1162-1165 | without --allow-ro no byte below 0x400000 ever changes |
| Boot.SlotIsLast | tools/flash_puck_usb.py:765-771 | the slot is that of the marker that occurs last, and none exactly if no marker occurs |
| Boot.VerdictByMarkers | tools/flash_puck_usb.py:750-780 | BAD exactly if one of the four bad markers is in the log, GOOD exactly if one of the three good ones is and no bad one, UNDECIDED exactly if none is; the capture is decided exactly by a verdict |
| Boot.VerdictMonotone | tools/flash_puck_usb.py:774-780 | as the capture grows the verdict only rises in UNDECIDED < GOOD < BAD, with NULs stripped |
| Boot.StripJoins | tools/flash_puck_usb.py:908 | stripping NULs commutes with how the log was chunked |
| Boot.StripExact | tools/flash_puck_usb.py:897 | stripping leaves no NUL and takes nothing else |
| Boot.NulsIgnored | tools/flash_puck_usb.py:897 | a NUL anywhere in the log makes no difference |
| Boot.ReadUntil | tools/flash_puck_usb.py:890-899 | reading stops at the first read after which the stripped log decides, or at the deadline when none did |
| Boot.Capture | tools/flash_puck_usb.py:890-909 | the text is all that was read; a decisive stop never ends UNDECIDED; a stop at the deadline means that no prefix was decisive |
| Coverage.EdgeLog.FoldEdges | gale-ec/renode/coverage_captured.py:368-387 | adds exactly the trace's program counters and its directly consecutive pairs |
| Coverage.DirectionLog.FoldTrace | gale-ec/renode/coverage_full.py:315-334 | adds exactly the counters and the directions that the trace's edges define, less the fall-throughs of branches to their own successor |
| Coverage.DirectionsStep | gale-ec/renode/coverage_full.py:325-333 | one more line adds exactly the direction that its edge takes |
| Coverage.CollectEdges | gale-ec/renode/coverage_captured.py:429-431 | the start plus the union over all scenarios |
| Coverage.StreamDirections | gale-ec/renode/coverage_full.py:350-360 | over all files, the streaming fold computes executed, taken and (less those fall-throughs) nottaken as edge membership defines them |
| Coverage.StreamAgreesIff | gale-ec/renode/coverage_captured.py:443-444 | the two algorithms agree if and only if no branch whose target is its fall-through was executed into it |
| Coverage.DirectionsOfUnion | gale-ec/renode/combine_coverage.py:114-119 | directions of a union of edges are the unions of the directions |
| Coverage.RunMain | gale-ec/renode/coverage_captured.py:412-433 | an invocation that does not reuse a cache saves exactly what its own traces show and, with --only, what the cache holds; a full run keeps nothing of the cache; with --reuse it takes the cache as it is |
| Coverage.CacheContains | gale-ec/renode/coverage_captured.py:414-433 | after any runs the cache holds exactly what some trace shows of a folding run since the last one that started afresh |
| Coverage.SplitIndependent | gale-ec/renode/coverage_captured.py:414-433 | any order, splitting and repetition of the same traces, and any runs before a fresh start, leave the same cache |
| Coverage.CacheClosed | gale-ec/renode/coverage_captured.py:368-387 | in every cache both ends of every edge are executed |
| Coverage.CombinedClosed | gale-ec/renode/combine_coverage.py:114-115 | the union over all sources keeps that |
| Coverage.CombinedContains | gale-ec/renode/combine_coverage.py:114-115 | the combination has exactly the counters and edges that some source has |
| Coverage.BothIff | gale-ec/renode/combine_coverage.py:114-126 | a branch counts as covered both ways exactly if some source has the edge to its target and some source the edge to its fall-through |
| Coverage.StatesExact | gale-ec/renode/combine_coverage.py:218-223 | the five states partition the branches and mean what they say: no observed direction is called unreached |
| Coverage.CombinedCoversMore | gale-ec/renode/combine_coverage.py:123-126 | no source alone covers more branches both ways than the combination |
| Hostapd.CollectExact | openwisp/build-templates.py:126-141 | each pair comes from one bss section, the last that contributes the SSID, and each such section is heard |
| Hostapd.SplitLinesExact | openwisp/build-templates.py:129 | lines without line breaks, written one after the other, are split back exactly |
| Hostapd.SplitUnbroken | openwisp/build-templates.py:129 | no line that splitlines returns has a line break in it |
| Hostapd.StripExact | openwisp/build-templates.py:130 | strip takes off all the whitespace around a line and nothing else |
| Hostapd.SplitAtEnd | openwisp/build-templates.py:129 | every line end that splitlines knows ends a line, CR LF as one |
| Hostapd.ValueExact | openwisp/build-templates.py:136-138 | a value is everything after the prefix, any further = included |
| Hostapd.LastValueAt | openwisp/build-templates.py:128-138 | a section's last line with the prefix, by position, is the prefix and the section's value; without one the value is empty |
| Hostapd.ParseHostapd | openwisp/build-templates.py:126-141 | for any text, the last ssid and last passphrase of each section with both, later sections winning |
| Hostapd.WrittenSections | openwisp/build-templates.py:131-134 | a configuration written from sections is cut at its bss= lines into exactly these sections |
| Hostapd.ParseWritten | openwisp/build-templates.py:126-141 | a configuration written from sections, indented or not and with any other lines, parses to exactly the written pairs, a later section replacing an earlier one |
| Reconcile.UpsertMakes | openwisp/build-templates.py:652-700 | after a finished upsert exactly one row has the name; it is what was asked for and passed full_clean |
| Reconcile.UpsertKeeps | openwisp/build-templates.py:652-700 | an upsert, finished or not, changes, adds and removes no row of another name |
| Reconcile.SpecStays | openwisp/build-templates.py:652-700 | an upsert keeps the templates that already hold, in their rows |
| Reconcile.IdsDistinct | openwisp/build-templates.py:652-712 | the script's five templates and the SSH Keys template are six different rows, and mesh is no default |
| Reconcile.SshMakes | openwisp/build-templates.py:707-723 | the one SSH Keys row has every admin key, keeps every nonblank line first and in order, gains nothing but keys, and no other file and no other row changes |
| Reconcile.AttachMakes | openwisp/build-templates.py:736-761 | attaching one device keeps the other devices as wanted |
| Reconcile.AttachAllMakes | openwisp/build-templates.py:736-761 | every registered device has what it wants and nothing it must not have; the mesh template stays on no device |
| Reconcile.IdsAreNamed | openwisp/build-templates.py:652-712 | each of the five names has one row, with the configuration and default values that belong to it, and these rows and the SSH Keys row are the ones the script works with |
| Reconcile.SettledIntends | openwisp/build-templates.py:636-762 | by template names: every registered device of the list has ansells-aps-base and the SSH Keys row, tenwrt has ansells-aps-tenwrt and neither ansells-aps-puck nor ansells-presence, every other has these two, and no device has ansells-aps-mesh |
| Reconcile.ScriptSettles | openwisp/build-templates.py:636-762 | a finished run leaves all templates, keys and attachments as asked, with mesh attached to nothing and neither puck nor presence on tenwrt |
| Reconcile.SettledIsFixed | openwisp/build-templates.py:636-762 | a settled database is a fixed point of the script |
| Reconcile.Idempotent | openwisp/build-templates.py:636-762 | a second run changes nothing |
| Reconcile.ScriptFinishes | openwisp/build-templates.py:636-762 | a run finishes if full_clean accepts everything, no name is ambiguous, and one SSH Keys row with files is there that the script does not overwrite |
| Reconcile.RenamesUnambiguous | openwisp/build-templates.py:639-648 | a run that finishes found at most one row to rename for each old name |
| Reconcile.ValuesKept | openwisp/build-templates.py:652-700 | default values that were set on the base or presence template survive the run |
| Reconcile.RenameKeepsRow | openwisp/build-templates.py:632-650 | a template with one of the three old names, when the new name is free, ends as the same row under its new name |
| Reconcile.RenameBlocked | openwisp/build-templates.py:641-645 | when both names exist, the rows with the old one are left alone |
| Reconcile.AttachmentsKept | openwisp/build-templates.py:684-761 | a run ends no attachment but the mesh template's and, on tenwrt, the puck and presence templates' |
| Reconcile.NothingElseAttached | openwisp/build-templates.py:736-757 | a run attaches nothing but the wanted templates to the listed devices that are registered, and the default ones to a config it creates |
| Reconcile.NewConfigHasDefaults | openwisp/build-templates.py:741 | a device without a config gets one, with every default template on it |
| Reconcile.KeyLinesKept | openwisp/build-templates.py:702-723 | over the whole run the SSH Keys template's files keep all their nonblank lines, in order, and gain nothing but keys |
| Reconcile.AppendMissing | openwisp/build-templates.py:717-720 | appends exactly the missing keys, in order and once, and reports whether there were any |
| Reconcile.MergeIdle | openwisp/build-templates.py:718-720 | merging leaves the lines alone exactly when no key is missing |
| Reconcile.MergeFileHasKeys | openwisp/build-templates.py:714-721 | after a merge every key is a line of the rewritten text, behind all nonblank lines of the old one; another file is not touched |
| Reconcile.MergedLines | openwisp/build-templates.py:717-721 | the rewritten file reads back as exactly the merged lines |
| Reconcile.MergeKeysNew | openwisp/build-templates.py:718-720 | an appended key was not among the lines before it |
| Reconcile.MergeKeysOrder | openwisp/build-templates.py:718-720 | keys are appended in the order in which the list first names them |
| Reconcile.NonBlankJoins | openwisp/build-templates.py:717 | dropping blank lines keeps the order of the others |
| Reconcile.KeysStayIff | openwisp/build-templates.py:717-721 | every file has every key as a line after a merge if and only if each key is one nonblank line |
| Reconcile.BrokenKeyGrows | openwisp/build-templates.py:717-721 | a key of two lines is split by the next run and appended again |
| Reconcile.MergeFiles | openwisp/build-templates.py:714-721 | merges every authorized_keys file and no other; changed exactly if one lacked a key |
| Reconcile.Controller.RenameTemplates | openwisp/build-templates.py:636-650 | the rename loop is the rename function, aborting where it aborts, a full_clean that fails included |
| Reconcile.Controller.UpdateOrCreate | openwisp/build-templates.py:652-657 | exactly one row has the name and it is what was asked for, no row of another name is touched; aborts on duplicates, and on a failing full_clean with the row saved |
| Reconcile.Controller.DetachFromAll | openwisp/build-templates.py:687-688 | the template comes off every config and nothing else changes |
| Reconcile.Controller.MergeSshKeys | openwisp/build-templates.py:707-723 | fatal unless there is exactly one row with files; every key is there, no line is lost, no other row changes; an abort changes nothing |
| Reconcile.Controller.AttachDevices | openwisp/build-templates.py:736-761 | the attach loop is the attach function, skipping unregistered names and aborting, with the attachments saved, where full_clean fails |
| Reconcile.Controller.Run | openwisp/build-templates.py:636-762 | the running script computes the script function, and a run that ends has settled the database, by rows and by template names |

## Where the code and its documentation differ

- `write_region`'s text speaks of 64 KiB block erases; it calls `erase_plan`
  without `use_block`, so only sectors are erased. Both modes are proved equal.
- `write_region` says that every step fails loudly. The program loop does not: on a
  dead bus it succeeds (`Region.ProgramEntry`), and only the read-back can notice,
  which it cannot for all-zero data (`Writing.VerifySoundIff`).
- `write_region` reads SR2 but refuses on SR1 alone. With CMP set the chip ignores
  erases and programs, and on a blank chip every check before the read-back passes;
  the read-back of 0xFF and then zeros matches a bus that dies in time
  (`Writing.BlankSoundIff`).
- The comment on FLASH_ORDER says that an interrupted flash never leaves a valid RO
  block beside a half-written RW slot. An RW slot with an all-zero sector can be left
  unwritten and GBB flashed after it, with no error (`Flash.RoLastFails`).
- The AP guard is to abort loudly on an AP byte. Its FatalError is caught by
  `flash_region` like any other: it ends the run exactly if the piece has minimum
  size, and otherwise one session (`Flashing.FirstOutcome` in the contract of
  `Flashing.Do`; `Flashing.Overheard` is an input).
- `flash_region` fails "only when a minimum-size piece cannot be written": any
  exception that is not a FatalError also ends it. There are three causes: a guard
  poll whose console read fails, a session step that raises something else, and
  `abort_every` = 0, a division by zero in the first guarded transaction
  (`Flashing.CrashIff`).
- Reads past the chip's end are not refused; they start over at its beginning.
- A map whose total exceeds the image is accepted up to 256 MiB; the image slices
  are then clamped and a span's tail past the image is not flashed
  (`Flash.SourceWhole`, `Flash.PastTheChip`).

## Left out

- Flashing.FlashRegion: for data that would end beyond the chip nothing is claimed: addresses start over (Region.EraseStartsOver), so the frame would be false; `cmd_flash` cannot produce such data.
- Writing.WriteRegion: models `verify=True` only, the one way `flash_region` calls it, and not the timings it returns.
- Bridge.SpiBridge.Transact: the kinds of USB failure (timeout, stall, short packet, bad status) are one error, delivered before or after the chip saw the command.
- Bridge.SpiBridge.Arm: the exposure bound counts from the installation of `abort_every`, not from bytes before it.
- Sessions.Session.BringUp: device, consoles, park and ENABLE are one step that succeeds, is refused or crashes; the chip is idle afterwards because bring-up waits for seconds; `park=False` and a settle time of zero, which only the diagnostics use, are not modelled.
- Coverage.RunMain: the deletion of folded trace files and malformed hex lines are not modelled; a trace line is a counter or something else.
- Reconcile.Controller.Run: full_clean is a function of the row, or of the device with all templates and its attachments; the order of attached templates, context warnings and the verification renders are not modelled; a config that is created gets every default template.
- Reconcile.Idempotent: each admin key is one nonblank line, as in the constant that holds them (Reconcile.KeysStayIff says that no others will do), and different device names are different devices.
- Reconcile.MergeFiles: every entry of a files list has a path and contents; a template without a files list aborts the script, as in the source.
- An awake AP that drives the shared SPI bus: its bytes trip the guard, and do not corrupt transactions.
- An erase or program is one step: a supply that fails in the middle of one is not modelled.
- Deadlines are numbers of polls, chosen by the world; the settle and quiet times are not modelled.
- libusb, console text, logging, argument parsing, and the reboot steps of `verify_boot` around the capture; that it may raise is modelled.
- `cmd_read`, `cmd_unprotect`, `cmd_shakedown`, `cmd_budgetprobe` and `cmd_ec`: diagnostics or corollaries of the region properties.
- The disassembler that yields the branch map, and the report texts of the coverage scripts.
- The netjson literals, usteer, cron and hook texts and key material of `openwisp/build-templates.py`: template configurations are opaque values with a list of files.
