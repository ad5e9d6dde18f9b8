# Freecell rule engine in Dafny

This project models the rule engine of a terminal Freecell game (`src/freecell.c`). The game keeps its state in global arrays:

- 8 columns of cards;
- 4 free cells (`work`);
- 4 foundations (`pile`), where a top card of rank r stands for ranks 1..r of its suit;
- the selection state (`selected`, `wselected`, `selcol`, `seln`);
- the move and undo counters;
- a stack of undo snapshots.

One pass of the main loop promotes safe cards to the foundations until none is left. It then tests for the win and handles one key.

The model has five modules:

- `Cards`: cards, colours, the suit arithmetic `k ^ m`, and the full 52-card deck as a multiset.
- `Tableau`: one value of the three arrays (`Layout`). It counts the cards in each kind of place and states card conservation: the table holds every card of the game exactly once.
- `Rules`: the rules over one `Layout`. This covers the legal moves and what each does, the safe-promotion test `mayautomove`, one `automove` step, its quiescence loop, `gameover` and the round-robin deal. Every move is proved to keep the cards.
- `Game`: the whole state as a value (`GameState`) and the key handler as a function (`Handle`). It also holds the loop invariant `Inv` and the lemmas about each key.
- `Engine`: class `Freecell` holds the globals as fields. Its methods update them in place, with loops where the program loops. Each method is proved to compute the matching function of `Game` or `Rules`.

The deck order that `dealgame(seed)` produces is an input: any sequence of 52 distinct cards. The new seed for `n` is an input as well.

## Model

| member | source | states |
|---|---|---|
| Cards.XorPartners | src/freecell.c:184-186 | `k ^ 1` and `k ^ 3` are the two suits of the other colour, and `k ^ 2` is the other suit of the same colour; all four are distinct |
| Cards.Ranks | src/freecell.c:45 | a foundation with top rank n stands for the cards of ranks 1..n of its suit, in order |
| Cards.RanksCount | src/freecell.c:45 | such a foundation holds card c exactly once if c is of its suit and rank at most n, and otherwise not at all |
| Cards.IndexOf | src/freecell.c:42 | every card has exactly one position in the canonical 52-card order |
| Cards.FullDeckOnce | src/freecell.c:42 | the full deck holds each card exactly once, 52 cards in all |
| Cards.FullDeckEach | src/freecell.c:42 | any multiset equal to the full deck holds each card once |
| Cards.DistinctAtMostOnce | src/freecell.c:42 | a sequence of distinct cards holds any card at most once |
| Cards.DeckIsFull | src/freecell.c:42 | 52 distinct cards are a permutation of the full deck |
| Tableau.SumUpdate | src/freecell.c:43-45 | replacing one place swaps that place's cards for the new ones in the table's count |
| Tableau.ColumnCardsUpdate | src/freecell.c:43 | replacing column i swaps its cards in the count of column cards |
| Tableau.CellCardsUpdate | src/freecell.c:44 | replacing free cell i swaps its card in the count of cell cards |
| Tableau.PileCardsUpdate | src/freecell.c:45 | replacing foundation i swaps its run of ranks in the count of foundation cards |
| Tableau.ColumnPop | src/freecell.c:548 | taking the top card off a column (`col->ncard--`, also at lines 218 and 673) removes exactly that card from the column cards |
| Tableau.ColumnPush | src/freecell.c:610-612 | laying a run on a column adds exactly the run's cards |
| Tableau.CellTake | src/freecell.c:680 | emptying an occupied cell removes exactly its card |
| Tableau.CellPut | src/freecell.c:672 | filling an empty cell adds exactly that card |
| Tableau.ColumnCardsEmpty | src/freecell.c:43 | no column cards means every column is empty |
| Tableau.CellCardsEmpty | src/freecell.c:44 | no cell cards means every cell is empty |
| Tableau.PileCardsCount | src/freecell.c:45 | on a well-formed table, card c is on the foundations iff its suit's foundation has reached c's rank, and then exactly once |
| Tableau.ConservedUnique | src/freecell.c:43-45 | on a conserving table each card lies exactly once across columns, cells and foundations |
| Tableau.ConservedEach | src/freecell.c:43-45 | the same, for all cards at once |
| Tableau.KingsHoldAll | src/freecell.c:226-234 | four Kings on the foundations stand for every card of the game |
| Tableau.KingPlaced | src/freecell.c:226-234 | a King on the foundations means its foundation has reached 13 |
| Rules.FoundationAcceptsNextRank | src/freecell.c:175-179 | a foundation takes exactly the next rank of its suit, and an empty one takes only the Ace |
| Rules.XorTable | src/freecell.c:184-186 | the suit numbers `k ^ 1`, `k ^ 2` and `k ^ 3` written out |
| Rules.MayAutomoveBySuits | src/freecell.c:171-199 | a card is promoted iff it is the next rank on its foundation and either (a) both other-colour foundations are at v-1 or more, or (b) both are at v-2 or more and the same-colour foundation is at v-3 or more |
| Rules.LowCardsAlwaysSafe | src/freecell.c:171-199 | an Ace or a Two is promoted iff its foundation accepts it |
| Rules.GameOverFillsPiles | src/freecell.c:226-234 | when `gameover` holds, the foundations hold every card of the game |
| Rules.FullPilesGameOver | src/freecell.c:226-234 | foundations holding every card make `gameover` hold |
| Rules.GameOverComplete | src/freecell.c:226-234 | `gameover` holds iff the foundations hold exactly the full deck |
| Rules.GameOverClearsTable | src/freecell.c:226-234 | on a conserving table that is won, every column and every free cell is empty |
| Rules.TailRun | src/freecell.c:638-647 | `maxn` is between 1 and the column height; every card above the tail-run boundary links to the one beneath it; the card just below the boundary does not link |
| Rules.LinkedSuffixInTailRun | src/freecell.c:638-647 | any top segment whose cards all link lies within the tail run |
| Rules.TailRunLinked | src/freecell.c:638-647 | a top segment no longer than the tail run is linked throughout |
| Rules.TailRunExact | src/freecell.c:638-647 | where the downward scan stops, the tail run is the length scanned |
| Rules.ArrivesAsRun | src/freecell.c:599-613 | a run from the tail run that the destination accepts forms a run on the destination, one card longer when the destination was not empty |
| Rules.RunArrives | src/freecell.c:597-616 | a supermove appends the run in order, shortens the source by the run, changes no other column, cell or foundation, and leaves the run linked |
| Rules.EmptyCellsCount | src/freecell.c:590-592 | the count of empty free cells is the number of cell indices i with `work[i]` empty |
| Rules.EmptyColumnsCount | src/freecell.c:593-595 | the count of empty columns is the number of column indices i with `column[i].ncard` zero |
| Rules.FirstEmptyFrom | src/freecell.c:502-507 | the first empty cell at i or later: empty, with every cell before it occupied; or none, with all of them occupied |
| Rules.FirstAutomoveFrom | src/freecell.c:201-224 | the first safe position at p or later in scan order, with no safe position before it; or none |
| Rules.FirstAutomove | src/freecell.c:201-224 | `automove` finds nothing iff the table is quiescent; otherwise it picks the first safe card in scan order (cells 0..3, then column tops 0..7) |
| Rules.ColumnToPile | src/freecell.c:547-548 | moving a column top to its foundation leaves a well-formed table |
| Rules.CellToPile | src/freecell.c:566-567 | moving a cell card to its foundation leaves a well-formed table |
| Rules.RunToColumn | src/freecell.c:609-613 | the supermove splice leaves a well-formed table |
| Rules.CellToColumn | src/freecell.c:626-629 | a cell-to-column move leaves a well-formed table |
| Rules.ColumnToCell | src/freecell.c:670-673 | a column-to-cell move leaves a well-formed table |
| Rules.CellToCell | src/freecell.c:677-680 | a cell-to-cell move leaves a well-formed table |
| Rules.RunGrows | src/freecell.c:547 | a foundation that accepts card t then stands for one more card, t |
| Rules.PilePush | src/freecell.c:547 | laying an accepted card on the foundations adds exactly that card |
| Rules.ColumnToPileConserves | src/freecell.c:536-551 | Enter from a column keeps every card, and one card fewer lies outside the foundations |
| Rules.CellToPileConserves | src/freecell.c:552-570 | Enter from a cell keeps every card, and one card fewer lies outside the foundations |
| Rules.RunToColumnConserves | src/freecell.c:608-614 | the supermove keeps every card, and none reaches a foundation |
| Rules.CellToColumnConserves | src/freecell.c:626-630 | a cell-to-column move keeps every card |
| Rules.ColumnToCellConserves | src/freecell.c:670-674 | a column-to-cell move keeps every card |
| Rules.CellToCellConserves | src/freecell.c:677-681 | a cell-to-cell move keeps every card |
| Rules.AutoStep | src/freecell.c:201-224 | one `automove` keeps every card; it moves one card onto the foundations when some card is safe, and changes nothing when none is |
| Rules.PromoteCell | src/freecell.c:205-211 | when the scan reaches free cell i and its card is safe, that card is promoted and the cell emptied |
| Rules.PromoteColumnTop | src/freecell.c:213-221 | when the scan reaches column i and its top is safe, that card is promoted and the column shortened by one |
| Rules.ScanPasses | src/freecell.c:201-224 | the scan moves past a position whose card is not safe |
| Rules.Settled | src/freecell.c:440-447 | the promotion loop ends, measured by the number of cards off the foundations; it keeps every card and leaves a quiescent table |
| Rules.QuiescentFixed | src/freecell.c:440-447 | on a quiescent table `automove` and the loop change nothing |
| Rules.SettledIdempotent | src/freecell.c:440-447 | a second run of the promotion loop moves nothing |
| Rules.Deal | src/freecell.c:68-73 | the deal makes eight columns |
| Rules.DealColumn | src/freecell.c:68-73 | column c holds deck[c], deck[c + 8], ... bottom to top, (len - c + 7) / 8 cards |
| Rules.DealShape | src/freecell.c:55-76 | a 52-card deal puts 7 cards in columns 0..3 and 6 in columns 4..7, column c holding deck[c + 8j] at height j |
| Rules.DealConserves | src/freecell.c:68-73 | the deal puts every card of the deck in the columns, neither losing nor inventing one |
| Rules.DealtHoldsDeck | src/freecell.c:55-76 | after `newgame` the table holds exactly the cards of the deck |
| Rules.DealtConserved | src/freecell.c:55-76 | dealing a deck of 52 distinct cards gives a conserving table |
| Game.InitialInv | src/freecell.c:414-421 | the start-up state satisfies the loop invariant |
| Game.PushUndo | src/freecell.c:236-245 | `pushundo` puts the current table on top of the stack and counts one move |
| Game.SettleReady | src/freecell.c:437-447 | after the promotion loop the state is consistent and quiescent; with a selection pending, the loop changes nothing |
| Game.InvAfterMove | src/freecell.c:236-245 | a move that keeps the cards, clears the selection and pushes at most the current table keeps the invariant |
| Game.EnterPreservesInv | src/freecell.c:527-571 | Enter keeps the invariant |
| Game.SupermovePreservesInv | src/freecell.c:597-616 | the supermove keeps the invariant |
| Game.CellToColumnPreservesInv | src/freecell.c:617-631 | a cell-to-column move keeps the invariant |
| Game.SelectPreservesInv | src/freecell.c:632-655 | selecting a column keeps the invariant |
| Game.ColumnKeyPreservesInv | src/freecell.c:587-655 | every column key keeps the invariant |
| Game.CellKeyPreservesInv | src/freecell.c:667-688 | every free-cell key keeps the invariant |
| Game.PopUndoPreservesInv | src/freecell.c:247-262 | undo keeps the invariant: every snapshot conserves the cards |
| Game.NewDealPreservesInv | src/freecell.c:55-76 | `newgame` keeps the invariant |
| Game.HandlePreservesInv | src/freecell.c:495-689 | every key, from a quiescent state of the main loop, keeps card conservation and uniqueness and the rest of the invariant |
| Game.SettlePreservesInv | src/freecell.c:440-447 | the promotion loop keeps the invariant and leaves nothing to promote |
| Game.TurnPreservesInv | src/freecell.c:437-689 | every pass of the main loop keeps the invariant; afterwards each card of the game lies exactly once across columns, cells and foundations |
| Game.UndoRoundTrip | src/freecell.c:236-262 | `pushundo` then `popundo` restores the table and the stack, leaves `nmoves` at its old value, counts one undo and clears the selection |
| Game.UndoWithoutHistory | src/freecell.c:247-262 | `popundo` with an empty stack only clears the selection flags |
| Game.PlayKeySnapshot | src/freecell.c:527-688 | a playing key either leaves the table, stack and move count as they were, or pushes exactly the previous table, counts one move and clears the selection; it never touches the undo count, seed or deck |
| Game.UndoAfterPromotions | src/freecell.c:201-224 | `automove` pushes no snapshot: after a move and the promotions that follow, undo returns to the table before the move, with the stack and move count as they were |
| Game.DealtIsFresh | src/freecell.c:55-76 | after the deal the cells and foundations are empty and column c holds deck[c], deck[c + 8], ..., 7 cards in columns 0..3 and 6 in columns 4..7 |
| Game.RestartKeepsCounters | src/freecell.c:512-514 | `r` deals the same deck afresh, clears the selection, and keeps the stack, both counters, the seed and the deck |
| Game.NewGameZeroesCounters | src/freecell.c:515-519 | `n` deals the new deck, zeroes both counters, takes the new seed and keeps the stack |
| Game.SupermoveMoves | src/freecell.c:597-616 | an allowed supermove appends the run in order, shortens the source by `seln`, touches nothing else, pushes one snapshot, counts one move, clears the selection, and the run arrives as a run |
| Game.SupermoveBlocked | src/freecell.c:597-616 | a supermove refused for lack of free space or a bad destination moves nothing and only clears the selection |
| Game.FirstPressSelectsTop | src/freecell.c:632-639 | pressing a non-empty column with nothing selected selects its top card (`seln` 1) |
| Game.RepressGrowsSelection | src/freecell.c:632-655 | re-pressing the selected column grows `seln` by one while the cards form a run and fit in the free space, and drops the selection (`seln` 0) once `seln` exceeds `maxn` or `seln - 1` exceeds `nfree`; the table is untouched |
| Game.EmptyColumnSelectsNothing | src/freecell.c:632-637 | pressing an empty column with nothing selected only records the column |
| Game.SelectionIsRun | src/freecell.c:632-655 | a pending selection of `seln` cards is a linked run that the free space can carry |
| Game.EnterRule | src/freecell.c:527-571 | Enter moves a card to its foundation iff it is the next rank there and, from a column, `seln` is 1. On a move, one snapshot is pushed and the card's foundation gets that card as its top. The source column loses exactly its top card, or the source cell is emptied, and the other places are unchanged. Otherwise nothing moves. The selection is cleared either way |
| Game.CellKeyRule | src/freecell.c:667-682 | with a selection pending, a cell key moves the card into cell w iff w is empty and, from a column, `seln` is 1. On a move, one snapshot is pushed and cell w holds the card. The source column loses exactly its top card, or the source cell is emptied. Every other cell and every foundation is unchanged, and so are the other columns. Otherwise nothing moves. The selection is cleared |
| Game.CellKeySelects | src/freecell.c:683-688 | with nothing selected, a cell key selects the cell iff it is occupied |
| Game.CellToColumnRule | src/freecell.c:617-631 | with a cell selected, a column key lays the card on the column iff the column is empty or its top is the other colour and one rank higher. On a move, one snapshot is pushed, the card is the new top of the column and the cell is emptied. Every other column, cell and foundation is unchanged. Otherwise nothing moves. The selection is cleared |
| Game.SpaceRule | src/freecell.c:496-509 | Space with a selection acts as the key of the first empty free cell, or as Escape when all cells are occupied; with nothing selected it does nothing |
| Engine.Freecell.constructor | src/freecell.c:414-421 | start-up: the state is the initial deal of the given deck, and it satisfies the loop invariant |
| Engine.Freecell.NewDeal | src/freecell.c:55-76 | `newgame` with its dealing loop computes exactly `Game.NewDeal` |
| Engine.Freecell.ScanCells | src/freecell.c:205-212 | the cell scan stops at the first cell whose card is safe, or at 4 when there is none |
| Engine.Freecell.ScanColumns | src/freecell.c:213-221 | the column scan stops at the first column whose top card is safe, or at 8 when there is none |
| Engine.Freecell.PromoteFromCell | src/freecell.c:208-210 | promoting the found cell's card is exactly one `AutoStep` |
| Engine.Freecell.PromoteFromColumn | src/freecell.c:216-219 | promoting the found column's top card is exactly one `AutoStep` |
| Engine.Freecell.AutoMove | src/freecell.c:201-224 | `automove` returns true iff some card is safe, and performs exactly one `AutoStep`; nothing else changes, so no snapshot is pushed and no counter moves |
| Engine.Freecell.Settle | src/freecell.c:440-447 | the promotion loop terminates and computes exactly `Game.Settle` |
| Engine.Freecell.PushUndo | src/freecell.c:236-245 | computes exactly `Game.PushUndo` |
| Engine.Freecell.PopUndo | src/freecell.c:247-262 | computes exactly `Game.PopUndo` |
| Engine.Freecell.CountFree | src/freecell.c:588-595 | the two counting loops compute `nfree`, the empty cells plus the empty columns |
| Engine.Freecell.TailRunOf | src/freecell.c:638-647 | the downward scan computes `maxn`, the tail run of the column |
| Engine.Freecell.FirstEmptyCell | src/freecell.c:502-507 | the scan finds the first empty free cell |
| Engine.Freecell.MoveRun | src/freecell.c:609-613 | the card-by-card loop computes exactly the splice `RunToColumn` and changes nothing else |
| Engine.Freecell.EnterKey | src/freecell.c:527-571 | computes exactly `Game.EnterKey` |
| Engine.Freecell.Supermove | src/freecell.c:597-616 | computes exactly the supermove branch of `Game.ColumnKey` |
| Engine.Freecell.CellToColumnKey | src/freecell.c:617-631 | computes exactly the cell-to-column branch of `Game.ColumnKey` |
| Engine.Freecell.SelectColumnKey | src/freecell.c:632-655 | computes exactly the selection branch of `Game.ColumnKey` |
| Engine.Freecell.ColumnKey | src/freecell.c:587-655 | computes exactly `Game.ColumnKey` |
| Engine.Freecell.CellKey | src/freecell.c:667-688 | computes exactly `Game.CellKey` |
| Engine.Freecell.SpaceKey | src/freecell.c:496-509 | computes exactly `Game.Handle` for Space |
| Engine.Freecell.StartNew | src/freecell.c:515-519 | computes exactly `Game.StartNew` |
| Engine.Freecell.HandleKey | src/freecell.c:495-689 | computes exactly `Game.Handle` |
| Engine.Freecell.Turn | src/freecell.c:437-689 | one pass of the main loop computes exactly `Game.Turn`, reports the win after the promotion loop, and keeps the invariant |

## Left out

- Rendering (`render`, `cardstr`), the win animation, the `usleep` delays, `helpscreen`, `usage` and the command-line options are left out. They are terminal output and argument handling.
- The statistics line appended to `$HOME/.freecell` is left out because it is file I/O. The C loop has no `break` after a win, so the line is written again on every pass while the game stays won.
- The seed chosen by `time`/`srand`/`rand` is an input of `Command.NewGame` and of the constructor.
- `dealgame(seed)` is not part of this model. The deck it produces is an input: any 52 distinct cards. `Restart` deals the stored deck again, which assumes `dealgame(seed)` is deterministic.
- The C program calls `newgame` before `dealgame`. The columns therefore take pointers to `deck` slots that are then filled, so the table shows the new deck. The model deals the new deck's card values directly, which gives the same table.
- The snapshots in the C program are pointers into the global `deck` array. `n` rewrites that array but does not clear the stack, so an undo across `n` makes the old pointers show cards of the new deck. Each restored `pile[k]` then points at a slot holding some card of the new deck, and the cards it stood for are shown nowhere. The restored table of the program can thus lose or repeat cards. The model stores snapshots as card values and does not reproduce this aliasing. Game.PopUndoPreservesInv and Game.TurnPreservesInv hold for the model for that reason, and do not describe the program's behaviour after an undo across `n`.
- `q`, and the decoding of raw key codes into `Command`s, are left out as loop plumbing. A letter that decodes to no key (`default: continue`) skips the rest of the pass. The model simply has no command for it.
- `?` (help) is left out. It draws the help screen and waits for a key four times (src/freecell.c:294, 319, 340, 358), and those four key presses never reach the handler. The model has no command for `?` and no keys are consumed by it.
- `malloc`/`free` of undo nodes are left out. The stack is a sequence.
- Column capacity is left out. `freecell.h` is not part of this model, so columns are unbounded sequences.
- The `int` counters `nmoves` and `nundos` are unbounded here, so their C overflow is not modelled. `nmoves` can go below zero after an undo across `n`, in the model as in the program.
- Engine.Freecell.AutoMove: the C `automove` tests each card and promotes it inside the scan loop. The model scans in two read-only loops (`ScanCells`, `ScanColumns`), then promotes at the position found. The result is the same state.
- Engine.Freecell.NewDeal: the dealing loop builds the columns in a local sequence and assigns them at the end. The C loop writes the global columns directly; no other code runs in between.
