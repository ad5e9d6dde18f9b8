/**
 * The whole game state as one value and the per-key command handler of the
 * main loop as a function over it: selection, the manual moves, undo,
 * restart and new game. The class in `Engine` is proved to compute exactly
 * these functions.
 */
module Game {
  import opened Cards
  import opened Tableau
  import opened Rules

  /**
   * The program's globals: the table, the undo stack (most recent snapshot
   * first), the move and undo counters, the selection and the deal.
   */
  datatype GameState = GameState(
    layout: Layout,
    history: seq<Layout>,
    nmoves: int,
    nundos: int,
    selected: bool,
    wselected: bool,
    selcol: nat,
    seln: nat,
    seed: nat,
    deck: seq<Card>)

  /**
   * The keys the handler distinguishes, after the raw key codes are decoded:
   * a column key (`a s d f j k l ;`), a free-cell key (`A S D F`), Enter,
   * Escape, Space, `u`, `r`, and `n` with the seed and deck it deals.
   */
  datatype Command =
    | SelectColumn(c: nat)
    | SelectCell(w: nat)
    | Enter
    | Escape
    | Space
    | Undo
    | Restart
    | NewGame(newSeed: nat, newDeck: seq<Card>)

  /** What the key decoding can produce: a column 0..7, a cell 0..3, a 32-bit seed and a 52-card deck. */
  predicate CommandOk(cmd: Command)
  {
    match cmd
    case SelectColumn(c) => c < 8
    case SelectCell(w) => w < 4
    case NewGame(s, d) => s < 0x1_0000_0000 && IsDeck(d)
    case _ => true
  }

  /**
   * What the handler's array accesses rely on: the table has its shape, a
   * column selection names a column holding at least `seln` cards, and a
   * cell selection names an occupied cell.
   */
  predicate Consistent(g: GameState)
  {
    WellFormed(g.layout) && |g.deck| == 52 &&
    (g.selected ==> g.selcol < 8 && 1 <= g.seln <= |g.layout.column[g.selcol]|) &&
    (g.wselected ==> g.selcol < 4 && g.layout.work[g.selcol].Some?)
  }

  /** A table that conserves the cards. */
  predicate Sound(l: Layout)
  {
    WellFormed(l) && Conserved(l)
  }

  /**
   * The invariant of the main loop: the table and every snapshot conserve
   * the 52 cards, the deck is a deck, at most one kind of selection is
   * pending, a column selection stays within the tail run and the free
   * space, and while a selection is pending no card is waiting to be
   * promoted.
   */
  predicate Inv(g: GameState)
  {
    Consistent(g) && Conserved(g.layout) && IsDeck(g.deck) &&
    (forall i :: 0 <= i < |g.history| ==> Sound(g.history[i])) &&
    !(g.selected && g.wselected) &&
    (g.selected ==> g.seln <= TailRun(g.layout.column[g.selcol]) && g.seln - 1 <= NFree(g.layout)) &&
    (g.selected || g.wselected ==> Quiescent(g.layout))
  }

  /**
   * The state at start-up (lines 414-421): a deal of the deck, an empty
   * stack, zero counters and nothing selected (`selcol` and `seln` are
   * zero-initialised globals).
   */
  function Initial(seed: nat, deck: seq<Card>): GameState
  {
    GameState(Dealt(deck), [], 0, 0, false, false, 0, 0, seed, deck)
  }

  lemma InitialInv(seed: nat, deck: seq<Card>)
    requires IsDeck(deck)
    ensures Inv(Initial(seed, deck))
  {
    DealtConserved(deck);
  }

  /** `pushundo`: the current table goes on top of the stack and one move is counted. */
  function PushUndo(g: GameState): (r: GameState)
    ensures |r.history| == |g.history| + 1 && r.history[0] == g.layout && r.history[1..] == g.history
    ensures r.nmoves == g.nmoves + 1
  {
    g.(history := [g.layout] + g.history, nmoves := g.nmoves + 1)
  }

  /**
   * `popundo`: with a snapshot, the table returns to it, one move is uncounted
   * and one undo counted; with none, only the selection is cleared.
   */
  function PopUndo(g: GameState): GameState
  {
    var cleared := g.(selected := false, wselected := false);
    if |g.history| > 0 then
      cleared.(layout := g.history[0], history := g.history[1..], nmoves := g.nmoves - 1, nundos := g.nundos + 1)
    else cleared
  }

  /** `newgame`: the deck dealt afresh, the selection flags cleared, nothing else touched. */
  function NewDeal(g: GameState): GameState
  {
    g.(layout := Dealt(g.deck), selected := false, wselected := false)
  }

  /** `n`: a new seed and deck, the counters zeroed, then a fresh deal. */
  function StartNew(g: GameState, newSeed: nat, newDeck: seq<Card>): GameState
  {
    NewDeal(g.(seed := newSeed, deck := newDeck, nmoves := 0, nundos := 0))
  }

  function EscapeKey(g: GameState): GameState
  {
    g.(selected := false, wselected := false)
  }

  /** The selected single card of column s may go to its foundation. */
  predicate ColumnToPileOk(l: Layout, s: nat, seln: nat)
    requires WellFormed(l) && s < 8
  {
    seln == 1 && |l.column[s]| > 0 && FoundationAccepts(l.pile, Top(l.column[s]))
  }

  /** The card of the selected free cell w may go to its foundation. */
  predicate CellToPileOk(l: Layout, w: nat)
    requires WellFormed(l) && w < 4
  {
    l.work[w].Some? && FoundationAccepts(l.pile, l.work[w].value)
  }

  /** Enter (lines 527-571): the selected card goes to its foundation if it fits. */
  function EnterKey(g: GameState): GameState
    requires Consistent(g)
  {
    var l := g.layout;
    if g.selected then
      if ColumnToPileOk(l, g.selcol, g.seln) then
        PushUndo(g).(layout := ColumnToPile(l, g.selcol), selected := false)
      else g.(selected := false)
    else if g.wselected then
      if CellToPileOk(l, g.selcol) then
        PushUndo(g).(layout := CellToPile(l, g.selcol), wselected := false)
      else g.(wselected := false)
    else g
  }

  /**
   * The run of the top n cards of column s may go onto column d: enough
   * buffers are free, and d is empty or takes the run's bottom card.
   */
  predicate SupermoveOk(l: Layout, s: nat, n: nat, d: nat)
    requires WellFormed(l) && s < 8 && d < 8 && 1 <= n <= |l.column[s]|
  {
    var src, dst := l.column[s], l.column[d];
    NFree(l) >= n - 1 + (if |dst| == 0 then 1 else 0) && ColumnAccepts(dst, src[|src| - n])
  }

  /** The next column selection when column c is pressed: `seln` grows on a re-press, else starts at 1. */
  function NextSeln(g: GameState, c: nat): nat
  {
    if g.selected && g.selcol == c then g.seln + 1 else 1
  }

  /** The pressed selection fits in the column's tail run and in the free space. */
  predicate SelectionFits(l: Layout, c: nat, n: nat)
    requires WellFormed(l) && c < 8
  {
    n <= TailRun(l.column[c]) && n - 1 <= NFree(l)
  }

  /**
   * A column key (lines 587-655): with a run selected in another column,
   * the supermove; with a cell selected, the cell's card onto the column;
   * otherwise the column is selected, or its selection grows, or is
   * dropped when it no longer fits.
   */
  function ColumnKey(g: GameState, c: nat): GameState
    requires Consistent(g) && c < 8
  {
    var l := g.layout;
    if g.selected && g.selcol != c then
      if SupermoveOk(l, g.selcol, g.seln, c) then
        PushUndo(g).(layout := RunToColumn(l, g.selcol, g.seln, c), selected := false)
      else g.(selected := false)
    else if g.wselected then
      if ColumnAccepts(l.column[c], l.work[g.selcol].value) then
        PushUndo(g).(layout := CellToColumn(l, g.selcol, c), wselected := false)
      else g.(wselected := false)
    else if |l.column[c]| > 0 then
      var n := NextSeln(g, c);
      if SelectionFits(l, c, n) then g.(selcol := c, selected := true, seln := n)
      else g.(selcol := c, selected := false, wselected := false, seln := 0)
    else g.(selcol := c)
  }

  /**
   * A free-cell key (lines 657-688): a single selected column card goes into
   * the empty cell, a selected cell's card moves to the empty cell, and with
   * nothing selected an occupied cell becomes the selection.
   */
  function CellKey(g: GameState, w: nat): GameState
    requires Consistent(g) && w < 4
  {
    var l := g.layout;
    if g.selected then
      if g.seln == 1 && l.work[w].None? && |l.column[g.selcol]| > 0 then
        PushUndo(g).(layout := ColumnToCell(l, g.selcol, w), selected := false)
      else g.(selected := false)
    else if g.wselected then
      if l.work[w].None? then
        PushUndo(g).(layout := CellToCell(l, g.selcol, w), wselected := false)
      else g.(wselected := false)
    else if l.work[w].Some? then g.(wselected := true, selcol := w)
    else g
  }

  /** Space (lines 496-509) with a selection pending: the first empty cell's key, or Escape. */
  function SpaceAs(g: GameState): Command
  {
    if g.selected || g.wselected then
      match FirstEmpty(g.layout.work)
      case Some(i) => SelectCell(i)
      case None => Escape
    else Space
  }

  /** The command handler of lines 495-689, one key. */
  function Handle(g: GameState, cmd: Command): GameState
    requires Consistent(g) && CommandOk(cmd)
  {
    match cmd
    case SelectColumn(c) => ColumnKey(g, c)
    case SelectCell(w) => CellKey(g, w)
    case Enter => EnterKey(g)
    case Escape => EscapeKey(g)
    case Space =>
      (match SpaceAs(g)
       case SelectCell(i) => CellKey(g, i)
       case Escape => EscapeKey(g)
       case _ => g)
    case Undo => PopUndo(g)
    case Restart => NewDeal(g)
    case NewGame(s, d) => StartNew(g, s, d)
  }

  /** The loop of lines 440-447: promotion until quiescence; no snapshot, no counter. */
  function Settle(g: GameState): GameState
    requires WellFormed(g.layout)
  {
    g.(layout := Settled(g.layout))
  }

  /** A state the main loop can reach: consistent, and quiescent whenever a selection is pending. */
  predicate Ready(g: GameState)
  {
    Consistent(g) && (g.selected || g.wselected ==> Quiescent(g.layout))
  }

  /** Settling keeps a ready state consistent and leaves nothing to promote. */
  lemma SettleReady(g: GameState)
    requires Ready(g)
    ensures Consistent(Settle(g)) && Quiescent(Settle(g).layout)
    ensures g.selected || g.wselected ==> Settle(g) == g
  {
    if g.selected || g.wselected {
      QuiescentFixed(g.layout);
    }
  }

  /** One pass of the main loop: settle, then handle the next key. */
  function Turn(g: GameState, cmd: Command): GameState
    requires Ready(g) && CommandOk(cmd)
  {
    SettleReady(g);
    Handle(Settle(g), cmd)
  }

  /** A move that leaves no selection, keeps the deck and at most pushes the current table keeps the invariant. */
  lemma InvAfterMove(g: GameState, r: GameState)
    requires Inv(g) && Sound(r.layout) && r.deck == g.deck && !r.selected && !r.wselected
    requires r.history == g.history || r.history == [g.layout] + g.history
    ensures Inv(r)
  {
    if r.history != g.history {
      forall i | 0 <= i < |r.history|
        ensures Sound(r.history[i])
      {
        if i > 0 {
          assert r.history[i] == g.history[i - 1];
        }
      }
    }
  }

  lemma EnterPreservesInv(g: GameState)
    requires Inv(g)
    ensures Inv(EnterKey(g))
  {
    var l, r := g.layout, EnterKey(g);
    if g.selected && ColumnToPileOk(l, g.selcol, g.seln) {
      ColumnToPileConserves(l, g.selcol);
    } else if !g.selected && g.wselected && CellToPileOk(l, g.selcol) {
      CellToPileConserves(l, g.selcol);
    }
    if g.selected || g.wselected {
      InvAfterMove(g, r);
    }
  }

  lemma SupermovePreservesInv(g: GameState, c: nat)
    requires Inv(g) && c < 8 && g.selected && g.selcol != c
    ensures Inv(ColumnKey(g, c))
  {
    var l := g.layout;
    if SupermoveOk(l, g.selcol, g.seln, c) {
      RunToColumnConserves(l, g.selcol, g.seln, c);
    }
    InvAfterMove(g, ColumnKey(g, c));
  }

  lemma CellToColumnPreservesInv(g: GameState, c: nat)
    requires Inv(g) && c < 8 && !g.selected && g.wselected
    ensures Inv(ColumnKey(g, c))
  {
    var l := g.layout;
    if ColumnAccepts(l.column[c], l.work[g.selcol].value) {
      CellToColumnConserves(l, g.selcol, c);
    }
    InvAfterMove(g, ColumnKey(g, c));
  }

  /** Pressing a column to select it: the new selection fits, and the table is quiescent. */
  lemma SelectPreservesInv(g: GameState, c: nat)
    requires Inv(g) && Quiescent(g.layout) && c < 8 && !(g.selected && g.selcol != c) && !g.wselected
    ensures Inv(ColumnKey(g, c))
  {
    var l, r := g.layout, ColumnKey(g, c);
    if |l.column[c]| > 0 {
      var n := NextSeln(g, c);
      if SelectionFits(l, c, n) {
        assert r == g.(selcol := c, selected := true, seln := n);
        assert 1 <= n <= |l.column[c]|;
      } else {
        assert r == g.(selcol := c, selected := false, wselected := false, seln := 0);
      }
    } else {
      assert !g.selected;
      assert r == g.(selcol := c);
    }
  }

  lemma ColumnKeyPreservesInv(g: GameState, c: nat)
    requires Inv(g) && Quiescent(g.layout) && c < 8
    ensures Inv(ColumnKey(g, c))
  {
    if g.selected && g.selcol != c {
      SupermovePreservesInv(g, c);
    } else if g.wselected {
      CellToColumnPreservesInv(g, c);
    } else {
      SelectPreservesInv(g, c);
    }
  }

  lemma CellKeyPreservesInv(g: GameState, w: nat)
    requires Inv(g) && Quiescent(g.layout) && w < 4
    ensures Inv(CellKey(g, w))
  {
    var l, r := g.layout, CellKey(g, w);
    if g.selected {
      if g.seln == 1 && l.work[w].None? && |l.column[g.selcol]| > 0 {
        ColumnToCellConserves(l, g.selcol, w);
      }
      InvAfterMove(g, r);
    } else if g.wselected {
      if l.work[w].None? {
        CellToCellConserves(l, g.selcol, w);
      }
      InvAfterMove(g, r);
    }
  }

  lemma PopUndoPreservesInv(g: GameState)
    requires Inv(g)
    ensures Inv(PopUndo(g))
  {
    var r := PopUndo(g);
    if |g.history| > 0 {
      assert Sound(g.history[0]);
      forall i | 0 <= i < |r.history|
        ensures Sound(r.history[i])
      {
        assert r.history[i] == g.history[i + 1];
      }
    }
  }

  lemma NewDealPreservesInv(g: GameState)
    requires Inv(g)
    ensures Inv(NewDeal(g))
  {
    DealtConserved(g.deck);
  }

  /**
   * Card conservation and uniqueness through every key: from a state of the
   * main loop with nothing left to promote, the handler reaches a state of
   * the main loop again.
   */
  lemma HandlePreservesInv(g: GameState, cmd: Command)
    requires Inv(g) && Quiescent(g.layout) && CommandOk(cmd)
    ensures Inv(Handle(g, cmd))
  {
    match cmd
    case SelectColumn(c) => ColumnKeyPreservesInv(g, c);
    case SelectCell(w) => CellKeyPreservesInv(g, w);
    case Enter => EnterPreservesInv(g);
    case Escape =>
    case Space =>
      if g.selected || g.wselected {
        match FirstEmpty(g.layout.work)
        case Some(i) => CellKeyPreservesInv(g, i);
        case None =>
      }
    case Undo => PopUndoPreservesInv(g);
    case Restart => NewDealPreservesInv(g);
    case NewGame(s, d) =>
      var g' := g.(seed := s, deck := d, nmoves := 0, nundos := 0);
      assert Inv(g'.(selected := false, wselected := false));
      NewDealPreservesInv(g'.(selected := false, wselected := false));
      assert NewDeal(g'.(selected := false, wselected := false)) == StartNew(g, s, d);
  }

  /** The promotion loop keeps the invariant and leaves nothing to promote. */
  lemma SettlePreservesInv(g: GameState)
    requires Inv(g)
    ensures Inv(Settle(g)) && Quiescent(Settle(g).layout)
  {
    SettleReady(g);
  }

  /** Every pass of the main loop keeps every card of the game on the table exactly once. */
  lemma TurnPreservesInv(g: GameState, cmd: Command)
    requires Inv(g) && CommandOk(cmd)
    ensures Inv(Turn(g, cmd))
    ensures forall c :: ColumnCards(Turn(g, cmd).layout.column)[c] + CellCards(Turn(g, cmd).layout.work)[c] +
                        PileCards(Turn(g, cmd).layout.pile)[c] == 1
  {
    var s := Settle(g);
    SettlePreservesInv(g);
    HandlePreservesInv(s, cmd);
    var r := Turn(g, cmd);
    assert r == Handle(s, cmd);
    ConservedEach(r.layout);
  }

  /** `pushundo` then `popundo`: the table and the move count are back, one undo is counted, nothing is selected. */
  lemma UndoRoundTrip(g: GameState)
    ensures PopUndo(PushUndo(g)) == g.(nundos := g.nundos + 1, selected := false, wselected := false)
  {
  }

  /** `popundo` with no snapshot only clears the selection flags. */
  lemma UndoWithoutHistory(g: GameState)
    requires |g.history| == 0
    ensures PopUndo(g) == g.(selected := false, wselected := false)
  {
  }

  /** The keys that play: selections and the moves they complete. */
  predicate PlayKey(cmd: Command)
  {
    cmd.SelectColumn? || cmd.SelectCell? || cmd.Enter? || cmd.Escape? || cmd.Space?
  }

  /**
   * A playing key either leaves the table, the stack and the move count as
   * they were, or makes one move: it pushes exactly the table before the
   * move, counts one move and clears the selection. It never touches the
   * undo count, the seed or the deck.
   */
  lemma PlayKeySnapshot(g: GameState, cmd: Command)
    requires Consistent(g) && !(g.selected && g.wselected) && CommandOk(cmd) && PlayKey(cmd)
    ensures Handle(g, cmd).nundos == g.nundos && Handle(g, cmd).seed == g.seed && Handle(g, cmd).deck == g.deck
    ensures WellFormed(Handle(g, cmd).layout)
    ensures var r := Handle(g, cmd);
      (r.layout == g.layout && r.history == g.history && r.nmoves == g.nmoves) ||
      (r.history == [g.layout] + g.history && r.nmoves == g.nmoves + 1 && !r.selected && !r.wselected)
  {
    match cmd
    case SelectColumn(c) =>
      if !(g.selected && g.selcol != c) && !g.wselected {
        assert Handle(g, cmd).layout == g.layout;
      }
    case SelectCell(w) =>
    case Enter =>
    case Escape =>
    case Space =>
  }

  /**
   * Promotion pushes no snapshot: after a move and the promotions it sets
   * off, undo returns to the table before the move, with the move count
   * and the stack as they were before it.
   */
  lemma UndoAfterPromotions(g: GameState, cmd: Command)
    requires Consistent(g) && !(g.selected && g.wselected) && CommandOk(cmd) && PlayKey(cmd)
    requires Handle(g, cmd).nmoves == g.nmoves + 1
    ensures WellFormed(Handle(g, cmd).layout) &&
      var after := Settle(Handle(g, cmd));
      after.history == [g.layout] + g.history && after.nmoves == g.nmoves + 1 &&
      PopUndo(after).layout == g.layout && PopUndo(after).history == g.history &&
      PopUndo(after).nmoves == g.nmoves && PopUndo(after).nundos == g.nundos + 1
  {
    PlayKeySnapshot(g, cmd);
  }

  /** The table `newgame` leaves: empty cells and foundations, column c holding deck[c], deck[c + 8], ... */
  predicate FreshDeal(l: Layout, deck: seq<Card>)
    requires WellFormed(l) && |deck| == 52
  {
    (forall i :: 0 <= i < 4 ==> l.work[i].None? && l.pile[i].None?) &&
    (forall c :: 0 <= c < 8 ==> |l.column[c]| == if c < 4 then 7 else 6) &&
    (forall c, j :: 0 <= c < 8 && 0 <= j < |l.column[c]| ==> l.column[c][j] == deck[c + 8 * j])
  }

  lemma DealtIsFresh(deck: seq<Card>)
    requires |deck| == 52
    ensures WellFormed(Dealt(deck)) && FreshDeal(Dealt(deck), deck)
  {
    forall c | 0 <= c < 8
      ensures |Deal(deck)[c]| == (if c < 4 then 7 else 6)
      ensures forall j :: 0 <= j < |Deal(deck)[c]| ==> Deal(deck)[c][j] == deck[c + 8 * j]
    {
      DealShape(deck, c);
    }
  }

  /** `r` deals the same deck again; the stack, both counters, the seed and the deck are kept. */
  lemma RestartKeepsCounters(g: GameState)
    requires Consistent(g)
    ensures var r := Handle(g, Restart);
      WellFormed(r.layout) && FreshDeal(r.layout, g.deck) &&
      r.history == g.history && r.nmoves == g.nmoves && r.nundos == g.nundos &&
      r.seed == g.seed && r.deck == g.deck && !r.selected && !r.wselected
  {
    DealtIsFresh(g.deck);
  }

  /** `n` deals the new deck and zeroes both counters; the stack is kept. */
  lemma NewGameZeroesCounters(g: GameState, s: nat, d: seq<Card>)
    requires Consistent(g) && CommandOk(NewGame(s, d))
    ensures var r := Handle(g, NewGame(s, d));
      WellFormed(r.layout) && FreshDeal(r.layout, d) &&
      r.history == g.history && r.nmoves == 0 && r.nundos == 0 &&
      r.seed == s && r.deck == d && !r.selected && !r.wselected
  {
    DealtIsFresh(d);
  }

  /**
   * The supermove (lines 597-616) when the free space and the destination
   * allow it: the run is appended in its order, the source loses it, no
   * other column, cell or foundation changes, one snapshot is pushed, the
   * selection is cleared, and the run arrives as a run.
   */
  lemma SupermoveMoves(g: GameState, c: nat)
    requires Consistent(g) && !g.wselected && c < 8 && g.selected && g.selcol != c
    requires g.seln <= TailRun(g.layout.column[g.selcol])
    requires SupermoveOk(g.layout, g.selcol, g.seln, c)
    ensures
      var r, l, s, n := ColumnKey(g, c), g.layout, g.selcol, g.seln;
      var src := l.column[s];
      !r.selected && !r.wselected && r.nmoves == g.nmoves + 1 && r.history == [l] + g.history &&
      r.layout.column[c] == l.column[c] + src[|src| - n..] &&
      r.layout.column[s] == src[..|src| - n] &&
      (forall i :: 0 <= i < 8 && i != s && i != c ==> r.layout.column[i] == l.column[i]) &&
      r.layout.work == l.work && r.layout.pile == l.pile &&
      n <= TailRun(r.layout.column[c])
  {
    SupermoveStep(g, c);
    RunArrives(g.layout, g.selcol, g.seln, c);
  }

  /** A supermove the free space or the destination refuses moves nothing and only clears the selection. */
  lemma SupermoveBlocked(g: GameState, c: nat)
    requires Consistent(g) && !g.wselected && c < 8 && g.selected && g.selcol != c
    requires !SupermoveOk(g.layout, g.selcol, g.seln, c)
    ensures ColumnKey(g, c) == g.(selected := false)
  {
    SupermoveStep(g, c);
  }

  /** The state a column key leaves when a run in another column is selected. */
  lemma SupermoveStep(g: GameState, c: nat)
    requires Consistent(g) && c < 8 && g.selected && g.selcol != c
    ensures var l, s, n := g.layout, g.selcol, g.seln;
      ColumnKey(g, c) ==
        if SupermoveOk(l, s, n, c) then
          g.(history := [l] + g.history, nmoves := g.nmoves + 1, layout := RunToColumn(l, s, n, c), selected := false)
        else g.(selected := false)
  {
  }

  /** Pressing a non-empty column with nothing selected always selects its top card. */
  lemma FirstPressSelectsTop(g: GameState, c: nat)
    requires Consistent(g) && c < 8 && !g.selected && !g.wselected && |g.layout.column[c]| > 0
    ensures ColumnKey(g, c) == g.(selcol := c, selected := true, seln := 1)
  {
  }

  /**
   * Re-pressing the selected column selects one card more while the cards
   * still form a run and fit in the free space, and drops the selection
   * (`seln` 0) otherwise; the table is untouched.
   */
  lemma RepressGrowsSelection(g: GameState)
    requires Inv(g) && g.selected
    ensures var r, col := ColumnKey(g, g.selcol), g.layout.column[g.selcol];
      r.layout == g.layout && r.history == g.history && r.nmoves == g.nmoves && r.selcol == g.selcol &&
      (g.seln < TailRun(col) && g.seln <= NFree(g.layout) ==>
        r.selected && r.seln == g.seln + 1 && LinkedAbove(col, |col| - r.seln)) &&
      (g.seln == TailRun(col) || g.seln > NFree(g.layout) ==> !r.selected && !r.wselected && r.seln == 0)
  {
    var col := g.layout.column[g.selcol];
    if g.seln < TailRun(col) && g.seln <= NFree(g.layout) {
      TailRunLinked(col, g.seln + 1);
    }
  }

  /** Pressing an empty column with nothing selected selects nothing and moves nothing. */
  lemma EmptyColumnSelectsNothing(g: GameState, c: nat)
    requires Consistent(g) && c < 8 && !g.selected && !g.wselected && |g.layout.column[c]| == 0
    ensures ColumnKey(g, c) == g.(selcol := c)
  {
  }

  /** A pending selection of n cards is a run that the free space can carry. */
  lemma SelectionIsRun(g: GameState)
    requires Inv(g) && g.selected
    ensures var col := g.layout.column[g.selcol];
      LinkedAbove(col, |col| - g.seln) && g.seln - 1 <= NFree(g.layout)
  {
    TailRunLinked(g.layout.column[g.selcol], g.seln);
  }

  /**
   * Enter (lines 527-571): a card reaches its foundation exactly when it is
   * the next rank there and, from a column, is a single-card selection; the
   * card leaves the table, one snapshot is pushed. Otherwise nothing moves.
   */
  lemma EnterRule(g: GameState)
    requires Consistent(g) && !(g.selected && g.wselected)
    ensures var r, l := EnterKey(g), g.layout;
      !r.selected && !r.wselected &&
      (r.nmoves == g.nmoves + 1 <==>
        (g.selected && ColumnToPileOk(l, g.selcol, g.seln)) || (g.wselected && CellToPileOk(l, g.selcol))) &&
      (r.nmoves == g.nmoves + 1 ==>
        r.history == [l] + g.history && Total(r.layout) == Total(l) && Outside(r.layout) + 1 == Outside(l)) &&
      (r.nmoves != g.nmoves + 1 ==> r.layout == l && r.history == g.history && r.nmoves == g.nmoves)
    ensures var r, l, s := EnterKey(g), g.layout, g.selcol;
      g.selected && r.nmoves == g.nmoves + 1 ==>
        var t := Top(l.column[s]);
        r.layout.pile == l.pile[t.kind := Some(t)] &&
        r.layout.column == l.column[s := l.column[s][..|l.column[s]| - 1]] && r.layout.work == l.work
    ensures var r, l, w := EnterKey(g), g.layout, g.selcol;
      !g.selected && g.wselected && r.nmoves == g.nmoves + 1 ==>
        var t := l.work[w].value;
        r.layout.pile == l.pile[t.kind := Some(t)] &&
        r.layout.work == l.work[w := None] && r.layout.column == l.column
  {
    var l := g.layout;
    if g.selected && ColumnToPileOk(l, g.selcol, g.seln) {
      ColumnToPileConserves(l, g.selcol);
    } else if g.wselected && CellToPileOk(l, g.selcol) {
      CellToPileConserves(l, g.selcol);
    }
  }

  /**
   * A free-cell key with a selection pending (lines 667-682): the card moves
   * into cell w exactly when w is empty and, from a column, the selection
   * is a single card; the card keeps its place among the cards of the game
   * (nothing reaches a foundation), one snapshot is pushed.
   */
  lemma CellKeyRule(g: GameState, w: nat)
    requires Consistent(g) && !(g.selected && g.wselected) && w < 4 && (g.selected || g.wselected)
    ensures var r, l := CellKey(g, w), g.layout;
      !r.selected && !r.wselected &&
      (r.nmoves == g.nmoves + 1 <==> l.work[w].None? && (g.wselected || g.seln == 1)) &&
      (r.nmoves == g.nmoves + 1 ==>
        r.history == [l] + g.history && Total(r.layout) == Total(l) && Outside(r.layout) == Outside(l) &&
        r.layout.work[w] == (if g.selected then Some(Top(l.column[g.selcol])) else l.work[g.selcol])) &&
      (r.nmoves != g.nmoves + 1 ==> r.layout == l && r.history == g.history && r.nmoves == g.nmoves)
    ensures var r, l, s := CellKey(g, w), g.layout, g.selcol;
      g.selected && r.nmoves == g.nmoves + 1 ==>
        r.layout.column == l.column[s := l.column[s][..|l.column[s]| - 1]] &&
        (forall i :: 0 <= i < 4 && i != w ==> r.layout.work[i] == l.work[i]) && r.layout.pile == l.pile
    ensures var r, l, v := CellKey(g, w), g.layout, g.selcol;
      !g.selected && r.nmoves == g.nmoves + 1 ==>
        r.layout.work[v].None? && r.layout.column == l.column && r.layout.pile == l.pile &&
        (forall i :: 0 <= i < 4 && i != w && i != v ==> r.layout.work[i] == l.work[i])
  {
    var l := g.layout;
    if g.selected && g.seln == 1 && l.work[w].None? {
      ColumnToCellKey(g, w);
      ColumnToCellConserves(l, g.selcol, w);
    } else if !g.selected && g.wselected && l.work[w].None? {
      CellToCellKey(g, w);
      CellToCellConserves(l, g.selcol, w);
    }
  }

  /** A single card selected in a column goes into the empty cell w. */
  lemma ColumnToCellKey(g: GameState, w: nat)
    requires Consistent(g) && w < 4 && g.selected && g.seln == 1 && g.layout.work[w].None?
    ensures CellKey(g, w) == PushUndo(g).(layout := ColumnToCell(g.layout, g.selcol, w), selected := false)
  {
  }

  /** The selected cell's card goes into the empty cell w. */
  lemma CellToCellKey(g: GameState, w: nat)
    requires Consistent(g) && w < 4 && !g.selected && g.wselected && g.layout.work[w].None?
    ensures CellKey(g, w) == PushUndo(g).(layout := CellToCell(g.layout, g.selcol, w), wselected := false)
  {
  }

  /** A free-cell key with nothing selected selects the cell exactly when it is occupied. */
  lemma CellKeySelects(g: GameState, w: nat)
    requires Consistent(g) && w < 4 && !g.selected && !g.wselected
    ensures CellKey(g, w) == if g.layout.work[w].Some? then g.(wselected := true, selcol := w) else g
  {
  }

  /**
   * A column key with a free cell selected (lines 617-631): the card goes on
   * top of column c exactly when c accepts it; one snapshot is pushed.
   */
  lemma CellToColumnRule(g: GameState, c: nat)
    requires Consistent(g) && c < 8 && g.wselected && !g.selected
    ensures var r, l := ColumnKey(g, c), g.layout;
      var card := l.work[g.selcol].value;
      !r.selected && !r.wselected &&
      (r.nmoves == g.nmoves + 1 <==> ColumnAccepts(l.column[c], card)) &&
      (r.nmoves == g.nmoves + 1 ==>
        r.history == [l] + g.history && Total(r.layout) == Total(l) &&
        r.layout.column[c] == l.column[c] + [card] && r.layout.work[g.selcol].None?) &&
      (r.nmoves != g.nmoves + 1 ==> r.layout == l && r.history == g.history && r.nmoves == g.nmoves)
    ensures var r, l := ColumnKey(g, c), g.layout;
      r.nmoves == g.nmoves + 1 ==>
        (forall i :: 0 <= i < 8 && i != c ==> r.layout.column[i] == l.column[i]) &&
        (forall i :: 0 <= i < 4 && i != g.selcol ==> r.layout.work[i] == l.work[i]) && r.layout.pile == l.pile
  {
    var l := g.layout;
    if ColumnAccepts(l.column[c], l.work[g.selcol].value) {
      CellToColumnConserves(l, g.selcol, c);
    }
  }

  /**
   * Space (lines 496-509): with a selection pending it acts as the key of the
   * first empty free cell, or as Escape when every cell is occupied; with
   * nothing selected it does nothing.
   */
  lemma SpaceRule(g: GameState)
    requires Consistent(g)
    ensures !(g.selected || g.wselected) ==> Handle(g, Space) == g
    ensures (g.selected || g.wselected) && (forall i :: 0 <= i < 4 ==> g.layout.work[i].Some?) ==>
      Handle(g, Space) == Handle(g, Escape)
    ensures (g.selected || g.wselected) && (exists i :: 0 <= i < 4 && g.layout.work[i].None?) ==>
      exists i :: 0 <= i < 4 && g.layout.work[i].None? && (forall j :: 0 <= j < i ==> g.layout.work[j].Some?) &&
        Handle(g, Space) == Handle(g, SelectCell(i))
  {
    if g.selected || g.wselected {
      match FirstEmpty(g.layout.work)
      case Some(i) =>
        assert Handle(g, Space) == Handle(g, SelectCell(i));
      case None =>
    }
  }
}
