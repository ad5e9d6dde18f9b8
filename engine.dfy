/**
 * The program's globals as one object, and its procedures as methods that
 * update them in place, each proved to compute the corresponding function
 * of `Game` and `Rules`.
 */
module Engine {
  import opened Cards
  import opened Tableau
  import opened Rules
  import Game

  class Freecell {
    /** `column[i].card[0..ncard)`, bottom card first. */
    var column: seq<seq<Card>>
    /** The free cells; `None` is a null pointer. */
    var work: seq<Option<Card>>
    /** The top card of each foundation; `None` is a null pointer. */
    var pile: seq<Option<Card>>
    /** The undo stack, most recent snapshot first. */
    var history: seq<Layout>
    var nmoves: int
    var nundos: int
    var selected: bool
    var wselected: bool
    var selcol: nat
    var seln: nat
    var seed: nat
    /** The 52 cards as `dealgame` ordered them. */
    var deck: seq<Card>

    function Table(): Layout
      reads this
    {
      Layout(column, work, pile)
    }

    function State(): Game.GameState
      reads this
    {
      Game.GameState(Table(), history, nmoves, nundos, selected, wselected, selcol, seln, seed, deck)
    }

    /** Start-up: `newgame` followed by the deal of the given deck. */
    constructor (seed0: nat, deck0: seq<Card>)
      requires IsDeck(deck0)
      ensures State() == Game.Initial(seed0, deck0)
      ensures Game.Inv(State())
    {
      column, work, pile := [], [], [];
      history, nmoves, nundos := [], 0, 0;
      selected, wselected, selcol, seln := false, false, 0, 0;
      seed, deck := seed0, deck0;
      new;
      NewDeal();
      Game.InitialInv(seed0, deck0);
    }

    /** `newgame` (lines 55-76): empty cells and foundations, the deck dealt round-robin. */
    method NewDeal()
      requires |deck| == 52
      modifies this
      ensures State() == Game.NewDeal(old(State()))
    {
      var cols: seq<seq<Card>> := [[], [], [], [], [], [], [], []];
      var i := 0;
      while i < 52
        invariant 0 <= i <= 52
        invariant cols == Deal(deck[..i])
      {
        var c := i % 8;
        assert deck[..i + 1][..i] == deck[..i];
        cols := cols[c := cols[c] + [deck[i]]];
        i := i + 1;
      }
      assert deck[..52] == deck;
      column := cols;
      work := [None, None, None, None];
      pile := [None, None, None, None];
      selected := false;
      wselected := false;
    }

    /** Lines 205-212: the first free cell whose card is safe, or 4 when there is none. */
    method ScanCells() returns (i: nat)
      requires WellFormed(Table())
      ensures i <= 4 && FirstAutomove(Table()) == FirstAutomoveFrom(Table(), i)
      ensures i < 4 ==> MayAutomove(pile, work[i])
    {
      i := 0;
      while i < 4 && !MayAutomove(pile, work[i])
        invariant 0 <= i <= 4
        invariant FirstAutomove(Table()) == FirstAutomoveFrom(Table(), i)
      {
        ScanPasses(Table(), i);
        i := i + 1;
      }
    }

    /** Lines 213-221: the first column whose top card is safe, or 8 when there is none. */
    method ScanColumns() returns (i: nat)
      requires WellFormed(Table()) && FirstAutomove(Table()) == FirstAutomoveFrom(Table(), 4)
      ensures i <= 8 && FirstAutomove(Table()) == FirstAutomoveFrom(Table(), i + 4)
      ensures i < 8 ==> |column[i]| > 0 && MayAutomove(pile, Some(Top(column[i])))
    {
      i := 0;
      while i < 8 && !(|column[i]| > 0 && MayAutomove(pile, Some(Top(column[i]))))
        invariant 0 <= i <= 8
        invariant FirstAutomove(Table()) == FirstAutomoveFrom(Table(), i + 4)
      {
        ScanPasses(Table(), i + 4);
        i := i + 1;
      }
    }

    /** Lines 208-210: the safe card of free cell w goes onto its foundation. */
    method PromoteFromCell(w: nat)
      requires WellFormed(Table()) && w < 4 && FirstAutomove(Table()) == FirstAutomoveFrom(Table(), w)
      requires MayAutomove(pile, work[w])
      modifies this
      ensures FirstAutomove(old(Table())) == Some(w)
      ensures State() == old(State()).(layout := AutoStep(old(Table())))
    {
      ghost var l := Table();
      var card := work[w].value;
      PromoteCell(l, w);
      pile := pile[card.kind := Some(card)];
      work := work[w := None];
      assert Table() == AutoStep(l);
    }

    /** Lines 216-219: the safe top card of column c goes onto its foundation. */
    method PromoteFromColumn(c: nat)
      requires WellFormed(Table()) && c < 8 && FirstAutomove(Table()) == FirstAutomoveFrom(Table(), c + 4)
      requires |column[c]| > 0 && MayAutomove(pile, Some(Top(column[c])))
      modifies this
      ensures FirstAutomove(old(Table())) == Some(c + 4)
      ensures State() == old(State()).(layout := AutoStep(old(Table())))
    {
      ghost var l := Table();
      var card := Top(column[c]);
      PromoteColumnTop(l, c);
      var newPile := pile[card.kind := Some(card)];
      var newColumn := column[c := column[c][..|column[c]| - 1]];
      assert AutoStep(l) == Layout(newColumn, work, newPile);
      pile := newPile;
      column := newColumn;
      assert Table() == AutoStep(l);
    }

    /**
     * `automove` (lines 201-224): the first safe card, free cells 0..3 before
     * column tops 0..7, goes onto its foundation; reports whether one moved.
     * No snapshot is pushed and no counter changes.
     */
    method AutoMove() returns (moved: bool)
      requires WellFormed(Table())
      modifies this
      ensures moved <==> FirstAutomove(old(Table())).Some?
      ensures State() == old(State()).(layout := AutoStep(old(Table())))
    {
      var w := ScanCells();
      if w < 4 {
        PromoteFromCell(w);
        return true;
      }
      var c := ScanColumns();
      if c < 8 {
        PromoteFromColumn(c);
        return true;
      }
      assert FirstAutomoveFrom(Table(), 12) == None;
      return false;
    }

    /** The loop of lines 440-447: promote until nothing is safe. */
    method Settle()
      requires WellFormed(Table())
      modifies this
      ensures State() == Game.Settle(old(State()))
    {
      while true
        invariant WellFormed(Table())
        invariant Settled(Table()) == Settled(old(Table()))
        invariant State() == old(State()).(layout := Table())
        decreases Outside(Table())
      {
        var moved := AutoMove();
        if !moved {
          break;
        }
      }
    }

    /** `pushundo` (lines 236-245). */
    method PushUndo()
      modifies this
      ensures State() == Game.PushUndo(old(State()))
    {
      history := [Table()] + history;
      nmoves := nmoves + 1;
    }

    /** `popundo` (lines 247-262). */
    method PopUndo()
      modifies this
      ensures State() == Game.PopUndo(old(State()))
    {
      if |history| > 0 {
        var u := history[0];
        history := history[1..];
        column, work, pile := u.column, u.work, u.pile;
        nmoves := nmoves - 1;
        nundos := nundos + 1;
      }
      selected := false;
      wselected := false;
    }

    /** `nfree` (lines 588-595): empty free cells plus empty columns. */
    method CountFree() returns (nfree: nat)
      requires WellFormed(Table())
      ensures nfree == NFree(Table())
    {
      nfree := 0;
      var i := 0;
      while i < 4
        invariant 0 <= i <= 4
        invariant nfree == EmptyCells(work[..i])
      {
        assert work[..i + 1][..i] == work[..i];
        if work[i].None? {
          nfree := nfree + 1;
        }
        i := i + 1;
      }
      assert work[..4] == work;
      i := 0;
      while i < 8
        invariant 0 <= i <= 8
        invariant nfree == EmptyCells(work) + EmptyColumns(column[..i])
      {
        assert column[..i + 1][..i] == column[..i];
        if |column[i]| == 0 {
          nfree := nfree + 1;
        }
        i := i + 1;
      }
      assert column[..8] == column;
    }

    /** `maxn` (lines 638-647): the tail run of column c, counted down from the top. */
    method TailRunOf(c: nat) returns (maxn: nat)
      requires WellFormed(Table()) && c < 8 && |column[c]| > 0
      ensures maxn == TailRun(column[c])
    {
      var col := column[c];
      maxn := 1;
      var i := |col| - 1;
      while i > 0
        invariant 0 <= i < |col|
        invariant maxn == |col| - i
        invariant LinkedAbove(col, i)
      {
        if Colour(col[i].kind) != Colour(col[i - 1].kind) && col[i].value + 1 == col[i - 1].value {
          maxn := maxn + 1;
        } else {
          break;
        }
        i := i - 1;
      }
      TailRunExact(col, i);
    }

    /** The scan of lines 502-507: the first empty free cell. */
    method FirstEmptyCell() returns (cell: Option<nat>)
      requires WellFormed(Table())
      ensures cell == FirstEmpty(work)
    {
      var i := 0;
      while i < 4
        invariant 0 <= i <= 4
        invariant FirstEmpty(work) == FirstEmptyFrom(work, i)
      {
        if work[i].None? {
          return Some(i);
        }
        i := i + 1;
      }
      return None;
    }

    /** The splice of lines 609-613: the top n cards of column s appended to column d, one at a time. */
    method MoveRun(s: nat, n: nat, d: nat)
      requires WellFormed(Table()) && s < 8 && d < 8 && s != d && n <= |column[s]|
      modifies this
      ensures State() == old(State()).(layout := RunToColumn(old(Table()), s, n, d))
    {
      ghost var src, dst := column[s], column[d];
      var first := |column[s]| - n;
      var i := 0;
      assert dst + src[first..first] == dst;
      while i < n
        invariant 0 <= i <= n
        invariant column == old(column)[d := dst + src[first..first + i]]
        invariant State() == old(State()).(layout := old(Table()).(column := column))
      {
        assert src[first..first + i + 1] == src[first..first + i] + [src[first + i]];
        assert column[s] == src && column[d] == dst + src[first..first + i];
        assert dst + src[first..first + i] + [src[first + i]] == dst + src[first..first + i + 1];
        column := column[d := column[d] + [column[s][first + i]]];
        i := i + 1;
      }
      assert src[first..first + n] == src[first..];
      assert column[s] == src;
      column := column[s := column[s][..first]];
      assert column == RunToColumn(old(Table()), s, n, d).column;
    }

    /** Enter (lines 527-571). */
    method EnterKey()
      requires Game.Consistent(State())
      modifies this
      ensures State() == Game.EnterKey(old(State()))
    {
      if selected {
        var col := column[selcol];
        if seln == 1 && |col| > 0 {
          var card := Top(col);
          if FoundationAccepts(pile, card) {
            PushUndo();
            pile := pile[card.kind := Some(card)];
            column := column[selcol := col[..|col| - 1]];
          }
        }
        selected := false;
      } else if wselected {
        if work[selcol].Some? {
          var card := work[selcol].value;
          if FoundationAccepts(pile, card) {
            PushUndo();
            pile := pile[card.kind := Some(card)];
            work := work[selcol := None];
          }
        }
        wselected := false;
      }
    }

    /** A column key with a run selected in another column: the supermove of lines 597-616. */
    method Supermove(c: nat, nfree: nat)
      requires Game.Consistent(State()) && c < 8 && selected && selcol != c && nfree == NFree(Table())
      modifies this
      ensures State() == Game.ColumnKey(old(State()), c)
    {
      var src, dst := column[selcol], column[c];
      if nfree >= seln - 1 + (if |dst| == 0 then 1 else 0) {
        var card := src[|src| - seln];
        var may := true;
        if |dst| > 0 && Colour(card.kind) == Colour(Top(dst).kind) {
          may := false;
        }
        if |dst| > 0 && card.value + 1 != Top(dst).value {
          may := false;
        }
        if may {
          PushUndo();
          MoveRun(selcol, seln, c);
        }
      }
      selected := false;
    }

    /** A column key with a free cell selected: lines 617-631. */
    method CellToColumnKey(c: nat)
      requires Game.Consistent(State()) && c < 8 && !(selected && selcol != c) && wselected
      modifies this
      ensures State() == Game.ColumnKey(old(State()), c)
    {
      var dst, card := column[c], work[selcol].value;
      var may := false;
      if |dst| > 0 {
        if Colour(Top(dst).kind) != Colour(card.kind) && Top(dst).value == card.value + 1 {
          may := true;
        }
      } else {
        may := true;
      }
      if may {
        PushUndo();
        column := column[c := dst + [card]];
        work := work[selcol := None];
      }
      wselected := false;
    }

    /** A column key with no move to make: the selection of lines 632-655. */
    method SelectColumnKey(c: nat, nfree: nat)
      requires Game.Consistent(State()) && c < 8 && !(selected && selcol != c) && !wselected
      requires nfree == NFree(Table())
      modifies this
      ensures State() == Game.ColumnKey(old(State()), c)
    {
      ghost var g := State();
      var again := selected && selcol == c;
      if |column[c]| > 0 {
        var n := if again then seln + 1 else 1;
        assert n == Game.NextSeln(g, c);
        var maxn := TailRunOf(c);
        if n > maxn || n - 1 > nfree {
          assert !Game.SelectionFits(g.layout, c, n);
          selected, wselected, seln := false, false, 0;
        } else {
          assert Game.SelectionFits(g.layout, c, n);
          selected, seln := true, n;
        }
      }
      selcol := c;
    }

    /** A column key (lines 587-655). */
    method ColumnKey(c: nat)
      requires Game.Consistent(State()) && c < 8
      modifies this
      ensures State() == Game.ColumnKey(old(State()), c)
    {
      var nfree := CountFree();
      if selected && selcol != c {
        Supermove(c, nfree);
      } else if wselected {
        CellToColumnKey(c);
      } else {
        SelectColumnKey(c, nfree);
      }
    }

    /** A free-cell key (lines 657-688). */
    method CellKey(w: nat)
      requires Game.Consistent(State()) && w < 4
      modifies this
      ensures State() == Game.CellKey(old(State()), w)
    {
      if selected {
        var col := column[selcol];
        if seln == 1 && work[w].None? && |col| > 0 {
          PushUndo();
          work := work[w := Some(Top(col))];
          column := column[selcol := col[..|col| - 1]];
        }
        selected := false;
      } else if wselected {
        if work[w].None? {
          PushUndo();
          work := work[w := work[selcol]];
          work := work[selcol := None];
        }
        wselected := false;
      } else if work[w].Some? {
        wselected := true;
        selcol := w;
      }
    }

    /** Space (lines 496-509): with a selection pending, the key of the first empty cell, or Escape. */
    method SpaceKey()
      requires Game.Consistent(State())
      modifies this
      ensures State() == Game.Handle(old(State()), Game.Space)
    {
      if selected || wselected {
        var cell := FirstEmptyCell();
        if cell.Some? {
          CellKey(cell.value);
        } else {
          selected := false;
          wselected := false;
        }
      }
    }

    /** The handler of lines 495-689 for one decoded key. */
    method HandleKey(cmd: Game.Command)
      requires Game.Consistent(State()) && Game.CommandOk(cmd)
      modifies this
      ensures State() == Game.Handle(old(State()), cmd)
    {
      match cmd
      case SelectColumn(c) => ColumnKey(c);
      case SelectCell(w) => CellKey(w);
      case Enter => EnterKey();
      case Escape =>
        selected := false;
        wselected := false;
      case Space => SpaceKey();
      case Undo => PopUndo();
      case Restart => NewDeal();
      case NewGame(s, d) => StartNew(s, d);
    }

    /** `n` (lines 512-519): a new seed and deck, zeroed counters, then a fresh deal. */
    method StartNew(newSeed: nat, newDeck: seq<Card>)
      requires |newDeck| == 52
      modifies this
      ensures State() == Game.StartNew(old(State()), newSeed, newDeck)
    {
      seed := newSeed;
      nmoves, nundos := 0, 0;
      deck := newDeck;
      NewDeal();
    }

    /**
     * One pass of the main loop (lines 438-689): settle, test for the win,
     * handle the key. The loop's invariant (every card of the game on the
     * table exactly once, and the rest of `Game.Inv`) holds again after it.
     */
    method Turn(cmd: Game.Command) returns (won: bool)
      requires Game.Inv(State()) && Game.CommandOk(cmd)
      modifies this
      ensures won <==> GameOver(Game.Settle(old(State())).layout.pile)
      ensures State() == Game.Turn(old(State()), cmd)
      ensures Game.Inv(State())
    {
      Game.SettleReady(State());
      Settle();
      won := GameOver(pile);
      HandleKey(cmd);
      Game.TurnPreservesInv(old(State()), cmd);
    }
  }
}
