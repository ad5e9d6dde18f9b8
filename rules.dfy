/**
 * The rules of the game, over one layout value: which moves are legal, what
 * each move does to the table, the safe-promotion heuristic, its quiescence
 * loop, the completion test and the initial deal.
 */
module Rules {
  import opened Cards
  import opened Tableau

  function Top(col: seq<Card>): Card
    requires |col| > 0
  {
    col[|col| - 1]
  }

  /** The rank on foundation k; 0 stands for an empty foundation. */
  function PileRank(pile: seq<Option<Card>>, k: Suit): int
    requires |pile| == 4
  {
    if pile[k].Some? then pile[k].value.value else 0
  }

  /** A foundation takes the next rank of its suit, and an empty one only the Ace. */
  predicate FoundationAccepts(pile: seq<Option<Card>>, card: Card)
    requires |pile| == 4
  {
    if pile[card.kind].Some? then card.value == pile[card.kind].value.value + 1 else card.value == 1
  }

  /** `upper` may lie on `lower` in a column: other colour, one rank lower. */
  predicate Linked(lower: Card, upper: Card)
  {
    Colour(lower.kind) != Colour(upper.kind) && upper.value + 1 == lower.value
  }

  /** A column takes any card when empty, otherwise a card that links to its top. */
  predicate ColumnAccepts(col: seq<Card>, card: Card)
  {
    |col| == 0 || Linked(Top(col), card)
  }

  /** The safe-promotion test `mayautomove`; `None` is the null card pointer. */
  predicate MayAutomove(pile: seq<Option<Card>>, card: Option<Card>)
    requires |pile| == 4
  {
    card.Some? && FoundationAccepts(pile, card.value) &&
    var v, k := card.value.value, card.value.kind;
    var ov1, ov2, sv := PileRank(pile, Xor(k, 1)), PileRank(pile, Xor(k, 3)), PileRank(pile, Xor(k, 2));
    (ov1 >= v - 1 && ov2 >= v - 1) || (ov1 >= v - 2 && ov2 >= v - 2 && sv >= v - 3)
  }

  /** `gameover`: every foundation holds a King. */
  predicate GameOver(pile: seq<Option<Card>>)
    requires |pile| == 4
  {
    forall k :: 0 <= k < 4 ==> pile[k].Some? && pile[k].value.value == 13
  }

  lemma FoundationAcceptsNextRank(pile: seq<Option<Card>>, card: Card)
    requires |pile| == 4
    ensures FoundationAccepts(pile, card) <==> card.value == PileRank(pile, card.kind) + 1
  {
  }

  /** The suit numbers `k ^ 1`, `k ^ 2`, `k ^ 3` written out. */
  lemma XorTable(k: Suit)
    ensures Xor(k, 1) == (if k % 2 == 0 then k + 1 else k - 1)
    ensures Xor(k, 2) == (if k < 2 then k + 2 else k - 2)
    ensures Xor(k, 3) == 3 - k
  {
  }

  /**
   * The heuristic stated over suits rather than suit numbers: the card is the
   * next of its foundation, and either every other-colour foundation has
   * reached v - 1, or every other-colour foundation has reached v - 2 and the
   * other foundation of the card's colour has reached v - 3.
   */
  lemma MayAutomoveBySuits(pile: seq<Option<Card>>, c: Card)
    requires |pile| == 4
    ensures MayAutomove(pile, Some(c)) <==>
      c.value == PileRank(pile, c.kind) + 1 &&
      ((forall s: Suit :: Colour(s) != Colour(c.kind) ==> PileRank(pile, s) >= c.value - 1) ||
       ((forall s: Suit :: Colour(s) != Colour(c.kind) ==> PileRank(pile, s) >= c.value - 2) &&
        (forall s: Suit :: s != c.kind && Colour(s) == Colour(c.kind) ==> PileRank(pile, s) >= c.value - 3)))
  {
    XorTable(c.kind);
  }

  /** Every legal Ace and every legal Two is promoted. */
  lemma LowCardsAlwaysSafe(pile: seq<Option<Card>>, c: Card)
    requires |pile| == 4 && c.value <= 2
    ensures MayAutomove(pile, Some(c)) <==> FoundationAccepts(pile, c)
  {
  }

  lemma GameOverFillsPiles(l: Layout)
    requires WellFormed(l) && GameOver(l.pile)
    ensures PileCards(l.pile) == FullDeck()
  {
    KingsHoldAll(l);
  }

  lemma FullPilesGameOver(l: Layout)
    requires WellFormed(l) && PileCards(l.pile) == FullDeck()
    ensures GameOver(l.pile)
  {
    FullDeckEach(PileCards(l.pile));
    forall k | 0 <= k < 4
      ensures l.pile[k].Some? && l.pile[k].value.value == 13
    {
      KingPlaced(l, k);
    }
  }

  /** All four foundations are complete exactly when they hold every card of the game. */
  lemma GameOverComplete(l: Layout)
    requires WellFormed(l)
    ensures GameOver(l.pile) <==> PileCards(l.pile) == FullDeck()
  {
    if GameOver(l.pile) {
      GameOverFillsPiles(l);
    }
    if PileCards(l.pile) == FullDeck() {
      FullPilesGameOver(l);
    }
  }

  /** When the game is over, the columns and the free cells are empty. */
  lemma GameOverClearsTable(l: Layout)
    requires WellFormed(l) && Conserved(l) && GameOver(l.pile)
    ensures forall i :: 0 <= i < 8 ==> l.column[i] == []
    ensures forall i :: 0 <= i < 4 ==> l.work[i] == None
  {
    GameOverComplete(l);
    var rest := ColumnCards(l.column) + CellCards(l.work);
    assert rest + PileCards(l.pile) == PileCards(l.pile);
    assert |rest + PileCards(l.pile)| == |rest| + |PileCards(l.pile)|;
    assert |rest| == 0;
    ColumnCardsEmpty(l.column);
    CellCardsEmpty(l.work);
  }

  /** Every card above position k links to the card beneath it. */
  predicate LinkedAbove(col: seq<Card>, k: int)
  {
    forall i :: 0 < i < |col| && k < i ==> Linked(col[i - 1], col[i])
  }

  /**
   * `maxn`: the length of the tail run, the longest suffix in which every
   * card links to the one beneath it.
   */
  function TailRun(col: seq<Card>): (r: nat)
    ensures |col| > 0 ==> 1 <= r <= |col|
    ensures |col| == 0 ==> r == 0
    ensures LinkedAbove(col, |col| - r)
    ensures 0 < r < |col| ==> !Linked(col[|col| - r - 1], col[|col| - r])
  {
    if |col| <= 1 then |col|
    else if Linked(col[|col| - 2], col[|col| - 1]) then
      TailRun(col[..|col| - 1]) + 1
    else 1
  }

  /** A suffix of n cards in which every card links to the one beneath it lies within the tail run. */
  lemma {:induction false} LinkedSuffixInTailRun(col: seq<Card>, n: nat)
    requires 1 <= n <= |col|
    requires LinkedAbove(col, |col| - n)
    ensures n <= TailRun(col)
  {
    if n > 1 {
      var rest := col[..|col| - 1];
      assert Linked(col[|col| - 2], col[|col| - 1]);
      forall i | |rest| - (n - 1) < i < |rest|
        ensures Linked(rest[i - 1], rest[i])
      {
        assert rest[i - 1] == col[i - 1] && rest[i] == col[i];
      }
      LinkedSuffixInTailRun(rest, n - 1);
    }
  }

  /** The cards above position k of the new column are linked: the run's own pairs, and the joint when k is below it. */
  lemma ArrivedLinked(dst: seq<Card>, src: seq<Card>, n: nat, k: int)
    requires 1 <= n <= |src| && LinkedAbove(src, |src| - n)
    requires |dst| > 0 ==> Linked(Top(dst), src[|src| - n])
    requires k == |dst| || (|dst| > 0 && k == |dst| - 1)
    ensures LinkedAbove(dst + src[|src| - n..], k)
  {
    var first := |src| - n;
    var col := dst + src[first..];
    forall i | 0 < i < |col| && k < i
      ensures Linked(col[i - 1], col[i])
    {
      if i == |dst| {
        assert col[i - 1] == Top(dst) && col[i] == src[first];
      } else {
        var j := first + i - |dst|;
        assert col[i - 1] == src[j - 1] && col[i] == src[j];
      }
    }
  }

  /** The top n cards of a column whose tail run is at least n are linked. */
  lemma TailRunLinked(src: seq<Card>, n: nat)
    requires n <= TailRun(src)
    ensures LinkedAbove(src, |src| - n)
  {
    assert LinkedAbove(src, |src| - TailRun(src));
  }

  /**
   * A run taken from the tail run of one column and laid on a column that
   * accepts its bottom card lies in the tail run of its new column, one card
   * deeper when that column was not empty.
   */
  lemma ArrivesAsRun(dst: seq<Card>, src: seq<Card>, n: nat)
    requires 1 <= n <= TailRun(src) && ColumnAccepts(dst, src[|src| - n])
    ensures n + (if |dst| > 0 then 1 else 0) <= TailRun(dst + src[|src| - n..])
  {
    TailRunLinked(src, n);
    var col := dst + src[|src| - n..];
    assert |col| == |dst| + n;
    if |dst| > 0 {
      ArrivedLinked(dst, src, n, |dst| - 1);
      LinkedSuffixInTailRun(col, n + 1);
    } else {
      ArrivedLinked(dst, src, n, |dst|);
      LinkedSuffixInTailRun(col, n);
    }
  }

  /** The tail run reaches down exactly to position i when the cards above i are linked and i is not. */
  lemma {:induction false} TailRunExact(col: seq<Card>, i: nat)
    requires i < |col| && LinkedAbove(col, i)
    requires i == 0 || !Linked(col[i - 1], col[i])
    ensures TailRun(col) == |col| - i
  {
    if |col| > 1 && i < |col| - 1 {
      var rest := col[..|col| - 1];
      assert Linked(col[|col| - 2], col[|col| - 1]);
      assert LinkedAbove(rest, i) by {
        forall j | 0 < j < |rest| && i < j
          ensures Linked(rest[j - 1], rest[j])
        {
          assert rest[j - 1] == col[j - 1] && rest[j] == col[j];
        }
      }
      assert i > 0 ==> rest[i - 1] == col[i - 1] && rest[i] == col[i];
      TailRunExact(rest, i);
    }
  }

  function EmptyCells(work: seq<Option<Card>>): (n: nat)
    ensures n <= |work|
  {
    if |work| == 0 then 0 else EmptyCells(work[..|work| - 1]) + (if work[|work| - 1].None? then 1 else 0)
  }

  function EmptyColumns(cols: seq<seq<Card>>): (n: nat)
    ensures n <= |cols|
  {
    if |cols| == 0 then 0 else EmptyColumns(cols[..|cols| - 1]) + (if |cols[|cols| - 1]| == 0 then 1 else 0)
  }

  /** The count of lines 590-592: the number of indices of empty free cells. */
  lemma {:induction false} EmptyCellsCount(work: seq<Option<Card>>)
    ensures EmptyCells(work) == |set i | 0 <= i < |work| && work[i].None?|
  {
    var all := set i | 0 <= i < |work| && work[i].None?;
    if |work| == 0 {
      assert all == {};
    } else {
      var m := |work| - 1;
      var p := work[..m];
      EmptyCellsCount(p);
      var below := set i | 0 <= i < m && p[i].None?;
      if work[m].None? {
        assert all == below + {m};
      } else {
        assert all == below;
      }
    }
  }

  /** The count of lines 593-595: the number of indices of empty columns. */
  lemma {:induction false} EmptyColumnsCount(cols: seq<seq<Card>>)
    ensures EmptyColumns(cols) == |set i | 0 <= i < |cols| && |cols[i]| == 0|
  {
    var all := set i | 0 <= i < |cols| && |cols[i]| == 0;
    if |cols| == 0 {
      assert all == {};
    } else {
      var m := |cols| - 1;
      var p := cols[..m];
      EmptyColumnsCount(p);
      var below := set i | 0 <= i < m && |p[i]| == 0;
      if |cols[m]| == 0 {
        assert all == below + {m};
      } else {
        assert all == below;
      }
    }
  }

  /** `nfree`: the buffers a supermove may use, empty free cells and empty columns. */
  function NFree(l: Layout): nat
  {
    EmptyCells(l.work) + EmptyColumns(l.column)
  }

  /** The first empty free cell at index i or later, if any. */
  function FirstEmptyFrom(work: seq<Option<Card>>, i: nat): (r: Option<nat>)
    requires i <= |work|
    decreases |work| - i
    ensures r.Some? ==> i <= r.value < |work| && work[r.value].None? &&
                        forall j :: i <= j < r.value ==> work[j].Some?
    ensures r.None? ==> forall j :: i <= j < |work| ==> work[j].Some?
  {
    if i == |work| then None else if work[i].None? then Some(i) else FirstEmptyFrom(work, i + 1)
  }

  /** The cell the space bar stands for. */
  function FirstEmpty(work: seq<Option<Card>>): Option<nat>
  {
    FirstEmptyFrom(work, 0)
  }

  /**
   * The cards that promotion looks at, in its scan order: positions 0..3 are
   * the free cells, positions 4..11 the tops of columns 0..7.
   */
  function Candidate(l: Layout, p: nat): Option<Card>
    requires WellFormed(l) && p < 12
  {
    if p < 4 then l.work[p]
    else if |l.column[p - 4]| > 0 then Some(Top(l.column[p - 4]))
    else None
  }

  /** No card may be promoted. */
  predicate Quiescent(l: Layout)
    requires WellFormed(l)
  {
    forall p :: 0 <= p < 12 ==> !MayAutomove(l.pile, Candidate(l, p))
  }

  function FirstAutomoveFrom(l: Layout, p: nat): (r: Option<nat>)
    requires WellFormed(l) && p <= 12
    decreases 12 - p
    ensures r.Some? ==> p <= r.value < 12 && MayAutomove(l.pile, Candidate(l, r.value)) &&
                        forall q :: p <= q < r.value ==> !MayAutomove(l.pile, Candidate(l, q))
    ensures r.None? ==> forall q :: p <= q < 12 ==> !MayAutomove(l.pile, Candidate(l, q))
  {
    if p == 12 then None
    else if MayAutomove(l.pile, Candidate(l, p)) then Some(p)
    else FirstAutomoveFrom(l, p + 1)
  }

  /** The position `automove` promotes from: the first in scan order whose card is safe. */
  function FirstAutomove(l: Layout): (r: Option<nat>)
    requires WellFormed(l)
    ensures r.None? <==> Quiescent(l)
    ensures r.Some? ==> r.value < 12 && MayAutomove(l.pile, Candidate(l, r.value)) &&
                        forall q :: 0 <= q < r.value ==> !MayAutomove(l.pile, Candidate(l, q))
  {
    FirstAutomoveFrom(l, 0)
  }

  /** Lines 547-548: the top card of column s goes onto its foundation. */
  function ColumnToPile(l: Layout, s: nat): (r: Layout)
    requires WellFormed(l) && s < 8 && |l.column[s]| > 0
    ensures WellFormed(r)
  {
    var col := l.column[s];
    var card := Top(col);
    l.(column := l.column[s := col[..|col| - 1]], pile := l.pile[card.kind := Some(card)])
  }

  /** Lines 566-567: the card of free cell w goes onto its foundation. */
  function CellToPile(l: Layout, w: nat): (r: Layout)
    requires WellFormed(l) && w < 4 && l.work[w].Some?
    ensures WellFormed(r)
  {
    var card := l.work[w].value;
    l.(work := l.work[w := None], pile := l.pile[card.kind := Some(card)])
  }

  /** Lines 610-613: the top n cards of column s go, in order, onto column d. */
  function RunToColumn(l: Layout, s: nat, n: nat, d: nat): (r: Layout)
    requires WellFormed(l) && s < 8 && d < 8 && s != d && n <= |l.column[s]|
    ensures WellFormed(r)
  {
    var src := l.column[s];
    var first := |src| - n;
    l.(column := l.column[d := l.column[d] + src[first..]][s := src[..first]])
  }

  /** A run taken from the tail run of column s and accepted by column d arrives there as a run, in order. */
  lemma RunArrives(l: Layout, s: nat, n: nat, d: nat)
    requires WellFormed(l) && s < 8 && d < 8 && s != d && 1 <= n <= TailRun(l.column[s])
    requires ColumnAccepts(l.column[d], l.column[s][|l.column[s]| - n])
    ensures var r, src := RunToColumn(l, s, n, d), l.column[s];
      r.column[d] == l.column[d] + src[|src| - n..] && r.column[s] == src[..|src| - n] &&
      (forall i :: 0 <= i < 8 && i != s && i != d ==> r.column[i] == l.column[i]) &&
      r.work == l.work && r.pile == l.pile &&
      n <= TailRun(r.column[d])
  {
    var src := l.column[s];
    var first := |src| - n;
    var moved := l.column[d] + src[first..];
    var r := RunToColumn(l, s, n, d);
    assert r.column == l.column[d := moved][s := src[..first]];
    assert r.column[d] == moved;
    ArrivesAsRun(l.column[d], src, n);
  }

  /** Lines 628-629: the card of free cell w goes onto column d. */
  function CellToColumn(l: Layout, w: nat, d: nat): (r: Layout)
    requires WellFormed(l) && w < 4 && d < 8 && l.work[w].Some?
    ensures WellFormed(r)
  {
    l.(column := l.column[d := l.column[d] + [l.work[w].value]], work := l.work[w := None])
  }

  /** Lines 672-673: the top card of column s goes into free cell w. */
  function ColumnToCell(l: Layout, s: nat, w: nat): (r: Layout)
    requires WellFormed(l) && s < 8 && w < 4 && |l.column[s]| > 0
    ensures WellFormed(r)
  {
    var col := l.column[s];
    l.(column := l.column[s := col[..|col| - 1]], work := l.work[w := Some(Top(col))])
  }

  /** Lines 679-680: the card of free cell w moves to free cell v. */
  function CellToCell(l: Layout, w: nat, v: nat): (r: Layout)
    requires WellFormed(l) && w < 4 && v < 4
    ensures WellFormed(r)
  {
    l.(work := l.work[v := l.work[w]][w := None])
  }

  /** A foundation that accepts t then stands for one more card, t. */
  lemma RunGrows(pile: seq<Option<Card>>, t: Card)
    requires |pile| == 4 && FoundationAccepts(pile, t)
    requires pile[t.kind].Some? ==> pile[t.kind].value.kind == t.kind
    ensures RunOf(Some(t)) == RunOf(pile[t.kind]) + multiset{t}
  {
    var k := t.kind;
    var below := Ranks(k, t.value - 1);
    assert Ranks(k, t.value) == below + [t];
    assert RunOf(Some(t)) == multiset(below) + multiset{t};
    if pile[k].None? {
      assert below == [];
    } else {
      assert pile[k].value == Card(t.value - 1, k);
    }
  }

  /** Laying t onto the foundation that accepts it. */
  lemma PilePush(pile: seq<Option<Card>>, t: Card)
    requires |pile| == 4 && FoundationAccepts(pile, t)
    requires pile[t.kind].Some? ==> pile[t.kind].value.kind == t.kind
    ensures PileCards(pile[t.kind := Some(t)]) == PileCards(pile) + multiset{t}
  {
    PileCardsUpdate(pile, t.kind, Some(t));
    RunGrows(pile, t);
    Cancel(PileCards(pile[t.kind := Some(t)]), PileCards(pile), RunOf(pile[t.kind]), multiset{t});
  }

  /** a + r == p + (r + m) leaves a == p + m. */
  lemma Cancel(a: multiset<Card>, p: multiset<Card>, r: multiset<Card>, m: multiset<Card>)
    requires a + r == p + (r + m)
    ensures a == p + m
  {
    forall c
      ensures a[c] == (p + m)[c]
    {
      assert (a + r)[c] == (p + (r + m))[c];
    }
  }

  /** One card t leaves the columns and cells (a + t == a0) and lands on the foundations. */
  lemma ToFoundation(a: multiset<Card>, a0: multiset<Card>, p: multiset<Card>, p0: multiset<Card>, t: Card)
    requires a + multiset{t} == a0 && p == p0 + multiset{t}
    ensures a + p == a0 + p0
  {
    forall c
      ensures (a + p)[c] == (a0 + p0)[c]
    {
      assert (a + multiset{t})[c] == a0[c];
    }
  }

  /** One card (or run) m leaves one place (x + m == x0) and arrives at another (y == y0 + m). */
  lemma Transfer(x: multiset<Card>, x0: multiset<Card>, y: multiset<Card>, y0: multiset<Card>, m: multiset<Card>)
    requires x + m == x0 && y == y0 + m
    ensures x + y == x0 + y0
  {
    forall c
      ensures (x + y)[c] == (x0 + y0)[c]
    {
      assert (x + m)[c] == x0[c];
    }
  }

  /** Removing t from x0 leaves x, next to (either side of) an unchanged y. */
  lemma Beside(x: multiset<Card>, x0: multiset<Card>, y: multiset<Card>, t: Card)
    requires x + multiset{t} == x0
    ensures x + y + multiset{t} == x0 + y
    ensures y + x + multiset{t} == y + x0
  {
    forall c
      ensures (x + y + multiset{t})[c] == (x0 + y)[c]
    {
      assert (x + multiset{t})[c] == x0[c];
    }
    forall c
      ensures (y + x + multiset{t})[c] == (y + x0)[c]
    {
      assert (x + multiset{t})[c] == x0[c];
    }
  }

  /** A card t moves from the columns and cells (c1 + t == c0) onto the foundations (p1 == p0 + t). */
  lemma Promoted(l: Layout, r: Layout, t: Card)
    requires ColumnCards(r.column) + CellCards(r.work) + multiset{t} == ColumnCards(l.column) + CellCards(l.work)
    requires PileCards(r.pile) == PileCards(l.pile) + multiset{t}
    ensures Total(r) == Total(l)
    ensures Outside(r) + 1 == Outside(l)
  {
    var a, a0 := ColumnCards(r.column) + CellCards(r.work), ColumnCards(l.column) + CellCards(l.work);
    ToFoundation(a, a0, PileCards(r.pile), PileCards(l.pile), t);
  }

  lemma ColumnToPileConserves(l: Layout, s: nat)
    requires WellFormed(l) && s < 8 && |l.column[s]| > 0 && FoundationAccepts(l.pile, Top(l.column[s]))
    ensures WellFormed(ColumnToPile(l, s))
    ensures Total(ColumnToPile(l, s)) == Total(l)
    ensures Outside(ColumnToPile(l, s)) + 1 == Outside(l)
  {
    var r := ColumnToPile(l, s);
    var t := Top(l.column[s]);
    ColumnPop(l.column, s);
    PilePush(l.pile, t);
    assert r.work == l.work;
    Beside(ColumnCards(r.column), ColumnCards(l.column), CellCards(l.work), t);
    Promoted(l, r, t);
  }

  lemma CellToPileConserves(l: Layout, w: nat)
    requires WellFormed(l) && w < 4 && l.work[w].Some? && FoundationAccepts(l.pile, l.work[w].value)
    ensures WellFormed(CellToPile(l, w))
    ensures Total(CellToPile(l, w)) == Total(l)
    ensures Outside(CellToPile(l, w)) + 1 == Outside(l)
  {
    var r := CellToPile(l, w);
    var t := l.work[w].value;
    CellTake(l.work, w);
    PilePush(l.pile, t);
    assert r.column == l.column;
    Beside(CellCards(r.work), CellCards(l.work), ColumnCards(l.column), t);
    Promoted(l, r, t);
  }

  lemma RunToColumnConserves(l: Layout, s: nat, n: nat, d: nat)
    requires WellFormed(l) && s < 8 && d < 8 && s != d && n <= |l.column[s]|
    ensures WellFormed(RunToColumn(l, s, n, d))
    ensures Total(RunToColumn(l, s, n, d)) == Total(l)
    ensures Outside(RunToColumn(l, s, n, d)) == Outside(l)
  {
    var r := RunToColumn(l, s, n, d);
    var src := l.column[s];
    var first := |src| - n;
    var mid := l.column[d := l.column[d] + src[first..]];
    ColumnPush(l.column, d, src[first..]);
    ColumnCardsUpdate(mid, s, src[..first]);
    assert mid[s] == src;
    assert src == src[..first] + src[first..];
    var a := ColumnCards(r.column);
    forall c
      ensures a[c] == ColumnCards(l.column)[c]
    {
      assert (a + multiset(src))[c] == (ColumnCards(mid) + multiset(src[..first]))[c];
    }
    assert a == ColumnCards(l.column);
  }

  lemma CellToColumnConserves(l: Layout, w: nat, d: nat)
    requires WellFormed(l) && w < 4 && d < 8 && l.work[w].Some?
    ensures WellFormed(CellToColumn(l, w, d))
    ensures Total(CellToColumn(l, w, d)) == Total(l)
    ensures Outside(CellToColumn(l, w, d)) == Outside(l)
  {
    var r := CellToColumn(l, w, d);
    var t := l.work[w].value;
    ColumnPush(l.column, d, [t]);
    CellTake(l.work, w);
    Transfer(CellCards(r.work), CellCards(l.work), ColumnCards(r.column), ColumnCards(l.column), multiset{t});
    assert ColumnCards(r.column) + CellCards(r.work) == CellCards(r.work) + ColumnCards(r.column);
    assert ColumnCards(l.column) + CellCards(l.work) == CellCards(l.work) + ColumnCards(l.column);
  }

  lemma ColumnToCellConserves(l: Layout, s: nat, w: nat)
    requires WellFormed(l) && s < 8 && w < 4 && |l.column[s]| > 0 && l.work[w].None?
    ensures WellFormed(ColumnToCell(l, s, w))
    ensures Total(ColumnToCell(l, s, w)) == Total(l)
    ensures Outside(ColumnToCell(l, s, w)) == Outside(l)
  {
    var r := ColumnToCell(l, s, w);
    var t := Top(l.column[s]);
    ColumnPop(l.column, s);
    CellPut(l.work, w, t);
    Transfer(ColumnCards(r.column), ColumnCards(l.column), CellCards(r.work), CellCards(l.work), multiset{t});
  }

  lemma CellToCellConserves(l: Layout, w: nat, v: nat)
    requires WellFormed(l) && w < 4 && v < 4 && w != v && l.work[w].Some? && l.work[v].None?
    ensures WellFormed(CellToCell(l, w, v))
    ensures Total(CellToCell(l, w, v)) == Total(l)
    ensures Outside(CellToCell(l, w, v)) == Outside(l)
  {
    var r := CellToCell(l, w, v);
    var t := l.work[w].value;
    var mid := l.work[v := l.work[w]];
    CellPut(l.work, v, t);
    assert mid[w] == l.work[w];
    CellTake(mid, w);
    assert mid[w := None] == r.work;
    forall c
      ensures CellCards(r.work)[c] == CellCards(l.work)[c]
    {
      assert (CellCards(r.work) + multiset{t})[c] == CellCards(mid)[c];
    }
    assert CellCards(r.work) == CellCards(l.work);
  }

  /** The card at scan position p goes onto its foundation. */
  function Promote(l: Layout, p: nat): Layout
    requires WellFormed(l) && p < 12 && Candidate(l, p).Some?
  {
    if p < 4 then CellToPile(l, p) else ColumnToPile(l, p - 4)
  }

  /**
   * One call of `automove`: the first safe card in scan order goes onto its
   * foundation; with no safe card the table is unchanged.
   */
  function AutoStep(l: Layout): (r: Layout)
    requires WellFormed(l)
    ensures WellFormed(r) && Total(r) == Total(l)
    ensures FirstAutomove(l).Some? ==> Outside(r) + 1 == Outside(l)
    ensures FirstAutomove(l).None? ==> r == l
  {
    match FirstAutomove(l)
    case None => l
    case Some(p) =>
      if p < 4 then CellToPileConserves(l, p); Promote(l, p)
      else ColumnToPileConserves(l, p - 4); Promote(l, p)
  }

  /** The scan reaches free cell i and finds its card safe: that card is the one promoted. */
  lemma PromoteCell(l: Layout, i: nat)
    requires WellFormed(l) && i < 4 && FirstAutomove(l) == FirstAutomoveFrom(l, i)
    requires MayAutomove(l.pile, l.work[i])
    ensures FirstAutomove(l) == Some(i)
    ensures AutoStep(l) == l.(work := l.work[i := None], pile := l.pile[l.work[i].value.kind := l.work[i]])
  {
    assert Candidate(l, i) == l.work[i];
  }

  /** The scan reaches column i and finds its top card safe: that card is the one promoted. */
  lemma PromoteColumnTop(l: Layout, i: nat)
    requires WellFormed(l) && i < 8 && FirstAutomove(l) == FirstAutomoveFrom(l, i + 4)
    requires |l.column[i]| > 0 && MayAutomove(l.pile, Some(Top(l.column[i])))
    ensures FirstAutomove(l) == Some(i + 4)
    ensures AutoStep(l) == ColumnToPile(l, i)
    ensures AutoStep(l) == l.(column := l.column[i := l.column[i][..|l.column[i]| - 1]],
                              pile := l.pile[Top(l.column[i]).kind := Some(Top(l.column[i]))])
  {
    assert Candidate(l, i + 4) == Some(Top(l.column[i]));
  }

  /** The scan passes a position whose card is not safe. */
  lemma ScanPasses(l: Layout, p: nat)
    requires WellFormed(l) && p < 12 && !MayAutomove(l.pile, Candidate(l, p))
    ensures FirstAutomoveFrom(l, p) == FirstAutomoveFrom(l, p + 1)
  {
  }

  /** The table after the loop of lines 440-447: promotion repeated until nothing is safe. */
  function Settled(l: Layout): (r: Layout)
    requires WellFormed(l)
    decreases Outside(l)
    ensures WellFormed(r) && Total(r) == Total(l) && Quiescent(r)
  {
    if FirstAutomove(l).None? then l else Settled(AutoStep(l))
  }

  /** On a quiescent table promotion moves nothing. */
  lemma QuiescentFixed(l: Layout)
    requires WellFormed(l) && Quiescent(l)
    ensures AutoStep(l) == l && Settled(l) == l
  {
  }

  /** A second run of the promotion loop moves nothing. */
  lemma SettledIdempotent(l: Layout)
    requires WellFormed(l)
    ensures Settled(Settled(l)) == Settled(l)
  {
    QuiescentFixed(Settled(l));
  }

  /** `newgame`'s dealing loop: card i of the deck goes onto column i mod 8. */
  function Deal(d: seq<Card>): (cols: seq<seq<Card>>)
    ensures |cols| == 8
  {
    if |d| == 0 then [[], [], [], [], [], [], [], []]
    else
      var prev := Deal(d[..|d| - 1]);
      var c := (|d| - 1) % 8;
      prev[c := prev[c] + [d[|d| - 1]]]
  }

  /** Column c holds d[c], d[c + 8], d[c + 16], ..., bottom to top. */
  lemma {:induction false} DealColumn(d: seq<Card>, c: nat)
    requires c < 8
    ensures |Deal(d)[c]| == (|d| - c + 7) / 8
    ensures forall j :: 0 <= j < |Deal(d)[c]| ==> c + 8 * j < |d| && Deal(d)[c][j] == d[c + 8 * j]
  {
    if |d| > 0 {
      var n := |d| - 1;
      var prev := d[..n];
      DealColumn(prev, c);
      DealCount(n, c);
      var before := Deal(prev)[c];
      assert forall j :: 0 <= j < |before| ==> prev[c + 8 * j] == d[c + 8 * j];
      if c == n % 8 {
        assert Deal(d)[c] == before + [d[n]];
      } else {
        assert Deal(d)[c] == before;
      }
    }
  }

  /** Card n of the deck lands on column c exactly when c is n mod 8, at height (n - c + 7) / 8. */
  lemma DealCount(n: nat, c: nat)
    requires c < 8
    ensures (n + 1 - c + 7) / 8 == (n - c + 7) / 8 + (if c == n % 8 then 1 else 0)
    ensures c == n % 8 ==> c + 8 * ((n - c + 7) / 8) == n
  {
    var q := n / 8;
    assert n == 8 * q + n % 8;
    if c <= n % 8 {
      assert (n - c + 7) / 8 == q + (if c == n % 8 then 0 else 1);
    } else {
      assert (n - c + 7) / 8 == q;
    }
  }

  /** A 52-card deck leaves 7 cards in columns 0..3 and 6 in columns 4..7. */
  lemma DealShape(d: seq<Card>, c: nat)
    requires |d| == 52 && c < 8
    ensures |Deal(d)[c]| == if c < 4 then 7 else 6
    ensures forall j :: 0 <= j < |Deal(d)[c]| ==> Deal(d)[c][j] == d[c + 8 * j]
  {
    DealColumn(d, c);
  }

  /** Dealing neither loses nor invents a card. */
  lemma {:induction false} DealConserves(d: seq<Card>)
    ensures ColumnCards(Deal(d)) == multiset(d)
  {
    if |d| == 0 {
      NoColumnCards(Deal(d));
    } else {
      var n := |d| - 1;
      var prev := Deal(d[..n]);
      var c := n % 8;
      DealConserves(d[..n]);
      assert Deal(d) == prev[c := prev[c] + [d[n]]];
      ColumnPush(prev, c, [d[n]]);
      LastSplit(d);
    }
  }

  /** A non-empty deck is its prefix plus its last card, as multisets. */
  lemma LastSplit(d: seq<Card>)
    requires |d| > 0
    ensures multiset(d) == multiset(d[..|d| - 1]) + multiset([d[|d| - 1]])
  {
    assert d == d[..|d| - 1] + [d[|d| - 1]];
  }

  /** `newgame`: empty cells and foundations, the deck dealt into the columns. */
  function Dealt(deck: seq<Card>): Layout
  {
    Layout(Deal(deck), [None, None, None, None], [None, None, None, None])
  }

  /** A fresh deal holds exactly the cards of the deck, all in the columns. */
  lemma DealtHoldsDeck(deck: seq<Card>)
    ensures Total(Dealt(deck)) == multiset(deck)
  {
    var l := Dealt(deck);
    DealConserves(deck);
    NoCellCards(l.work);
    NoPileCards(l.pile);
  }

  /** A fresh deal of a 52-card deck conserves the cards. */
  lemma DealtConserved(deck: seq<Card>)
    requires IsDeck(deck)
    ensures WellFormed(Dealt(deck)) && Conserved(Dealt(deck))
  {
    DealtHoldsDeck(deck);
    DeckIsFull(deck);
  }
}
