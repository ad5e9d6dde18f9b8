/**
 * The positions of the cards: 8 columns, 4 free cells and 4 foundation piles
 * (`column`, `work` and `pile` in the program), and the card-conservation
 * invariant over them.
 */
module Tableau {
  import opened Cards

  /** One value of the three arrays: the table during play and every undo snapshot. */
  datatype Layout = Layout(column: seq<seq<Card>>, work: seq<Option<Card>>, pile: seq<Option<Card>>)

  /** Eight columns, four cells, four piles; pile k only ever holds a card of suit k. */
  predicate WellFormed(l: Layout)
  {
    |l.column| == 8 && |l.work| == 4 && |l.pile| == 4 &&
    forall k :: 0 <= k < 4 && l.pile[k].Some? ==> l.pile[k].value.kind == k
  }

  /** The cards of all the places in s, where place x holds the cards f(x). */
  function Sum<T>(s: seq<T>, f: T -> multiset<Card>): multiset<Card>
  {
    if |s| == 0 then multiset{} else Sum(s[..|s| - 1], f) + f(s[|s| - 1])
  }

  function ColumnCard(col: seq<Card>): multiset<Card>
  {
    multiset(col)
  }

  /** The cards lying in the columns. */
  function ColumnCards(cols: seq<seq<Card>>): multiset<Card>
  {
    Sum(cols, ColumnCard)
  }

  function CellCard(cell: Option<Card>): multiset<Card>
  {
    if cell.Some? then multiset{cell.value} else multiset{}
  }

  /** The cards lying in the free cells. */
  function CellCards(work: seq<Option<Card>>): multiset<Card>
  {
    Sum(work, CellCard)
  }

  /** A foundation whose top card is c holds the ranks 1..c.value of c's suit. */
  function RunOf(top: Option<Card>): multiset<Card>
  {
    if top.Some? then multiset(Ranks(top.value.kind, top.value.value)) else multiset{}
  }

  /** The cards lying on the foundations. */
  function PileCards(pile: seq<Option<Card>>): multiset<Card>
  {
    Sum(pile, RunOf)
  }

  function Total(l: Layout): multiset<Card>
  {
    ColumnCards(l.column) + CellCards(l.work) + PileCards(l.pile)
  }

  /** Card conservation: the table holds every card of the game exactly once. */
  predicate Conserved(l: Layout)
  {
    Total(l) == FullDeck()
  }

  /** The number of cards not yet on a foundation. */
  function Outside(l: Layout): nat
  {
    |ColumnCards(l.column) + CellCards(l.work)|
  }

  lemma Shift(a: multiset<Card>, a': multiset<Card>, b: multiset<Card>, u: multiset<Card>, v: multiset<Card>)
    requires a' + u == a + v
    ensures a' + b + u == a + b + v
  {
    forall c
      ensures (a' + b + u)[c] == (a + b + v)[c]
    {
      assert (a' + u)[c] == (a + v)[c];
    }
  }

  /** Updating an element before the last commutes with dropping the last element. */
  lemma PrefixUpdate<T>(s: seq<T>, i: nat, x: T)
    requires i + 1 < |s|
    ensures s[i := x][..|s| - 1] == s[..|s| - 1][i := x]
    ensures s[..|s| - 1][i] == s[i] && s[i := x][|s| - 1] == s[|s| - 1]
  {
  }

  /** Updating the last element leaves the prefix alone. */
  lemma PrefixUpdateLast<T>(s: seq<T>, x: T)
    requires 0 < |s|
    ensures s[|s| - 1 := x][..|s| - 1] == s[..|s| - 1]
  {
  }

  lemma Commute(a: multiset<Card>, u: multiset<Card>, v: multiset<Card>)
    ensures a + u + v == a + v + u
  {
    assert u + v == v + u;
  }

  /** Replacing place i by x swaps f(s[i]) for f(x) in the sum. */
  lemma {:induction false} SumUpdate<T>(s: seq<T>, i: nat, x: T, f: T -> multiset<Card>)
    requires i < |s|
    ensures Sum(s[i := x], f) + f(s[i]) == Sum(s, f) + f(x)
  {
    var n := |s| - 1;
    var y := s[i := x];
    assert Sum(y, f) == Sum(y[..n], f) + f(y[n]);
    assert Sum(s, f) == Sum(s[..n], f) + f(s[n]);
    if i < n {
      PrefixUpdate(s, i, x);
      SumUpdate(s[..n], i, x, f);
      var a, a', b := Sum(s[..n], f), Sum(y[..n], f), f(s[n]);
      assert Sum(y, f) == a' + b && Sum(s, f) == a + b;
      Shift(a, a', b, f(s[i]), f(x));
    } else {
      PrefixUpdateLast(s, x);
      Commute(Sum(s[..n], f), f(x), f(s[i]));
    }
  }

  lemma ColumnCardsUpdate(cols: seq<seq<Card>>, i: nat, x: seq<Card>)
    requires i < |cols|
    ensures ColumnCards(cols[i := x]) + multiset(cols[i]) == ColumnCards(cols) + multiset(x)
  {
    SumUpdate(cols, i, x, ColumnCard);
  }

  lemma CellCardsUpdate(work: seq<Option<Card>>, i: nat, x: Option<Card>)
    requires i < |work|
    ensures CellCards(work[i := x]) + CellCard(work[i]) == CellCards(work) + CellCard(x)
  {
    SumUpdate(work, i, x, CellCard);
  }

  lemma PileCardsUpdate(pile: seq<Option<Card>>, i: nat, x: Option<Card>)
    requires i < |pile|
    ensures PileCards(pile[i := x]) + RunOf(pile[i]) == PileCards(pile) + RunOf(x)
  {
    SumUpdate(pile, i, x, RunOf);
  }

  lemma {:induction false} NoColumnCards(cols: seq<seq<Card>>)
    requires forall i :: 0 <= i < |cols| ==> cols[i] == []
    ensures ColumnCards(cols) == multiset{}
  {
    if |cols| > 0 {
      NoColumnCards(cols[..|cols| - 1]);
    }
  }

  lemma {:induction false} NoCellCards(work: seq<Option<Card>>)
    requires forall i :: 0 <= i < |work| ==> work[i] == None
    ensures CellCards(work) == multiset{}
  {
    if |work| > 0 {
      NoCellCards(work[..|work| - 1]);
    }
  }

  lemma {:induction false} NoPileCards(pile: seq<Option<Card>>)
    requires forall i :: 0 <= i < |pile| ==> pile[i] == None
    ensures PileCards(pile) == multiset{}
  {
    if |pile| > 0 {
      NoPileCards(pile[..|pile| - 1]);
    }
  }

  /** Taking the top card off column s. */
  lemma ColumnPop(cols: seq<seq<Card>>, s: nat)
    requires s < |cols| && |cols[s]| > 0
    ensures ColumnCards(cols[s := cols[s][..|cols[s]| - 1]]) + multiset{cols[s][|cols[s]| - 1]} == ColumnCards(cols)
  {
    var col := cols[s];
    var rest := col[..|col| - 1];
    ColumnCardsUpdate(cols, s, rest);
    assert col == rest + [col[|col| - 1]];
    var a := ColumnCards(cols[s := rest]);
    forall c
      ensures (a + multiset{col[|col| - 1]})[c] == ColumnCards(cols)[c]
    {
      assert (a + multiset(col))[c] == (ColumnCards(cols) + multiset(rest))[c];
    }
  }

  /** Laying a run of cards onto column d. */
  lemma ColumnPush(cols: seq<seq<Card>>, d: nat, run: seq<Card>)
    requires d < |cols|
    ensures ColumnCards(cols[d := cols[d] + run]) == ColumnCards(cols) + multiset(run)
  {
    ColumnCardsUpdate(cols, d, cols[d] + run);
    var a := ColumnCards(cols[d := cols[d] + run]);
    forall c
      ensures a[c] == (ColumnCards(cols) + multiset(run))[c]
    {
      assert (a + multiset(cols[d]))[c] == (ColumnCards(cols) + multiset(cols[d] + run))[c];
    }
  }

  /** Emptying free cell w. */
  lemma CellTake(work: seq<Option<Card>>, w: nat)
    requires w < |work| && work[w].Some?
    ensures CellCards(work[w := None]) + multiset{work[w].value} == CellCards(work)
  {
    CellCardsUpdate(work, w, None);
    var a := CellCards(work[w := None]);
    forall c
      ensures (a + multiset{work[w].value})[c] == CellCards(work)[c]
    {
      assert (a + CellCard(work[w]))[c] == (CellCards(work) + CellCard(None))[c];
    }
  }

  /** Filling the empty free cell w with t. */
  lemma CellPut(work: seq<Option<Card>>, w: nat, t: Card)
    requires w < |work| && work[w].None?
    ensures CellCards(work[w := Some(t)]) == CellCards(work) + multiset{t}
  {
    CellCardsUpdate(work, w, Some(t));
  }

  lemma {:induction false} ColumnCardsEmpty(cols: seq<seq<Card>>)
    requires ColumnCards(cols) == multiset{}
    ensures forall i :: 0 <= i < |cols| ==> cols[i] == []
  {
    if |cols| > 0 {
      var n := |cols| - 1;
      ColumnCardsEmpty(cols[..n]);
      assert multiset(cols[n]) == multiset{};
      assert forall i :: 0 <= i < n ==> cols[i] == cols[..n][i];
    }
  }

  lemma {:induction false} CellCardsEmpty(work: seq<Option<Card>>)
    requires CellCards(work) == multiset{}
    ensures forall i :: 0 <= i < |work| ==> work[i] == None
  {
    if |work| > 0 {
      var n := |work| - 1;
      CellCardsEmpty(work[..n]);
      assert forall i :: 0 <= i < n ==> work[i] == work[..n][i];
    }
  }

  lemma RunOfCount(top: Option<Card>, c: Card)
    ensures RunOf(top)[c] == if top.Some? && top.value.kind == c.kind && c.value <= top.value.value then 1 else 0
  {
    if top.Some? {
      RanksCount(top.value.kind, top.value.value, c);
    }
  }

  lemma {:induction false} PileCardsCountBelow(pile: seq<Option<Card>>, m: nat, c: Card)
    requires m <= |pile| == 4
    requires forall k :: 0 <= k < 4 && pile[k].Some? ==> pile[k].value.kind == k
    ensures PileCards(pile[..m])[c] ==
      if c.kind < m && pile[c.kind].Some? && c.value <= pile[c.kind].value.value then 1 else 0
  {
    if m > 0 {
      var prefix := pile[..m];
      assert prefix[..m - 1] == pile[..m - 1] && prefix[m - 1] == pile[m - 1];
      assert PileCards(prefix) == PileCards(pile[..m - 1]) + RunOf(pile[m - 1]);
      PileCardsCountBelow(pile, m - 1, c);
      RunOfCount(pile[m - 1], c);
      var x, y := PileCards(pile[..m - 1])[c], RunOf(pile[m - 1])[c];
      assert PileCards(prefix)[c] == x + y;
      assert pile[m - 1].Some? ==> pile[m - 1].value.kind == m - 1;
      if c.kind == m - 1 {
        assert x == 0;
      } else {
        assert y == 0;
      }
    } else {
      assert pile[..m] == [];
    }
  }

  /** On a well-formed table, a card is on the foundations iff its own suit's pile has reached its rank. */
  lemma PileCardsCount(l: Layout, c: Card)
    requires WellFormed(l)
    ensures PileCards(l.pile)[c] == if l.pile[c.kind].Some? && c.value <= l.pile[c.kind].value.value then 1 else 0
  {
    assert l.pile[..4] == l.pile;
    PileCardsCountBelow(l.pile, 4, c);
  }

  /** Uniqueness: on a conserving table every card lies in exactly one of the three kinds of place. */
  lemma ConservedUnique(l: Layout, c: Card)
    requires Conserved(l)
    ensures ColumnCards(l.column)[c] + CellCards(l.work)[c] + PileCards(l.pile)[c] == 1
  {
    FullDeckOnce(c);
  }

  lemma ConservedEach(l: Layout)
    requires Conserved(l)
    ensures forall c :: ColumnCards(l.column)[c] + CellCards(l.work)[c] + PileCards(l.pile)[c] == 1
  {
    forall c
      ensures ColumnCards(l.column)[c] + CellCards(l.work)[c] + PileCards(l.pile)[c] == 1
    {
      ConservedUnique(l, c);
    }
  }

  lemma KingsHoldEach(l: Layout)
    requires WellFormed(l)
    requires forall k :: 0 <= k < 4 ==> l.pile[k].Some? && l.pile[k].value.value == 13
    ensures forall c :: PileCards(l.pile)[c] == 1
  {
    forall c
      ensures PileCards(l.pile)[c] == 1
    {
      var k := c.kind;
      assert l.pile[k].Some? && l.pile[k].value.value == 13;
      PileCardsCount(l, c);
    }
  }

  /** Four Kings on the foundations stand for every card once. */
  lemma KingsHoldAll(l: Layout)
    requires WellFormed(l)
    requires forall k :: 0 <= k < 4 ==> l.pile[k].Some? && l.pile[k].value.value == 13
    ensures PileCards(l.pile) == FullDeck()
  {
    KingsHoldEach(l);
    forall c
      ensures PileCards(l.pile)[c] == FullDeck()[c]
    {
      FullDeckOnce(c);
    }
  }

  /** The King of suit k is on the foundations only when its pile has reached 13. */
  lemma KingPlaced(l: Layout, k: Suit)
    requires WellFormed(l) && PileCards(l.pile)[Card(13, k)] == 1
    ensures l.pile[k].Some? && l.pile[k].value.value == 13
  {
    PileCardsCount(l, Card(13, k));
  }
}
