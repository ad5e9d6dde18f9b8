/** The card model: ranks, suits, colours and the full 52-card deck. */
module Cards {

  /** 1 is the Ace, 11..13 Jack, Queen, King (`value` in the program). */
  type Rank = v: int | 1 <= v <= 13 witness 1

  /** The four suits 0..3 (`kind` in the program). */
  type Suit = k: int | 0 <= k <= 3

  datatype Card = Card(value: Rank, kind: Suit)

  datatype Option<T> = None | Some(value: T)

  /** `kind & 1`: suits 0 and 2 are black, 1 and 3 are red. */
  function Colour(k: Suit): int
  {
    k % 2
  }

  /** `k ^ m` on two-bit suit numbers. */
  function Xor(k: Suit, m: Suit): Suit
  {
    ((k as bv2) ^ (m as bv2)) as int
  }

  /** `k ^ 1` and `k ^ 3` are the two suits of the other colour, `k ^ 2` the other suit of the same colour. */
  lemma XorPartners(k: Suit)
    ensures Colour(Xor(k, 1)) != Colour(k) && Colour(Xor(k, 3)) != Colour(k)
    ensures Colour(Xor(k, 2)) == Colour(k)
    ensures Xor(k, 1) != k && Xor(k, 2) != k && Xor(k, 3) != k
    ensures Xor(k, 1) != Xor(k, 3) && Xor(k, 1) != Xor(k, 2) && Xor(k, 2) != Xor(k, 3)
  {
  }

  /** The ranks 1..n of suit k in increasing order: what a foundation of top rank n stands for. */
  function Ranks(k: Suit, n: nat): (r: seq<Card>)
    requires n <= 13
    ensures |r| == n
    ensures forall i :: 0 <= i < n ==> r[i] == Card(i + 1, k)
  {
    if n == 0 then [] else Ranks(k, n - 1) + [Card(n, k)]
  }

  lemma {:induction false} RanksCount(k: Suit, n: nat, c: Card)
    requires n <= 13
    ensures multiset(Ranks(k, n))[c] == if c.kind == k && c.value <= n then 1 else 0
  {
    if n > 0 {
      var r := Ranks(k, n - 1);
      RanksCount(k, n - 1, c);
      assert Ranks(k, n) == r + [Card(n, k)];
      assert multiset(Ranks(k, n))[c] == multiset(r)[c] + multiset{Card(n, k)}[c];
      assert multiset{Card(n, k)}[c] == if c.kind == k && c.value == n then 1 else 0;
    }
  }

  /** Position i of the canonical deck: suit i / 13, rank i % 13 + 1 (for i < 52). */
  function CardAt(i: int): Card
  {
    Card(i % 13 + 1, (i / 13) % 4)
  }

  /** Where card c sits in the canonical deck. */
  function IndexOf(c: Card): (i: nat)
    ensures i < 52 && CardAt(i) == c
    ensures forall j :: 0 <= j < 52 && CardAt(j) == c ==> j == i
  {
    c.kind * 13 + c.value - 1
  }

  /** Every card of the game, each once. */
  function FullDeck(): multiset<Card>
  {
    multiset(seq(52, CardAt))
  }

  lemma FullDeckOnce(c: Card)
    ensures FullDeck()[c] == 1
    ensures |FullDeck()| == 52
  {
    var s := seq(52, CardAt);
    var i := IndexOf(c);
    assert s[i] == c;
    assert s == s[..i] + [c] + s[i + 1..];
    forall j | 0 <= j < i
      ensures s[..i][j] != c
    {
      assert s[..i][j] == CardAt(j);
    }
    forall j | i + 1 <= j < 52
      ensures s[j] != c
    {
    }
    assert c !in s[..i];
    assert c !in s[i + 1..];
  }

  /** A multiset equal to the full deck holds every card once. */
  lemma FullDeckEach(m: multiset<Card>)
    requires m == FullDeck()
    ensures forall c :: m[c] == 1
  {
    forall c
      ensures m[c] == 1
    {
      FullDeckOnce(c);
    }
  }

  predicate Distinct(s: seq<Card>)
  {
    forall i, j :: 0 <= i < j < |s| ==> s[i] != s[j]
  }

  /** What `dealgame` leaves in `deck`: 52 distinct cards. */
  predicate IsDeck(deck: seq<Card>)
  {
    |deck| == 52 && Distinct(deck)
  }

  lemma {:induction false} DistinctAtMostOnce(s: seq<Card>, c: Card)
    requires Distinct(s)
    ensures multiset(s)[c] <= 1
  {
    if |s| > 0 {
      var n := |s| - 1;
      assert s == s[..n] + [s[n]];
      assert Distinct(s[..n]);
      DistinctAtMostOnce(s[..n], c);
      if c == s[n] {
        assert c !in s[..n];
      }
    }
  }

  lemma SubMultisetEqual(a: multiset<Card>, b: multiset<Card>)
    requires a <= b && |a| == |b|
    ensures a == b
  {
    var d := b - a;
    assert a + d == b;
    assert d == multiset{};
  }

  /** A deck of 52 distinct cards is a permutation of all the cards of the game. */
  lemma DeckIsFull(deck: seq<Card>)
    requires IsDeck(deck)
    ensures multiset(deck) == FullDeck()
  {
    forall c | true
      ensures multiset(deck)[c] <= FullDeck()[c]
    {
      DistinctAtMostOnce(deck, c);
      FullDeckOnce(c);
    }
    FullDeckOnce(Card(1, 0));
    SubMultisetEqual(multiset(deck), FullDeck());
  }
}
