/** The card-shuffle index maps of solve22.py: each technique moves the card
    at one position to another, and its inverse map moves it back. */
module Shuffle {
  import opened Wrappers
  import NumberTheory
  import Decimal

  /** A shuffle technique; `DealWithIncrement` keeps the inverse of its step
      computed when it is built (`xstep`). */
  datatype Technique = DealIntoNewStack | Cut(n: int) | DealWithIncrement(step: int, xstep: int)

  datatype ShuffleError = UnknownTechnique(name: string) | NotInvertible(step: int)

  /** A technique as `_get_technique` builds it for a deck of `cards` cards. */
  predicate WellFormed(t: Technique, cards: int)
    requires cards >= 1
  {
    t.DealWithIncrement? ==> NumberTheory.ModInverse(t.step, cards) == Success(t.xstep)
  }

  /** `Shuffler._get_technique`: the technique named, or the exception for an
      unknown name or a step with no inverse modulo the deck size. */
  function GetTechnique(cards: int, name: string, n: int): (r: Result<Technique, ShuffleError>)
    requires cards >= 1
    ensures r.Success? ==> WellFormed(r.value, cards)
    ensures r.Failure? <==>
      (name !in {"deal into new stack", "cut", "deal with increment"} ||
       (name == "deal with increment" && NumberTheory.ModInverse(n, cards).Failure?))
    ensures r.Success? && name == "cut" ==> r.value == Cut(n)
    ensures r.Success? && name == "deal into new stack" ==> r.value == DealIntoNewStack
    ensures r.Success? && name == "deal with increment" ==> r.value.DealWithIncrement? && r.value.step == n
  {
    if name == "deal into new stack" then Success(DealIntoNewStack)
    else if name == "cut" then Success(Cut(n))
    else if name == "deal with increment" then
      match NumberTheory.ModInverse(n, cards)
      case Success(x) => Success(DealWithIncrement(n, x))
      case Failure(_) => Failure(NotInvertible(n))
    else Failure(UnknownTechnique(name))
  }

  /** `get_next_index`: where the card at `i` goes. */
  function Next(t: Technique, cards: int, i: int): int
    requires cards >= 1
  {
    match t
    case DealIntoNewStack => cards - i - 1
    case Cut(n) => (i - n) % cards
    case DealWithIncrement(step, _) => (step * i) % cards
  }

  /** `get_previous_index`: which position the card at `j` came from. */
  function Prev(t: Technique, cards: int, j: int): (i: int)
    requires cards >= 1
    ensures 0 <= i < cards
  {
    match t
    case DealIntoNewStack => (-j - 1) % cards
    case Cut(n) => (j + n) % cards
    case DealWithIncrement(_, xstep) => (xstep * j) % cards
  }

  /** On positions of the deck, `get_next_index` stays in the deck and
      `get_previous_index` undoes it, in both orders. */
  lemma NextPrevInverse(t: Technique, cards: int, i: int)
    requires cards >= 1 && WellFormed(t, cards) && 0 <= i < cards
    ensures 0 <= Next(t, cards, i) < cards
    ensures Prev(t, cards, Next(t, cards, i)) == i
    ensures Next(t, cards, Prev(t, cards, i)) == i
  {
    match t
    case DealIntoNewStack => NewStackInverse(cards, i);
    case Cut(n) => CutInverse(cards, n, i);
    case DealWithIncrement(step, xstep) => IncrementInverse(cards, step, xstep, i);
  }

  lemma IncrementInverse(cards: int, step: int, xstep: int, i: int)
    requires cards >= 1 && NumberTheory.ModInverse(step, cards) == Success(xstep) && 0 <= i < cards
    ensures var t := DealWithIncrement(step, xstep);
      Prev(t, cards, Next(t, cards, i)) == i && Next(t, cards, Prev(t, cards, i)) == i
  {
    NumberTheory.InverseCancels(step, xstep, i, cards);
  }

  lemma NewStackInverse(cards: int, i: int)
    requires cards >= 1 && 0 <= i < cards
    ensures var t := DealIntoNewStack;
      Prev(t, cards, Next(t, cards, i)) == i && Next(t, cards, Prev(t, cards, i)) == i
  {
    NumberTheory.ModOfLinear(-(cards - i - 1) - 1, i, -1, cards);
    NumberTheory.ModOfLinear(-i - 1, cards - i - 1, -1, cards);
    Decimal.DivUnique(i, cards, 0, i);
    Decimal.DivUnique(cards - i - 1, cards, 0, cards - i - 1);
  }

  lemma CutInverse(cards: int, n: int, i: int)
    requires cards >= 1 && 0 <= i < cards
    ensures var t := Cut(n);
      Prev(t, cards, Next(t, cards, i)) == i && Next(t, cards, Prev(t, cards, i)) == i
  {
    Decimal.DivUnique(i, cards, 0, i);
    var q := (i - n) / cards;
    assert i - n == q * cards + (i - n) % cards;
    NumberTheory.ModOfLinear((i - n) % cards + n, i, -q, cards);
    var q' := (i + n) / cards;
    assert i + n == q' * cards + (i + n) % cards;
    NumberTheory.ModOfLinear((i + n) % cards - n, i, -q', cards);
  }

  /** `track_one_card`: the techniques applied in order. */
  function Track(ts: seq<Technique>, cards: int, c: int): int
    requires cards >= 1
  {
    if ts == [] then c else Next(ts[|ts| - 1], cards, Track(ts[..|ts| - 1], cards, c))
  }

  /** `back_track_one_card`: the inverse maps applied in reverse order. */
  function BackTrack(ts: seq<Technique>, cards: int, c: int): int
    requires cards >= 1
  {
    if ts == [] then c else BackTrack(ts[..|ts| - 1], cards, Prev(ts[|ts| - 1], cards, c))
  }

  predicate AllWellFormed(ts: seq<Technique>, cards: int)
    requires cards >= 1
  {
    forall k :: 0 <= k < |ts| ==> WellFormed(ts[k], cards)
  }

  /** Tracking a card and back-tracking it are inverse on the deck, and both
      stay in the deck. */
  lemma {:induction false} TrackRoundTrip(ts: seq<Technique>, cards: int, c: int)
    requires cards >= 1 && AllWellFormed(ts, cards) && 0 <= c < cards
    ensures 0 <= Track(ts, cards, c) < cards
    ensures 0 <= BackTrack(ts, cards, c) < cards
    ensures BackTrack(ts, cards, Track(ts, cards, c)) == c
    ensures Track(ts, cards, BackTrack(ts, cards, c)) == c
    decreases |ts|
  {
    if ts != [] {
      var init, last := ts[..|ts| - 1], ts[|ts| - 1];
      assert AllWellFormed(init, cards) by {
        forall k | 0 <= k < |init| ensures WellFormed(init[k], cards) {
          assert init[k] == ts[k];
        }
      }
      TrackRoundTrip(init, cards, c);
      NextPrevInverse(last, cards, Track(init, cards, c));
      TrackRoundTrip(init, cards, Prev(last, cards, c));
      NextPrevInverse(last, cards, c);
    }
  }

  /** The techniques of a shuffle definition, or the first error. */
  function Techniques(cards: int, definition: seq<(string, int)>): (r: Result<seq<Technique>, ShuffleError>)
    requires cards >= 1
    ensures r.Success? ==> |r.value| == |definition| && AllWellFormed(r.value, cards)
    ensures r.Success? ==> forall k :: 0 <= k < |definition| ==>
      GetTechnique(cards, definition[k].0, definition[k].1) == Success(r.value[k])
  {
    if definition == [] then Success([])
    else
      var t :- GetTechnique(cards, definition[0].0, definition[0].1);
      var rest :- Techniques(cards, definition[1..]);
      assert forall k :: 1 <= k < |definition| ==> definition[k] == definition[1..][k - 1];
      Success([t] + rest)
  }

  /** One pass of `shuffle`: position `i` takes the card at `get_previous_index(i)`. */
  function Pull(deck: seq<int>, t: Technique, cards: int): (r: seq<int>)
    requires cards >= 1 && |deck| == cards
    ensures |r| == cards && forall i :: 0 <= i < cards ==> r[i] == deck[Prev(t, cards, i)]
  {
    seq(cards, i requires 0 <= i < cards => deck[Prev(t, cards, i)])
  }

  /** `Shuffler` over a deck of `cards` cards. The shuffle definition is passed
      in rather than read from `day22input.txt`. */
  class Shuffler {
    const cards: int
    const techniques: seq<Technique>

    constructor (cards: int, techniques: seq<Technique>)
      requires cards >= 1 && AllWellFormed(techniques, cards)
      ensures this.cards == cards && this.techniques == techniques
    {
      this.cards := cards;
      this.techniques := techniques;
    }

    predicate Valid()
    {
      cards >= 1 && AllWellFormed(techniques, cards)
    }

    /** `shuffle()`: position `i` of the result holds the card that ends up
        there, and the result is a permutation of `range(cards)`. */
    method ShuffleDeck() returns (deck: seq<int>)
      requires Valid()
      ensures |deck| == cards
      ensures forall i :: 0 <= i < cards ==> deck[i] == BackTrack(techniques, cards, i)
      ensures forall i :: 0 <= i < cards ==> 0 <= deck[i] < cards
      ensures forall i, j :: 0 <= i < j < cards ==> deck[i] != deck[j]
      ensures forall c :: 0 <= c < cards ==>
        0 <= Track(techniques, cards, c) < cards && deck[Track(techniques, cards, c)] == c
    {
      deck := seq(cards, i => i);
      var k := 0;
      while k < |techniques|
        invariant 0 <= k <= |techniques|
        invariant |deck| == cards
        invariant forall i :: 0 <= i < cards ==> deck[i] == BackTrack(techniques[..k], cards, i)
      {
        var t := techniques[k];
        deck := Pull(deck, t, cards);
        assert techniques[..k + 1][..k] == techniques[..k];
        k := k + 1;
      }
      assert techniques[..k] == techniques;
      forall i | 0 <= i < cards
        ensures 0 <= deck[i] < cards && Track(techniques, cards, deck[i]) == i
      {
        TrackRoundTrip(techniques, cards, i);
      }
      forall c | 0 <= c < cards
        ensures 0 <= Track(techniques, cards, c) < cards && deck[Track(techniques, cards, c)] == c
      {
        TrackRoundTrip(techniques, cards, c);
      }
    }

    /** `track_one_card(card_index)`. */
    method TrackOneCard(card: int) returns (index: int)
      requires Valid()
      ensures index == Track(techniques, cards, card)
      ensures 0 <= card < cards ==> 0 <= index < cards && BackTrack(techniques, cards, index) == card
    {
      index := card;
      var k := 0;
      while k < |techniques|
        invariant 0 <= k <= |techniques|
        invariant index == Track(techniques[..k], cards, card)
      {
        index := Next(techniques[k], cards, index);
        assert techniques[..k + 1][..k] == techniques[..k];
        k := k + 1;
      }
      assert techniques[..k] == techniques;
      if 0 <= card < cards {
        TrackRoundTrip(techniques, cards, card);
      }
    }

    /** `back_track_one_card(card_index)`. */
    method BackTrackOneCard(position: int) returns (card: int)
      requires Valid()
      ensures card == BackTrack(techniques, cards, position)
      ensures 0 <= position < cards ==> Track(techniques, cards, card) == position
    {
      card := position;
      var k := |techniques|;
      assert techniques[..k] == techniques;
      while k > 0
        invariant 0 <= k <= |techniques|
        invariant BackTrack(techniques[..k], cards, card) == BackTrack(techniques, cards, position)
      {
        assert techniques[..k][..k - 1] == techniques[..k - 1];
        card := Prev(techniques[k - 1], cards, card);
        k := k - 1;
      }
      if 0 <= position < cards {
        TrackRoundTrip(techniques, cards, position);
      }
    }
  }
}
