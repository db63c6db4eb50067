/**
 * Camel Cards: classifying five-card hands, letting jokers stand in for any card, ordering the
 * hands and weighting their bids by rank.
 */
module Day07 {
  import opened Common

  /** The cards, strongest first; `Joker` is what part 2 turns every 'J' into. */
  datatype Card = A | K | Q | J | T | Nine | Eight | Seven | Six | Five | Four | Three | Two | Joker

  function Rank(c: Card): (r: nat)
    ensures 1 <= r <= 14
    ensures r == 1 <==> c == Joker
  {
    match c
    case A => 14 case K => 13 case Q => 12 case J => 11 case T => 10
    case Nine => 9 case Eight => 8 case Seven => 7 case Six => 6
    case Five => 5 case Four => 4 case Three => 3 case Two => 2
    case Joker => 1
  }

  /** No two cards share a rank, so ranks decide card equality. */
  lemma RankInjective(c: Card, d: Card)
    ensures Rank(c) == Rank(d) <==> c == d
  {
  }

  function Label(c: Card): char
  {
    match c
    case A => 'A' case K => 'K' case Q => 'Q' case J => 'J' case T => 'T'
    case Nine => '9' case Eight => '8' case Seven => '7' case Six => '6'
    case Five => '5' case Four => '4' case Three => '3' case Two => '2'
    case Joker => '?'
  }

  /** `CHARS_TO_CARD_MAP`: the card with a given label, if any. */
  function CardOf(ch: char): (r: Option<Card>)
    ensures r.Some? ==> Label(r.value) == ch
  {
    match ch
    case 'A' => Some(A) case 'K' => Some(K) case 'Q' => Some(Q) case 'J' => Some(J)
    case 'T' => Some(T) case '9' => Some(Nine) case '8' => Some(Eight) case '7' => Some(Seven)
    case '6' => Some(Six) case '5' => Some(Five) case '4' => Some(Four) case '3' => Some(Three)
    case '2' => Some(Two) case '?' => Some(Joker)
    case _ => None
  }

  /** Every card is found again from its label. */
  lemma CardOfLabel(c: Card)
    ensures CardOf(Label(c)) == Some(c)
  {
  }

  /** The hand types, strongest first; a smaller ordinal is a stronger type. */
  datatype HandType = FiveOfAKind | FourOfAKind | FullHouse | ThreeOfAKind | TwoPair | OnePair | HighCard

  function Ordinal(t: HandType): (n: nat)
    ensures n <= 6
  {
    match t
    case FiveOfAKind => 0 case FourOfAKind => 1 case FullHouse => 2 case ThreeOfAKind => 3
    case TwoPair => 4 case OnePair => 5 case HighCard => 6
  }

  // ---------------------------------------------------------------------------------------------
  // Classification by label multiplicities
  // ---------------------------------------------------------------------------------------------

  /** The distinct cards of a hand in order of first appearance (the keys of `groupBy`). */
  function Distinct(cards: seq<Card>): (ds: seq<Card>)
    ensures forall c :: c in ds <==> c in cards
    ensures forall i, j | 0 <= i < j < |ds| :: ds[i] != ds[j]
    ensures |ds| <= |cards|
  {
    if cards == [] then []
    else
      var ds := Distinct(cards[..|cards| - 1]);
      assert forall c :: c in cards <==> c in cards[..|cards| - 1] || c == cards[|cards| - 1] by {
        assert cards == cards[..|cards| - 1] + [cards[|cards| - 1]];
      }
      if cards[|cards| - 1] in ds then ds else ds + [cards[|cards| - 1]]
  }

  /** The group sizes: how often each distinct card occurs. */
  function Sizes(cards: seq<Card>): (sizes: seq<nat>)
    ensures |sizes| == |Distinct(cards)|
  {
    CountsOf(Distinct(cards), cards)
  }

  function CountsOf(ds: seq<Card>, cards: seq<Card>): (counts: seq<nat>)
    ensures |counts| == |ds|
    ensures forall i | 0 <= i < |ds| :: counts[i] == CountOf(cards, ds[i])
  {
    if ds == [] then [] else [CountOf(cards, ds[0])] + CountsOf(ds[1..], cards)
  }

  /** The type a list of group sizes gives, decided in the order the source checks its cases. */
  function Classify(sizes: seq<nat>): HandType
  {
    if 5 in sizes then FiveOfAKind
    else if 4 in sizes then FourOfAKind
    else if 3 in sizes then (if 2 in sizes then FullHouse else ThreeOfAKind)
    else if CountOf(sizes, 2) == 2 then TwoPair
    else if CountOf(sizes, 2) == 1 then OnePair
    else HighCard
  }

  /** `determineHandType`: rejects a hand that does not have exactly five cards. */
  function DetermineHandType(cards: seq<Card>): (r: Option<HandType>)
    ensures r.Some? <==> |cards| == 5
  {
    if |cards| != 5 then None else Some(Classify(Sizes(cards)))
  }

  /** Some card occurs exactly k times. */
  predicate HasMultiplicity(cards: seq<Card>, k: nat)
  {
    exists i | 0 <= i < |cards| :: CountOf(cards, cards[i]) == k
  }

  /** The number of distinct cards occurring exactly twice. */
  function PairCount(cards: seq<Card>): nat
  {
    |set i | 0 <= i < |cards| && CountOf(cards, cards[i]) == 2 :: cards[i]|
  }

  /** A size appears in the group sizes exactly when some card occurs that often. */
  lemma SizesAreMultiplicities(cards: seq<Card>, k: nat)
    requires k >= 1
    ensures k in Sizes(cards) <==> HasMultiplicity(cards, k)
  {
    var ds := Distinct(cards);
    var sizes := Sizes(cards);
    if k in sizes {
      var i :| 0 <= i < |sizes| && sizes[i] == k;
      assert ds[i] in cards;
      var j :| 0 <= j < |cards| && cards[j] == ds[i];
      assert CountOf(cards, cards[j]) == k;
    }
    if HasMultiplicity(cards, k) {
      var j :| 0 <= j < |cards| && CountOf(cards, cards[j]) == k;
      assert cards[j] in ds;
      var i :| 0 <= i < |ds| && ds[i] == cards[j];
      assert sizes[i] == k;
    }
  }

  /** Counting the 2s among the group sizes counts the distinct pairs. */
  lemma SizesCountPairs(cards: seq<Card>)
    ensures CountOf(Sizes(cards), 2) == PairCount(cards)
  {
    var ds := Distinct(cards);
    var pairs := set i | 0 <= i < |cards| && CountOf(cards, cards[i]) == 2 :: cards[i];
    assert pairs == Paired(ds, cards);
    CountsMatching(ds, cards);
  }

  /** The cards of `ds` that occur exactly twice in `cards`. */
  function Paired(ds: seq<Card>, cards: seq<Card>): set<Card>
  {
    set c | c in ds && CountOf(cards, c) == 2
  }

  /** For a list without repeats, the number of its entries counted twice is the size of their set. */
  lemma {:induction false} CountsMatching(ds: seq<Card>, cards: seq<Card>)
    requires forall i, j | 0 <= i < j < |ds| :: ds[i] != ds[j]
    ensures CountOf(CountsOf(ds, cards), 2) == |Paired(ds, cards)|
  {
    var counts := CountsOf(ds, cards);
    if ds == [] {
      assert Paired(ds, cards) == {};
    } else {
      var n := |ds| - 1;
      CountsMatching(ds[..n], cards);
      assert counts[..n] == CountsOf(ds[..n], cards);
      PairedStep(ds, cards);
    }
  }

  /** Adding one new card to `ds` adds it to the paired set exactly when it occurs twice. */
  lemma PairedStep(ds: seq<Card>, cards: seq<Card>)
    requires ds != [] && ds[|ds| - 1] !in ds[..|ds| - 1]
    ensures |Paired(ds, cards)| == |Paired(ds[..|ds| - 1], cards)| + if CountOf(cards, ds[|ds| - 1]) == 2 then 1 else 0
  {
    var n := |ds| - 1;
    var s := Paired(ds, cards);
    var s' := Paired(ds[..n], cards);
    assert forall c :: c in ds <==> c in ds[..n] || c == ds[n] by {
      assert ds == ds[..n] + [ds[n]];
    }
    if CountOf(cards, ds[n]) == 2 {
      assert s == s' + {ds[n]};
    } else {
      assert s == s';
    }
  }

  /**
   * The type of a five-card hand read directly off its multiplicities: the classification does
   * not depend on the order in which `groupBy` lists the groups.
   */
  lemma HandTypeByMultiplicities(cards: seq<Card>)
    requires |cards| == 5
    ensures DetermineHandType(cards) == Some(
      if HasMultiplicity(cards, 5) then FiveOfAKind
      else if HasMultiplicity(cards, 4) then FourOfAKind
      else if HasMultiplicity(cards, 3) then (if HasMultiplicity(cards, 2) then FullHouse else ThreeOfAKind)
      else if PairCount(cards) == 2 then TwoPair
      else if PairCount(cards) == 1 then OnePair
      else HighCard)
  {
    SizesAreMultiplicities(cards, 5);
    SizesAreMultiplicities(cards, 4);
    SizesAreMultiplicities(cards, 3);
    SizesAreMultiplicities(cards, 2);
    SizesCountPairs(cards);
  }

  lemma {:induction false} CountOfConstant(h: seq<Card>, c: Card)
    requires forall i | 0 <= i < |h| :: h[i] == c
    ensures CountOf(h, c) == |h|
  {
    if h != [] {
      CountOfConstant(h[..|h| - 1], c);
    }
  }

  /** Five equal cards are five of a kind. */
  lemma FiveEqualCards(c: Card)
    ensures DetermineHandType([c, c, c, c, c]) == Some(FiveOfAKind)
  {
    var h := [c, c, c, c, c];
    CountOfConstant(h, c);
    assert CountOf(h, h[0]) == 5;
    HandTypeByMultiplicities(h);
  }

  // ---------------------------------------------------------------------------------------------
  // Jokers
  // ---------------------------------------------------------------------------------------------

  /** `sameAs`'s position test: equal cards, or a joker on either side. */
  predicate Compatible(a: Card, b: Card)
  {
    a == b || a == Joker || b == Joker
  }

  /** What `sameAs` decides for two lists of the same size. */
  predicate SameAs(a: seq<Card>, b: seq<Card>)
    requires |a| == |b|
  {
    forall i | 0 <= i < |a| :: Compatible(a[i], b[i])
  }

  /** `sameAs`: the index loop with its early return. */
  method SameAsLoop(a: seq<Card>, b: seq<Card>) returns (same: bool)
    requires |a| == |b|
    ensures same <==> SameAs(a, b)
  {
    for i := 0 to |a|
      invariant forall k | 0 <= k < i :: Compatible(a[k], b[k])
    {
      if a[i] != b[i] && a[i] != Joker && b[i] != Joker {
        return false;
      }
    }
    return true;
  }

  lemma SameAsReflexive(a: seq<Card>)
    ensures SameAs(a, a)
  {
  }

  lemma SameAsSymmetric(a: seq<Card>, b: seq<Card>)
    requires |a| == |b|
    ensures SameAs(a, b) <==> SameAs(b, a)
  {
  }

  /** `Card.entries` without `JOKER` and `J`, in declaration order: what joker hands are built from. */
  function Substitutes(): (cs: seq<Card>)
    ensures JokerFree(cs)
  {
    [A, K, Q, T, Nine, Eight, Seven, Six, Five, Four, Three, Two]
  }

  /** Every card other than `Joker` and `J` is a substitute. */
  lemma SubstitutesComplete(c: Card)
    requires c != Joker && c != J
    ensures c in Substitutes()
  {
    match c
    case A => assert Substitutes()[0] == c;
    case K => assert Substitutes()[1] == c;
    case Q => assert Substitutes()[2] == c;
    case T => assert Substitutes()[3] == c;
    case Nine => assert Substitutes()[4] == c;
    case Eight => assert Substitutes()[5] == c;
    case Seven => assert Substitutes()[6] == c;
    case Six => assert Substitutes()[7] == c;
    case Five => assert Substitutes()[8] == c;
    case Four => assert Substitutes()[9] == c;
    case Three => assert Substitutes()[10] == c;
    case Two => assert Substitutes()[11] == c;
  }

  /** A hand made only of substitute cards. */
  predicate JokerFree(h: seq<Card>)
  {
    forall i | 0 <= i < |h| :: h[i] != Joker && h[i] != J
  }

  /**
   * Every hand of substitute cards with as many cards as `shape`, in the order of the nested loops
   * over `Substitutes` (`ALL_POSSIBLE_HANDS_WITHOUT_JOKERS` is this for any five-card shape). The
   * length is given by a list rather than a number so that the verifier never expands the
   * universe for a known size.
   */
  function AllHands(shape: seq<Card>): (hs: seq<seq<Card>>)
    ensures forall i | 0 <= i < |hs| :: |hs[i]| == |shape| && JokerFree(hs[i])
  {
    if shape == [] then [[]] else PrependEach(Substitutes(), AllHands(shape[1..]), |shape| - 1)
  }

  /** Each card of `cs` in turn, followed by each of `hs` (all of length k). */
  function PrependEach(cs: seq<Card>, hs: seq<seq<Card>>, k: nat): (r: seq<seq<Card>>)
    requires JokerFree(cs)
    requires forall i | 0 <= i < |hs| :: |hs[i]| == k && JokerFree(hs[i])
    ensures forall i | 0 <= i < |r| :: |r[i]| == k + 1 && JokerFree(r[i])
  {
    if cs == [] then []
    else
      assert forall c | c in cs :: c == cs[0] || c in cs[1..] by {
        assert cs == [cs[0]] + cs[1..];
      }
      var first := PrefixAll(cs[0], hs, k);
      forall j | 0 <= j < |hs| ensures |first[j]| == k + 1 && JokerFree(first[j]) {
        assert forall p | 1 <= p < |first[j]| :: first[j][p] == hs[j][p - 1];
      }
      var rest := PrependEach(cs[1..], hs, k);
      first + rest
  }

  /** `c` followed by each of `hs`. */
  function PrefixAll(c: Card, hs: seq<seq<Card>>, k: nat): (r: seq<seq<Card>>)
    requires c != Joker && c != J
    requires forall i | 0 <= i < |hs| :: |hs[i]| == k && JokerFree(hs[i])
    ensures |r| == |hs|
    ensures forall j | 0 <= j < |hs| :: r[j] == [c] + hs[j]
  {
    if hs == [] then [] else [[c] + hs[0]] + PrefixAll(c, hs[1..], k)
  }

  /** The hand universe holds every hand of substitute cards of its length. */
  lemma {:induction false} AllHandsComplete(h: seq<Card>, shape: seq<Card>)
    requires JokerFree(h) && |h| == |shape|
    ensures h in AllHands(shape)
  {
    if h != [] {
      var rest := h[1..];
      assert h == [h[0]] + rest;
      AllHandsComplete(rest, shape[1..]);
      SubstitutesComplete(h[0]);
      PrependEachHas(Substitutes(), AllHands(shape[1..]), |rest|, h[0], rest);
    }
  }

  lemma PrependEachHas(cs: seq<Card>, hs: seq<seq<Card>>, k: nat, c: Card, h: seq<Card>)
    requires JokerFree(cs)
    requires forall i | 0 <= i < |hs| :: |hs[i]| == k && JokerFree(hs[i])
    requires c in cs && h in hs
    ensures [c] + h in PrependEach(cs, hs, k)
  {
    assert cs == [cs[0]] + cs[1..];
    if c == cs[0] {
      var j :| 0 <= j < |hs| && hs[j] == h;
      assert PrefixAll(c, hs, k)[j] == [c] + h;
    } else {
      PrependEachHas(cs[1..], hs, k, c, h);
    }
  }

  /**
   * `minOf(typeOf)` over the first n hands of `hs` that `sameAs`-match `cards`: the strongest
   * type among them, or nothing when none matches.
   */
  function StrongestMatch(hs: seq<seq<Card>>, n: nat, cards: seq<Card>, typeOf: seq<Card> -> HandType): (r: Option<HandType>)
    requires n <= |hs| && forall i | 0 <= i < |hs| :: |hs[i]| == |cards|
    ensures r.None? <==> forall i | 0 <= i < n :: !SameAs(hs[i], cards)
    ensures r.Some? ==> exists i | 0 <= i < n :: SameAs(hs[i], cards) && typeOf(hs[i]) == r.value
    ensures r.Some? ==> forall i | 0 <= i < n && SameAs(hs[i], cards) :: Ordinal(r.value) <= Ordinal(typeOf(hs[i]))
  {
    if n == 0 then None
    else
      var m := StrongestMatch(hs, n - 1, cards, typeOf);
      if !SameAs(hs[n - 1], cards) then m
      else
        var t := typeOf(hs[n - 1]);
        if m.None? || Ordinal(t) < Ordinal(m.value) then Some(t) else m
  }

  /** The type of a hand known to have five cards. */
  function FiveCardType(h: seq<Card>): HandType
  {
    Classify(Sizes(h))
  }

  /** `determineHandTypeWithJokers`: the strongest type over every joker-free hand it matches. */
  function DetermineHandTypeWithJokers(cards: seq<Card>): Option<HandType>
  {
    if |cards| != 5 then None else StrongestMatch(AllHands(cards), |AllHands(cards)|, cards, FiveCardType)
  }

  /**
   * A five-card hand with jokers but no plain `J` gets a type, and that type is the type of a
   * substitute hand it matches.
   */
  lemma JokerHandType(cards: seq<Card>)
    requires |cards| == 5 && J !in cards
    ensures DetermineHandTypeWithJokers(cards).Some?
    ensures exists h :: JokerFree(h) && |h| == 5 && SameAs(h, cards)
                        && DetermineHandType(h) == DetermineHandTypeWithJokers(cards)
  {
    var hs := AllHands(cards);
    var r := StrongestMatch(hs, |hs|, cards, FiveCardType);
    var w := seq(5, i requires 0 <= i < 5 => if cards[i] == Joker then A else cards[i]);
    AllHandsComplete(w, cards);
    assert SameAs(w, cards);
    var i :| 0 <= i < |hs| && SameAs(hs[i], cards) && FiveCardType(hs[i]) == r.value;
    assert DetermineHandType(hs[i]) == r;
  }

  /** ... and no substitute hand it matches has a stronger type. */
  lemma JokerHandTypeIsStrongest(cards: seq<Card>, h: seq<Card>)
    requires |cards| == 5 && JokerFree(h) && |h| == 5 && SameAs(h, cards)
    ensures DetermineHandTypeWithJokers(cards).Some?
    ensures Ordinal(DetermineHandTypeWithJokers(cards).value) <= Ordinal(DetermineHandType(h).value)
  {
    var hs := AllHands(cards);
    AllHandsComplete(h, cards);
    var j :| 0 <= j < |hs| && hs[j] == h;
    assert FiveCardType(h) == DetermineHandType(h).value;
  }

  /** A plain `J` next to a joker matches no substitute hand, and `minOf` has nothing to pick. */
  lemma JokerWithPlainJ(cards: seq<Card>)
    requires |cards| == 5 && J in cards
    ensures DetermineHandTypeWithJokers(cards).None?
  {
    var hs := AllHands(cards);
    var k :| 0 <= k < 5 && cards[k] == J;
    forall i | 0 <= i < |hs| ensures !SameAs(hs[i], cards) {
      assert !Compatible(hs[i][k], cards[k]);
    }
  }

  // ---------------------------------------------------------------------------------------------
  // Hands and their order
  // ---------------------------------------------------------------------------------------------

  /** A hand keeps the type computed when it was made (`val handType`). */
  datatype Hand = Hand(cards: seq<Card>, bid: int, handType: HandType)

  /** `Hand.handType`: hands with a joker go through the substitution. */
  function HandTypeOf(cards: seq<Card>): Option<HandType>
  {
    if Joker in cards then DetermineHandTypeWithJokers(cards) else DetermineHandType(cards)
  }

  /** Constructing a hand: fails when its type cannot be computed. */
  function MakeHand(cards: seq<Card>, bid: int): (r: Option<Hand>)
    ensures r.Some? <==> HandTypeOf(cards).Some?
    ensures r.Some? ==> r.value.cards == cards && r.value.bid == bid && Some(r.value.handType) == HandTypeOf(cards)
  {
    match HandTypeOf(cards)
    case None => None
    case Some(t) => Some(Hand(cards, bid, t))
  }

  /** A hand whose stored type is the one its cards give. */
  predicate WellFormed(h: Hand)
  {
    HandTypeOf(h.cards) == Some(h.handType)
  }

  /** The rank difference at the first position where the two lists differ in rank, else 0. */
  function FirstRankDifference(a: seq<Card>, b: seq<Card>): int
  {
    if a == [] || b == [] then 0
    else if Rank(a[0]) != Rank(b[0]) then Rank(b[0]) - Rank(a[0])
    else FirstRankDifference(a[1..], b[1..])
  }

  /** `compareTo`: negative when `a` sorts before `b`, i.e. when `a` is the stronger hand. */
  function Compare(a: Hand, b: Hand): int
  {
    var ta := a.handType;
    var tb := b.handType;
    if ta != tb then Ordinal(ta) - Ordinal(tb) else FirstRankDifference(a.cards, b.cards)
  }

  lemma {:induction false} FirstRankDifferenceAntisymmetric(a: seq<Card>, b: seq<Card>)
    ensures FirstRankDifference(a, b) == -FirstRankDifference(b, a)
  {
    if a != [] && b != [] && Rank(a[0]) == Rank(b[0]) {
      FirstRankDifferenceAntisymmetric(a[1..], b[1..]);
    }
  }

  lemma {:induction false} FirstRankDifferenceZero(a: seq<Card>, b: seq<Card>)
    requires |a| == |b|
    ensures FirstRankDifference(a, b) == 0 <==> a == b
  {
    if a != [] {
      RankInjective(a[0], b[0]);
      FirstRankDifferenceZero(a[1..], b[1..]);
      assert a == [a[0]] + a[1..] && b == [b[0]] + b[1..];
    }
  }

  /** The first position where the ranks differ decides, in favour of the higher rank. */
  lemma {:induction false} FirstRankDifferenceDecides(a: seq<Card>, b: seq<Card>, k: nat)
    requires k < |a| && k < |b| && a[..k] == b[..k] && a[k] != b[k]
    ensures FirstRankDifference(a, b) == Rank(b[k]) - Rank(a[k])
  {
    RankInjective(a[k], b[k]);
    if k > 0 {
      assert a[0] == a[..k][0] == b[..k][0] == b[0];
      assert a[1..][..k - 1] == a[..k][1..];
      assert b[1..][..k - 1] == b[..k][1..];
      FirstRankDifferenceDecides(a[1..], b[1..], k - 1);
    }
  }

  /** The comparison is antisymmetric. */
  lemma CompareAntisymmetric(a: Hand, b: Hand)
    ensures Compare(a, b) == -Compare(b, a)
  {
    FirstRankDifferenceAntisymmetric(a.cards, b.cards);
  }

  /** A strictly stronger type always sorts first. */
  lemma CompareStrongerTypeFirst(a: Hand, b: Hand)
    requires Ordinal(a.handType) < Ordinal(b.handType)
    ensures Compare(a, b) < 0
  {
  }

  /** Within one type, the first differing card decides by rank. */
  lemma CompareSameType(a: Hand, b: Hand, k: nat)
    requires a.handType == b.handType
    requires k < |a.cards| && k < |b.cards| && a.cards[..k] == b.cards[..k] && a.cards[k] != b.cards[k]
    ensures Compare(a, b) < 0 <==> Rank(a.cards[k]) > Rank(b.cards[k])
  {
    FirstRankDifferenceDecides(a.cards, b.cards, k);
  }

  /** Two hands tie exactly when they have the same type and the same cards. */
  lemma CompareZero(a: Hand, b: Hand)
    requires |a.cards| == |b.cards|
    ensures Compare(a, b) == 0 <==> a.handType == b.handType && a.cards == b.cards
  {
    FirstRankDifferenceZero(a.cards, b.cards);
  }

  /** The joker ranks below every other card, the two included. */
  lemma JokerIsWeakest(c: Card)
    requires c != Joker
    ensures Rank(Joker) < Rank(c) && Rank(Joker) < Rank(Two)
  {
  }

  // ---------------------------------------------------------------------------------------------
  // Ranking
  // ---------------------------------------------------------------------------------------------

  /** Ascending by `compareTo` between neighbours: strongest first. */
  predicate Sorted(hs: seq<Hand>)
  {
    forall i | 0 <= i < |hs| - 1 :: Compare(hs[i], hs[i + 1]) <= 0
  }

  /** Inserting into a sorted list after every hand that does not sort after `h`. */
  function Insert(h: Hand, hs: seq<Hand>): (r: seq<Hand>)
    requires Sorted(hs)
    ensures multiset(r) == multiset(hs) + multiset{h}
    ensures Sorted(r)
    ensures |r| == |hs| + 1
    ensures r[0] == h || (hs != [] && r[0] == hs[0])
  {
    if hs == [] then [h]
    else if Compare(h, hs[0]) < 0 then [h] + hs
    else
      var rest := Insert(h, hs[1..]);
      CompareAntisymmetric(h, hs[0]);
      assert hs == [hs[0]] + hs[1..];
      [hs[0]] + rest
  }

  /** `sorted()`: a stable sort by `compareTo`. */
  function SortHands(hs: seq<Hand>): (r: seq<Hand>)
    ensures multiset(r) == multiset(hs)
    ensures Sorted(r)
    ensures |r| == |hs|
  {
    if hs == [] then []
    else
      var n := |hs| - 1;
      assert hs == hs[..n] + [hs[n]];
      Insert(hs[n], SortHands(hs[..n]))
  }

  /** Sum of (index + 1) * bid over the list. */
  function WeightedBids(hs: seq<Hand>): int
  {
    if hs == [] then 0 else WeightedBids(hs[..|hs| - 1]) + |hs| * hs[|hs| - 1].bid
  }

  /** `rankThenSumBids`: the weakest hand has rank 1, the strongest rank n. */
  function RankThenSumBids(hs: seq<Hand>): int
  {
    WeightedBids(Reverse(SortHands(hs)))
  }

  /** Ranks count from the weakest: in the ranked list every hand is at most as strong as the next. */
  lemma RankedWeakestFirst(hs: seq<Hand>)
    ensures var ranked := Reverse(SortHands(hs));
            forall i | 0 <= i < |ranked| - 1 :: Compare(ranked[i + 1], ranked[i]) <= 0
  {
    var sorted := SortHands(hs);
    var ranked := Reverse(sorted);
    forall i | 0 <= i < |ranked| - 1 ensures Compare(ranked[i + 1], ranked[i]) <= 0 {
      var j := |sorted| - 2 - i;
      assert Compare(sorted[j], sorted[j + 1]) <= 0;
      assert ranked[i + 1] == sorted[j];
      assert ranked[i] == sorted[j + 1];
    }
  }

  /** With equal bids b, the total is b * (1 + ... + n) whatever the hands. */
  lemma {:induction false} WeightedEqualBids(hs: seq<Hand>, b: int)
    requires forall i | 0 <= i < |hs| :: hs[i].bid == b
    ensures 2 * WeightedBids(hs) == b * |hs| * (|hs| + 1)
  {
    if hs != [] {
      WeightedEqualBids(hs[..|hs| - 1], b);
    }
  }

  // ---------------------------------------------------------------------------------------------
  // Reading the hands
  // ---------------------------------------------------------------------------------------------

  /** The cards of a label string; in part 2 every 'J' is read as a joker. Fails on an unknown label. */
  function ParseCards(text: string, jokers: bool): (r: Option<seq<Card>>)
    ensures r.Some? ==> |r.value| == |text|
    ensures r.Some? && jokers ==> J !in r.value
  {
    if text == [] then Some([])
    else
      var ch := if jokers && text[0] == 'J' then '?' else text[0];
      match (CardOf(ch), ParseCards(text[1..], jokers))
      case (Some(c), Some(rest)) => Some([c] + rest)
      case _ => None
  }

  function Labels(cards: seq<Card>): (s: string)
    ensures |s| == |cards|
  {
    if cards == [] then [] else [Label(cards[0])] + Labels(cards[1..])
  }

  /** Reading back the labels of a hand gives the hand. */
  lemma {:induction false} ParseLabels(cards: seq<Card>)
    ensures ParseCards(Labels(cards), false) == Some(cards)
  {
    if cards != [] {
      CardOfLabel(cards[0]);
      ParseLabels(cards[1..]);
      var text := Labels(cards);
      assert text[0] == Label(cards[0]);
      assert text[1..] == Labels(cards[1..]);
      assert cards == [cards[0]] + cards[1..];
    }
  }

  /** Hands from (label, bid) pairs; fails if a label or a hand type cannot be read. */
  function ParseHands(input: seq<(string, int)>, jokers: bool): (r: Option<seq<Hand>>)
    ensures r.Some? ==> |r.value| == |input|
    ensures r.Some? ==> forall i | 0 <= i < |input| :: r.value[i].bid == input[i].1 && WellFormed(r.value[i])
  {
    if input == [] then Some([])
    else
      match ParseCards(input[0].0, jokers)
      case None => None
      case Some(cards) =>
        match (MakeHand(cards, input[0].1), ParseHands(input[1..], jokers))
        case (Some(h), Some(rest)) => Some([h] + rest)
        case _ => None
  }

  /** Part 1 (`jokers == false`) and part 2 (`jokers == true`): the total winnings. */
  function TotalWinnings(input: seq<(string, int)>, jokers: bool): Option<int>
  {
    match ParseHands(input, jokers)
    case None => None
    case Some(hands) => Some(RankThenSumBids(hands))
  }
}
