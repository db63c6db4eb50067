/**
 * Scratchcards: a card's matches are its drawn numbers that are also winning numbers; part 1
 * scores 2^(matches-1) per card, part 2 lets each card win copies of the cards after it.
 */
module Day04 {
  import opened Common

  /** A card with its position in the input (`originalIndex`) and its two number sets. */
  datatype Scratchcard = Scratchcard(originalIndex: nat, name: string, winning: set<int>, drawn: set<int>)

  /** `intersection`: the drawn numbers that are winning numbers. */
  function Intersection(card: Scratchcard): (r: set<int>)
    ensures forall x :: x in r <==> x in card.drawn && x in card.winning
  {
    card.drawn * card.winning
  }

  /** `numCardsWon`: the number of matches, at most the size of either set. */
  function NumCardsWon(card: Scratchcard): (r: nat)
    ensures r <= |card.winning| && r <= |card.drawn|
  {
    var i := Intersection(card);
    assert i <= card.winning && i <= card.drawn;
    SubsetCardinality(i, card.winning);
    SubsetCardinality(i, card.drawn);
    |i|
  }

  lemma SubsetCardinality(a: set<int>, b: set<int>)
    requires a <= b
    ensures |a| <= |b|
  {
    assert b == a + (b - a);
  }

  /** `points`: 0 without a match, else 1 doubled once for every match after the first. */
  function Points(card: Scratchcard): (r: nat)
    ensures NumCardsWon(card) == 0 <==> r == 0
    ensures NumCardsWon(card) > 0 ==> r == Pow2(NumCardsWon(card) - 1)
  {
    var n := NumCardsWon(card);
    if n > 0 then Pow2(n - 1) else 0
  }

  /** One more match doubles a scoring card's points. */
  lemma PointsDouble(card: Scratchcard, x: int)
    requires NumCardsWon(card) > 0 && x !in card.drawn && x !in card.winning
    ensures Points(Scratchcard(card.originalIndex, card.name, card.winning + {x}, card.drawn + {x}))
            == 2 * Points(card)
  {
    var bigger := Scratchcard(card.originalIndex, card.name, card.winning + {x}, card.drawn + {x});
    assert Intersection(bigger) == Intersection(card) + {x};
  }

  /** Card 1 of the example: four of its drawn numbers win, so it is worth 8 points. */
  lemma PointsExample()
    ensures Points(Scratchcard(0, "Card 1", {41, 48, 83, 86, 17}, {83, 86, 6, 31, 17, 9, 48, 53})) == 8
  {
    var card := Scratchcard(0, "Card 1", {41, 48, 83, 86, 17}, {83, 86, 6, 31, 17, 9, 48, 53});
    assert Intersection(card) == {48, 83, 86, 17};
  }

  /** Part 1: the sum of the cards' points. */
  function TotalPoints(cards: seq<Scratchcard>): (r: nat)
    ensures cards == [] ==> r == 0
  {
    if cards == [] then 0 else Points(cards[0]) + TotalPoints(cards[1..])
  }

  /** Cards without matches add nothing to the pile's worth. */
  lemma {:induction false} TotalPointsZero(cards: seq<Scratchcard>)
    ensures TotalPoints(cards) == 0 <==> forall k | 0 <= k < |cards| :: NumCardsWon(cards[k]) == 0
  {
    if cards != [] {
      TotalPointsZero(cards[1..]);
      assert forall k | 1 <= k < |cards| :: cards[k] == cards[1..][k - 1];
    }
  }

  // ---- parsing ----------------------------------------------------------------------------------

  /**
   * `split(c, limit = 2)` destructured into two parts: the text before the first `c` and the
   * text after it; `None` when there is no `c` (the destructuring fails).
   */
  function SplitOnce(s: string, c: char): (r: Option<(string, string)>)
    ensures r.None? <==> c !in s
    ensures r.Some? ==> c !in r.value.0 && s == r.value.0 + [c] + r.value.1
  {
    if s == [] then None
    else if s[0] == c then Some(([], s[1..]))
    else match SplitOnce(s[1..], c)
      case None => None
      case Some((before, after)) => Some(([s[0]] + before, after))
  }

  predicate IsWhitespace(ch: char)
  {
    ch in {' ', '\t', '\n', '\r'}
  }

  /** The length of the leading run of whitespace. */
  function LeadingWhitespace(s: string): (n: nat)
    ensures n <= |s| && (forall k | 0 <= k < n :: IsWhitespace(s[k])) && (n < |s| ==> !IsWhitespace(s[n]))
  {
    if s == [] || !IsWhitespace(s[0]) then 0 else 1 + LeadingWhitespace(s[1..])
  }

  /** The length of the trailing run of whitespace. */
  function TrailingWhitespace(s: string): (n: nat)
    ensures n <= |s| && (forall k | |s| - n <= k < |s| :: IsWhitespace(s[k]))
    ensures n < |s| ==> !IsWhitespace(s[|s| - n - 1])
  {
    if s == [] || !IsWhitespace(s[|s| - 1]) then 0 else 1 + TrailingWhitespace(s[..|s| - 1])
  }

  /** `trim`: the text without its leading and trailing whitespace. */
  function Trim(s: string): (r: string)
    ensures |r| <= |s|
    ensures r != [] ==> !IsWhitespace(r[0]) && !IsWhitespace(r[|r| - 1])
    ensures forall k | 0 <= k < |s| && !IsWhitespace(s[k]) :: s[k] in r
  {
    var t := s[LeadingWhitespace(s)..];
    t[..|t| - TrailingWhitespace(t)]
  }

  /** The pieces of `s` between the spaces, in order, trimmed, empty pieces dropped. */
  function Words(s: string): (r: seq<string>)
    ensures forall k | 0 <= k < |r| :: r[k] != [] && ' ' !in r[k]
  {
    WordsFrom(s, [])
  }

  /** `Words` with the piece read so far held in `current`. */
  function WordsFrom(s: string, current: string): (r: seq<string>)
    requires ' ' !in current
    ensures forall k | 0 <= k < |r| :: r[k] != [] && ' ' !in r[k]
  {
    if s == [] then Keep(Trim(current))
    else if s[0] == ' ' then Keep(Trim(current)) + WordsFrom(s[1..], [])
    else WordsFrom(s[1..], current + [s[0]])
  }

  /** The filter on `isNotEmpty`: a trimmed piece survives only if something is left. */
  function Keep(piece: string): (r: seq<string>)
    requires ' ' !in piece
    ensures |r| <= 1 && forall k | 0 <= k < |r| :: r[k] == piece && piece != []
    ensures piece != [] ==> r == [piece]
  {
    if piece == [] then [] else [piece]
  }

  predicate IsDigit(ch: char) { '0' <= ch <= '9' }

  predicate AllDigits(s: string)
  {
    forall i | 0 <= i < |s| :: IsDigit(s[i])
  }

  function DecimalValue(digits: string): (r: nat)
    requires AllDigits(digits)
  {
    if digits == [] then 0
    else
      assert IsDigit(digits[|digits| - 1]);
      DecimalValue(digits[..|digits| - 1]) * 10 + (digits[|digits| - 1] as int - '0' as int)
  }

  const IntMin: int := -0x8000_0000
  const IntMax: int := 0x7FFF_FFFF

  /**
   * `String.toInt`: an optional sign then at least one decimal digit, within the 32-bit range;
   * `None` where the conversion fails.
   */
  function ParseInt(s: string): (r: Option<int>)
    ensures r.Some? ==> IntMin <= r.value <= IntMax
    ensures AllDigits(s) && s != [] && DecimalValue(s) <= IntMax ==> r == Some(DecimalValue(s))
  {
    var negative := s != [] && s[0] == '-';
    var digits := if s != [] && (s[0] == '-' || s[0] == '+') then s[1..] else s;
    if digits == [] || !AllDigits(digits) then None
    else
      var value: int := if negative then -(DecimalValue(digits) as int) else DecimalValue(digits);
      if IntMin <= value <= IntMax then Some(value) else None
  }

  /** Every word converts to an int; the set of them, or `None` when one does not convert. */
  function ParseNumbers(words: seq<string>): (r: Option<set<int>>)
    ensures r.Some? <==> forall k | 0 <= k < |words| :: ParseInt(words[k]).Some?
    ensures r.Some? ==> forall k | 0 <= k < |words| :: ParseInt(words[k]).value in r.value
    ensures r.Some? ==> forall x | x in r.value :: exists k | 0 <= k < |words| :: ParseInt(words[k]) == Some(x)
  {
    if words == [] then Some({})
    else
      var head, tail := ParseInt(words[0]), ParseNumbers(words[1..]);
      assert forall k | 1 <= k < |words| :: words[k] == words[1..][k - 1];
      if head.Some? && tail.Some? then Some({head.value} + tail.value) else None
  }

  /**
   * `parseScratchcard`: the name before the first ':', then the winning numbers before the first
   * '|' after it and the drawn numbers after that.
   */
  function ParseScratchcard(line: string, index: nat): (r: Option<Scratchcard>)
    ensures r.Some? ==> r.value.originalIndex == index
    ensures r.Some? ==> exists rest | ':' !in r.value.name :: line == r.value.name + ":" + rest && '|' in rest
    ensures ':' !in line ==> r.None?
  {
    match SplitOnce(line, ':')
    case None => None
    case Some((name, rest)) =>
      match SplitOnce(rest, '|')
      case None => None
      case Some((left, right)) =>
        match (ParseNumbers(Words(left)), ParseNumbers(Words(right)))
        case (Some(winning), Some(drawn)) => Some(Scratchcard(index, name, winning, drawn))
        case _ => None
  }

  // ---- part 2: copies ---------------------------------------------------------------------------

  /** The cards as the input list yields them: card k has original index k. */
  predicate Indexed(cards: seq<Scratchcard>)
  {
    forall k | 0 <= k < |cards| :: cards[k].originalIndex == k
  }

  /** The end (exclusive) of the cards that card k wins copies of: `min(k + won + 1, n)`. */
  function WinEnd(cards: seq<Scratchcard>, k: nat): (hi: nat)
    requires k < |cards|
    ensures k + 1 <= hi <= |cards|
  {
    Min(k + NumCardsWon(cards[k]) + 1, |cards|)
  }

  /** How many cards one instance of card k ends up as: itself and everything its wins bring. */
  function Instances(cards: seq<Scratchcard>, k: nat): (r: nat)
    requires k < |cards|
    ensures r >= 1
    decreases |cards| - k, 1
  {
    1 + InstancesIn(cards, k + 1, WinEnd(cards, k))
  }

  /** The `Instances` of the cards lo..hi-1 added up. */
  function InstancesIn(cards: seq<Scratchcard>, lo: nat, hi: nat): (r: nat)
    requires hi <= |cards|
    ensures r >= if lo < hi then hi - lo else 0
    decreases |cards| - lo + 1, 0
  {
    if lo >= hi then 0 else Instances(cards, lo) + InstancesIn(cards, lo + 1, hi)
  }

  /** Every queued card is the input card with its original index. */
  predicate FromInput(cards: seq<Scratchcard>, queue: seq<Scratchcard>)
  {
    forall j | 0 <= j < |queue| :: queue[j].originalIndex < |cards| && queue[j] == cards[queue[j].originalIndex]
  }

  lemma FromInputAppend(cards: seq<Scratchcard>, a: seq<Scratchcard>, b: seq<Scratchcard>)
    requires FromInput(cards, a) && FromInput(cards, b)
    ensures FromInput(cards, a + b)
  {
    forall j | 0 <= j < |a + b|
      ensures (a + b)[j].originalIndex < |cards| && (a + b)[j] == cards[(a + b)[j].originalIndex]
    {
      if j >= |a| {
        assert (a + b)[j] == b[j - |a|];
      }
    }
  }

  lemma FromInputRange(cards: seq<Scratchcard>, lo: nat, hi: nat)
    requires Indexed(cards) && lo <= hi <= |cards|
    ensures FromInput(cards, cards[lo..hi])
  {
    forall j | 0 <= j < hi - lo ensures cards[lo..hi][j] == cards[lo + j] && cards[lo + j].originalIndex == lo + j {
    }
  }

  /**
   * The `Instances` of every card of a queue, by original index (a card that is not one of
   * `cards` counts once; no queue of the program holds one).
   */
  function QueueInstances(cards: seq<Scratchcard>, queue: seq<Scratchcard>): (r: nat)
    ensures r >= |queue|
  {
    if queue == [] then 0
    else
      var k := queue[0].originalIndex;
      (if k < |cards| then Instances(cards, k) else 1) + QueueInstances(cards, queue[1..])
  }

  lemma {:induction false} QueueInstancesAppend(cards: seq<Scratchcard>, a: seq<Scratchcard>, b: seq<Scratchcard>)
    ensures QueueInstances(cards, a + b) == QueueInstances(cards, a) + QueueInstances(cards, b)
  {
    if a == [] {
      assert a + b == b;
    } else {
      assert (a + b)[1..] == a[1..] + b && (a + b)[0] == a[0];
      QueueInstancesAppend(cards, a[1..], b);
    }
  }

  /** Queueing the cards lo..hi-1 queues their `InstancesIn`. */
  lemma {:induction false} QueueOfRange(cards: seq<Scratchcard>, lo: nat, hi: nat)
    requires Indexed(cards) && lo <= hi <= |cards|
    ensures QueueInstances(cards, cards[lo..hi]) == InstancesIn(cards, lo, hi)
    decreases hi - lo
  {
    if lo < hi {
      assert cards[lo..hi][1..] == cards[lo + 1..hi];
      QueueOfRange(cards, lo + 1, hi);
    }
  }

  /**
   * `part2`: the pile grows as each card, original or copy, is processed and appends copies of
   * the next `numCardsWon` originals (clipped at the last card). The final size is the total
   * number of instances of the original cards, which is at least the number of originals.
   */
  method CountScratchcards(cards: seq<Scratchcard>) returns (count: nat)
    requires Indexed(cards)
    ensures count == InstancesIn(cards, 0, |cards|)
    ensures count >= |cards|
  {
    var scratchcards := cards;
    var i := 0;
    QueueOfRange(cards, 0, |cards|);
    assert scratchcards[i..] == cards[0..|cards|];
    while i < |scratchcards|
      invariant i <= |scratchcards| && |cards| <= |scratchcards| && scratchcards[..|cards|] == cards
      invariant FromInput(cards, scratchcards)
      invariant i + QueueInstances(cards, scratchcards[i..]) == InstancesIn(cards, 0, |cards|)
      decreases QueueInstances(cards, scratchcards[i..])
    {
      var scratchcard := scratchcards[i];
      var from, to := scratchcard.originalIndex + 1, Min(scratchcard.originalIndex + NumCardsWon(scratchcard) + 1, |cards|);
      assert scratchcard == cards[from - 1];
      assert to == WinEnd(cards, from - 1);
      var moreScratchCards := cards[from..to];
      var next := scratchcards + moreScratchCards;
      AppendFromInput(cards, scratchcards, from, to, next);
      ProcessCard(cards, scratchcards, i, to, next);
      scratchcards, i := next, i + 1;
    }
    count := |scratchcards|;
    InstancesInBound(cards, 0, |cards|);
  }

  /**
   * Processing the queued card at position i and appending its copies trades the card's own
   * `Instances` for those of its copies: one less than before.
   */
  lemma ProcessCard(cards: seq<Scratchcard>, queue: seq<Scratchcard>, i: nat, hi: nat, next: seq<Scratchcard>)
    requires Indexed(cards) && i < |queue| && queue[i].originalIndex < |cards|
    requires hi == WinEnd(cards, queue[i].originalIndex)
    requires next == queue + cards[queue[i].originalIndex + 1..hi]
    ensures QueueInstances(cards, next[i + 1..]) + 1 == QueueInstances(cards, queue[i..])
  {
    var k := queue[i].originalIndex;
    var more := cards[k + 1..hi];
    var rest := queue[i + 1..];
    var copies := InstancesIn(cards, k + 1, hi);
    QueueInstancesAt(cards, queue, i);
    QueueOfRange(cards, k + 1, hi);
    QueueInstancesAppend(cards, rest, more);
    AppendAfter(queue, more, i + 1);
    calc {
      QueueInstances(cards, next[i + 1..]) + 1;
      QueueInstances(cards, rest + more) + 1;
      QueueInstances(cards, rest) + copies + 1;
      QueueInstances(cards, rest) + Instances(cards, k);
      QueueInstances(cards, queue[i..]);
    }
  }

  lemma QueueInstancesAt(cards: seq<Scratchcard>, queue: seq<Scratchcard>, i: nat)
    requires i < |queue| && queue[i].originalIndex < |cards|
    ensures QueueInstances(cards, queue[i..])
            == Instances(cards, queue[i].originalIndex) + QueueInstances(cards, queue[i + 1..])
  {
    assert queue[i..][0] == queue[i] && queue[i..][1..] == queue[i + 1..];
  }

  /** Appending input cards keeps the pile made of input cards and keeps what was there. */
  lemma AppendFromInput(cards: seq<Scratchcard>, queue: seq<Scratchcard>, lo: nat, hi: nat, next: seq<Scratchcard>)
    requires Indexed(cards) && FromInput(cards, queue) && lo <= hi <= |cards|
    requires next == queue + cards[lo..hi]
    ensures FromInput(cards, next) && next[..|queue|] == queue
  {
    FromInputRange(cards, lo, hi);
    FromInputAppend(cards, queue, cards[lo..hi]);
    AppendAfter(queue, cards[lo..hi], 0);
  }

  lemma AppendAfter<T>(queue: seq<T>, more: seq<T>, i: nat)
    requires i <= |queue|
    ensures (queue + more)[i..] == queue[i..] + more && (queue + more)[..|queue|] == queue
  {
  }

  lemma InstancesInBound(cards: seq<Scratchcard>, lo: nat, hi: nat)
    requires lo <= hi <= |cards|
    ensures InstancesIn(cards, lo, hi) >= hi - lo
  {
  }
}
