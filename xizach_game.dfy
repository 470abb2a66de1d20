/** The rules engine of the Xì Zách table: the 52-card deck and its shuffle,
    card values, hand scores with ace reduction, the two special two-card
    hands (xì dách and xì bàng) and the comparison of a player's hand with
    the dealer's. */
module XiZachGame {

  import opened Wrappers

  // ---------------------------------------------------------------------
  // Cards
  // ---------------------------------------------------------------------

  datatype Suit = Spades | Hearts | Diamonds | Clubs

  datatype Rank = Ace | Two | Three | Four | Five | Six | Seven
                | Eight | Nine | Ten | Jack | Queen | King

  datatype Card = Card(rank: Rank, suit: Suit)

  /** The suits in the order of the outer loop that builds the deck. */
  const Suits: seq<Suit> := [Spades, Hearts, Diamonds, Clubs]

  /** The ranks in the order of the inner loop that builds the deck. */
  const Ranks: seq<Rank> :=
    [Ace, Two, Three, Four, Five, Six, Seven, Eight, Nine, Ten, Jack, Queen, King]

  function SuitIndex(s: Suit): (i: nat)
    ensures i < |Suits| && Suits[i] == s
  {
    match s
    case Spades => 0
    case Hearts => 1
    case Diamonds => 2
    case Clubs => 3
  }

  function RankIndex(r: Rank): (i: nat)
    ensures i < |Ranks| && Ranks[i] == r
  {
    match r
    case Ace => 0
    case Two => 1
    case Three => 2
    case Four => 3
    case Five => 4
    case Six => 5
    case Seven => 6
    case Eight => 7
    case Nine => 8
    case Ten => 9
    case Jack => 10
    case Queen => 11
    case King => 12
  }

  // ---------------------------------------------------------------------
  // The text form of a card: its rank text followed by one suit symbol,
  // e.g. "10♠" or "A♥".
  // ---------------------------------------------------------------------

  function RankText(r: Rank): string
  {
    match r
    case Ace => "A"
    case Two => "2"
    case Three => "3"
    case Four => "4"
    case Five => "5"
    case Six => "6"
    case Seven => "7"
    case Eight => "8"
    case Nine => "9"
    case Ten => "10"
    case Jack => "J"
    case Queen => "Q"
    case King => "K"
  }

  function SuitSymbol(s: Suit): char
  {
    match s
    case Spades => '\U{2660}'
    case Hearts => '\U{2665}'
    case Diamonds => '\U{2666}'
    case Clubs => '\U{2663}'
  }

  function CardText(c: Card): string
  {
    RankText(c.rank) + [SuitSymbol(c.suit)]
  }

  /** Different cards have different texts, so the 52 strings of a deck are
      pairwise distinct exactly when the cards are. */
  lemma CardTextInjective(a: Card, b: Card)
    ensures CardText(a) == CardText(b) ==> a == b
  {
    if CardText(a) == CardText(b) {
      var ta, tb := CardText(a), CardText(b);
      assert ta[|ta| - 1] == SuitSymbol(a.suit) && tb[|tb| - 1] == SuitSymbol(b.suit);
      assert ta[..|ta| - 1] == RankText(a.rank) && tb[..|tb| - 1] == RankText(b.rank);
      assert RankIndex(a.rank) == RankIndex(b.rank) by {
        match a.rank
        case Ten => assert |RankText(b.rank)| == 2;
        case _ => assert |RankText(b.rank)| == 1 && RankText(b.rank)[0] == RankText(a.rank)[0];
      }
    }
  }

  /** `card.startsWith('A')`: the test the score loop and xì bàng use for an ace. */
  predicate StartsWithAce(text: string)
  {
    |text| > 0 && text[0] == 'A'
  }

  lemma StartsWithAceIffAce(c: Card)
    ensures StartsWithAce(CardText(c)) <==> c.rank == Ace
  {
  }

  predicate IsDigit(ch: char)
  {
    '0' <= ch <= '9'
  }

  /** The value of the run of decimal digits at the front of `s`, with `acc`
      holding the digits already read. */
  function DigitRun(s: string, acc: nat): nat
    decreases |s|
  {
    if |s| == 0 || !IsDigit(s[0]) then acc
    else DigitRun(s[1..], acc * 10 + (s[0] as int - '0' as int))
  }

  /** `parseInt` on a string that starts with a digit; `None` stands for NaN. */
  function ParseLeadingInt(s: string): Option<nat>
  {
    if |s| == 0 || !IsDigit(s[0]) then None else Some(DigitRun(s, 0))
  }

  /** getCardValue on the text of a card: drop the suit symbol, then J/Q/K
      are 10, A is 11 and anything else is parsed as a decimal number. */
  function TextValue(text: string): Option<int>
  {
    var value := if |text| == 0 then "" else text[..|text| - 1];
    if value == "J" || value == "Q" || value == "K" then Some(10)
    else if value == "A" then Some(11)
    else match ParseLeadingInt(value)
      case None => None
      case Some(n) => Some(n)
  }

  // ---------------------------------------------------------------------
  // Card values and hand scores
  // ---------------------------------------------------------------------

  /** J, Q and K are worth 10, an ace 11 (its soft value), a numeric rank its numeral. */
  function CardValue(c: Card): (v: nat)
    ensures 2 <= v <= 11
    ensures v == 11 <==> c.rank == Ace
  {
    match c.rank
    case Ace => 11
    case Two => 2
    case Three => 3
    case Four => 4
    case Five => 5
    case Six => 6
    case Seven => 7
    case Eight => 8
    case Nine => 9
    case Ten => 10
    case Jack => 10
    case Queen => 10
    case King => 10
  }

  /** The value computed from a card's text agrees with CardValue for every card. */
  lemma TextValueAgrees(c: Card)
    ensures TextValue(CardText(c)) == Some(CardValue(c))
  {
    var t := CardText(c);
    assert t[..|t| - 1] == RankText(c.rank);
    match c.rank
    case Ten =>
      assert DigitRun("10", 0) == DigitRun("0", 1) == DigitRun("", 10) == 10;
    case Two => assert DigitRun("2", 0) == DigitRun("", 2);
    case Three => assert DigitRun("3", 0) == DigitRun("", 3);
    case Four => assert DigitRun("4", 0) == DigitRun("", 4);
    case Five => assert DigitRun("5", 0) == DigitRun("", 5);
    case Six => assert DigitRun("6", 0) == DigitRun("", 6);
    case Seven => assert DigitRun("7", 0) == DigitRun("", 7);
    case Eight => assert DigitRun("8", 0) == DigitRun("", 8);
    case Nine => assert DigitRun("9", 0) == DigitRun("", 9);
    case _ =>
  }

  /** The sum of the hand with every ace counted as 11. */
  function SoftTotal(cards: seq<Card>): nat
  {
    if cards == [] then 0
    else SoftTotal(cards[..|cards| - 1]) + CardValue(cards[|cards| - 1])
  }

  /** The number of aces in the hand. */
  function AceCount(cards: seq<Card>): nat
  {
    if cards == [] then 0
    else AceCount(cards[..|cards| - 1]) + (if cards[|cards| - 1].rank == Ace then 1 else 0)
  }

  lemma {:induction false} SoftTotalCoversAces(cards: seq<Card>)
    ensures AceCount(cards) <= |cards|
    ensures SoftTotal(cards) >= 11 * AceCount(cards) + 2 * (|cards| - AceCount(cards))
  {
    if cards != [] {
      SoftTotalCoversAces(cards[..|cards| - 1]);
    }
  }

  /** The total of the hand when `j` of its aces count as 1 instead of 11. */
  function WithAcesLow(cards: seq<Card>, j: nat): int
  {
    SoftTotal(cards) - 10 * j
  }

  /** How many aces count as 1 when, starting from `total`, one ace after
      another is turned from 11 into 1 while the total is over 21. */
  function AcesToReduce(total: int, aces: nat): (k: nat)
    ensures k <= aces
    decreases aces
  {
    if total <= 21 || aces == 0 then 0
    else 1 + AcesToReduce(total - 10, aces - 1)
  }

  /** Turning aces down stops at the first total of 21 or less, or when no
      ace is left. */
  lemma {:induction false} AcesToReduceIsFewest(total: int, aces: nat)
    ensures var k := AcesToReduce(total, aces);
      (total - 10 * k <= 21 || k == aces) && forall j :: 0 <= j < k ==> total - 10 * j > 21
    decreases aces
  {
    if !(total <= 21 || aces == 0) {
      AcesToReduceIsFewest(total - 10, aces - 1);
      var k' := AcesToReduce(total - 10, aces - 1);
      forall j | 0 <= j < 1 + k' ensures total - 10 * j > 21 {
        if j > 0 {
          assert (total - 10) - 10 * (j - 1) > 21;
        }
      }
    }
  }

  /** calculateScore: the total with aces at 11, less 10 for each ace the
      reduction turns into a 1. */
  function HandScore(cards: seq<Card>): (score: int)
    ensures 0 <= score <= SoftTotal(cards)
  {
    SoftTotalCoversAces(cards);
    SoftTotal(cards) - 10 * AcesToReduce(SoftTotal(cards), AceCount(cards))
  }

  /** The score is the best total of 21 or less that some choice of ace
      values reaches, or, when none does, the total with every ace at 1. */
  lemma HandScoreIsBest(cards: seq<Card>)
    ensures exists j :: 0 <= j <= AceCount(cards) && HandScore(cards) == WithAcesLow(cards, j)
    ensures forall j :: 0 <= j <= AceCount(cards) && WithAcesLow(cards, j) <= 21 ==>
              WithAcesLow(cards, j) <= HandScore(cards)
    ensures HandScore(cards) <= 21 || HandScore(cards) == WithAcesLow(cards, AceCount(cards))
  {
    SoftTotalCoversAces(cards);
    AcesToReduceIsFewest(SoftTotal(cards), AceCount(cards));
    var k := AcesToReduce(SoftTotal(cards), AceCount(cards));
    assert SoftTotal(cards) - 10 * k == WithAcesLow(cards, k);
  }

  /** calculateScore as the source runs it: a loop adding card values with
      aces at 11 while counting aces, then a loop turning aces into 1s while
      the total is over 21. */
  method CalculateScore(cards: seq<Card>) returns (score: int)
    ensures score == HandScore(cards)
  {
    score := 0;
    var aces: nat := 0;
    for i := 0 to |cards|
      invariant score == SoftTotal(cards[..i])
      invariant aces == AceCount(cards[..i])
    {
      assert cards[..i + 1][..i] == cards[..i];
      var value := CardValue(cards[i]);
      if cards[i].rank == Ace {
        aces := aces + 1;
        score := score + 11;
      } else {
        score := score + value;
      }
    }
    assert cards[..|cards|] == cards;
    ghost var soft, all := score, aces;
    while score > 21 && aces > 0
      invariant 0 <= aces <= all
      invariant score == soft - 10 * (all - aces)
      invariant AcesToReduce(soft, all) == (all - aces) + AcesToReduce(score, aces)
    {
      score := score - 10;
      aces := aces - 1;
    }
  }

  // ---------------------------------------------------------------------
  // Special hands
  // ---------------------------------------------------------------------

  /** Xì dách: exactly two cards scoring 21. */
  predicate IsBlackjack(cards: seq<Card>)
  {
    |cards| == 2 && HandScore(cards) == 21
  }

  /** Xì bàng: exactly two cards, both aces. */
  predicate IsXiBang(cards: seq<Card>)
  {
    |cards| == 2 && forall c :: c in cards ==> c.rank == Ace
  }

  predicate IsTenValued(c: Card)
  {
    c.rank == Ten || c.rank == Jack || c.rank == Queen || c.rank == King
  }

  lemma TwoCardTotals(cards: seq<Card>)
    requires |cards| == 2
    ensures SoftTotal(cards) == CardValue(cards[0]) + CardValue(cards[1])
    ensures AceCount(cards) == (if cards[0].rank == Ace then 1 else 0) + (if cards[1].rank == Ace then 1 else 0)
  {
    var first := cards[..1];
    assert cards[..|cards| - 1] == first && first[..|first| - 1] == [];
    assert SoftTotal(first) == CardValue(cards[0]) && AceCount(first) == (if cards[0].rank == Ace then 1 else 0);
  }

  /** A two-card 21 is exactly an ace with a 10, J, Q or K. */
  lemma BlackjackIsAceAndTen(cards: seq<Card>)
    requires |cards| == 2
    ensures IsBlackjack(cards) <==>
      (cards[0].rank == Ace && IsTenValued(cards[1])) || (IsTenValued(cards[0]) && cards[1].rank == Ace)
  {
    TwoCardTotals(cards);
    var a, b := cards[0], cards[1];
    if a.rank == Ace && b.rank == Ace {
      assert HandScore(cards) == 12;
    }
  }

  /** Two aces score 12, so no hand is both xì dách and xì bàng. */
  lemma NotBlackjackAndXiBang(cards: seq<Card>)
    ensures !(IsBlackjack(cards) && IsXiBang(cards))
  {
    if |cards| == 2 && IsXiBang(cards) {
      assert cards[0] in cards && cards[1] in cards;
      TwoCardTotals(cards);
      assert HandScore(cards) == 12;
    }
  }

  // ---------------------------------------------------------------------
  // Comparing a player's hand with the dealer's
  // ---------------------------------------------------------------------

  datatype Outcome = Win | Lose | Push

  /** compareHands, from the player's side: xì dách first, then xì bàng,
      then busts, then the higher score. */
  function CompareHands(player: seq<Card>, dealer: seq<Card>): Outcome
  {
    var playerScore := HandScore(player);
    var dealerScore := HandScore(dealer);
    var playerBlackjack := IsBlackjack(player);
    var dealerBlackjack := IsBlackjack(dealer);
    var playerXiBang := IsXiBang(player);
    var dealerXiBang := IsXiBang(dealer);
    if playerBlackjack || dealerBlackjack then
      (if playerBlackjack && dealerBlackjack then Push
       else if playerBlackjack then Win
       else Lose)
    else if playerXiBang || dealerXiBang then
      (if playerXiBang && dealerXiBang then Push
       else if playerXiBang then Win
       else Lose)
    else if playerScore > 21 && dealerScore > 21 then Push
    else if playerScore > 21 then Lose
    else if dealerScore > 21 then Win
    else if playerScore > dealerScore then Win
    else if playerScore < dealerScore then Lose
    else Push
  }

  /** The rank of a hand in the comparison: xì dách above xì bàng above
      every plain score of 21 or less, a bust below everything. */
  function Strength(hand: seq<Card>): int
  {
    if IsBlackjack(hand) then 23
    else if IsXiBang(hand) then 22
    else if HandScore(hand) > 21 then -1
    else HandScore(hand)
  }

  function CompareStrength(a: int, b: int): Outcome
  {
    if a > b then Win else if a < b then Lose else Push
  }

  /** compareHands is the comparison of the two hands' strengths: the
      precedence is a total preorder on hands. */
  lemma CompareHandsByStrength(player: seq<Card>, dealer: seq<Card>)
    ensures CompareHands(player, dealer) == CompareStrength(Strength(player), Strength(dealer))
  {
    NotBlackjackAndXiBang(player);
    NotBlackjackAndXiBang(dealer);
  }

  function Flip(o: Outcome): Outcome
  {
    match o
    case Win => Lose
    case Lose => Win
    case Push => Push
  }

  /** Swapping the player and the dealer turns win into lose and back, and
      keeps push. */
  lemma CompareHandsAntisymmetric(player: seq<Card>, dealer: seq<Card>)
    ensures CompareHands(dealer, player) == Flip(CompareHands(player, dealer))
  {
    CompareHandsByStrength(player, dealer);
    CompareHandsByStrength(dealer, player);
  }

  lemma CompareHandsReflexive(hand: seq<Card>)
    ensures CompareHands(hand, hand) == Push
  {
    CompareHandsByStrength(hand, hand);
  }

  /** If a beats b and b beats c then a beats c. */
  lemma CompareHandsTransitive(a: seq<Card>, b: seq<Card>, c: seq<Card>)
    requires CompareHands(a, b) == Win && CompareHands(b, c) == Win
    ensures CompareHands(a, c) == Win
  {
    CompareHandsByStrength(a, b);
    CompareHandsByStrength(b, c);
    CompareHandsByStrength(a, c);
  }

  /** A two-card 21 beats every hand that is not one, three-card 21s and
      two aces included. */
  lemma BlackjackBeatsEverythingElse(player: seq<Card>, dealer: seq<Card>)
    requires IsBlackjack(player) && !IsBlackjack(dealer)
    ensures CompareHands(player, dealer) == Win
    ensures CompareHands(dealer, player) == Lose
  {
  }

  /** Two aces beat every hand that is not xì dách or xì bàng, whatever its
      score, a 21 or a bust alike. */
  lemma XiBangBeatsEverythingButBlackjack(player: seq<Card>, dealer: seq<Card>)
    requires IsXiBang(player) && !IsBlackjack(dealer) && !IsXiBang(dealer)
    ensures CompareHands(player, dealer) == Win
    ensures CompareHands(dealer, player) == Lose
  {
    NotBlackjackAndXiBang(player);
  }

  /** Outside the special hands, a bust loses to any non-bust and two busts push. */
  lemma PlainBustRules(player: seq<Card>, dealer: seq<Card>)
    requires !IsBlackjack(player) && !IsXiBang(player) && !IsBlackjack(dealer) && !IsXiBang(dealer)
    ensures HandScore(player) > 21 && HandScore(dealer) > 21 ==> CompareHands(player, dealer) == Push
    ensures HandScore(player) > 21 && HandScore(dealer) <= 21 ==> CompareHands(player, dealer) == Lose
    ensures HandScore(player) <= 21 && HandScore(dealer) <= 21 ==>
              CompareHands(player, dealer) == CompareStrength(HandScore(player), HandScore(dealer))
  {
  }

  /** A dealer's xì dách beats a player's three-card 21. */
  lemma DealerBlackjackBeatsThreeCardTwentyOne()
    ensures CompareHands([Card(Seven, Spades), Card(Seven, Hearts), Card(Seven, Clubs)],
                         [Card(Ace, Diamonds), Card(King, Clubs)]) == Lose
  {
    var player := [Card(Seven, Spades), Card(Seven, Hearts), Card(Seven, Clubs)];
    var dealer := [Card(Ace, Diamonds), Card(King, Clubs)];
    BlackjackIsAceAndTen(dealer);
    assert !IsBlackjack(player);
  }

  /** A player's [10♠, A♥] against a dealer's [9♦, 8♣] wins; two xì dách push. */
  lemma BlackjackAgainstSeventeen()
    ensures CompareHands([Card(Ten, Spades), Card(Ace, Hearts)], [Card(Nine, Diamonds), Card(Eight, Clubs)]) == Win
    ensures CompareHands([Card(Ten, Spades), Card(Ace, Hearts)], [Card(Ace, Clubs), Card(Queen, Hearts)]) == Push
  {
    BlackjackIsAceAndTen([Card(Ten, Spades), Card(Ace, Hearts)]);
    BlackjackIsAceAndTen([Card(Nine, Diamonds), Card(Eight, Clubs)]);
    BlackjackIsAceAndTen([Card(Ace, Clubs), Card(Queen, Hearts)]);
  }

  // ---------------------------------------------------------------------
  // The deck
  // ---------------------------------------------------------------------

  /** The thirteen cards of one suit, A..K, in the order of the inner loop. */
  function SuitCards(s: Suit): (r: seq<Card>)
    ensures |r| == 13
  {
    seq(13, v requires 0 <= v < 13 => Card(Ranks[v], s))
  }

  /** The cards of the first `k` suits, in the order of the outer loop. */
  function DeckUpTo(k: nat): (r: seq<Card>)
    requires k <= 4
    ensures |r| == 13 * k
  {
    if k == 0 then [] else DeckUpTo(k - 1) + SuitCards(Suits[k - 1])
  }

  /** The unshuffled deck: for each suit in order, the ranks A..K. */
  function FullDeck(): seq<Card>
  {
    DeckUpTo(4)
  }

  predicate Distinct<T(==)>(s: seq<T>)
  {
    forall i, j :: 0 <= i < j < |s| ==> s[i] != s[j]
  }

  lemma {:induction false} DistinctCountsOnce<T>(s: seq<T>)
    requires Distinct(s)
    ensures forall x :: multiset(s)[x] == if x in s then 1 else 0
  {
    if s != [] {
      var init, last := s[..|s| - 1], s[|s| - 1];
      assert s == init + [last];
      DistinctCountsOnce(init);
      assert last !in init;
    }
  }

  /** One suit's thirteen cards hold every card of that suit once and no other card. */
  lemma SuitCardsCount(s: Suit)
    ensures forall c: Card :: multiset(SuitCards(s))[c] == if c.suit == s then 1 else 0
  {
    var d := SuitCards(s);
    forall i, j | 0 <= i < j < 13 ensures d[i] != d[j] {
      assert RankIndex(Ranks[i]) == i && RankIndex(Ranks[j]) == j;
    }
    DistinctCountsOnce(d);
    forall c: Card | c.suit == s ensures c in d {
      assert d[RankIndex(c.rank)] == c;
    }
  }

  /** Position `i` of the suit order holds the suit whose index is `i`. */
  lemma SuitIndexOf(i: nat)
    requires i < |Suits|
    ensures SuitIndex(Suits[i]) == i
  {
  }

  /** The first `k` suits' cards hold every card of those suits once and no other card. */
  lemma {:induction false} DeckUpToCount(k: nat)
    requires k <= 4
    ensures forall c: Card :: multiset(DeckUpTo(k))[c] == if SuitIndex(c.suit) < k then 1 else 0
  {
    if k > 0 {
      DeckUpToCount(k - 1);
      SuitCardsCount(Suits[k - 1]);
      SuitIndexOf(k - 1);
      forall c: Card
        ensures multiset(DeckUpTo(k))[c] == if SuitIndex(c.suit) < k then 1 else 0
      {
        assert c.suit == Suits[k - 1] <==> SuitIndex(c.suit) == k - 1;
      }
    }
  }

  /** Every one of the 52 (rank, suit) pairs is in the unshuffled deck exactly once. */
  lemma FullDeckHasEveryCardOnce()
    ensures |FullDeck()| == 52
    ensures forall c: Card :: multiset(FullDeck())[c] == 1
  {
    DeckUpToCount(4);
  }

  /** The random indices of one shuffle: at step `i` the source picks an
      index in [0, i]. */
  predicate ValidPicks(picks: seq<nat>, n: nat)
  {
    |picks| == n && forall i :: 0 < i < n ==> picks[i] <= i
  }

  function Swap(s: seq<Card>, i: nat, j: nat): seq<Card>
    requires i < |s| && j < |s|
  {
    s[i := s[j]][j := s[i]]
  }

  /** The Fisher-Yates shuffle of `s` from position `i` down to 1, swapping
      position k with position picks[k]. */
  function Shuffled(s: seq<Card>, picks: seq<nat>, i: int): seq<Card>
    requires ValidPicks(picks, |s|) && -1 <= i < |s|
    decreases i + 1
  {
    if i <= 0 then s else Shuffled(Swap(s, i, picks[i]), picks, i - 1)
  }

  lemma SwapPermutes(s: seq<Card>, i: nat, j: nat)
    requires i < |s| && j < |s|
    ensures |Swap(s, i, j)| == |s| && multiset(Swap(s, i, j)) == multiset(s)
  {
    var t := s[i := s[j]];
    assert multiset(t) == multiset(s) - multiset{s[i]} + multiset{s[j]};
    assert multiset(t[j := s[i]]) == multiset(t) - multiset{t[j]} + multiset{s[i]};
  }

  /** The shuffle returns a permutation of its input. */
  lemma {:induction false} ShuffledPermutes(s: seq<Card>, picks: seq<nat>, i: int)
    requires ValidPicks(picks, |s|) && -1 <= i < |s|
    ensures |Shuffled(s, picks, i)| == |s|
    ensures multiset(Shuffled(s, picks, i)) == multiset(s)
    decreases i + 1
  {
    if i > 0 {
      SwapPermutes(s, i, picks[i]);
      ShuffledPermutes(Swap(s, i, picks[i]), picks, i - 1);
    }
  }

  /** shuffleDeck: the in-place Fisher-Yates loop over the deck array. */
  method ShuffleDeck(deck: array<Card>, picks: seq<nat>)
    requires ValidPicks(picks, deck.Length)
    modifies deck
    ensures deck[..] == Shuffled(old(deck[..]), picks, deck.Length - 1)
    ensures multiset(deck[..]) == multiset(old(deck[..]))
  {
    var i := deck.Length - 1;
    while i > 0
      invariant -1 <= i < deck.Length
      invariant ValidPicks(picks, |deck[..]|)
      invariant Shuffled(deck[..], picks, i) == Shuffled(old(deck[..]), picks, deck.Length - 1)
    {
      var j := picks[i];
      ghost var before := deck[..];
      deck[i], deck[j] := deck[j], deck[i];
      assert deck[..] == Swap(before, i, j);
      i := i - 1;
    }
    ShuffledPermutes(old(deck[..]), picks, deck.Length - 1);
  }

  /** The deck `createDeck` returns for the given random picks: the
      unshuffled deck put through the shuffle. It holds every card once. */
  function NewDeck(picks: seq<nat>): (deck: seq<Card>)
    requires ValidPicks(picks, 52)
    ensures |deck| == 52
    ensures forall c: Card :: multiset(deck)[c] == 1
  {
    FullDeckHasEveryCardOnce();
    ShuffledPermutes(FullDeck(), picks, 51);
    Shuffled(FullDeck(), picks, 51)
  }

  /** createDeck: build the unshuffled deck with two nested loops, then shuffle it. */
  method CreateDeck(picks: seq<nat>) returns (deck: seq<Card>)
    requires ValidPicks(picks, 52)
    ensures |deck| == 52
    ensures forall c: Card :: multiset(deck)[c] == 1
    ensures deck == NewDeck(picks)
  {
    var ordered: seq<Card> := [];
    for s := 0 to 4
      invariant ordered == DeckUpTo(s)
    {
      for v := 0 to 13
        invariant ordered == DeckUpTo(s) + SuitCards(Suits[s])[..v]
      {
        assert SuitCards(Suits[s])[..v + 1] == SuitCards(Suits[s])[..v] + [Card(Ranks[v], Suits[s])];
        ordered := ordered + [Card(Ranks[v], Suits[s])];
      }
      assert SuitCards(Suits[s])[..13] == SuitCards(Suits[s]);
    }
    assert ordered == FullDeck();
    var a := new Card[52](i requires 0 <= i < 52 => ordered[i]);
    assert a[..] == ordered;
    ShuffleDeck(a, picks);
    deck := a[..];
    assert deck == NewDeck(picks);
  }
}
