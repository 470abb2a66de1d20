/** The invariant a room keeps between events, stated on the values of its
    fields, and one lemma per kind of change the event handlers make to
    those fields, showing that the change keeps it. */
module RoomInvariant {

  import opened Wrappers
  import opened XiZachGame
  import opened Accounts
  import opened RoomRules

  /** Every seat's stored score is the score of its hand. */
  predicate ScoresCached(players: seq<Player>)
  {
    forall i :: 0 <= i < |players| ==> players[i].score == HandScore(players[i].cards)
  }

  predicate AllWaiting(players: seq<Player>)
  {
    forall i :: 0 <= i < |players| ==> players[i].status == PlayerStatus.Waiting
  }

  /** No card is counted more than once. */
  predicate OnceEach(m: multiset<Card>)
  {
    forall c | c in m :: m[c] <= 1
  }

  /** Every card in the room: the seats' hands, the dealer's hand and the deck. */
  function CardsOf(players: seq<Player>, deck: seq<Card>, dealerCards: seq<Card>): multiset<Card>
  {
    HandsOf(players) + multiset(dealerCards) + multiset(deck)
  }

  /** At most seven seats, one per user; every stored score is the score of
      its hand and a dealer score is the score of the dealer's hand; a room
      has a turn index exactly while a round is on, and a waiting room has
      only waiting seats; no card is in the room twice. */
  ghost predicate RoomOk(players: seq<Player>, status: GameStatus, turn: Option<nat>,
                         deck: seq<Card>, dealerCards: seq<Card>, dealerScore: Option<int>)
  {
    && |players| <= 7
    && DistinctUsers(players)
    && ScoresCached(players)
    && (dealerScore.Some? ==> dealerScore.value == HandScore(dealerCards))
    && (status == GameStatus.Waiting <==> turn.None?)
    && (status == GameStatus.Waiting ==> AllWaiting(players))
    && OnceEach(CardsOf(players, deck, dealerCards))
  }

  /** Changing a seat's flags or status keeps the invariant, as long as a
      waiting room's seat stays waiting. */
  lemma SeatChangeKeeps(players: seq<Player>, i: nat, seat: Player, status: GameStatus, turn: Option<nat>,
                        deck: seq<Card>, dealerCards: seq<Card>, dealerScore: Option<int>)
    requires RoomOk(players, status, turn, deck, dealerCards, dealerScore) && i < |players|
    requires seat.user == players[i].user && seat.cards == players[i].cards && seat.score == players[i].score
    requires status == GameStatus.Waiting ==> seat.status == PlayerStatus.Waiting
    ensures RoomOk(players[i := seat], status, turn, deck, dealerCards, dealerScore)
  {
    HandsOfSameCards(players, i, seat);
    SameUserKeepsDistinct(players, i, seat);
  }

  /** A seat taking the top card of the deck moves that card from the deck
      to the seat's hand: the room holds the same cards. */
  lemma DrawToSeatMovesCard(players: seq<Player>, i: nat, seat: Player, deck: seq<Card>, dealerCards: seq<Card>)
    requires i < |players| && |deck| > 0 && seat.cards == players[i].cards + [deck[|deck| - 1]]
    ensures CardsOf(players[i := seat], deck[..|deck| - 1], dealerCards) == CardsOf(players, deck, dealerCards)
  {
    var q := players[i := seat];
    var top, rest := deck[|deck| - 1], deck[..|deck| - 1];
    HandsOfUpdate(players, i, seat);
    assert deck == rest + [top];
    assert multiset(seat.cards) == multiset(players[i].cards) + multiset{top};
    assert multiset(deck) == multiset(rest) + multiset{top};
    forall c ensures CardsOf(q, rest, dealerCards)[c] == CardsOf(players, deck, dealerCards)[c] {
      assert (HandsOf(q) + multiset(players[i].cards))[c] == (HandsOf(players) + multiset(seat.cards))[c];
    }
  }

  /** Replacing a seat by one of the same user keeps the users distinct. */
  lemma SameUserKeepsDistinct(players: seq<Player>, i: nat, seat: Player)
    requires i < |players| && seat.user == players[i].user && DistinctUsers(players)
    ensures DistinctUsers(players[i := seat])
  {
    var q := players[i := seat];
    assert forall k :: 0 <= k < |q| ==> q[k].user == players[k].user;
  }

  /** A seat taking the top card of the deck keeps the invariant while a
      round is on. */
  lemma DrawToSeatKeeps(players: seq<Player>, i: nat, seat: Player, status: GameStatus, turn: Option<nat>,
                        deck: seq<Card>, dealerCards: seq<Card>, dealerScore: Option<int>)
    requires RoomOk(players, status, turn, deck, dealerCards, dealerScore) && i < |players| && |deck| > 0
    requires seat.user == players[i].user && seat.cards == players[i].cards + [deck[|deck| - 1]]
    requires seat.score == HandScore(seat.cards) && status != GameStatus.Waiting
    ensures RoomOk(players[i := seat], status, turn, deck[..|deck| - 1], dealerCards, dealerScore)
  {
    DrawToSeatMovesCard(players, i, seat, deck, dealerCards);
    SameUserKeepsDistinct(players, i, seat);
  }

  /** The dealer taking the top card of the deck, with the dealer score
      recomputed, keeps the invariant. */
  lemma DrawToDealerKeeps(players: seq<Player>, status: GameStatus, turn: Option<nat>,
                          deck: seq<Card>, dealerCards: seq<Card>)
    requires RoomOk(players, status, turn, deck, dealerCards, Some(HandScore(dealerCards))) && |deck| > 0
    ensures var hand := dealerCards + [deck[|deck| - 1]];
      RoomOk(players, status, turn, deck[..|deck| - 1], hand, Some(HandScore(hand)))
  {
    var top, rest := deck[|deck| - 1], deck[..|deck| - 1];
    assert deck == rest + [top];
    assert CardsOf(players, rest, dealerCards + [top]) == CardsOf(players, deck, dealerCards) by {
      assert multiset(dealerCards + [top]) == multiset(dealerCards) + multiset{top};
      assert multiset(deck) == multiset(rest) + multiset{top};
    }
  }

  /** Pushing a new seat for a user without one, below seven seats, keeps
      the invariant. */
  lemma AddSeatKeeps(players: seq<Player>, user: UserId, status: GameStatus, turn: Option<nat>,
                     deck: seq<Card>, dealerCards: seq<Card>, dealerScore: Option<int>)
    requires RoomOk(players, status, turn, deck, dealerCards, dealerScore)
    requires !Seated(players, user) && |players| < 7
    ensures RoomOk(players + [NewSeat(user, |players|)], status, turn, deck, dealerCards, dealerScore)
  {
    var q := players + [NewSeat(user, |players|)];
    HandsOfAppend(players, NewSeat(user, |players|));
    assert HandScore([]) == 0;
    assert forall k :: 0 <= k < |players| ==> q[k] == players[k];
    assert CardsOf(q, deck, dealerCards) == CardsOf(players, deck, dealerCards);
  }

  /** Removing a user's seats keeps the invariant. */
  lemma WithoutKeeps(players: seq<Player>, u: UserId, status: GameStatus, turn: Option<nat>,
                     deck: seq<Card>, dealerCards: seq<Card>, dealerScore: Option<int>)
    requires RoomOk(players, status, turn, deck, dealerCards, dealerScore)
    ensures RoomOk(Without(players, u), status, turn, deck, dealerCards, dealerScore)
  {
    var ps := Without(players, u);
    WithoutKeepsDistinct(players, u);
    WithoutKeepsOthers(players, u);
    HandsOfWithout(players, u);
    forall i | 0 <= i < |ps|
      ensures ps[i].score == HandScore(ps[i].cards)
      ensures status == GameStatus.Waiting ==> ps[i].status == PlayerStatus.Waiting
    {
      assert ps[i] in players;
      var k :| 0 <= k < |players| && players[k] == ps[i];
    }
    forall c ensures CardsOf(ps, deck, dealerCards)[c] <= 1 {
      assert CardsOf(players, deck, dealerCards)[c] <= 1;
    }
  }

  /** The room as the end of a round leaves it (waiting, no turn, no deck,
      no dealer hand, a dealer score of 0, every seat cleared) keeps the
      invariant. */
  lemma ClearedKeeps(ps: seq<Player>, players: seq<Player>)
    requires |ps| <= 7 && DistinctUsers(ps)
    requires |players| == |ps| && forall k :: 0 <= k < |ps| ==> players[k] == ClearedSeat(ps[k])
    ensures RoomOk(players, GameStatus.Waiting, None, [], [], Some(0))
  {
    HandsOfEmptyHands(players);
    assert HandScore([]) == 0;
    assert forall k :: 0 <= k < |ps| ==> players[k].user == ps[k].user;
  }

  /** The seat after being dealt two cards. */
  function Dealt(p: Player, first: Card, second: Card): Player
  {
    p.(cards := [first, second], score := HandScore([first, second]), status := PlayerStatus.Playing)
  }

  /** The room right after a deal from `startDeck` to the seats `ps` (host
      `h`): the round is playing, the turn is at the first seat not held by
      the host, seat i got the cards `top - 2i` and `top - 1 - 2i` (popped
      from the top), the dealer got the next two with their score, and the
      rest of the deck stays. */
  ghost predicate DealtRound(ps: seq<Player>, h: UserId, startDeck: seq<Card>,
                             players: seq<Player>, status: GameStatus, turn: Option<nat>,
                             deck: seq<Card>, dealerCards: seq<Card>, dealerScore: Option<int>)
    requires 2 * |ps| + 2 <= |startDeck|
  {
    var n, top := |ps|, |startDeck| - 1;
    && status == GameStatus.Playing
    && turn == Some(FirstNonHost(ps, h))
    && |players| == n
    && (forall i :: 0 <= i < n ==> players[i] == Dealt(ps[i], startDeck[top - 2 * i], startDeck[top - 1 - 2 * i]))
    && dealerCards == [startDeck[top - 2 * n], startDeck[top - 1 - 2 * n]]
    && dealerScore == Some(HandScore(dealerCards))
    && deck == startDeck[..top - 1 - 2 * n]
  }

  /** A freshly dealt round keeps the invariant: from a deck that holds each
      card at most once, seat k holds the deck's cards `top - 2k` and
      `top - 1 - 2k`, the dealer the two cards on top of what is left, and
      the deck keeps the rest. */
  lemma DealtKeeps(ps: seq<Player>, h: UserId, startDeck: seq<Card>, rest: seq<Card>,
                   players: seq<Player>, status: GameStatus, turn: Option<nat>,
                   deck: seq<Card>, dealerCards: seq<Card>, dealerScore: Option<int>)
    requires |ps| <= 7 && DistinctUsers(ps) && |players| == |ps| && 2 * |ps| + 2 <= |startDeck|
    requires forall k :: 0 <= k < |ps| ==>
      players[k] == Dealt(ps[k], startDeck[|startDeck| - 1 - 2 * k], startDeck[|startDeck| - 2 - 2 * k])
    requires rest == startDeck[..|startDeck| - 2 * |ps|]
    requires dealerCards == [rest[|rest| - 1], rest[|rest| - 2]] && deck == rest[..|rest| - 2]
    requires OnceEach(multiset(startDeck))
    requires status == GameStatus.Playing && turn == Some(FirstNonHost(ps, h))
    requires dealerScore == Some(HandScore(dealerCards))
    ensures RoomOk(players, status, turn, deck, dealerCards, dealerScore)
    ensures DealtRound(ps, h, startDeck, players, status, turn, deck, dealerCards, dealerScore)
  {
    var n := |ps|;
    DealerFromRest(startDeck, n, rest, deck, dealerCards);
    DealtHands(players, startDeck);
    Regroup(HandsOf(players), multiset(dealerCards), multiset(deck), multiset(rest), multiset(startDeck));
    assert CardsOf(players, deck, dealerCards) == multiset(startDeck);
    assert DistinctUsers(players) by {
      assert forall k :: 0 <= k < |ps| ==> players[k].user == ps[k].user;
    }
  }

  /** The two cards on top of what the seats left, and the rest below them,
      are the deck's cards `|d| - 1 - 2n`, `|d| - 2 - 2n` and those below. */
  lemma DealerFromRest(d: seq<Card>, n: nat, rest: seq<Card>, deck: seq<Card>, dealerCards: seq<Card>)
    requires 2 * n + 2 <= |d| && rest == d[..|d| - 2 * n]
    requires dealerCards == [rest[|rest| - 1], rest[|rest| - 2]] && deck == rest[..|rest| - 2]
    ensures dealerCards == [d[|d| - 1 - 2 * n], d[|d| - 2 - 2 * n]] && deck == d[..|d| - 2 - 2 * n]
    ensures multiset(rest) == multiset(deck) + multiset(dealerCards)
  {
    var m := |d| - 2 * n - 2;
    assert deck == d[..m];
    TakeTwoMore(d, m);
  }
}
