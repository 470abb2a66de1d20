/** The room session driven by the socket events: joining, readiness,
    dealing, hit and stand, passing the turn, the dealer's draw and the
    settlement, host transfer, kicking and leaving, plus donations between
    users. A `Room` holds the state the source keeps in one GameRoom document;
    each method is one event handler run to completion. */
module SocketHandler {

  import opened Wrappers
  import opened XiZachGame
  import opened Accounts
  import opened RoomRules
  import opened RoomInvariant

  /** Why a hit or a stand is refused: it is not the caller's turn, or the
      seat whose turn it is is not playing. */
  datatype TurnError = NotYourTurn | CannotAct

  /** Where passing the turn leads: the same seat keeps the turn, another
      seat gets it, or every seat is done and the host's stage begins. */
  datatype Step = SameTurn | TurnTo(index: nat) | HostStage

  /** Why a host-only event is refused. */
  datatype HostError = NotHost | PlayerNotFound | NoDealerHand

  /** What a kick did. */
  datatype KickResult = KickRefused | NoChange | Kicked | RoomDeleted

  /** Why a donation is refused. */
  datatype DonateError = InvalidAmount | UnknownSender | UserNotFound | InsufficientBalance

  /** What the host sees when previewing one seat against the dealer. */
  datatype Preview = Preview(outcome: Outcome, finalScore: int)

  /** The seat with its ready flag flipped. */
  function Toggled(players: seq<Player>, i: nat): seq<Player>
    requires i < |players|
  {
    players[i := players[i].(isReady := !players[i].isReady)]
  }

  /** A round can start: the room is waiting and every seat is ready. */
  predicate CanStart(status: GameStatus, players: seq<Player>)
  {
    status == GameStatus.Waiting && AllReady(players)
  }

  /** The seat after a hit gave it `hand`: busted above 21, still playing otherwise. */
  function AfterHit(p: Player, hand: seq<Card>): Player
  {
    p.(cards := hand, score := HandScore(hand),
       status := if HandScore(hand) > 21 then PlayerStatus.Bust else PlayerStatus.Playing)
  }

  /** The balance change of one settled round: +bet for a win, -bet for a
      loss, nothing for a push. */
  function BalanceChange(o: Outcome, bet: real): real
  {
    match o
    case Win => bet
    case Lose => -bet
    case Push => 0.0
  }

  /** The user record after one settled round: the balance changes by the
      round's amount and one history entry records it. */
  function Settle(u: User, o: Outcome, gameType: string, bet: real): User
  {
    u.(balance := u.balance + BalanceChange(o, bet),
       gameHistory := u.gameHistory + [HistoryEntry(gameType, o, BalanceChange(o, bet))])
  }

  /** `after` is `before` with every seated user that has a record settled
      against the dealer's hand, and every other record unchanged. */
  predicate Settled(before: map<UserId, User>, after: map<UserId, User>, players: seq<Player>,
                    dealer: seq<Card>, gameType: string, bet: real)
  {
    && after.Keys == before.Keys
    && (forall u :: u in before && !Seated(players, u) ==> after[u] == before[u])
    && (forall i :: 0 <= i < |players| && players[i].user in before ==>
          after[players[i].user] ==
            Settle(before[players[i].user], CompareHands(players[i].cards, dealer), gameType, bet))
  }

  /** A win and a loss move the balance by the same amount in opposite
      directions, a push not at all, and each settlement adds one entry. */
  lemma SettleMovesByBet(u: User, gameType: string, bet: real)
    ensures Settle(u, Win, gameType, bet).balance - u.balance == bet
    ensures Settle(u, Lose, gameType, bet).balance - u.balance == -bet
    ensures Settle(u, Push, gameType, bet) == u.(gameHistory := u.gameHistory + [HistoryEntry(gameType, Push, 0.0)])
    ensures forall o :: |Settle(u, o, gameType, bet).gameHistory| == |u.gameHistory| + 1
  {
  }

  /** The dealer's final hand: drawn as `DealerPlay` says when the room has a
      dealer score, untouched while it has none (a comparison with an
      undefined score is false in the source). */
  function FinalDealerHand(hand: seq<Card>, deck: seq<Card>, score: Option<int>): seq<Card>
  {
    if score.Some? then DealerPlay(hand, deck).0 else hand
  }

  class Room {
    var players: seq<Player>
    var host: UserId
    var status: GameStatus
    var currentPlayerIndex: Option<nat>
    var deck: seq<Card>
    var dealerCards: seq<Card>
    var dealerScore: Option<int>
    const gameType: string
    const betAmount: real
    /** The room password; "" means none. */
    const password: string

    ghost predicate Valid()
      reads this
    {
      RoomOk(players, status, currentPlayerIndex, deck, dealerCards, dealerScore)
    }

    /** createRoom: the owner is host and holds seat 0; the room waits with a
        new deck, no dealer hand and no dealer score. */
    constructor Create(owner: UserId, gameType: string, betAmount: real, password: string, picks: seq<nat>)
      requires ValidPicks(picks, 52)
      ensures Valid()
      ensures players == [NewSeat(owner, 0)] && host == owner
      ensures status == GameStatus.Waiting && currentPlayerIndex == None
      ensures deck == NewDeck(picks) && dealerCards == [] && dealerScore == None
      ensures this.gameType == gameType && this.betAmount == betAmount && this.password == password
    {
      var startDeck := CreateDeck(picks);
      players := [NewSeat(owner, 0)];
      host := owner;
      status := GameStatus.Waiting;
      currentPlayerIndex := None;
      deck := startDeck;
      dealerCards := [];
      dealerScore := None;
      this.gameType := gameType;
      this.betAmount := betAmount;
      this.password := password;
      new;
      AddSeatKeeps([], owner, GameStatus.Waiting, None, startDeck, [], None);
      assert [] + [NewSeat(owner, 0)] == players;
    }

    /** Push a new waiting seat for `user` at the end of the table. */
    method AddSeat(user: UserId)
      requires Valid() && !Seated(players, user) && |players| < 7
      modifies this`players
      ensures Valid()
      ensures players == old(players) + [NewSeat(user, |old(players)|)]
    {
      AddSeatKeeps(players, user, status, currentPlayerIndex, deck, dealerCards, dealerScore);
      players := players + [NewSeat(user, |players|)];
    }

    /** The socket joinRoom event: a caller without a seat gets one when
        fewer than seven seats are taken; otherwise nothing changes. */
    method Join(caller: UserId)
      requires Valid()
      modifies this`players
      ensures Valid()
      ensures !Seated(old(players), caller) && |old(players)| < 7 ==>
        players == old(players) + [NewSeat(caller, |old(players)|)]
      ensures Seated(old(players), caller) || |old(players)| >= 7 ==> players == old(players)
    {
      if !Seated(players, caller) && |players| < 7 {
        AddSeat(caller);
      }
    }

    /** `deck.pop()`: take the top (last) card. */
    method Pop() returns (card: Card)
      requires |deck| > 0
      modifies this`deck
      ensures card == old(deck)[|old(deck)| - 1] && deck == old(deck)[..|old(deck)| - 1]
      ensures old(deck) == deck + [card]
    {
      card := deck[|deck| - 1];
      deck := deck[..|deck| - 1];
    }

    /** The state right after startGameInternal dealt from `startDeck` to
        the seats `ps` (host `h`), as `DealtRound` describes it. */
    ghost predicate DealtFrom(ps: seq<Player>, h: UserId, startDeck: seq<Card>)
      requires 2 * |ps| + 2 <= |startDeck|
      reads this
    {
      DealtRound(ps, h, startDeck, players, status, currentPlayerIndex, deck, dealerCards, dealerScore)
    }

    /** One seat of the deal loop: the top two cards of `rest` to `seat`. */
    static method DealOne(seat: Player, rest: seq<Card>) returns (dealt: Player, left: seq<Card>)
      requires |rest| >= 2
      ensures dealt == Dealt(seat, rest[|rest| - 1], rest[|rest| - 2])
      ensures left == rest[..|rest| - 2]
    {
      var first, second := rest[|rest| - 1], rest[|rest| - 2];
      left := rest[..|rest| - 2];
      var score := CalculateScore([first, second]);
      dealt := seat.(cards := [first, second], score := score, status := PlayerStatus.Playing);
    }

    /** startGameInternal's deal loop: two cards from the top of the deck
        `d` to each seat in turn, which then plays; `rest` is what is left
        of the deck. */
    static method DealSeats(seats: seq<Player>, d: seq<Card>) returns (dealt: seq<Player>, rest: seq<Card>)
      requires 2 * |seats| <= |d|
      ensures |dealt| == |seats|
      ensures forall k :: 0 <= k < |seats| ==> dealt[k] == Dealt(seats[k], d[|d| - 1 - 2 * k], d[|d| - 2 - 2 * k])
      ensures rest == d[..|d| - 2 * |seats|]
    {
      dealt, rest := seats, d;
      var i := 0;
      while i < |seats|
        invariant 0 <= i <= |seats| == |dealt|
        invariant |rest| == |d| - 2 * i && rest == d[..|d| - 2 * i]
        invariant forall k :: 0 <= k < i ==> dealt[k] == Dealt(seats[k], d[|d| - 1 - 2 * k], d[|d| - 2 - 2 * k])
        invariant forall k :: i <= k < |seats| ==> dealt[k] == seats[k]
      {
        var seat, left := DealOne(dealt[i], rest);
        dealt, rest := dealt[i := seat], left;
        i := i + 1;
      }
    }

    /** startGameInternal: when the room is waiting and every seat is ready,
        start the round with a new deck and deal two cards to every seat and
        to the dealer; otherwise change nothing. */
    method StartGame(picks: seq<nat>)
      requires Valid() && ValidPicks(picks, 52)
      modifies this`players, this`status, this`currentPlayerIndex, this`deck, this`dealerCards, this`dealerScore
      ensures Valid()
      ensures CanStart(old(status), old(players)) ==> DealtFrom(old(players), host, NewDeck(picks))
      ensures !CanStart(old(status), old(players)) ==> unchanged(this)
    {
      if status != GameStatus.Waiting || !AllReady(players) {
        return;
      }
      BeginRound(picks);
    }

    /** The body of startGameInternal once its checks have passed. */
    method BeginRound(picks: seq<nat>)
      requires ValidPicks(picks, 52) && |players| <= 7 && DistinctUsers(players)
      modifies this`players, this`status, this`currentPlayerIndex, this`deck, this`dealerCards, this`dealerScore
      ensures Valid()
      ensures DealtFrom(old(players), host, NewDeck(picks))
    {
      var startDeck := CreateDeck(picks);
      deck := startDeck;
      DealFrom(startDeck);
    }

    /** Deals a round from the deck `startDeck`, which holds every card
        once: the turn goes to the first seat not held by the host, two
        cards to every seat and then two to the dealer. */
    method DealFrom(ghost startDeck: seq<Card>)
      requires deck == startDeck && OnceEach(multiset(startDeck))
      requires |players| <= 7 && 2 * |players| + 2 <= |startDeck| && DistinctUsers(players)
      modifies this`players, this`status, this`currentPlayerIndex, this`deck, this`dealerCards, this`dealerScore
      ensures Valid()
      ensures DealtFrom(old(players), host, startDeck)
    {
      ghost var ps := players;
      var turn := FirstNonHost(players, host);
      var seats, rest := DealSeats(players, deck);
      var hand := [rest[|rest| - 1], rest[|rest| - 2]];
      var score := CalculateScore(hand);
      status, currentPlayerIndex := GameStatus.Playing, Some(turn);
      players, deck, dealerCards, dealerScore := seats, rest[..|rest| - 2], hand, Some(score);
      DealtKeeps(ps, host, startDeck, rest, players, status, currentPlayerIndex, deck, dealerCards, dealerScore);
    }

    /** toggleReady: a seated caller flips their ready flag, and then the
        round starts if it can; a caller without a seat changes nothing. */
    method ToggleReady(caller: UserId, picks: seq<nat>)
      requires Valid() && ValidPicks(picks, 52)
      modifies this`players, this`status, this`currentPlayerIndex, this`deck, this`dealerCards, this`dealerScore
      ensures Valid()
      ensures !Seated(old(players), caller) ==> unchanged(this)
      ensures Seated(old(players), caller) ==>
        var ps := Toggled(old(players), SeatOf(old(players), caller));
        (CanStart(old(status), ps) ==> DealtFrom(ps, host, NewDeck(picks))) &&
        (!CanStart(old(status), ps) ==>
           players == ps && status == old(status) && currentPlayerIndex == old(currentPlayerIndex) &&
           deck == old(deck) && dealerCards == old(dealerCards) && dealerScore == old(dealerScore))
    {
      if !Seated(players, caller) {
        return;
      }
      var i := SeatOf(players, caller);
      var seat := players[i].(isReady := !players[i].isReady);
      SeatChangeKeeps(players, i, seat, status, currentPlayerIndex, deck, dealerCards, dealerScore);
      players := players[i := seat];
      StartGame(picks);
    }

    /** Why the caller may not hit or stand now, if they may not. */
    function TurnCheck(caller: UserId): Option<TurnError>
      reads this
    {
      match currentPlayerIndex
      case None => Some(NotYourTurn)
      case Some(i) =>
        if i >= |players| || players[i].user != caller then Some(NotYourTurn)
        else if players[i].status != PlayerStatus.Playing then Some(CannotAct)
        else None
    }

    /** Passing the turn from seat `from` led to `step`: the turn went to the
        next seat that has not finished, or, when every seat has finished,
        the host's stage began and the turn index stayed. */
    ghost predicate Advanced(step: Step, from: nat)
      requires |players| > 0
      reads this
    {
      match NextTurn(players, from)
      case Some(j) => currentPlayerIndex == Some(j) && step == TurnTo(j)
      case None => currentPlayerIndex == Some(from) && step == HostStage
    }

    /** moveToNextPlayer: look round the table from the seat after the
        current one, at most once round, for a seat that has not finished. */
    method Advance() returns (step: Step)
      requires Valid() && |players| > 0 && currentPlayerIndex.Some?
      modifies this`currentPlayerIndex
      ensures Valid()
      ensures Advanced(step, old(currentPlayerIndex).value)
    {
      var n := |players|;
      ghost var cur := currentPlayerIndex.value;
      var start := (currentPlayerIndex.value + 1) % n;
      assert start == FirstLooked(players, cur);
      var next := start;
      var attempts := 0;
      while attempts < n && Done(players[next])
        invariant 0 <= attempts <= n && next < n
        invariant next == Wrap(start + attempts, n)
        invariant currentPlayerIndex == Some(cur)
        invariant attempts < n ==> ScanFrom(players, next, n - 1 - attempts) == NextTurn(players, cur)
        invariant attempts == n ==> NextTurn(players, cur) == None
        decreases n - attempts
      {
        NextSeatMod(next, n);
        next := (next + 1) % n;
        attempts := attempts + 1;
      }
      if Done(players[next]) {
        step := HostStage;
      } else {
        currentPlayerIndex := Some(next);
        step := TurnTo(next);
      }
    }

    /** hit: the player whose turn it is takes the top card; above 21 the
        seat busts and the turn passes on, otherwise the same seat keeps the
        turn. Refused, with nothing changed, when it is not the caller's turn
        or the seat is not playing. */
    method Hit(caller: UserId) returns (r: Result<Step, TurnError>)
      requires Valid()
      requires TurnCheck(caller).None? ==> |deck| > 0
      modifies this`players, this`deck, this`currentPlayerIndex
      ensures Valid()
      ensures old(TurnCheck(caller)).Some? ==>
        r == Failure(old(TurnCheck(caller)).value) && unchanged(this)
      ensures old(TurnCheck(caller)).None? ==>
        var i := old(currentPlayerIndex).value;
        var hand := old(players)[i].cards + [old(deck)[|old(deck)| - 1]];
        && deck == old(deck)[..|old(deck)| - 1]
        && players == old(players)[i := AfterHit(old(players)[i], hand)]
        && r.Success?
        && (HandScore(hand) <= 21 ==> r.value == SameTurn && currentPlayerIndex == old(currentPlayerIndex))
        && (HandScore(hand) > 21 ==> Advanced(r.value, i))
    {
      var check := TurnCheck(caller);
      if check.Some? {
        return Failure(check.value);
      }
      var i := currentPlayerIndex.value;
      var hand := players[i].cards + [deck[|deck| - 1]];
      var score := CalculateScore(hand);
      var seat := AfterHit(players[i], hand);
      DrawToSeatKeeps(players, i, seat, status, currentPlayerIndex, deck, dealerCards, dealerScore);
      var card := Pop();
      players := players[i := seat];
      if score > 21 {
        var step := Advance();
        r := Success(step);
      } else {
        r := Success(SameTurn);
      }
    }

    /** stand: the player whose turn it is stands and the turn passes on.
        Refused, with nothing changed, when it is not the caller's turn or
        the seat is not playing. */
    method Stand(caller: UserId) returns (r: Result<Step, TurnError>)
      requires Valid()
      modifies this`players, this`currentPlayerIndex
      ensures Valid()
      ensures old(TurnCheck(caller)).Some? ==>
        r == Failure(old(TurnCheck(caller)).value) && unchanged(this)
      ensures old(TurnCheck(caller)).None? ==>
        var i := old(currentPlayerIndex).value;
        && players == old(players)[i := old(players)[i].(status := PlayerStatus.Stand)]
        && r.Success? && Advanced(r.value, i)
    {
      var check := TurnCheck(caller);
      if check.Some? {
        return Failure(check.value);
      }
      var step := StandSeat(currentPlayerIndex.value);
      r := Success(step);
    }

    /** Mark seat `i` as standing and pass the turn on. */
    method StandSeat(i: nat) returns (step: Step)
      requires Valid() && i < |players| && players[i].status == PlayerStatus.Playing
      modifies this`players, this`currentPlayerIndex
      ensures Valid()
      ensures players == old(players)[i := old(players)[i].(status := PlayerStatus.Stand)]
      ensures Advanced(step, old(currentPlayerIndex).value)
    {
      var seat := players[i].(status := PlayerStatus.Stand);
      SeatChangeKeeps(players, i, seat, status, currentPlayerIndex, deck, dealerCards, dealerScore);
      players := players[i := seat];
      step := Advance();
    }

    /** The turn timer of seat `index` ran out: if that seat is still
        playing it stands and the turn passes on; otherwise nothing changes. */
    method TurnExpired(index: nat) returns (r: Option<Step>)
      requires Valid()
      modifies this`players, this`currentPlayerIndex
      ensures Valid()
      ensures !(index < |old(players)| && old(players)[index].status == PlayerStatus.Playing) ==>
        r == None && unchanged(this)
      ensures index < |old(players)| && old(players)[index].status == PlayerStatus.Playing ==>
        && players == old(players)[index := old(players)[index].(status := PlayerStatus.Stand)]
        && r.Some? && Advanced(r.value, old(currentPlayerIndex).value)
    {
      if index < |players| && players[index].status == PlayerStatus.Playing {
        var step := StandSeat(index);
        r := Some(step);
      } else {
        r := None;
      }
    }

    /** finishRound's dealer loop: while there is a dealer score below 16 and
        the deck is not empty, the dealer takes the top card. */
    method DealerDraw()
      requires Valid()
      modifies this`dealerCards, this`deck, this`dealerScore
      ensures Valid()
      ensures dealerCards == FinalDealerHand(old(dealerCards), old(deck), old(dealerScore))
      ensures old(dealerScore).None? ==> deck == old(deck) && dealerScore == None
      ensures old(dealerScore).Some? ==>
        (dealerCards, deck) == DealerPlay(old(dealerCards), old(deck)) && dealerScore == Some(HandScore(dealerCards))
    {
      while dealerScore.Some? && dealerScore.value < 16 && |deck| > 0
        invariant Valid()
        invariant old(dealerScore).Some? <==> dealerScore.Some?
        invariant old(dealerScore).Some? ==> DealerPlay(dealerCards, deck) == DealerPlay(old(dealerCards), old(deck))
        invariant old(dealerScore).None? ==> dealerCards == old(dealerCards) && deck == old(deck)
        decreases |deck|
      {
        ghost var hand, rest := dealerCards, deck;
        DrawToDealerKeeps(players, status, currentPlayerIndex, deck, dealerCards);
        var card := Pop();
        dealerCards := dealerCards + [card];
        var score := CalculateScore(dealerCards);
        dealerScore := Some(score);
        assert rest == deck + [card];
        assert DrawWhile(BelowSixteen, hand, rest) == DrawWhile(BelowSixteen, dealerCards, deck);
      }
      if dealerScore.Some? {
        assert !BelowSixteen(dealerCards) || deck == [];
        assert DrawWhile(BelowSixteen, dealerCards, deck) == (dealerCards, deck);
      }
    }

    /** The state as finishRound leaves it: waiting, no turn, no deck, no
        dealer hand, a dealer score of 0, and every seat `ps` cleared. */
    ghost predicate ClearedFrom(ps: seq<Player>)
      reads this
    {
      && status == GameStatus.Waiting && currentPlayerIndex == None
      && deck == [] && dealerCards == [] && dealerScore == Some(0)
      && |players| == |ps|
      && forall i :: 0 <= i < |players| ==> players[i] == ClearedSeat(ps[i])
    }

    /** The settlement loop of finishRound on values: each seated user with
        a record is settled once against the dealer's hand. */
    static method SettleUsers(users: map<UserId, User>, ps: seq<Player>, dealer: seq<Card>, gameType: string, bet: real)
      returns (after: map<UserId, User>)
      requires DistinctUsers(ps)
      ensures Settled(users, after, ps, dealer, gameType, bet)
    {
      after := users;
      for i := 0 to |ps|
        invariant after.Keys == users.Keys
        invariant forall u :: u in users && (forall k :: 0 <= k < i ==> ps[k].user != u) ==> after[u] == users[u]
        invariant forall k :: 0 <= k < i && ps[k].user in users ==>
          after[ps[k].user] == Settle(users[ps[k].user], CompareHands(ps[k].cards, dealer), gameType, bet)
      {
        var p := ps[i];
        var outcome := CompareHands(p.cards, dealer);
        if p.user in after {
          after := after[p.user := Settle(after[p.user], outcome, gameType, bet)];
        }
      }
    }

    /** finishRound's settlement loop: every seated user that has a record
        gets the round's amount and one history entry. */
    method SettleAll(store: UserStore)
      requires DistinctUsers(players)
      modifies store`users
      ensures Settled(old(store.users), store.users, players, dealerCards, gameType, betAmount)
    {
      store.users := SettleUsers(store.users, players, dealerCards, gameType, betAmount);
    }

    /** finishRound's reset: the room waits for the next round with every
        seat cleared. */
    method ResetRound()
      requires |players| <= 7 && DistinctUsers(players)
      modifies this`players, this`status, this`currentPlayerIndex, this`deck, this`dealerCards, this`dealerScore
      ensures Valid()
      ensures ClearedFrom(old(players))
    {
      ghost var ps := players;
      status := GameStatus.Waiting;
      currentPlayerIndex := None;
      deck := [];
      dealerCards := [];
      dealerScore := Some(0);
      for i := 0 to |players|
        invariant |players| == |ps|
        invariant forall k :: 0 <= k < i ==> players[k] == ClearedSeat(ps[k])
        modifies this`players
        invariant forall k :: i <= k < |ps| ==> players[k] == ps[k]
      {
        players := players[i := ClearedSeat(players[i])];
      }
      ClearedKeeps(ps, players);
    }

    /** finishRound: the dealer draws, every seated user with a record is
        settled against the dealer's final hand, and the room is reset to
        wait for the next round. */
    method FinishRound(store: UserStore)
      requires Valid()
      modifies this`players, this`status, this`currentPlayerIndex, this`deck, this`dealerCards, this`dealerScore,
               store`users
      ensures Valid()
      ensures Settled(old(store.users), store.users, old(players),
                      FinalDealerHand(old(dealerCards), old(deck), old(dealerScore)), gameType, betAmount)
      ensures ClearedFrom(old(players))
    {
      DealerDraw();
      status := GameStatus.Finished;
      SettleAll(store);
      ResetRound();
    }

    /** hostEndRound: the host ends the round as finishRound does; anyone
        else is refused and nothing changes. */
    method HostEndRound(caller: UserId, store: UserStore) returns (r: Verdict<HostError>)
      requires Valid()
      modifies this`players, this`status, this`currentPlayerIndex, this`deck, this`dealerCards, this`dealerScore,
               store`users
      ensures Valid()
      ensures r.Pass? <==> caller == host
      ensures r.Fail? ==> r.error == NotHost && unchanged(this) && store.users == old(store.users)
      ensures r.Pass? ==>
        Settled(old(store.users), store.users, old(players),
                FinalDealerHand(old(dealerCards), old(deck), old(dealerScore)), gameType, betAmount) &&
        ClearedFrom(old(players))
    {
      if caller != host {
        return Fail(NotHost);
      }
      FinishRound(store);
      r := Pass;
    }

    /** hostShowPlayer: the host previews one seat's outcome against the
        dealer's current hand. Refused when the caller is not the host, the
        target has no seat, or the dealer has no cards. */
    function HostShowPlayer(caller: UserId, target: UserId): (r: Result<Preview, HostError>)
      reads this
      ensures r.Success? <==> caller == host && Seated(players, target) && |dealerCards| > 0
      ensures caller != host ==> r == Failure(NotHost)
      ensures caller == host && !Seated(players, target) ==> r == Failure(PlayerNotFound)
      ensures r.Success? ==>
        var hand := players[SeatOf(players, target)].cards;
        r.value.outcome == CompareHands(hand, dealerCards) && r.value.finalScore == HandScore(hand)
    {
      if caller != host then Failure(NotHost)
      else if !Seated(players, target) then Failure(PlayerNotFound)
      else if |dealerCards| == 0 then Failure(NoDealerHand)
      else
        var hand := players[SeatOf(players, target)].cards;
        Success(Preview(CompareHands(hand, dealerCards), HandScore(hand)))
    }

    /** transferHost: the host hands the host role to a seated user. */
    method TransferHost(caller: UserId, newHost: UserId) returns (r: Verdict<HostError>)
      requires Valid()
      modifies this`host
      ensures Valid()
      ensures r.Pass? <==> caller == old(host) && Seated(players, newHost)
      ensures caller != old(host) ==> r == Fail(NotHost)
      ensures caller == old(host) && !Seated(players, newHost) ==> r == Fail(PlayerNotFound)
      ensures host == if r.Pass? then newHost else old(host)
    {
      if caller != host {
        return Fail(NotHost);
      }
      if !Seated(players, newHost) {
        return Fail(PlayerNotFound);
      }
      host := newHost;
      r := Pass;
    }

    /** kickPlayer: the host removes a user's seat; when that empties the
        table the room is deleted. A kick from anyone but the host, or of a
        user without a seat, changes nothing. */
    method Kick(caller: UserId, target: UserId) returns (r: KickResult)
      requires Valid()
      modifies this`players
      ensures Valid()
      ensures caller != host ==> r == KickRefused && players == old(players)
      ensures caller == host && !Seated(old(players), target) ==> r == NoChange && players == old(players)
      ensures caller == host && Seated(old(players), target) ==>
        && players == Without(old(players), target)
        && |players| == |old(players)| - 1
        && (r == if players == [] then RoomDeleted else Kicked)
      ensures caller == host ==> !Seated(players, target)
    {
      if caller != host {
        return KickRefused;
      }
      var remaining := Without(players, target);
      WithoutUnseats(players, target);
      if Seated(players, target) {
        WithoutRemovesSeat(players, target);
      } else {
        WithoutUnseated(players, target);
      }
      if |remaining| == |players| {
        return NoChange;
      }
      WithoutKeeps(players, target, status, currentPlayerIndex, deck, dealerCards, dealerScore);
      players := remaining;
      r := if players == [] then RoomDeleted else Kicked;
    }

    /** leaveRoom (and disconnect, which runs the same steps): the caller's
        seat is removed; an empty room is deleted; a leaving host hands the
        host role to the user in the first remaining seat. */
    method Leave(caller: UserId) returns (deleted: bool)
      requires Valid()
      modifies this`players, this`host
      ensures Valid()
      ensures players == Without(old(players), caller)
      ensures !Seated(players, caller)
      ensures deleted <==> players == []
      ensures host == if !deleted && old(host) == caller then players[0].user else old(host)
      ensures !deleted && old(host) == caller ==> Seated(players, host)
    {
      WithoutKeeps(players, caller, status, currentPlayerIndex, deck, dealerCards, dealerScore);
      WithoutUnseats(players, caller);
      players := Without(players, caller);
      if players == [] {
        return true;
      }
      deleted := false;
      if host == caller {
        host := players[0].user;
      }
    }
  }

  /** The users after a donation: the sender's record debited, then the
      receiver's record, as the debit left it, credited. */
  function Donated(users: map<UserId, User>, from: UserId, to: UserId, amount: real): (r: map<UserId, User>)
    requires from in users && to in users
    ensures r.Keys == users.Keys
  {
    var debited := users[from := users[from].(balance := users[from].balance - amount)];
    debited[to := debited[to].(balance := debited[to].balance + amount)]
  }

  /** A donation moves `amount` from the sender to a different receiver and
      keeps the sum of their balances; a donation to oneself changes nothing;
      every other record stays. */
  lemma DonatedConserves(users: map<UserId, User>, from: UserId, to: UserId, amount: real)
    requires from in users && to in users
    ensures var r := Donated(users, from, to, amount);
      && (forall u :: u in users && u != from && u != to ==> r[u] == users[u])
      && (from == to ==> r == users)
      && (from != to ==>
            && r[from] == users[from].(balance := users[from].balance - amount)
            && r[to] == users[to].(balance := users[to].balance + amount)
            && r[from].balance + r[to].balance == users[from].balance + users[to].balance)
  {
    var r := Donated(users, from, to, amount);
    if from == to {
      assert r[from] == users[from];
    }
  }

  /** donate: move `amount` from the sender's balance to the receiver's.
      Refused, with nothing changed, for an amount that is not positive, an
      unknown sender, a missing user record, or a sender balance below the
      amount. The new balances follow `Donated`. */
  method Donate(store: UserStore, from: Option<UserId>, to: UserId, amount: real) returns (r: Verdict<DonateError>)
    modifies store`users
    ensures amount <= 0.0 ==> r == Fail(InvalidAmount)
    ensures amount > 0.0 && from.None? ==> r == Fail(UnknownSender)
    ensures amount > 0.0 && from.Some? && (from.value !in old(store.users) || to !in old(store.users)) ==>
      r == Fail(UserNotFound)
    ensures amount > 0.0 && from.Some? && from.value in old(store.users) && to in old(store.users) ==>
      (r == Fail(InsufficientBalance) <==> old(store.users)[from.value].balance < amount)
    ensures r.Pass? <==>
      && amount > 0.0 && from.Some? && from.value in old(store.users) && to in old(store.users)
      && old(store.users)[from.value].balance >= amount
    ensures r.Fail? ==> store.users == old(store.users)
    ensures r.Pass? ==>
      && from.Some? && from.value in old(store.users) && to in old(store.users)
      && store.users == Donated(old(store.users), from.value, to, amount)
  {
    if amount <= 0.0 {
      return Fail(InvalidAmount);
    }
    if from.None? {
      return Fail(UnknownSender);
    }
    var sender := from.value;
    if sender !in store.users || to !in store.users {
      return Fail(UserNotFound);
    }
    if store.users[sender].balance < amount {
      return Fail(InsufficientBalance);
    }
    var giver := store.users[sender];
    store.users := store.users[sender := giver.(balance := giver.balance - amount)];
    var taker := store.users[to];
    store.users := store.users[to := taker.(balance := taker.balance + amount)];
    r := Pass;
  }
}
