/** The pure rules behind a room's session: seats, removing a seat, who plays
    first, whose turn comes next and how the dealer draws. The `Room` class
    that applies them step by step is in module SocketHandler. */
module RoomRules {

  import opened Wrappers
  import opened XiZachGame
  import opened Accounts

  /** Status of one seat during a round. */
  datatype PlayerStatus = Waiting | Playing | Stand | Bust

  /** Status of the room's round. Constructors are written qualified
      (`GameStatus.Waiting`) because `Waiting` is also a seat status. */
  datatype GameStatus = Waiting | Playing | Finished

  /** One seat at the table. */
  datatype Player = Player(
    user: UserId,
    position: nat,
    cards: seq<Card>,
    score: int,
    status: PlayerStatus,
    isReady: bool)

  /** The seat pushed when someone joins: no cards, score 0, waiting, not ready. */
  function NewSeat(user: UserId, position: nat): Player
  {
    Player(user, position, [], 0, PlayerStatus.Waiting, false)
  }

  /** The seat as the end of a round leaves it. */
  function ClearedSeat(p: Player): (q: Player)
    ensures q.user == p.user && q.position == p.position
    ensures q.cards == [] && q.score == HandScore(q.cards)
    ensures q.status == PlayerStatus.Waiting && !q.isReady
  {
    p.(isReady := false, cards := [], score := 0, status := PlayerStatus.Waiting)
  }

  // ---------------------------------------------------------------------
  // Seats
  // ---------------------------------------------------------------------

  predicate Seated(players: seq<Player>, u: UserId)
  {
    exists i :: 0 <= i < |players| && players[i].user == u
  }

  /** No user holds two seats. */
  predicate DistinctUsers(players: seq<Player>)
  {
    forall i, j :: 0 <= i < j < |players| ==> players[i].user != players[j].user
  }

  /** The index of the first seat of `u` (`Array.prototype.find`). */
  function SeatOf(players: seq<Player>, u: UserId): (i: nat)
    requires Seated(players, u)
    ensures i < |players| && players[i].user == u
    ensures forall k :: 0 <= k < i ==> players[k].user != u
  {
    if players[0].user == u then 0
    else
      assert Seated(players[1..], u) by {
        var k :| 0 <= k < |players| && players[k].user == u;
        assert players[1..][k - 1] == players[k];
      }
      1 + SeatOf(players[1..], u)
  }

  /** `players.filter(p => p.user !== u)`. */
  function Without(players: seq<Player>, u: UserId): (r: seq<Player>)
    ensures |r| <= |players|
    decreases |players|
  {
    if players == [] then []
    else
      var rest := Without(players[1..], u);
      if players[0].user == u then rest else [players[0]] + rest
  }

  /** The filter keeps exactly the seats of the other users. */
  lemma {:induction false} WithoutKeepsOthers(players: seq<Player>, u: UserId)
    ensures forall p :: p in Without(players, u) <==> p in players && p.user != u
    decreases |players|
  {
    if players != [] {
      WithoutKeepsOthers(players[1..], u);
      assert players == [players[0]] + players[1..];
    }
  }

  /** After the filter the user holds no seat. */
  lemma WithoutUnseats(players: seq<Player>, u: UserId)
    ensures !Seated(Without(players, u), u)
  {
    var r := Without(players, u);
    WithoutKeepsOthers(players, u);
    forall k | 0 <= k < |r| ensures r[k].user != u {
      assert r[k] in r;
    }
  }

  /** Filtering out a user without a seat changes nothing. */
  lemma {:induction false} WithoutUnseated(players: seq<Player>, u: UserId)
    requires !Seated(players, u)
    ensures Without(players, u) == players
    decreases |players|
  {
    if players != [] {
      assert players[0].user != u;
      assert !Seated(players[1..], u) by {
        forall k | 0 <= k < |players[1..]| ensures players[1..][k].user != u {
          assert players[1..][k] == players[k + 1];
        }
      }
      WithoutUnseated(players[1..], u);
      assert players == [players[0]] + players[1..];
    }
  }

  /** The seats after the first, when the first is not `u`'s, seat `u` iff
      the whole table does, and `u`'s seat index moves down by one. */
  lemma TailSeat(players: seq<Player>, u: UserId)
    requires Seated(players, u) && players[0].user != u
    ensures Seated(players[1..], u) && SeatOf(players[1..], u) == SeatOf(players, u) - 1
  {
    var i := SeatOf(players, u);
    assert players[1..][i - 1] == players[i];
  }

  lemma TailDistinct(players: seq<Player>)
    requires |players| > 0 && DistinctUsers(players)
    ensures DistinctUsers(players[1..])
  {
    forall a, b | 0 <= a < b < |players[1..]|
      ensures players[1..][a].user != players[1..][b].user
    {
      assert players[1..][a] == players[a + 1] && players[1..][b] == players[b + 1];
    }
  }

  /** Filtering out the user of the first seat, who holds no other seat. */
  lemma WithoutFirstSeat(players: seq<Player>, u: UserId)
    requires |players| > 0 && players[0].user == u && DistinctUsers(players)
    ensures Without(players, u) == players[1..]
  {
    var tail := players[1..];
    assert !Seated(tail, u) by {
      forall k | 0 <= k < |tail| ensures tail[k].user != u {
        assert tail[k] == players[k + 1];
      }
    }
    WithoutUnseated(tail, u);
  }

  /** Filtering out a seated user removes exactly that user's one seat and keeps
      the order of the others. */
  lemma {:induction false} WithoutRemovesSeat(players: seq<Player>, u: UserId)
    requires Seated(players, u) && DistinctUsers(players)
    ensures Without(players, u) == players[..SeatOf(players, u)] + players[SeatOf(players, u) + 1..]
    decreases |players|
  {
    var i := SeatOf(players, u);
    if players[0].user == u {
      WithoutFirstSeat(players, u);
      assert players[..i] + players[i + 1..] == players[1..];
    } else {
      var tail := players[1..];
      TailSeat(players, u);
      TailDistinct(players);
      WithoutRemovesSeat(tail, u);
      assert Without(players, u) == [players[0]] + Without(tail, u);
      assert players[..i] == [players[0]] + tail[..i - 1];
      assert players[i + 1..] == tail[i - 1 + 1..];
    }
  }

  /** Removing a user's only seat leaves the other users distinct. */
  lemma WithoutKeepsDistinct(players: seq<Player>, u: UserId)
    requires DistinctUsers(players)
    ensures DistinctUsers(Without(players, u))
  {
    if !Seated(players, u) {
      WithoutUnseated(players, u);
    } else {
      var i := SeatOf(players, u);
      WithoutRemovesSeat(players, u);
      var r := Without(players, u);
      forall a, b | 0 <= a < b < |r| ensures r[a].user != r[b].user {
        var a' := if a < i then a else a + 1;
        var b' := if b < i then b else b + 1;
        assert r[a] == players[a'] && r[b] == players[b'];
      }
    }
  }

  /** Every card held by a seat, counted with multiplicity. */
  function HandsOf(players: seq<Player>): multiset<Card>
  {
    if players == [] then multiset{}
    else HandsOf(players[..|players| - 1]) + multiset(players[|players| - 1].cards)
  }

  lemma {:induction false} HandsOfAppend(players: seq<Player>, p: Player)
    ensures HandsOf(players + [p]) == HandsOf(players) + multiset(p.cards)
  {
    assert (players + [p])[..|players|] == players;
  }

  /** The count of two runs of seats is the sum of their counts. */
  lemma {:induction false} HandsOfConcat(a: seq<Player>, b: seq<Player>)
    ensures HandsOf(a + b) == HandsOf(a) + HandsOf(b)
    decreases |b|
  {
    if b == [] {
      assert a + b == a;
    } else {
      var n := |b| - 1;
      assert (a + b)[..|a + b| - 1] == a + b[..n];
      HandsOfConcat(a, b[..n]);
    }
  }

  /** Replacing one seat replaces its cards and nothing else in the count. */
  lemma HandsOfUpdate(players: seq<Player>, i: nat, p: Player)
    requires i < |players|
    ensures HandsOf(players[i := p]) + multiset(players[i].cards) == HandsOf(players) + multiset(p.cards)
  {
    var pre, post := players[..i], players[i + 1..];
    assert players == pre + [players[i]] + post;
    assert players[i := p] == pre + [p] + post;
    HandsOfConcat(pre + [players[i]], post);
    HandsOfConcat(pre + [p], post);
    HandsOfAppend(pre, players[i]);
    HandsOfAppend(pre, p);
  }

  /** Changing a seat without touching its cards leaves the count alone. */
  lemma {:induction false} HandsOfSameCards(players: seq<Player>, i: nat, p: Player)
    requires i < |players| && p.cards == players[i].cards
    ensures HandsOf(players[i := p]) == HandsOf(players)
    decreases |players|
  {
    var n := |players| - 1;
    var q := players[i := p];
    if i < n {
      assert q[..n] == players[..n][i := p];
      assert players[..n][i] == players[i];
      HandsOfSameCards(players[..n], i, p);
    } else {
      assert q[..n] == players[..n];
    }
  }

  /** Removing seats only removes cards from the count. */
  lemma {:induction false} HandsOfWithout(players: seq<Player>, u: UserId)
    ensures HandsOf(Without(players, u)) <= HandsOf(players)
    decreases |players|
  {
    if players != [] {
      HandsOfWithout(players[1..], u);
      HandsOfCons(players[0], players[1..]);
      assert [players[0]] + players[1..] == players;
      if players[0].user != u {
        HandsOfCons(players[0], Without(players[1..], u));
      }
    }
  }

  lemma {:induction false} HandsOfCons(p: Player, players: seq<Player>)
    ensures HandsOf([p] + players) == multiset(p.cards) + HandsOf(players)
    decreases |players|
  {
    if players == [] {
      assert [p] + players == [p];
      assert [p][..0] == [];
    } else {
      var n := |players| - 1;
      assert ([p] + players)[..n + 1] == [p] + players[..n];
      HandsOfCons(p, players[..n]);
    }
  }

  /** Seats whose hands are all empty hold no cards. */
  lemma {:induction false} HandsOfEmptyHands(players: seq<Player>)
    requires forall i :: 0 <= i < |players| ==> players[i].cards == []
    ensures HandsOf(players) == multiset{}
    decreases |players|
  {
    if players != [] {
      HandsOfEmptyHands(players[..|players| - 1]);
    }
  }

  // ---------------------------------------------------------------------
  // Starting a round
  // ---------------------------------------------------------------------

  /** Every seat has pressed ready, and there is at least one seat. */
  predicate AllReady(players: seq<Player>)
  {
    |players| > 0 && forall i :: 0 <= i < |players| ==> players[i].isReady
  }

  /** The seat that plays first: the first seat not held by the host, or seat
      0 when the host holds every seat (or there are none). */
  function FirstNonHost(players: seq<Player>, host: UserId): (i: nat)
    ensures |players| > 0 ==> i < |players|
  {
    if players == [] || players[0].user != host then 0
    else
      var j := FirstNonHost(players[1..], host) + 1;
      if j < |players| && players[j].user != host then j else 0
  }

  /** `FirstNonHost` is the first seat whose user is not the host when there
      is one, and 0 when there is none. */
  lemma {:induction false} FirstNonHostIsFirst(players: seq<Player>, host: UserId)
    ensures var i := FirstNonHost(players, host);
      (exists k :: 0 <= k < |players| && players[k].user != host) ==>
        players[i].user != host && forall k :: 0 <= k < i ==> players[k].user == host
    ensures (forall k :: 0 <= k < |players| ==> players[k].user == host) ==> FirstNonHost(players, host) == 0
  {
    if players != [] && players[0].user == host {
      var rest := players[1..];
      FirstNonHostIsFirst(rest, host);
      if exists k :: 0 <= k < |players| && players[k].user != host {
        var k :| 0 <= k < |players| && players[k].user != host;
        assert rest[k - 1] == players[k];
        var j := FirstNonHost(rest, host);
        assert forall m :: 0 < m <= j ==> players[m] == rest[m - 1];
      }
    }
  }

  // ---------------------------------------------------------------------
  // Passing the turn
  // ---------------------------------------------------------------------

  /** A seat that has finished its turn. Waiting seats (joined during the
      round) are not finished. */
  predicate Done(p: Player)
  {
    p.status == PlayerStatus.Stand || p.status == PlayerStatus.Bust
  }

  /** `x` taken back into `0..n-1`, for `x < 2n`. */
  function Wrap(x: nat, n: nat): (y: nat)
    requires x < 2 * n
    ensures y < n
  {
    if x < n then x else x - n
  }

  /** How many steps forward, round the table, lead from seat `from` to seat `to`. */
  function Dist(from: nat, to: nat, n: nat): (d: nat)
    requires from < n && to < n
    ensures d < n && Wrap(from + d, n) == to
  {
    if to >= from then to - from else to + n - from
  }

  /** The seat `k` steps after seat `s` has finished its turn. */
  predicate DoneAt(players: seq<Player>, s: nat, k: nat)
    requires s < |players| && k < |players|
  {
    Done(players[Wrap(s + k, |players|)])
  }

  /** Looking at seat `s` and then at most `left` further seats round the
      table, the first seat that has not finished its turn. */
  function ScanFrom(players: seq<Player>, s: nat, left: nat): (r: Option<nat>)
    requires s < |players| && left < |players|
    ensures r.Some? ==> r.value < |players|
    decreases left
  {
    if !Done(players[s]) then Some(s)
    else if left == 0 then None
    else ScanFrom(players, if s + 1 == |players| then 0 else s + 1, left - 1)
  }

  /** One step round the table: the seat `k` steps after `s` is the seat
      `k - 1` steps after the next one. */
  lemma DoneAtShift(players: seq<Player>, s: nat, left: nat)
    requires s < |players| && 0 < left < |players|
    ensures var t := if s + 1 == |players| then 0 else s + 1;
      forall k :: 0 < k <= left ==> (DoneAt(players, s, k) <==> DoneAt(players, t, k - 1))
  {
    var n := |players|;
    var t := if s + 1 == n then 0 else s + 1;
    forall k | 0 < k <= left
      ensures DoneAt(players, s, k) <==> DoneAt(players, t, k - 1)
    {
      assert Wrap(s + k, n) == Wrap(t + (k - 1), n);
    }
  }

  /** The seat the scan finds has not finished, lies at most `left` steps
      on, and every seat passed over on the way has finished. */
  lemma {:induction false} ScanFromFinds(players: seq<Player>, s: nat, left: nat)
    requires s < |players| && left < |players|
    ensures var r := ScanFrom(players, s, left);
      r.Some? ==>
        && !Done(players[r.value])
        && Dist(s, r.value, |players|) <= left
        && forall k :: 0 <= k < Dist(s, r.value, |players|) ==> DoneAt(players, s, k)
    decreases left
  {
    var n := |players|;
    var r := ScanFrom(players, s, left);
    if Done(players[s]) && left > 0 && r.Some? {
      var t := if s + 1 == n then 0 else s + 1;
      ScanFromFinds(players, t, left - 1);
      DoneAtShift(players, s, left);
      var d := Dist(s, r.value, n);
      assert d == Dist(t, r.value, n) + 1 by {
        assert r.value != s;
      }
      assert DoneAt(players, s, 0);
      forall k | 0 <= k < d ensures DoneAt(players, s, k) {
        if k > 0 {
          assert DoneAt(players, t, k - 1);
        }
      }
    }
  }

  /** The scan finds nothing exactly when each of the `left + 1` seats it
      looks at has finished. */
  lemma {:induction false} ScanFromNone(players: seq<Player>, s: nat, left: nat)
    requires s < |players| && left < |players|
    ensures ScanFrom(players, s, left).None? <==> forall k :: 0 <= k <= left ==> DoneAt(players, s, k)
    decreases left
  {
    var n := |players|;
    if !Done(players[s]) {
      assert !DoneAt(players, s, 0);
    } else if left == 0 {
      assert DoneAt(players, s, 0);
    } else {
      var t := if s + 1 == n then 0 else s + 1;
      ScanFromNone(players, t, left - 1);
      DoneAtShift(players, s, left);
      assert DoneAt(players, s, 0);
      if ScanFrom(players, t, left - 1).None? {
        forall k | 0 <= k <= left ensures DoneAt(players, s, k) {
          if k > 0 {
            assert DoneAt(players, t, k - 1);
          }
        }
      } else {
        var k :| 0 <= k <= left - 1 && !DoneAt(players, t, k);
        assert !DoneAt(players, s, k + 1);
      }
    }
  }

  /** `(x + 1) % n` for a seat index `x`. */
  lemma NextSeatMod(x: nat, n: nat)
    requires x < n
    ensures (x + 1) % n == if x + 1 == n then 0 else x + 1
  {
  }

  /** `moveToNextPlayer`'s search: starting at the seat after `cur`, the first
      seat round the table that has not finished, or `None` when every seat
      has finished (the host's stage begins). */
  function NextTurn(players: seq<Player>, cur: nat): (r: Option<nat>)
    requires |players| > 0
    ensures r.Some? ==> r.value < |players|
  {
    ScanFrom(players, FirstLooked(players, cur), |players| - 1)
  }

  /** The first seat `moveToNextPlayer` looks at: the one after `cur`. */
  function FirstLooked(players: seq<Player>, cur: nat): (s: nat)
    requires |players| > 0
    ensures s < |players|
  {
    (cur + 1) % |players|
  }

  /** The seat handed the turn has not finished, and every seat passed over
      on the way to it, starting from the seat after `cur`, has. */
  lemma NextTurnFinds(players: seq<Player>, cur: nat)
    requires |players| > 0
    ensures var r := NextTurn(players, cur); var s := FirstLooked(players, cur);
      r.Some? ==>
        !Done(players[r.value]) && forall k :: 0 <= k < Dist(s, r.value, |players|) ==> DoneAt(players, s, k)
  {
    ScanFromFinds(players, FirstLooked(players, cur), |players| - 1);
  }

  /** The host's stage begins exactly when every seat has finished its turn. */
  lemma NextTurnNoneIffAllDone(players: seq<Player>, cur: nat)
    requires |players| > 0
    ensures NextTurn(players, cur).None? <==> forall i :: 0 <= i < |players| ==> Done(players[i])
  {
    var n := |players|;
    var s := FirstLooked(players, cur);
    ScanFromNone(players, s, n - 1);
    if NextTurn(players, cur).None? {
      forall i | 0 <= i < n ensures Done(players[i]) {
        var d := Dist(s, i, n);
        assert DoneAt(players, s, d);
      }
    } else {
      var k :| 0 <= k <= n - 1 && !DoneAt(players, s, k);
      assert !Done(players[Wrap(s + k, n)]);
    }
  }

  /** A seat with a status for the worked example below. */
  function SeatWith(user: UserId, status: PlayerStatus): Player
  {
    Player(user, user, [], 0, status, true)
  }

  /** Four seats [stand, playing, bust, playing], turn at seat 0: the turn
      goes to seat 1; once seat 1 stands it skips the busted seat 2 and goes
      to seat 3; once seat 3 stands the host's stage begins. */
  lemma TurnOrderExample()
    ensures NextTurn([SeatWith(0, PlayerStatus.Stand), SeatWith(1, PlayerStatus.Playing),
                      SeatWith(2, PlayerStatus.Bust), SeatWith(3, PlayerStatus.Playing)], 0) == Some(1)
    ensures NextTurn([SeatWith(0, PlayerStatus.Stand), SeatWith(1, PlayerStatus.Stand),
                      SeatWith(2, PlayerStatus.Bust), SeatWith(3, PlayerStatus.Playing)], 1) == Some(3)
    ensures NextTurn([SeatWith(0, PlayerStatus.Stand), SeatWith(1, PlayerStatus.Stand),
                      SeatWith(2, PlayerStatus.Bust), SeatWith(3, PlayerStatus.Stand)], 3) == None
  {
    var a := [SeatWith(0, PlayerStatus.Stand), SeatWith(1, PlayerStatus.Playing),
              SeatWith(2, PlayerStatus.Bust), SeatWith(3, PlayerStatus.Playing)];
    assert (0 + 1) % 4 == 1;
    var b := [SeatWith(0, PlayerStatus.Stand), SeatWith(1, PlayerStatus.Stand),
              SeatWith(2, PlayerStatus.Bust), SeatWith(3, PlayerStatus.Playing)];
    assert (1 + 1) % 4 == 2;
    assert ScanFrom(b, 2, 3) == ScanFrom(b, 3, 2);
    var c := [SeatWith(0, PlayerStatus.Stand), SeatWith(1, PlayerStatus.Stand),
              SeatWith(2, PlayerStatus.Bust), SeatWith(3, PlayerStatus.Stand)];
    assert (3 + 1) % 4 == 0;
    NextTurnNoneIffAllDone(c, 3);
  }

  // ---------------------------------------------------------------------
  // The dealer's draw
  // ---------------------------------------------------------------------

  /** `s` in reverse order. */
  function Reversed(s: seq<Card>): (r: seq<Card>)
    ensures |r| == |s|
  {
    if s == [] then [] else [s[|s| - 1]] + Reversed(s[..|s| - 1])
  }

  /** Reversing keeps the cards. */
  lemma {:induction false} ReversedSameCards(s: seq<Card>)
    ensures multiset(Reversed(s)) == multiset(s)
  {
    if s != [] {
      ReversedSameCards(s[..|s| - 1]);
      assert s == s[..|s| - 1] + [s[|s| - 1]];
    }
  }

  lemma ReversedSnoc(s: seq<Card>, x: Card)
    ensures Reversed(s + [x]) == [x] + Reversed(s)
  {
    assert (s + [x])[..|s|] == s;
  }

  /** Taking cards from the top (end) of `deck` into `hand` while `wants`
      holds of the hand and the deck is not empty. */
  function DrawWhile(wants: seq<Card> -> bool, hand: seq<Card>, deck: seq<Card>): (r: (seq<Card>, seq<Card>))
    ensures |r.1| <= |deck| && |r.0| >= |hand|
    decreases |deck|
  {
    if wants(hand) && |deck| > 0 then
      DrawWhile(wants, hand + [deck[|deck| - 1]], deck[..|deck| - 1])
    else
      (hand, deck)
  }

  /** Drawing stops once the hand is not wanted any more, or the deck is empty. */
  lemma {:induction false} DrawWhileStops(wants: seq<Card> -> bool, hand: seq<Card>, deck: seq<Card>)
    ensures var r := DrawWhile(wants, hand, deck); !wants(r.0) || r.1 == []
    decreases |deck|
  {
    if wants(hand) && |deck| > 0 {
      DrawWhileStops(wants, hand + [deck[|deck| - 1]], deck[..|deck| - 1]);
    }
  }

  /** What stays in the deck is its bottom part. */
  lemma {:induction false} DrawWhileKeepsBottom(wants: seq<Card> -> bool, hand: seq<Card>, deck: seq<Card>)
    ensures var r := DrawWhile(wants, hand, deck); r.1 == deck[..|r.1|]
    decreases |deck|
  {
    if wants(hand) && |deck| > 0 {
      var rest := deck[..|deck| - 1];
      DrawWhileKeepsBottom(wants, hand + [deck[|deck| - 1]], rest);
      var r := DrawWhile(wants, hand + [deck[|deck| - 1]], rest);
      assert rest[..|r.1|] == deck[..|r.1|];
    }
  }

  /** The new cards are the deck's top cards, the topmost first. */
  lemma {:induction false} DrawWhileTakesFromTop(wants: seq<Card> -> bool, hand: seq<Card>, deck: seq<Card>)
    ensures var r := DrawWhile(wants, hand, deck); r.0 == hand + Reversed(deck[|r.1|..])
    decreases |deck|
  {
    if wants(hand) && |deck| > 0 {
      var top := deck[|deck| - 1];
      var rest := deck[..|deck| - 1];
      DrawWhileTakesFromTop(wants, hand + [top], rest);
      var r := DrawWhile(wants, hand + [top], rest);
      var taken := rest[|r.1|..];
      assert deck[|r.1|..] == taken + [top];
      ReversedSnoc(taken, top);
      calc {
        r.0;
        (hand + [top]) + Reversed(taken);
        hand + ([top] + Reversed(taken));
        hand + Reversed(deck[|r.1|..]);
      }
    } else {
      assert deck[|deck|..] == [];
    }
  }

  /** Every hand held before the last card drawn was still wanted. */
  lemma {:induction false} DrawWhileOnlyWhileWanted(wants: seq<Card> -> bool, hand: seq<Card>, deck: seq<Card>)
    ensures var r := DrawWhile(wants, hand, deck);
      forall k :: |hand| <= k < |r.0| ==> wants(r.0[..k])
    decreases |deck|
  {
    if wants(hand) && |deck| > 0 {
      var top := deck[|deck| - 1];
      var r := DrawWhile(wants, hand + [top], deck[..|deck| - 1]);
      DrawWhileOnlyWhileWanted(wants, hand + [top], deck[..|deck| - 1]);
      DrawWhileTakesFromTop(wants, hand + [top], deck[..|deck| - 1]);
      forall k | |hand| <= k < |r.0| ensures wants(r.0[..k]) {
        if k == |hand| {
          assert r.0[..k] == hand;
        }
      }
    }
  }

  /** The dealer keeps drawing while the hand scores below 16. */
  predicate BelowSixteen(hand: seq<Card>)
  {
    HandScore(hand) < 16
  }

  /** `finishRound`'s dealer turn: the dealer takes cards from the top of the
      deck while the hand scores below 16 and the deck is not empty. Gives the
      final hand and what is left of the deck. */
  function DealerPlay(hand: seq<Card>, deck: seq<Card>): (r: (seq<Card>, seq<Card>))
    ensures |r.1| <= |deck| && |r.0| >= |hand|
  {
    DrawWhile(BelowSixteen, hand, deck)
  }

  /** The dealer ends on 16 or more unless the deck ran out. */
  lemma DealerPlayStops(hand: seq<Card>, deck: seq<Card>)
    ensures var r := DealerPlay(hand, deck); HandScore(r.0) >= 16 || r.1 == []
  {
    DrawWhileStops(BelowSixteen, hand, deck);
  }

  /** The dealer's new cards are the deck's top cards, the topmost first, and
      the bottom of the deck stays. */
  lemma DealerPlayTakesFromTop(hand: seq<Card>, deck: seq<Card>)
    ensures var r := DealerPlay(hand, deck);
      r.1 == deck[..|r.1|] && r.0 == hand + Reversed(deck[|r.1|..])
  {
    DrawWhileKeepsBottom(BelowSixteen, hand, deck);
    DrawWhileTakesFromTop(BelowSixteen, hand, deck);
  }

  /** The dealer draws no card once the hand reaches 16: every hand it held
      before its last card scored below 16. */
  lemma DealerPlayStopsAtSixteen(hand: seq<Card>, deck: seq<Card>)
    ensures var r := DealerPlay(hand, deck);
      forall k :: |hand| <= k < |r.0| ==> BelowSixteen(r.0[..k])
  {
    var r := DealerPlay(hand, deck);
    assert r == DrawWhile(BelowSixteen, hand, deck);
    DrawWhileOnlyWhileWanted(BelowSixteen, hand, deck);
    forall k | |hand| <= k < |r.0| ensures BelowSixteen(r.0[..k]) {
      var wants: seq<Card> -> bool := BelowSixteen;
      assert wants(r.0[..k]);
    }
  }

  /** The dealer's draw moves cards from the deck to the hand: none is lost
      or made up. */
  lemma DealerPlayConserves(hand: seq<Card>, deck: seq<Card>)
    ensures var r := DealerPlay(hand, deck);
      multiset(r.0) + multiset(r.1) == multiset(hand) + multiset(deck)
  {
    var r := DealerPlay(hand, deck);
    DealerPlayTakesFromTop(hand, deck);
    ReversedSameCards(deck[|r.1|..]);
    assert deck == deck[..|r.1|] + deck[|r.1|..];
  }

  /** The first `m + 2` cards of `d` are the first `m` and the next two. */
  lemma TakeTwoMore(d: seq<Card>, m: nat)
    requires m + 2 <= |d|
    ensures multiset(d[..m + 2]) == multiset(d[..m]) + multiset([d[m + 1], d[m]])
  {
    assert d[..m + 2] == d[..m] + [d[m], d[m + 1]];
  }

  /** Moving a part `p` of the multiset `u` to `a`. */
  lemma Regroup(a: multiset<Card>, p: multiset<Card>, l: multiset<Card>, u: multiset<Card>, all: multiset<Card>)
    requires a + u == all && u == l + p
    ensures (a + p) + l == all
  {
  }

  /** One more dealt seat on top of the seats below it. */
  lemma DealtStep(seats: seq<Player>, d: seq<Card>)
    requires 0 < |seats| && 2 * |seats| <= |d|
    requires var m := |d| - 2 * |seats|;
      seats[|seats| - 1].cards == [d[m + 1], d[m]] &&
      HandsOf(seats[..|seats| - 1]) + multiset(d[..m + 2]) == multiset(d)
    ensures HandsOf(seats) + multiset(d[..|d| - 2 * |seats|]) == multiset(d)
  {
    var n, m := |seats|, |d| - 2 * |seats|;
    var front := seats[..n - 1];
    var pair := multiset(seats[n - 1].cards);
    assert HandsOf(seats) == HandsOf(front) + pair;
    TakeTwoMore(d, m);
    Regroup(HandsOf(front), pair, multiset(d[..m]), multiset(d[..m + 2]), multiset(d));
  }

  /** Seats holding, seat k, the cards `|d| - 1 - 2k` and `|d| - 2 - 2k` of
      `d` hold, with the rest of `d` below them, exactly the cards of `d`. */
  lemma {:induction false} DealtHands(seats: seq<Player>, d: seq<Card>)
    requires 2 * |seats| <= |d|
    requires forall k :: 0 <= k < |seats| ==> seats[k].cards == [d[|d| - 1 - 2 * k], d[|d| - 2 - 2 * k]]
    ensures HandsOf(seats) + multiset(d[..|d| - 2 * |seats|]) == multiset(d)
    decreases |seats|
  {
    if |seats| == 0 {
      assert d[..|d|] == d;
    } else {
      DealtHands(seats[..|seats| - 1], d);
      DealtStep(seats, d);
    }
  }
}
