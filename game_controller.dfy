/** The HTTP joinRoom handler: the password and capacity checks that guard
    adding a seat to a room before any socket event. */
module GameController {

  import opened Wrappers
  import opened XiZachGame
  import opened Accounts
  import opened RoomRules
  import opened SocketHandler

  datatype JoinError = WrongPassword | RoomFull

  /** A room without a password ("" in the room settings) admits anyone;
      otherwise the supplied password must be exactly the room's. */
  predicate PasswordAccepted(roomPassword: string, supplied: Option<string>)
  {
    roomPassword == "" || supplied == Some(roomPassword)
  }

  /** The seats after an HTTP join, or the reason it is refused, checked in
      the handler's order: password, then capacity, then an existing seat. */
  function JoinSeats(roomPassword: string, supplied: Option<string>, players: seq<Player>, caller: UserId)
    : (r: Result<seq<Player>, JoinError>)
  {
    if !PasswordAccepted(roomPassword, supplied) then Failure(WrongPassword)
    else if |players| >= 7 then Failure(RoomFull)
    else if Seated(players, caller) then Success(players)
    else Success(players + [NewSeat(caller, |players|)])
  }

  /** What an HTTP join does: it is refused for a wrong password and for a
      full table; otherwise the caller ends up seated, and a caller who had
      no seat gets exactly one new waiting seat, with no cards and score 0,
      at position `|players|`, after the others. */
  lemma JoinOutcomes(roomPassword: string, supplied: Option<string>, players: seq<Player>, caller: UserId)
    ensures var r := JoinSeats(roomPassword, supplied, players, caller);
      && (r == Failure(WrongPassword) <==> !PasswordAccepted(roomPassword, supplied))
      && (r == Failure(RoomFull) <==> PasswordAccepted(roomPassword, supplied) && |players| >= 7)
      && (r.Success? ==> Seated(r.value, caller) && r.value[..|players|] == players)
      && (r.Success? && Seated(players, caller) ==> r.value == players)
      && (r.Success? && !Seated(players, caller) ==>
            |r.value| == |players| + 1 <= 7 &&
            r.value[|players|] == Player(caller, |players|, [], 0, PlayerStatus.Waiting, false))
  {
    var r := JoinSeats(roomPassword, supplied, players, caller);
    if r.Success? && !Seated(players, caller) {
      assert r.value[|players|].user == caller;
    }
  }

  /** Joining again after a successful join changes nothing more. */
  lemma JoinTwiceIsJoinOnce(roomPassword: string, supplied: Option<string>, players: seq<Player>, caller: UserId)
    requires JoinSeats(roomPassword, supplied, players, caller).Success?
    ensures var once := JoinSeats(roomPassword, supplied, players, caller).value;
      |once| < 7 ==> JoinSeats(roomPassword, supplied, once, caller) == Success(once)
  {
    JoinOutcomes(roomPassword, supplied, players, caller);
  }

  /** exports.joinRoom once the room is found: refuse a wrong password or a
      full table without change, leave a seated caller as is, and otherwise
      push a new waiting seat. */
  method JoinRoom(room: Room, caller: UserId, supplied: Option<string>) returns (r: Verdict<JoinError>)
    requires room.Valid()
    modifies room`players
    ensures room.Valid()
    ensures var expected := JoinSeats(room.password, supplied, old(room.players), caller);
      && (expected.Failure? ==> r == Fail(expected.error) && room.players == old(room.players))
      && (expected.Success? ==> r == Pass && room.players == expected.value)
  {
    if room.password != "" && supplied != Some(room.password) {
      return Fail(WrongPassword);
    }
    if |room.players| >= 7 {
      return Fail(RoomFull);
    }
    if Seated(room.players, caller) {
      return Pass;
    }
    room.AddSeat(caller);
    r := Pass;
  }
}
