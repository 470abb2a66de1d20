/** The user records that the game table and the admin pages update:
    balance, activity flag, password and the game history log. */
module Accounts {

  import opened XiZachGame

  type UserId = nat

  /** One line of a user's game history: the game, the round's outcome and
      the balance change it caused. */
  datatype HistoryEntry = HistoryEntry(gameType: string, result: Outcome, amount: real)

  datatype User = User(
    username: string,
    password: string,
    balance: real,
    isActive: bool,
    gameHistory: seq<HistoryEntry>)

  /** The same record with its activity flag negated and nothing else changed. */
  function WithActiveFlipped(u: User): (r: User)
    ensures r.isActive == !u.isActive
    ensures r.(isActive := u.isActive) == u
  {
    u.(isActive := !u.isActive)
  }

  /** Flipping the activity flag twice gives back the original record. */
  lemma FlipTwiceRestores(u: User)
    ensures WithActiveFlipped(WithActiveFlipped(u)) == u
  {
  }

  /** The set of usernames in use. */
  function Names(users: map<UserId, User>): set<string>
  {
    set id | id in users :: users[id].username
  }

  /** The user collection. Ids handed out so far are below `nextId`. */
  class UserStore {
    var users: map<UserId, User>
    var nextId: UserId

    ghost predicate Valid()
      reads this
    {
      forall id :: id in users ==> id < nextId
    }

    constructor (initial: map<UserId, User>, next: UserId)
      requires forall id :: id in initial ==> id < next
      ensures Valid() && users == initial && nextId == next
    {
      users := initial;
      nextId := next;
    }
  }
}
