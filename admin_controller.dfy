/** The admin ledger: moving coins between the admin account and players,
    taking coins from a player, changing a player's password, switching a
    player on or off, and creating players in a batch. */
module AdminController {

  import opened Wrappers
  import opened Accounts

  datatype AdminError =
    | InvalidAmount          // not a whole number above zero
    | InvalidRequest         // transferAll without ids or with a bad amount
    | UserNotFound
    | AdminBalanceTooLow
    | NotBelowBalance        // deduct of at least the player's balance
    | PasswordTooShort
    | EmptyBatch

  /** The admin account's balance, which transfers draw from. */
  class AdminAccount {
    var balance: real

    constructor (balance: real)
      ensures this.balance == balance
    {
      this.balance := balance;
    }
  }

  /** `Number.isInteger(x) && x > 0`. */
  predicate ValidAmount(x: real)
  {
    x.Floor as real == x && x > 0.0
  }

  // ---------------------------------------------------------------------
  // transfer, transferAll, deduct
  // ---------------------------------------------------------------------

  /** exports.transfer: move a whole, positive amount from the admin to one
      player, refusing a bad amount, an unknown player and an admin balance
      below the amount. */
  method Transfer(admin: AdminAccount, store: UserStore, id: UserId, amount: real) returns (r: Verdict<AdminError>)
    modifies admin, store
    ensures !ValidAmount(amount) ==> r == Fail(InvalidAmount)
    ensures ValidAmount(amount) && id !in old(store.users) ==> r == Fail(UserNotFound)
    ensures ValidAmount(amount) && id in old(store.users) && old(admin.balance) < amount ==>
      r == Fail(AdminBalanceTooLow)
    ensures r.Pass? <==> ValidAmount(amount) && id in old(store.users) && old(admin.balance) >= amount
    ensures r.Fail? ==> admin.balance == old(admin.balance) && store.users == old(store.users)
    ensures r.Pass? ==>
      && id in old(store.users)
      && admin.balance == old(admin.balance) - amount
      && store.users == old(store.users)[id := old(store.users)[id].(balance := old(store.users)[id].balance + amount)]
      && admin.balance + store.users[id].balance == old(admin.balance) + old(store.users)[id].balance
      && admin.balance >= 0.0
    ensures store.nextId == old(store.nextId)
  {
    if !(amount.Floor as real == amount) || amount <= 0.0 {
      return Fail(InvalidAmount);
    }
    if id !in store.users {
      return Fail(UserNotFound);
    }
    if admin.balance < amount {
      return Fail(AdminBalanceTooLow);
    }
    admin.balance := admin.balance - amount;
    var user := store.users[id];
    store.users := store.users[id := user.(balance := user.balance + amount)];
    r := Pass;
  }

  /** The users after `extra` is added once to every user whose id is
      listed; the other users are untouched. */
  ghost function Credited(users: map<UserId, User>, ids: set<UserId>, extra: real): map<UserId, User>
  {
    map u | u in users :: if u in ids then users[u].(balance := users[u].balance + extra) else users[u]
  }

  /** exports.transferAll: add a whole, positive amount to every listed
      player that exists (once, even when listed twice) and charge the admin
      the amount times the length of the list. */
  method TransferAll(admin: AdminAccount, store: UserStore, ids: seq<UserId>, amount: real)
    returns (r: Verdict<AdminError>)
    modifies admin, store
    ensures ids == [] || !ValidAmount(amount) ==> r == Fail(InvalidRequest)
    ensures ids != [] && ValidAmount(amount) && old(admin.balance) < amount * |ids| as real ==>
      r == Fail(AdminBalanceTooLow)
    ensures r.Pass? <==> ids != [] && ValidAmount(amount) && old(admin.balance) >= amount * |ids| as real
    ensures r.Fail? ==> admin.balance == old(admin.balance) && store.users == old(store.users)
    ensures r.Pass? ==>
      && admin.balance == old(admin.balance) - amount * |ids| as real
      && store.users == Credited(old(store.users), set i | 0 <= i < |ids| :: ids[i], amount)
    ensures store.nextId == old(store.nextId)
  {
    if ids == [] || !(amount.Floor as real == amount) || amount <= 0.0 {
      return Fail(InvalidRequest);
    }
    var total := amount * |ids| as real;
    if admin.balance < total {
      return Fail(AdminBalanceTooLow);
    }
    ghost var before := store.users;
    var i := 0;
    var seen: set<UserId> := {};
    while i < |ids|
      invariant 0 <= i <= |ids|
      invariant seen == set k | 0 <= k < i :: ids[k]
      invariant store.users == Credited(before, seen, amount)
      invariant store.nextId == old(store.nextId) && admin.balance == old(admin.balance)
    {
      var u := ids[i];
      if u in store.users && u !in seen {
        var user := store.users[u];
        store.users := store.users[u := user.(balance := user.balance + amount)];
      }
      seen := seen + {u};
      i := i + 1;
    }
    admin.balance := admin.balance - total;
    r := Pass;
  }

  /** exports.deduct: take a whole, positive amount from a player, only when
      it is below the player's balance, so the balance stays above zero. */
  method Deduct(store: UserStore, id: UserId, amount: real) returns (r: Verdict<AdminError>)
    modifies store
    ensures !ValidAmount(amount) ==> r == Fail(InvalidAmount)
    ensures ValidAmount(amount) && id !in old(store.users) ==> r == Fail(UserNotFound)
    ensures ValidAmount(amount) && id in old(store.users) && amount >= old(store.users)[id].balance ==>
      r == Fail(NotBelowBalance)
    ensures r.Pass? <==> ValidAmount(amount) && id in old(store.users) && amount < old(store.users)[id].balance
    ensures r.Fail? ==> store.users == old(store.users)
    ensures r.Pass? ==>
      && id in old(store.users)
      && store.users == old(store.users)[id := old(store.users)[id].(balance := old(store.users)[id].balance - amount)]
      && store.users[id].balance > 0.0
    ensures store.nextId == old(store.nextId)
  {
    if !(amount.Floor as real == amount) || amount <= 0.0 {
      return Fail(InvalidAmount);
    }
    if id !in store.users {
      return Fail(UserNotFound);
    }
    if amount >= store.users[id].balance {
      return Fail(NotBelowBalance);
    }
    var user := store.users[id];
    store.users := store.users[id := user.(balance := user.balance - amount)];
    r := Pass;
  }

  // ---------------------------------------------------------------------
  // changePassword, setActive
  // ---------------------------------------------------------------------

  /** exports.changePassword: a missing or empty password, or one of fewer
      than four characters, is refused before the user is looked up;
      otherwise only that user's password changes. */
  method ChangePassword(store: UserStore, id: UserId, newPassword: Option<string>) returns (r: Verdict<AdminError>)
    modifies store
    ensures newPassword.None? || |newPassword.value| < 4 ==> r == Fail(PasswordTooShort)
    ensures newPassword.Some? && |newPassword.value| >= 4 && id !in old(store.users) ==> r == Fail(UserNotFound)
    ensures r.Pass? <==> newPassword.Some? && |newPassword.value| >= 4 && id in old(store.users)
    ensures r.Fail? ==> store.users == old(store.users)
    ensures r.Pass? ==>
      id in old(store.users) && store.users == old(store.users)[id := old(store.users)[id].(password := newPassword.value)]
    ensures store.nextId == old(store.nextId)
  {
    if newPassword.None? || |newPassword.value| < 4 {
      return Fail(PasswordTooShort);
    }
    if id !in store.users {
      return Fail(UserNotFound);
    }
    var user := store.users[id];
    store.users := store.users[id := user.(password := newPassword.value)];
    r := Pass;
  }

  /** exports.setActive: flip a player's activity flag and report the new
      value; an unknown player is refused. */
  method SetActive(store: UserStore, id: UserId) returns (r: Result<bool, AdminError>)
    modifies store
    ensures id !in old(store.users) ==> r == Failure(UserNotFound) && store.users == old(store.users)
    ensures id in old(store.users) ==>
      && store.users == old(store.users)[id := WithActiveFlipped(old(store.users)[id])]
      && r == Success(!old(store.users)[id].isActive)
    ensures store.nextId == old(store.nextId)
  {
    if id !in store.users {
      return Failure(UserNotFound);
    }
    var user := store.users[id];
    store.users := store.users[id := WithActiveFlipped(user)];
    r := Success(store.users[id].isActive);
  }

  /** Two setActive calls on the same player give back the original users. */
  lemma SetActiveTwiceRestores(users: map<UserId, User>, id: UserId)
    requires id in users
    ensures var once := users[id := WithActiveFlipped(users[id])];
      once[id := WithActiveFlipped(once[id])] == users
  {
    FlipTwiceRestores(users[id]);
  }

  // ---------------------------------------------------------------------
  // createPlayers
  // ---------------------------------------------------------------------

  /** One row of the batch: either field may be missing. */
  datatype Row = Row(username: Option<string>, password: Option<string>)

  datatype FailReason = MissingField | UsernameTaken

  /** What happens to one row: a user created with the trimmed fields, or a
      rejection with the name it is reported under. */
  datatype RowResult = Created(username: string, password: string) | Rejected(shown: string, reason: FailReason)

  /** The characters `String.prototype.trim` removes: the WhiteSpace and
      LineTerminator code points of ECMA-262. */
  predicate IsJsSpace(c: char)
  {
    || '\t' <= c <= '\r' || c == ' ' || c == '\U{A0}' || c == '\U{1680}'
    || '\U{2000}' <= c <= '\U{200A}' || c == '\U{2028}' || c == '\U{2029}'
    || c == '\U{202F}' || c == '\U{205F}' || c == '\U{3000}' || c == '\U{FEFF}'
  }

  /** `s` without its leading white space. */
  function TrimStart(s: string): (t: string)
    ensures |t| <= |s| && t == s[|s| - |t|..]
    ensures t == [] || !IsJsSpace(t[0])
    ensures forall i :: 0 <= i < |s| - |t| ==> IsJsSpace(s[i])
  {
    if s != [] && IsJsSpace(s[0]) then TrimStart(s[1..]) else s
  }

  /** `s` without its trailing white space. */
  function TrimEnd(s: string): (t: string)
    ensures |t| <= |s| && t == s[..|t|]
    ensures t == [] || !IsJsSpace(t[|t| - 1])
    ensures forall i :: |t| <= i < |s| ==> IsJsSpace(s[i])
  {
    if s != [] && IsJsSpace(s[|s| - 1]) then TrimEnd(s[..|s| - 1]) else s
  }

  /** `s.trim()`. */
  function Trim(s: string): string
  {
    TrimEnd(TrimStart(s))
  }

  /** A string trims to "" exactly when every character is white space. */
  lemma TrimEmptyIffSpaces(s: string)
    ensures Trim(s) == "" <==> forall i :: 0 <= i < |s| ==> IsJsSpace(s[i])
  {
    var a := TrimStart(s);
    if Trim(s) != "" {
      assert Trim(s)[0] == a[0] == s[|s| - |a|];
    }
  }

  /** A trimmed string neither starts nor ends with white space. */
  lemma TrimEnds(s: string)
    ensures Trim(s) != "" ==> !IsJsSpace(Trim(s)[0]) && !IsJsSpace(Trim(s)[|Trim(s)| - 1])
  {
    var a := TrimStart(s);
    if Trim(s) != "" {
      assert Trim(s)[0] == a[0];
    }
  }

  /** Trimming twice is trimming once. */
  lemma TrimIdempotent(s: string)
    ensures Trim(Trim(s)) == Trim(s)
  {
    var b := Trim(s);
    TrimEnds(s);
    assert TrimStart(b) == b;
  }

  /** A JavaScript string field that is missing or "" is falsy. */
  predicate Blank(field: Option<string>)
  {
    field.None? || field.value == "" || Trim(field.value) == ""
  }

  /** The fate of one row given the usernames already in use. */
  function Classify(row: Row, taken: set<string>): (r: RowResult)
  {
    if Blank(row.username) || Blank(row.password) then
      Rejected(if row.username.None? || row.username.value == "" then "(trống)" else row.username.value, MissingField)
    else if Trim(row.username.value) in taken then
      Rejected(row.username.value, UsernameTaken)
    else
      Created(Trim(row.username.value), Trim(row.password.value))
  }

  /** The usernames created by the rows so far. */
  function CreatedNames(results: seq<RowResult>): set<string>
  {
    if results == [] then {}
    else
      var last := results[|results| - 1];
      CreatedNames(results[..|results| - 1]) + (if last.Created? then {last.username} else {})
  }

  /** The fate of every row, in order: a row sees the usernames in use before
      the batch and those created by earlier rows. The ensures here only
      bounds the length; `ClassifyAllAt` and `ClassifyAllRules` say what each
      result is. */
  function ClassifyAll(rows: seq<Row>, taken: set<string>): (r: seq<RowResult>)
    ensures |r| == |rows|
  {
    if rows == [] then []
    else
      var earlier := ClassifyAll(rows[..|rows| - 1], taken);
      earlier + [Classify(rows[|rows| - 1], taken + CreatedNames(earlier))]
  }

  /** ClassifyAll on a longer batch extends ClassifyAll on its prefix. */
  lemma {:induction false} ClassifyAllPrefix(rows: seq<Row>, taken: set<string>, i: nat)
    requires i <= |rows|
    ensures ClassifyAll(rows[..i], taken) == ClassifyAll(rows, taken)[..i]
    decreases |rows|
  {
    if i < |rows| {
      assert rows[..|rows| - 1][..i] == rows[..i];
      ClassifyAllPrefix(rows[..|rows| - 1], taken, i);
    } else {
      assert rows[..i] == rows;
    }
  }

  /** The names in CreatedNames are those of the created results. */
  lemma {:induction false} CreatedNamesAre(results: seq<RowResult>)
    ensures forall n :: n in CreatedNames(results) <==>
      exists i :: 0 <= i < |results| && results[i].Created? && results[i].username == n
    decreases |results|
  {
    if results != [] {
      var front := results[..|results| - 1];
      CreatedNamesAre(front);
      forall n | n in CreatedNames(results)
        ensures exists i :: 0 <= i < |results| && results[i].Created? && results[i].username == n
      {
        if n in CreatedNames(front) {
          var i :| 0 <= i < |front| && front[i].Created? && front[i].username == n;
          assert results[i] == front[i];
        }
      }
      forall i | 0 <= i < |results| && results[i].Created?
        ensures results[i].username in CreatedNames(results)
      {
        if i < |front| {
          assert front[i] == results[i];
        }
      }
    }
  }

  /** Each row's fate is `Classify` given the names in use before the batch
      and those created by the earlier rows. */
  lemma ClassifyAllAt(rows: seq<Row>, taken: set<string>, i: nat)
    requires i < |rows|
    ensures var r := ClassifyAll(rows, taken);
      r[i] == Classify(rows[i], taken + CreatedNames(r[..i]))
  {
    var r := ClassifyAll(rows, taken);
    ClassifyAllPrefix(rows, taken, i + 1);
    ClassifyAllPrefix(rows, taken, i);
    assert rows[..i + 1][..i] == rows[..i];
    assert r[..i + 1][..i] == r[..i];
  }

  /** The rules of a batch: a row with a blank field is rejected as missing
      data; a row whose trimmed username is in use before the batch or was
      created by an earlier row is rejected as taken; any other row creates
      its trimmed username. So no two created users share a name, and none
      takes a name in use before the batch. */
  lemma ClassifyAllRules(rows: seq<Row>, taken: set<string>, i: nat)
    requires i < |rows|
    ensures var r, u, p := ClassifyAll(rows, taken), rows[i].username, rows[i].password;
      && (Blank(u) || Blank(p) ==> r[i] == Rejected(if u.None? || u.value == "" then "(trống)" else u.value, MissingField))
      && (!Blank(u) && !Blank(p) ==>
            var name := Trim(u.value);
            var earlier := name in taken || exists j :: 0 <= j < i && r[j].Created? && r[j].username == name;
            && (earlier ==> r[i] == Rejected(u.value, UsernameTaken))
            && (!earlier ==> r[i] == Created(name, Trim(p.value))))
  {
    var r := ClassifyAll(rows, taken);
    ClassifyAllAt(rows, taken, i);
    CreatedNamesAre(r[..i]);
    assert forall j :: 0 <= j < i ==> r[..i][j] == r[j];
  }

  /** One account created by a batch. */
  datatype NewAccount = NewAccount(username: string, id: UserId)

  /** One refused row, as the batch reports it. */
  datatype Refusal = Refusal(username: string, reason: FailReason)

  /** The two lists the handler answers with, the created accounts numbered
      from `firstId` in row order. `ReportPartitions` states their contents. */
  function Report(results: seq<RowResult>, firstId: UserId): (r: (seq<NewAccount>, seq<Refusal>))
    ensures |r.0| + |r.1| == |results|
  {
    if results == [] then ([], [])
    else
      var (s, f) := Report(results[..|results| - 1], firstId);
      var last := results[|results| - 1];
      if last.Created? then (s + [NewAccount(last.username, firstId + |s|)], f)
      else (s, f + [Refusal(last.shown, last.reason)])
  }

  /** The created results, in row order. */
  function CreatedOnly(results: seq<RowResult>): (c: seq<RowResult>)
    ensures forall k :: 0 <= k < |c| ==> c[k].Created?
  {
    if results == [] then []
    else
      var last := results[|results| - 1];
      CreatedOnly(results[..|results| - 1]) + (if last.Created? then [last] else [])
  }

  /** The rejected results, in row order. */
  function RejectedOnly(results: seq<RowResult>): (c: seq<RowResult>)
    ensures forall k :: 0 <= k < |c| ==> c[k].Rejected?
  {
    if results == [] then []
    else
      var last := results[|results| - 1];
      RejectedOnly(results[..|results| - 1]) + (if last.Rejected? then [last] else [])
  }

  /** Every row lands in exactly one of the two filters. */
  lemma {:induction false} FiltersPartition(results: seq<RowResult>)
    ensures multiset(CreatedOnly(results)) + multiset(RejectedOnly(results)) == multiset(results)
    ensures |CreatedOnly(results)| == Count(results)
    decreases |results|
  {
    if results != [] {
      var front := results[..|results| - 1];
      FiltersPartition(front);
      assert results == front + [results[|results| - 1]];
    }
  }

  /** The created accounts are the created rows in order, with consecutive
      ids from `firstId`, and the refusals are the rejected rows in order,
      each under the name it is shown with. */
  lemma {:induction false} ReportPartitions(results: seq<RowResult>, firstId: UserId)
    ensures var (s, f) := Report(results, firstId);
      && |s| == Count(results) && |f| == |results| - Count(results)
      && |s| == |CreatedOnly(results)| && |f| == |RejectedOnly(results)|
      && (forall k :: 0 <= k < |s| ==> s[k] == NewAccount(CreatedOnly(results)[k].username, firstId + k))
      && (forall k :: 0 <= k < |f| ==>
            f[k] == Refusal(RejectedOnly(results)[k].shown, RejectedOnly(results)[k].reason))
    decreases |results|
  {
    if results != [] {
      ReportPartitions(results[..|results| - 1], firstId);
    }
  }

  /** How many results are created users. */
  function Count(results: seq<RowResult>): (n: nat)
    ensures n <= |results|
  {
    if results == [] then 0
    else Count(results[..|results| - 1]) + (if results[|results| - 1].Created? then 1 else 0)
  }

  /** The user record a batch row creates: balance 0, active, no history. */
  function Fresh(username: string, password: string): User
  {
    User(username, password, 0.0, true, [])
  }

  /** The users after the created results of a batch were added with ids
      from `firstId` on. */
  function AddCreated(users: map<UserId, User>, results: seq<RowResult>, firstId: UserId): map<UserId, User>
  {
    if results == [] then users
    else
      var before := AddCreated(users, results[..|results| - 1], firstId);
      var last := results[|results| - 1];
      if last.Created? then before[firstId + Count(results[..|results| - 1]) := Fresh(last.username, last.password)]
      else before
  }

  /** A batch adds users only under new ids, leaving the existing ones as
      they were, and every added user has balance 0 and is active. */
  lemma {:induction false} AddCreatedKeeps(users: map<UserId, User>, results: seq<RowResult>, firstId: UserId)
    requires forall id :: id in users ==> id < firstId
    ensures var after := AddCreated(users, results, firstId);
      && (forall id :: id in users ==> id in after && after[id] == users[id])
      && (forall id :: id in after ==> id in users || firstId <= id < firstId + Count(results))
      && (forall id :: id in after && id !in users ==> after[id].balance == 0.0 && after[id].isActive)
    decreases |results|
  {
    if results != [] {
      AddCreatedKeeps(users, results[..|results| - 1], firstId);
    }
  }

  /** Adding a user under a new id adds its name to the names in use. */
  lemma NamesAdd(users: map<UserId, User>, id: UserId, user: User)
    requires id !in users
    ensures Names(users[id := user]) == Names(users) + {user.username}
  {
    var after := users[id := user];
    forall n | n in Names(after) ensures n in Names(users) + {user.username} {
      var k :| k in after && after[k].username == n;
      if k != id {
        assert users[k].username == n;
      }
    }
    forall n | n in Names(users) ensures n in Names(after) {
      var k :| k in users && users[k].username == n;
      assert after[k].username == n;
    }
    assert after[id].username == user.username;
  }

  /** One more row of a batch: its fate is `Classify` given the names in
      use before the batch and those created so far. */
  lemma ClassifyStep(rows: seq<Row>, taken: set<string>, i: nat)
    requires i < |rows|
    ensures var results := ClassifyAll(rows[..i], taken);
      ClassifyAll(rows[..i + 1], taken) == results + [Classify(rows[i], taken + CreatedNames(results))]
  {
    assert rows[..i + 1][..i] == rows[..i];
  }

  /** A created row, on values: adding its user under the next id and its
      account to the created list keeps the users, the next id, the names in
      use and the two lists equal to the batch functions of the results. */
  lemma RowCreated(results: seq<RowResult>, x: RowResult, users0: map<UserId, User>, first: UserId,
                   taken0: set<string>, before: map<UserId, User>, after: map<UserId, User>,
                   nextBefore: UserId, nextAfter: UserId, success: seq<NewAccount>, failed: seq<Refusal>)
    requires x.Created?
    requires before == AddCreated(users0, results, first) && nextBefore == first + Count(results)
    requires Names(before) == taken0 + CreatedNames(results)
    requires (success, failed) == Report(results, first)
    requires after == before[nextBefore := Fresh(x.username, x.password)] && nextAfter == nextBefore + 1
    requires Names(after) == Names(before) + {x.username}
    ensures after == AddCreated(users0, results + [x], first)
    ensures nextAfter == first + Count(results + [x])
    ensures Names(after) == taken0 + CreatedNames(results + [x])
    ensures (success + [NewAccount(x.username, nextBefore)], failed) == Report(results + [x], first)
  {
    assert (results + [x])[..|results|] == results;
    ReportPartitions(results, first);
  }

  /** A rejected row, on values: the users, the next id and the names in use
      stay, its refusal joins the refused list, and all still equal the
      batch functions of the results. */
  lemma RowRejected(results: seq<RowResult>, x: RowResult, users0: map<UserId, User>, first: UserId,
                    taken0: set<string>, users: map<UserId, User>, nextId: UserId,
                    success: seq<NewAccount>, failed: seq<Refusal>)
    requires x.Rejected?
    requires users == AddCreated(users0, results, first) && nextId == first + Count(results)
    requires Names(users) == taken0 + CreatedNames(results)
    requires (success, failed) == Report(results, first)
    ensures users == AddCreated(users0, results + [x], first)
    ensures nextId == first + Count(results + [x])
    ensures Names(users) == taken0 + CreatedNames(results + [x])
    ensures (success, failed + [Refusal(x.shown, x.reason)]) == Report(results + [x], first)
  {
    assert (results + [x])[..|results|] == results;
  }

  /** One row of exports.createPlayers: reject a blank field or a username
      in use, otherwise create the user under the next free id; the row's
      fate is `Classify` given the names in use. */
  method CreateRow(store: UserStore, row: Row) returns (x: RowResult, report: Option<NewAccount>)
    requires store.Valid()
    modifies store
    ensures store.Valid()
    ensures x == Classify(row, Names(old(store.users)))
    ensures x.Rejected? ==> report == None && store.users == old(store.users) && store.nextId == old(store.nextId)
    ensures x.Created? ==>
      && report == Some(NewAccount(x.username, old(store.nextId)))
      && old(store.nextId) !in old(store.users)
      && store.users == old(store.users)[old(store.nextId) := Fresh(x.username, x.password)]
      && store.nextId == old(store.nextId) + 1
      && Names(store.users) == Names(old(store.users)) + {x.username}
  {
    if Blank(row.username) || Blank(row.password) {
      var shown := if row.username.None? || row.username.value == "" then "(trống)" else row.username.value;
      return Rejected(shown, MissingField), None;
    }
    var name := Trim(row.username.value);
    if name in Names(store.users) {
      return Rejected(row.username.value, UsernameTaken), None;
    }
    var id := store.nextId;
    var user := Fresh(name, Trim(row.password.value));
    NamesAdd(store.users, id, user);
    store.users := store.users[id := user];
    store.nextId := id + 1;
    x, report := Created(user.username, user.password), Some(NewAccount(user.username, id));
  }

  /** exports.createPlayers: refuse an empty batch; otherwise go through the
      rows in order, creating a user for every row `Classify` accepts (under
      the next free id) and reporting every row as created or refused. */
  method CreatePlayers(store: UserStore, rows: seq<Row>) returns (r: Result<(seq<NewAccount>, seq<Refusal>), AdminError>)
    requires store.Valid()
    modifies store
    ensures store.Valid()
    ensures rows == [] ==> r == Failure(EmptyBatch) && store.users == old(store.users) && store.nextId == old(store.nextId)
    ensures rows != [] ==>
      var results := ClassifyAll(rows, Names(old(store.users)));
      && r == Success(Report(results, old(store.nextId)))
      && store.users == AddCreated(old(store.users), results, old(store.nextId))
      && store.nextId == old(store.nextId) + Count(results)
  {
    if rows == [] {
      return Failure(EmptyBatch);
    }
    ghost var taken0 := Names(store.users);
    ghost var users0 := store.users;
    ghost var first := store.nextId;
    var success: seq<NewAccount> := [];
    var failed: seq<Refusal> := [];
    ghost var results: seq<RowResult> := [];
    var i := 0;
    while i < |rows|
      invariant 0 <= i <= |rows|
      invariant results == ClassifyAll(rows[..i], taken0)
      invariant (success, failed) == Report(results, first)
      invariant store.users == AddCreated(users0, results, first)
      invariant store.nextId == first + Count(results)
      invariant Names(store.users) == taken0 + CreatedNames(results)
      invariant store.Valid()
    {
      ClassifyStep(rows, taken0, i);
      ghost var before, nextBefore := store.users, store.nextId;
      var x, report := CreateRow(store, rows[i]);
      if report.Some? {
        RowCreated(results, x, users0, first, taken0, before, store.users, nextBefore, store.nextId, success, failed);
        success := success + [report.value];
      } else {
        RowRejected(results, x, users0, first, taken0, store.users, store.nextId, success, failed);
        failed := failed + [Refusal(x.shown, x.reason)];
      }
      results := results + [x];
      i := i + 1;
    }
    assert rows[..|rows|] == rows;
    r := Success((success, failed));
  }
}
