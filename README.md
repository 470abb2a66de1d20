# Xì Zách server core in Dafny

This project models the server side of a Vietnamese Xì Zách (blackjack)
card table and its admin ledger, stated and proved in Dafny.

- **`XiZachGame`** (`xizach_game.dfy`) is the rules engine.
  - The 52-card deck is built suit by suit and shuffled by Fisher-Yates. The shuffle is an in-place array loop driven by given random picks.
  - Card values and hand scores: aces count 11 and are turned down to 1 while the hand is over 21.
  - It detects the two special two-card hands, *xì dách* (a two-card 21) and *xì bàng* (two aces).
  - The win/lose/push comparison uses a fixed precedence.
- **`Accounts`** (`accounts.dfy`) holds the user records (balance, activity flag, password, game history) and the user collection.
- **`RoomRules`** (`room_rules.dfy`) holds the pure rules of a table:
  - seats, filtering a user out, the first non-host seat;
  - the cyclic scan that passes the turn;
  - the dealer's draw to 16 and the deal of two cards per seat.
- **`RoomInvariant`** (`room_invariant.dfy`) is the room invariant: no card is ever held twice, scores are cached correctly, users are distinct, there are at most seven seats, and a waiting room has only waiting seats. Each lemma shows that one kind of step keeps it.
- **`SocketHandler`** (`socket_handler.dfy`) is the room session. The class `Room` holds the fields of one room record, and each method is one socket event run to completion:
  - join, toggle ready, start, hit, stand, turn expiry;
  - passing the turn, the dealer's draw, settlement and reset at the end of a round;
  - the host preview, host end of round, host transfer, kicking and leaving.

  Donations between users are a module-level method over the user collection.
- **`GameController`** (`game_controller.dfy`) is the HTTP join: the password and capacity checks in front of adding a seat.
- **`AdminController`** (`admin_controller.dfy`) is the admin ledger:
  - transfer, transfer to all, deduct;
  - password change and activation toggle;
  - batch creation of players with JavaScript `trim` semantics.
- **`Wrappers`** (`wrappers.dfy`) holds `Option`, `Result` and `Verdict`.

Every state-changing method is proved against value-level functions: `HandScore`, `Shuffled`/`NewDeck`, `NextTurn`, `DealerPlay`, `Settled`, `JoinSeats`, `Donated`, `ClassifyAll`, `Report` and `AddCreated`. Lemmas about those functions state what the source promises.

## Model

| member | source | states |
|---|---|---|
| XiZachGame.CardTextInjective | backend/controllers/gameController.js:10-14 | two cards with the same `${value}${suit}` text are the same card |
| XiZachGame.StartsWithAceIffAce | backend/controllers/gameController.js:40 | a card text starts with `A` exactly when the card is an ace |
| XiZachGame.CardValue | backend/controllers/gameController.js:27-32 | every card value lies in 2..11, and it is 11 exactly for an ace |
| XiZachGame.TextValueAgrees | backend/controllers/gameController.js:27-32 | getCardValue on a card's text (suit dropped; J/Q/K 10, A 11, else parseInt) is that card's value |
| XiZachGame.TextValue | backend/controllers/gameController.js:27-32 | getCardValue on a card string: the suit letter is dropped, J/Q/K give 10, A gives 11, and anything else goes through parseInt. `TextValueAgrees` proves it agrees with `CardValue` |
| XiZachGame.SoftTotalCoversAces | backend/controllers/gameController.js:38-46 | the all-aces-11 sum is at least 11 per ace plus 2 per other card |
| XiZachGame.AcesToReduce | backend/controllers/gameController.js:48-51 | the reduction loop turns down at most as many aces as the hand holds |
| XiZachGame.AcesToReduceIsFewest | backend/controllers/gameController.js:48-51 | the loop stops at the first total of 21 or less, or with no ace left, and every smaller count is still over 21 |
| XiZachGame.HandScore | backend/controllers/gameController.js:34-54 | the score is never negative and never above the all-aces-11 sum |
| XiZachGame.HandScoreIsBest | backend/controllers/gameController.js:34-54 | the score is reached by some choice of ace values; it is the best total of 21 or less among them; when no choice reaches 21 or less it is the all-aces-1 total |
| XiZachGame.CalculateScore | backend/controllers/gameController.js:34-54 | the two loops of calculateScore compute `HandScore` |
| XiZachGame.TwoCardTotals | backend/controllers/gameController.js:56-58 | a two-card hand's sum and ace count are those of its two cards |
| XiZachGame.IsBlackjack | backend/controllers/gameController.js:56-58 | a hand of exactly two cards scoring 21. `BlackjackIsAceAndTen` gives the card-level meaning |
| XiZachGame.IsXiBang | backend/controllers/gameController.js:60-63 | a hand of exactly two aces. `NotBlackjackAndXiBang` shows it never overlaps xì dách |
| XiZachGame.BlackjackIsAceAndTen | backend/controllers/gameController.js:56-58 | a two-card 21 is exactly an ace with a 10, J, Q or K |
| XiZachGame.NotBlackjackAndXiBang | backend/controllers/gameController.js:56-63 | no hand is both xì dách and xì bàng |
| XiZachGame.CompareHands | backend/controllers/gameController.js:72-104 | the outcome for the player, checked in the source's order: xì dách, xì bàng, busts, then scores. The lemmas below state its properties |
| XiZachGame.CompareHandsByStrength | backend/controllers/gameController.js:72-104 | compareHands is the comparison of two strengths: xì dách, then xì bàng, then plain scores, with a bust below all |
| XiZachGame.CompareHandsAntisymmetric | backend/controllers/gameController.js:72-104 | swapping player and dealer swaps win and lose and keeps push |
| XiZachGame.CompareHandsReflexive | backend/controllers/gameController.js:72-104 | a hand against itself is a push |
| XiZachGame.CompareHandsTransitive | backend/controllers/gameController.js:72-104 | if a beats b and b beats c then a beats c |
| XiZachGame.BlackjackBeatsEverythingElse | backend/controllers/gameController.js:82-86 | xì dách beats every hand that is not xì dách, three-card 21s and two aces included, from either side |
| XiZachGame.XiBangBeatsEverythingButBlackjack | backend/controllers/gameController.js:89-93 | two aces beat every hand that is neither xì dách nor xì bàng, busts included, from either side |
| XiZachGame.PlainBustRules | backend/controllers/gameController.js:96-103 | outside the special hands, two busts push, a bust loses to a non-bust, and otherwise the higher score wins |
| XiZachGame.DealerBlackjackBeatsThreeCardTwentyOne | backend/controllers/gameController.js:82-86 | 7♠7♥7♣ against the dealer's A♦K♣ loses |
| XiZachGame.BlackjackAgainstSeventeen | backend/controllers/gameController.js:82-104 | 10♠A♥ beats 9♦8♣, and two xì dách push |
| XiZachGame.SuitCards | backend/controllers/gameController.js:11-13 | the inner loop yields 13 cards |
| XiZachGame.DeckUpTo | backend/controllers/gameController.js:10-14 | after k suits the deck holds 13·k cards |
| XiZachGame.SuitCardsCount | backend/controllers/gameController.js:11-13 | one suit's cards hold each card of that suit exactly once and no other card |
| XiZachGame.DeckUpToCount | backend/controllers/gameController.js:10-14 | the first k suits hold each card of those suits exactly once and no other card |
| XiZachGame.FullDeckHasEveryCardOnce | backend/controllers/gameController.js:5-14 | the unshuffled deck has 52 cards, each (value, suit) pair exactly once |
| XiZachGame.SwapPermutes | backend/controllers/gameController.js:22 | one swap keeps the length and the multiset of cards |
| XiZachGame.Shuffled | backend/controllers/gameController.js:19-25 | the Fisher-Yates swaps from the last index down to 1, each with the pick for that index. `ShuffledPermutes` and `ShuffleDeck` state its properties |
| XiZachGame.ShuffledPermutes | backend/controllers/gameController.js:19-25 | the shuffle, for any picks j ≤ i, returns a permutation of its input |
| XiZachGame.ShuffleDeck | backend/controllers/gameController.js:19-25 | the in-place loop leaves the array equal to `Shuffled` of the old contents, a permutation of them |
| XiZachGame.NewDeck | backend/controllers/gameController.js:5-17 | the shuffled deck has 52 cards, each card exactly once |
| XiZachGame.CreateDeck | backend/controllers/gameController.js:5-17 | the nested loops plus the shuffle return `NewDeck(picks)`: 52 cards, each exactly once |
| Accounts.WithActiveFlipped | backend/controllers/adminController.js:68 | the flag is negated and nothing else in the record changes |
| Accounts.FlipTwiceRestores | backend/controllers/adminController.js:68 | flipping twice gives back the original record |
| RoomRules.ClearedSeat | backend/middleware/socketHandler.js:863-868 | the reset seat keeps user and position, has no cards, score 0, status waiting, not ready |
| RoomRules.SeatOf | backend/middleware/socketHandler.js:460-466 | `find` returns the user's first seat |
| RoomRules.Without | backend/middleware/socketHandler.js:500-502 | the filter never lengthens the table |
| RoomRules.WithoutKeepsOthers | backend/middleware/socketHandler.js:500-502 | the filter keeps exactly the seats of the other users |
| RoomRules.WithoutUnseats | backend/middleware/socketHandler.js:500-502 | after the filter the user holds no seat |
| RoomRules.WithoutUnseated | backend/middleware/socketHandler.js:301-308 | filtering out a user without a seat changes nothing |
| RoomRules.WithoutRemovesSeat | backend/middleware/socketHandler.js:302-304 | filtering a seated user removes exactly that seat and keeps the others in order |
| RoomRules.WithoutKeepsDistinct | backend/middleware/socketHandler.js:500-502 | removing a user keeps the other users distinct |
| RoomRules.FirstNonHost | backend/middleware/socketHandler.js:624-634 | the starting index is a seat index when there are seats |
| RoomRules.FirstNonHostIsFirst | backend/middleware/socketHandler.js:624-634 | the start is the first non-host seat; seat 0 when every seat is the host's; there is no wrap-around |
| RoomRules.AllReady | backend/middleware/socketHandler.js:601 | the start condition: at least one seat and every seat ready |
| RoomRules.ScanFrom | backend/middleware/socketHandler.js:758-768 | the cyclic scan returns a seat index or nothing |
| RoomRules.ScanFromFinds | backend/middleware/socketHandler.js:758-768 | the seat found has not finished, lies within the steps left, and every seat passed over has finished |
| RoomRules.ScanFromNone | backend/middleware/socketHandler.js:758-774 | the scan finds nothing exactly when every seat it looks at has finished |
| RoomRules.NextTurn | backend/middleware/socketHandler.js:756-780 | moveToNextPlayer's choice is a seat index or the host stage |
| RoomRules.FirstLooked | backend/middleware/socketHandler.js:758 | the first seat looked at, `(current + 1) % n`, is a seat |
| RoomRules.NextTurnFinds | backend/middleware/socketHandler.js:756-780 | the next turn goes to a seat neither standing nor bust, and every seat skipped from the one after the current one is standing or bust |
| RoomRules.NextTurnNoneIffAllDone | backend/middleware/socketHandler.js:770-778 | the host stage begins exactly when every seat stands or is bust |
| RoomRules.TurnOrderExample | backend/middleware/socketHandler.js:756-780 | on a four-seat table the turn skips a bust seat and wraps, then the host stage begins |
| RoomRules.DrawWhile | backend/middleware/socketHandler.js:801-805 | drawing shrinks the deck and grows the hand |
| RoomRules.DrawWhileStops | backend/middleware/socketHandler.js:801 | drawing ends when the hand is no longer wanted or the deck is empty |
| RoomRules.DrawWhileKeepsBottom | backend/middleware/socketHandler.js:801-803 | what stays in the deck is its bottom part |
| RoomRules.DrawWhileTakesFromTop | backend/middleware/socketHandler.js:801-803 | the new cards are the deck's top cards, the topmost first |
| RoomRules.DrawWhileOnlyWhileWanted | backend/middleware/socketHandler.js:801 | every hand held before a draw was still wanted |
| RoomRules.DealerPlay | backend/middleware/socketHandler.js:801-805 | the dealer only gains cards and the deck only shrinks |
| RoomRules.DealerPlayStops | backend/middleware/socketHandler.js:801 | the dealer ends on 16 or more, or with an empty deck |
| RoomRules.DealerPlayTakesFromTop | backend/middleware/socketHandler.js:801-803 | the dealer's new cards are popped from the top and the bottom of the deck stays |
| RoomRules.DealerPlayStopsAtSixteen | backend/middleware/socketHandler.js:801-805 | the dealer draws only while the hand scores below 16 |
| RoomRules.DealerPlayConserves | backend/middleware/socketHandler.js:801-803 | no card is lost or made up by the dealer's draw |
| RoomRules.DealtHands | backend/middleware/socketHandler.js:638-642 | seats dealt two cards each from the top hold, with the rest of the deck, exactly the deck's cards |
| RoomInvariant.SeatChangeKeeps | backend/middleware/socketHandler.js:473 | changing a seat's flags or status keeps the room invariant (a waiting room's seat stays waiting) |
| RoomInvariant.DrawToSeatMovesCard | backend/middleware/socketHandler.js:113-114 | a popped card moves from the deck to the seat's hand: the room holds the same cards |
| RoomInvariant.DrawToSeatKeeps | backend/middleware/socketHandler.js:113-115 | a hit keeps the room invariant |
| RoomInvariant.DrawToDealerKeeps | backend/middleware/socketHandler.js:801-805 | a dealer draw with the score recomputed keeps the room invariant |
| RoomInvariant.AddSeatKeeps | backend/middleware/socketHandler.js:37-45 | pushing a waiting seat for an unseated user below seven seats keeps the room invariant |
| RoomInvariant.WithoutKeeps | backend/middleware/socketHandler.js:500-502 | filtering out a user keeps the room invariant |
| RoomInvariant.ClearedKeeps | backend/middleware/socketHandler.js:857-868 | the finishRound reset satisfies the room invariant |
| RoomInvariant.DealtKeeps | backend/middleware/socketHandler.js:613-646 | a deal from a deck holding each card once leaves the room invariant true, with seat k holding cards `|d|-1-2k` and `|d|-2-2k` and the dealer the next two |
| RoomInvariant.DealerFromRest | backend/middleware/socketHandler.js:645 | the dealer's two cards are the two below the seats' cards, and the deck keeps the rest |
| SocketHandler.SettleMovesByBet | backend/middleware/socketHandler.js:821-830 | a win adds the bet, a loss takes it, a push changes only the history, and each settlement adds one history entry |
| SocketHandler.Settle | backend/middleware/socketHandler.js:821-830 | one user's settlement: the balance moves by the outcome's change and one history entry is appended. `SettleMovesByBet` states its effect |
| SocketHandler.Room.Create | backend/controllers/gameController.js:114-134 | a new room: owner is host in seat 0, waiting, a new shuffled deck, no dealer hand or score |
| SocketHandler.Room.AddSeat | backend/middleware/socketHandler.js:37-45 | one waiting seat at position `players.length` is appended |
| SocketHandler.Room.Join | backend/middleware/socketHandler.js:35-45 | an unseated caller below seven seats gets one new seat; otherwise nothing changes |
| SocketHandler.Room.Pop | backend/middleware/socketHandler.js:113 | `deck.pop()` returns the last card and removes it |
| SocketHandler.Room.TurnCheck | backend/middleware/socketHandler.js:89-105 | the guard shared by hit and stand: no current turn or another user's turn is "not your turn", and a seat not playing is refused |
| SocketHandler.Room.DealOne | backend/middleware/socketHandler.js:639-641 | one seat gets the top two cards, their score and status playing |
| SocketHandler.Room.DealSeats | backend/middleware/socketHandler.js:638-642 | the deal loop gives seat k the cards `|d|-1-2k` and `|d|-2-2k` and leaves the deck minus 2·n cards |
| SocketHandler.Room.StartGame | backend/middleware/socketHandler.js:594-646 | no change unless waiting with every seat ready; otherwise the round is dealt from a new deck |
| SocketHandler.Room.BeginRound | backend/middleware/socketHandler.js:613-646 | a new deck is created and dealt from |
| SocketHandler.Room.DealFrom | backend/middleware/socketHandler.js:613-646 | status playing, turn at the first non-host seat, two cards to each seat and to the dealer, the deck shrunk by 2·n+2, room invariant kept |
| SocketHandler.Room.ToggleReady | backend/middleware/socketHandler.js:460-484 | an unseated caller changes nothing; otherwise the ready flag flips and the round starts exactly when it can |
| SocketHandler.Room.Advance | backend/middleware/socketHandler.js:756-780 | the turn moves to `NextTurn`, or, at the host stage, the index stays |
| SocketHandler.Room.Hit | backend/middleware/socketHandler.js:89-131 | refused with no change unless it is the caller's turn and they are playing; otherwise one card moves from the deck's top to the hand, the score is recomputed, and the seat busts (and the turn passes) exactly when the score is over 21 |
| SocketHandler.Room.Stand | backend/middleware/socketHandler.js:154-191 | refused with no change unless it is the caller's turn and they are playing; otherwise the seat stands and the turn passes |
| SocketHandler.Room.StandSeat | backend/middleware/socketHandler.js:178-191 | the seat's status becomes stand and the turn passes |
| SocketHandler.Room.TurnExpired | backend/middleware/socketHandler.js:701-711 | the timer's seat stands and the turn passes only if it is still playing; otherwise nothing changes |
| SocketHandler.Room.DealerDraw | backend/middleware/socketHandler.js:801-805 | the dealer loop computes `DealerPlay`; with no dealer score it draws nothing |
| SocketHandler.Room.SettleUsers | backend/middleware/socketHandler.js:809-832 | each seated user with a record is settled once against the dealer's hand; the other records stay |
| SocketHandler.Room.SettleAll | backend/middleware/socketHandler.js:809-832 | the user collection is settled as `Settled` says |
| SocketHandler.Room.ResetRound | backend/middleware/socketHandler.js:857-868 | waiting, no turn, empty deck and dealer hand, dealer score 0, every seat cleared, room invariant kept |
| SocketHandler.Room.FinishRound | backend/middleware/socketHandler.js:798-868 | the dealer draws, every seated user is settled against the final dealer hand, and the room resets; host and seat users unchanged |
| SocketHandler.Room.HostEndRound | backend/middleware/socketHandler.js:419-430 | only the host may end the round, which then finishes as `FinishRound` does |
| SocketHandler.Room.HostShowPlayer | backend/middleware/socketHandler.js:352-374 | a preview succeeds exactly for the host, a seated target and a dealer hand, and gives the target's outcome and score |
| SocketHandler.Room.TransferHost | backend/middleware/socketHandler.js:204-218 | the host role moves exactly when the host asks for a seated user |
| SocketHandler.Room.Kick | backend/middleware/socketHandler.js:296-320 | a non-host kick, or a kick of an unseated user, changes nothing; otherwise exactly the target's seat is removed, and an emptied room is deleted |
| SocketHandler.Room.Leave | backend/middleware/socketHandler.js:500-527 | only the caller's seat is removed; an emptied room is deleted; a leaving host is replaced by the first remaining seat's user |
| SocketHandler.Donated | backend/middleware/socketHandler.js:264-265 | the users' ids stay the same after a donation |
| SocketHandler.DonatedConserves | backend/middleware/socketHandler.js:264-265 | between two users the sender loses exactly the amount, the receiver gains it, their sum is unchanged; nobody else changes |
| SocketHandler.Donate | backend/middleware/socketHandler.js:237-265 | refuses an amount ≤ 0, an unknown sender, a missing record and a balance below the amount, with no change. It passes exactly when none of these holds, and then the balances follow `Donated` |
| GameController.JoinOutcomes | backend/controllers/gameController.js:174-193 | a wrong password and a full table are refused (both directions); a seated caller sees no change; otherwise exactly one waiting seat with no cards and score 0 is appended at position `players.length` |
| GameController.JoinTwiceIsJoinOnce | backend/controllers/gameController.js:182-185 | joining again after a successful join changes nothing |
| GameController.JoinSeats | backend/controllers/gameController.js:174-193 | the joined seats or the refusal, checked in the handler's order. `JoinOutcomes` states its meaning |
| GameController.JoinRoom | backend/controllers/gameController.js:164-196 | the handler refuses or changes the seats exactly as `JoinSeats` says |
| AdminController.Transfer | backend/controllers/adminController.js:76-93 | refuses a non-integer or non-positive amount, a missing user and a low admin balance, with no change. It passes exactly when none of these holds: admin −amount, user +amount, the sum kept |
| AdminController.TransferAll | backend/controllers/adminController.js:118-136 | refuses an empty list, a bad amount and an admin balance below amount × the list's length. It passes exactly when none of these holds: each listed user that exists gains the amount once, and the admin pays amount × the list's length |
| AdminController.Deduct | backend/controllers/adminController.js:163-177 | refuses a bad amount, a missing user and an amount not below the balance. It passes exactly when none of these holds: the balance drops by the amount and stays above zero |
| AdminController.ChangePassword | backend/controllers/adminController.js:46-56 | refuses a missing or short password and a missing user. It passes exactly when none of these holds, and then only that user's password changes |
| AdminController.SetActive | backend/controllers/adminController.js:63-70 | a missing user is refused; otherwise only the flag flips and the new flag is returned |
| AdminController.SetActiveTwiceRestores | backend/controllers/adminController.js:68 | two setActive calls give back the original users |
| AdminController.TrimStart | backend/controllers/adminController.js:230 | the result is a suffix not starting with white space, and everything dropped is white space |
| AdminController.TrimEnd | backend/controllers/adminController.js:230 | the result is a prefix not ending with white space, and everything dropped is white space |
| AdminController.Trim | backend/controllers/adminController.js:230 | `String.prototype.trim`: the start, then the end, stripped of white space. The three lemmas below state its properties |
| AdminController.TrimEmptyIffSpaces | backend/controllers/adminController.js:230 | `trim()` gives "" exactly when every character is white space |
| AdminController.TrimEnds | backend/controllers/adminController.js:244 | a trimmed name neither starts nor ends with white space |
| AdminController.TrimIdempotent | backend/controllers/adminController.js:244 | trimming twice is trimming once |
| AdminController.Classify | backend/controllers/adminController.js:229-251 | one row judged against the names in use. `ClassifyAllRules` states the outcome per row |
| AdminController.ClassifyAll | backend/controllers/adminController.js:228-255 | every row gets exactly one result |
| AdminController.CreatedNamesAre | backend/controllers/adminController.js:237-251 | the names created so far are exactly the usernames of the created results |
| AdminController.ClassifyAllAt | backend/controllers/adminController.js:228-255 | each row is judged against the names in use before the batch plus those created by the earlier rows |
| AdminController.ClassifyAllRules | backend/controllers/adminController.js:229-251 | a blank or whitespace-only field fails (shown as `(trống)` when the username is missing or empty); a name in use or created earlier in the batch fails; otherwise the trimmed user is created |
| AdminController.Report | backend/controllers/adminController.js:223-255 | the two lists together have one entry per row |
| AdminController.ReportPartitions | backend/controllers/adminController.js:228-255 | the success list is the created rows in order (username, consecutive ids from the first new id); the failed list is the rejected rows in order (shown name, reason) |
| AdminController.CreatedOnly | backend/controllers/adminController.js:243-251 | the created results in row order, all of them `Created` |
| AdminController.RejectedOnly | backend/controllers/adminController.js:230-241 | the rejected results in row order, all of them `Rejected` |
| AdminController.FiltersPartition | backend/controllers/adminController.js:228-255 | every result lands in exactly one of the two filters (a multiset partition), and the created ones number `Count` |
| AdminController.AddCreated | backend/controllers/adminController.js:243-250 | the users after the batch: each created result is added, in order, under the next id. `AddCreatedKeeps` states its properties |
| AdminController.AddCreatedKeeps | backend/controllers/adminController.js:243-250 | existing users are untouched, new users take fresh ids, and each has balance 0 and is active |
| AdminController.CreateRow | backend/controllers/adminController.js:229-254 | one row is classified against the names in use; a created row adds one fresh active user with balance 0 under the next id |
| AdminController.CreatePlayers | backend/controllers/adminController.js:216-260 | an empty batch is refused; otherwise the lists and the new users are `Report` and `AddCreated` of `ClassifyAll` |

## Left out

- MongoDB persistence is not modelled: loading, `populate`, `save`, `deleteOne`, the re-fetch after a save, and database errors (the `catch` paths answering "Server error"). Rooms and users are in-memory values; a deleted room is reported as a result (`RoomDeleted`, `deleted`).
- A handler whose room is not found (`if (!room) return`, 404 on the HTTP join) is not modelled. Every method starts from an existing room.
- socket.io emits, room channels and the payloads they carry (results lists, previews pushed to clients) are not modelled. They are broadcasts, not state; `HostShowPlayer` returns the preview instead.
- Timers are not modelled: `setTimeout`/`setInterval`, the 2-second deal delay, the 60-second host-stage clock. `TurnExpired` stands in for the auto-stand, and `HostEndRound`/`FinishRound` stand in for the auto-finish.
- Races between concurrent handlers are not modelled. In `hit`, `moveToNextPlayer` is called without being awaited, its own save is not awaited either, and it starts before `hit`'s own save. In `stand` it runs after the save. The model runs each handler, with its turn advance, to completion.
- `Math.random` is replaced by the `picks` parameter (any index in [0, i] at step i). The random room id and the room name are not modelled.
- JWT and bcrypt authentication, admin login, routes, server wiring and the whole frontend are not part of this model.
- A user who donates to themselves is loaded as two separate records and saved twice. That duplicate-record effect is not modelled: `Donated` applies the credit to the record the debit left.
- `Number(amount)` coercion, NaN and non-string request fields are not modelled. Amounts are `real`, and fields are `Option<string>`.
- Floating-point rounding of balances is not modelled, because balances are exact `real`s.
- ChangePassword: the length check counts Dafny characters; JavaScript's `String(newPassword).length` counts UTF-16 code units.
- TransferAll: as in the source, the admin is charged amount × the number of listed ids, even for ids that are missing or listed twice. Each user found is credited once.
- The admin record is assumed to exist; `Admin.findById` returning null ends in a 500 in the source.
- CreatePlayers: a failing `save` inside a row (the per-row `catch` that reports `error.message`) is not modelled. Neither is a non-string field.
- The user's `currentRoomId` and `isOnline` updates on join and leave are not modelled, nor the history entry's date.
- Disconnect runs the same steps as leaving the room and is modelled by `Leave`.
- Room.Hit: it requires a non-empty deck when the turn checks pass. The source pops with no check, and an empty `pop()` would push `undefined` into the hand.
- Room.Advance: like the source, it treats a `waiting` seat (one that joined mid-round) as not finished, so the turn can land on a seat that cannot hit or stand.
- The room invariant (`RoomInvariant.RoomOk`: every card at most once, scores cached, distinct users, at most seven seats) is an addition of this model. The source states no such invariant. Seat positions are not part of it, because after departures they need not be unique.
