# Game-session engine of the card-game server, in Dafny

This project models the in-memory core of the Go game server
(`src/game_server/API`): the `Store` that keeps the players, the match
table, the FIFO battle queue, the inventory of 3-card packs and the
blind-trade queue, its operations (create a player, open a pack, join the
battle queue, pair two players, play a card, resolve a match), and the
decisions taken by the NATS handlers (login, the per-player round-result
table, matchmaking notifications, the rebuild of a player's card cache from
the ledger, the blind-trade reply).

Modules, one per source file or collaborator:

- `Wrappers` — `Option` and `Result` (the Go `(value, error)` returns; `Err` carries the error text).
- `Ledger` — the asset ledger seen as records: `Wallet`, `CardDto`, and `LedgerRequest`
  (charge, mint, match log). Ledger answers are parameters of the operations that wait
  for them. The charge, mint and match-log requests are returned; wallet creation and
  the card listing appear only as their answers (`wallet` in `CreatePlayer`, `chain` in
  `SeeCards`).
- `GameLogic` (`game_logic.go`) — the `Pack`, `Player` and `Match` records; `setupPacks`
  as an imperative method over arrays, specified by `Inventory`; swap-with-last removal;
  the slot rule of a play (`Play`); the round verdict (`Judge`).
- `Session` (`store.go` and the `Store` methods of `game_logic.go`) — `class Store` with
  the source's fields and one method per operation. `Valid()` states that the registered
  ids are exactly `1..count` and that every entry is filed under its own key.
- `PubSub` (`pubsub.go`) — the handlers' decisions, with messages as typed records.
- `Scenarios` — clients that derive, from the contracts alone, FIFO pairing, a whole
  battle, and the repeat-settlement behaviour.

Each `Store` method and each handler is one atomic step, and the model has
no interleaving. Most `Store` methods hold the mutex throughout, but
`OpenPack`, `ClientJoinGameQueue`, `ClientPlayCards` and `ClientSeeCards`
take it in several separate sections; the model merges those sections
into one step. `rand.Intn` in `OpenPack` is a
nondeterministic choice of an index in range; `uuid.New()` in `CreateMatch`
is a caller-supplied match id (a clashing id overwrites, as the Go map
assignment would).

Behaviours of the code a reader might not expect:

- `PlayCard` does not check that the player owns the card, and it does not reject a
  repeat play. A repeat play overwrites the slot. Once both slots are filled, every
  further play schedules resolution again, so the round is published and logged on
  the ledger again (`Scenarios.ReplayAfterResolution`).
- `CreateMatch` does not check that the two queued ids differ, and `JoinQueue` does not
  reject duplicates. A player paired with itself only ever fills slot 1, so that match
  never resolves (`GameLogic.SelfMatchNeverResolves`).
- `OpenPack` charges the player before it checks the inventory. With an empty inventory,
  the charge request has already gone out when "no packs available" is returned.

## Model

| member | source | states |
|---|---|---|
| `GameLogic.SetupPacks` | src/game_server/API/game_logic.go:82-97 | builds ceil(n/3) packs (n <= 3·count < n+3); pack i holds 3i+1, 3i+2, 3i+3, with slots past n left 0 |
| `GameLogic.InventoryHoldsEachValueOnce` | src/game_server/API/game_logic.go:82-97 | across all packs each value 1..n occurs exactly once, no other non-zero value occurs, and exactly 3·ceil(n/3)−n slots are 0 |
| `GameLogic.InitialInventoryIsFull` | src/game_server/API/store.go:29 | the initial inventory `setupPacks(900)` is 300 packs holding each of 1..900 exactly once and no zero slot |
| `GameLogic.SwapRemoveTakesOne` | src/game_server/API/game_logic.go:144-149 | overwriting element i with the last one and truncating shrinks the inventory by one, removes exactly one copy of the drawn pack, and leaves every other position in place |
| `GameLogic.Play` | src/game_server/API/game_logic.go:229-235 | a play fails exactly when the player is in neither seat; P1's seat is tested first; only that player's slot changes; a repeat play overwrites |
| `GameLogic.SelfMatchNeverResolves` | src/game_server/API/game_logic.go:229-243 | when P1 = P2, any series of plays leaves slot 2 at 0, so resolution is never scheduled |
| `GameLogic.Judge` | src/game_server/API/game_logic.go:257-269 | no winner exactly when the cards are equal; otherwise the winner is the holder of the strictly greater card, with that card as winning value |
| `GameLogic.JudgeIgnoresSeating` | src/game_server/API/game_logic.go:260-266 | exchanging the two seats together with their cards does not change the verdict |
| `Session.Store.constructor` | src/game_server/API/store.go:23-33 | a new store has count 0, no players, no matches, an empty battle queue, an empty blind-trade queue, node id "server-central" and the inventory `setupPacks(900)` |
| `Session.Store.CreatePlayer` | src/game_server/API/game_logic.go:101-116 | count grows by exactly 1; a player with id = new count, the given wallet and no cards is added under a fresh key; existing players and everything else are unchanged; no error path |
| `Session.Store.OpenPack` | src/game_server/API/game_logic.go:118-186 | unknown player, failed payment and empty inventory each fail with the source's message and change nothing. On success one pack at some index is swap-removed, so the inventory multiset loses exactly that pack. The player's list gains its three values in order, and one charge of 1000 plus three mints in pack order are requested |
| `Session.RequestMints` | src/game_server/API/game_logic.go:155-175 | an opened pack yields exactly three mint requests, one per card in pack order, all to the player's address |
| `Session.Store.DrawPack` | src/game_server/API/game_logic.go:144-149 | the pack at some index in range is returned, its place is filled with the last pack, and the inventory is truncated by one; only the inventory changes |
| `Session.Store.JoinQueue` | src/game_server/API/game_logic.go:188-195 | appends the id at the tail of the battle queue, with no check and no failure; returns the id |
| `Session.Store.CreateMatch` | src/game_server/API/game_logic.go:197-218 | fails with "not enough players" and changes nothing exactly when fewer than two are queued. Otherwise it stores a match of the two oldest entries with both slots 0 and leaves `queue[2:]` in order |
| `Session.Store.PlayCard` | src/game_server/API/game_logic.go:220-246 | an unknown game or a non-participant fails with no change. Otherwise exactly the `Play` update of that one match is written. It reports resolution as scheduled exactly when both slots are then non-zero |
| `Session.Store.ResolveMatch` | src/game_server/API/game_logic.go:248-281 | reads only. No ledger log is sent for a missing match or equal cards. Otherwise one log goes out with the winner's and loser's wallet addresses ("" for an unknown id) and the `Judge` values |
| `PubSub.Login` | src/game_server/API/pubsub.go:92-105 | replies "user not found" when the id exceeds count or is unregistered, otherwise accepts that id; reads the store only |
| `PubSub.LoginAcceptsExactlyRegistered` | src/game_server/API/pubsub.go:92-102 | in a valid store login accepts exactly the registered ids, which are exactly 1..count |
| `PubSub.RoundNotices` | src/game_server/API/pubsub.go:236-250 | two notices, P1's then P2's, each carrying the opponent's card. The greater card gets "win" and the other "lose"; both get "draw" on equal cards |
| `PubSub.RoundNoticesAgreeWithJudge` | src/game_server/API/pubsub.go:239-248 | the published table agrees with the ledger verdict: both "draw" exactly when there is no winner, otherwise "win" goes to the seat holding the winning value |
| `PubSub.PlayCards` | src/game_server/API/pubsub.go:215-253 | round notices are published only when the play succeeded and both slots of the match are non-zero, and then they are `RoundNotices` of the updated match. The scheduled resolution logs exactly when that match has a winner |
| `PubSub.JoinGameQueue` | src/game_server/API/pubsub.go:180-205 | queues the player. If a pair forms, it sends exactly one matchmaking notice to P1 then to P2, both with the same new match. It sends none when pairing fails |
| `PubSub.BuildCache` | src/game_server/API/pubsub.go:161-164 | the rebuilt cache maps exactly the listed card ids, each to the power of its last entry (later duplicates overwrite earlier ones) |
| `PubSub.CacheIsUnique` | src/game_server/API/pubsub.go:161-166 | the rebuilt cache is determined by the ledger's list alone, so the old cache plays no part in it |
| `PubSub.SeeCards` | src/game_server/API/pubsub.go:137-176 | an unknown player or a ledger error gives the source's error reply and no new cache. Otherwise the reply carries the ledger's list and the replacement cache is rebuilt from it |
| `PubSub.BlindTradeReply` | src/game_server/API/pubsub.go:266-274 | replies "queued" exactly when joining the blind trade returned no error, otherwise that error's text |
| `Scenarios.FifoPairing` | src/game_server/API/game_logic.go:188-218 | from a new store, a, b, c queued pair as (a, b); the lone c is not paired until d arrives; then (c, d) |
| `Scenarios.Battle` | src/game_server/API/pubsub.go:180-253 | two new players paired and playing c1, c2: the first play publishes nothing; the second publishes the result table and one match log naming the greater card's owner, or none on a draw |
| `Scenarios.ReplayAfterResolution` | src/game_server/API/game_logic.go:229-243 | a play after both slots are filled overwrites the slot and publishes and logs the round again |

## Left out

- Mutex, goroutines and the heartbeat loop: each `Store` method and each handler is one atomic step. `go s.ResolveMatch` runs in `PubSub.PlayCards` right after the play that scheduled it, and the background match-log call becomes the returned `LogMatch` request.
- `Session.Store.OpenPack`: the source locks three separate sections: the player lookup (game_logic.go:119-121), the draw (game_logic.go:138-150) and the append to the player's cards (game_logic.go:178-182). The charge and the mint requests run with the lock released. The model runs all three sections as one step, so it does not capture another operation running in between, for example a concurrent `OpenPack` that takes the last pack after this player was charged.
- `PubSub.JoinGameQueue`: the handler calls `JoinQueue` (pubsub.go:184) and then `CreateMatch` (pubsub.go:193), and each locks on its own (game_logic.go:189-190, 198-199). The model runs both as one step, so a joining player who finds one player waiting is always paired and named in the notices. It does not capture another find-match request running its `CreateMatch` in between: with X waiting and A and B joining together, B's handler can pair X with A and A's handler then sends nothing.
- `PubSub.PlayCards` and `PubSub.SeeCards`: the handlers lock in separate sections (pubsub.go:226 then 231-233; pubsub.go:137-139 then 158-168), and the model runs each handler as one step.
- `CreatePlayer` holds the lock across the wallet request. That is a concurrency matter, so the created wallet is simply a parameter (`Ledger.NoWallet` stands for a timeout).
- Ledger RPC wrappers (`server-api.go`): charge, mint, log-match, get-cards and wallet creation are request records or oracle parameters. Mint answers are only logged by the source, so they are not inputs at all.
- `Store.JoinBlindTrade`: its body is not part of this model. Only the reply mapping, the `BlindTradeRequest` record and the empty initial queue are modelled.
- JSON encoding and decoding, type assertions on payloads, the "invalid payload" reply and the fixed `msg`/`status`/`is_leader` reply fields are wire plumbing.
- The create-account, open-pack, get-credentials and ping handlers only forward to the store or echo data, so they are not modelled.
- PubSub.SeeCards: returns the cache it would install instead of writing it into the player. `Player.Cards` is declared as a list of ints (the list `OpenPack` appends to), but the handler assigns a map to it, so the write-back cannot be modelled without guessing.
- Integer widths: Go `int` is an unbounded integer here. A played card is any integer the client sends (no ownership or range check), so it can be negative. The ledger match-log request converts both values with `uint64`, which wraps a negative value (−1 becomes 2^64−1); `Ledger.LogMatch` keeps the unconverted value, and that wrap is not modelled.
- The `src/server` variant, the blockchain service, the client, and process startup are outside this model.
