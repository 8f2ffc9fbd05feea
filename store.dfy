/**
 * The game server's in-memory session store: players, the match table, the
 * battle queue, the pack inventory and the blind-trade queue. Each method is
 * one atomic step; `OpenPack`, which the source locks in three separate
 * sections, is merged into one. Ledger answers are parameters; the charge
 * and mint requests are returned, while wallet creation appears only as its
 * answer (`wallet` in `CreatePlayer`).
 */
module Session {
  import opened Wrappers
  import opened Ledger
  import opened GameLogic

  /** What opening a pack costs, charged to the player's wallet. */
  const PackPrice := 1000

  /** A pending blind-trade offer: who offers which card, with which wallet. */
  datatype BlindTradeRequest = BlindTradeRequest(playerId: int, cardHex: string, wallet: Wallet)

  /** The mint requests for an opened pack: one per card, in pack order, owned by `address`. */
  method RequestMints(address: string, pack: Pack) returns (reqs: seq<LedgerRequest>)
    ensures |reqs| == 3
    ensures forall k :: 0 <= k < 3 ==> reqs[k] == MintCard(address, pack.Values()[k])
  {
    reqs := [];
    var values := pack.Values();
    for k := 0 to |values|
      invariant |reqs| == k
      invariant forall j :: 0 <= j < k ==> reqs[j] == MintCard(address, values[j])
    {
      reqs := reqs + [MintCard(address, values[k])];
    }
  }

  class Store {
    var players: map<int, Player>
    var matchHistory: map<string, Match>
    var gameQueue: seq<int>
    var cards: seq<Pack>
    var count: int
    const nodeId: string
    var blindTradeQueue: seq<BlindTradeRequest>

    /**
     * Ids are handed out 1, 2, 3, ... and never removed, so the registered ids
     * are exactly 1..count; every entry is filed under its own id.
     */
    ghost predicate Valid()
      reads this
    {
      && count >= 0
      && (forall id :: id in players <==> 1 <= id <= count)
      && (forall id :: id in players ==> players[id].id == id)
      && (forall k :: k in matchHistory ==> matchHistory[k].selfId == k)
    }

    /** NewStore. */
    constructor ()
      ensures Valid()
      ensures count == 0 && players == map[]
      ensures matchHistory == map[] && gameQueue == []
      ensures cards == Inventory(900) && |cards| == 300
      ensures nodeId == "server-central"
      ensures blindTradeQueue == []
    {
      var packs := SetupPacks(900);
      players := map[];
      matchHistory := map[];
      gameQueue := [];
      count := 0;
      cards := packs;
      nodeId := "server-central";
      blindTradeQueue := [];
    }

    /** Registers the next player with the wallet the ledger created (NoWallet on a timeout); never fails. */
    method CreatePlayer(wallet: Wallet) returns (id: int)
      requires Valid()
      modifies this
      ensures Valid()
      ensures id == old(count) + 1 && count == id && id > 0
      ensures id !in old(players)
      ensures players == old(players)[id := Player(id, wallet, [])]
      ensures matchHistory == old(matchHistory) && gameQueue == old(gameQueue)
      ensures cards == old(cards) && blindTradeQueue == old(blindTradeQueue)
    {
      count := count + 1;
      var newPlayer := Player(count, wallet, []);
      players := players[newPlayer.id := newPlayer];
      id := newPlayer.id;
    }

    /**
     * Charges the player, draws a pack at a random index by swap-with-last
     * removal, requests one mint per card and appends the three values to the
     * player's card list. `paid` is the ledger's answer to the charge; mint
     * answers are only logged by the source and change nothing.
     */
    method OpenPack(id: int, shopAddress: string, paid: bool) returns (r: Result<Pack>, calls: seq<LedgerRequest>)
      requires Valid()
      modifies this
      ensures Valid()
      ensures count == old(count) && matchHistory == old(matchHistory)
      ensures gameQueue == old(gameQueue) && blindTradeQueue == old(blindTradeQueue)
      ensures multiset(cards) <= multiset(old(cards))
      ensures id !in old(players) ==> r == Err("player not found") && calls == []
      ensures id in old(players) ==>
        |calls| >= 1 && calls[0] == Transaction(old(players)[id].wallet, Wallet(shopAddress, ""), PackPrice)
      ensures id in old(players) && !paid ==>
        r == Err("saldo insuficiente ou erro na transa\U{e7}\U{e3}o") && |calls| == 1
      ensures id in old(players) && paid && old(cards) == [] ==>
        r == Err("no packs available") && |calls| == 1
      ensures r.Err? ==> players == old(players) && cards == old(cards)
      ensures r.Ok? <==> id in old(players) && paid && old(cards) != []
      ensures r.Ok? ==>
        exists i :: 0 <= i < |old(cards)| && old(cards)[i] == r.value && cards == SwapRemove(old(cards), i)
      ensures r.Ok? ==> |cards| == |old(cards)| - 1 && multiset(cards) == multiset(old(cards)) - multiset{r.value}
      ensures r.Ok? ==>
        players == old(players)[id := old(players)[id].(cards := old(players)[id].cards + r.value.Values())]
      ensures r.Ok? ==>
        |calls| == 4 && forall k :: 0 <= k < 3 ==> calls[k + 1] == MintCard(old(players)[id].wallet.address, r.value.Values()[k])
    {
      calls := [];
      if id !in players {
        return Err("player not found"), calls;
      }
      var player := players[id];
      calls := [Transaction(player.wallet, Wallet(shopAddress, ""), PackPrice)];
      if !paid {
        return Err("saldo insuficiente ou erro na transa\U{e7}\U{e3}o"), calls;
      }
      if |cards| == 0 {
        return Err("no packs available"), calls;
      }
      var pack := DrawPack();
      var mints := RequestMints(player.wallet.address, pack);
      calls := calls + mints;
      var p := players[id];
      p := p.(cards := p.cards + [pack.first, pack.second, pack.third]);
      players := players[id := p];
      r := Ok(pack);
    }

    /** Draws the pack at a random index, filling its place with the last pack. */
    method DrawPack() returns (pack: Pack)
      requires |cards| > 0
      modifies this`cards
      ensures exists i :: 0 <= i < |old(cards)| && old(cards)[i] == pack && cards == SwapRemove(old(cards), i)
      ensures |cards| == |old(cards)| - 1 && multiset(cards) == multiset(old(cards)) - multiset{pack}
    {
      var i :| 0 <= i < |cards|;
      var lastIndex := |cards| - 1;
      pack := cards[i];
      SwapRemoveTakesOne(cards, i);
      cards := cards[i := cards[lastIndex]];
      cards := cards[..lastIndex];
    }

    /** Appends the id to the battle queue, with no existence or duplicate check; never fails. */
    method JoinQueue(id: int) returns (r: int)
      requires Valid()
      modifies this
      ensures Valid()
      ensures r == id && gameQueue == old(gameQueue) + [id]
      ensures players == old(players) && count == old(count) && matchHistory == old(matchHistory)
      ensures cards == old(cards) && blindTradeQueue == old(blindTradeQueue)
    {
      gameQueue := gameQueue + [id];
      r := id;
    }

    /**
     * Pairs the two oldest queue entries into a new match with both slots
     * empty, filed under `gameId` (the source draws a UUID here). Does not
     * check that the two entries differ.
     */
    method CreateMatch(gameId: string) returns (r: Result<Match>)
      requires Valid()
      modifies this
      ensures Valid()
      ensures players == old(players) && count == old(count)
      ensures cards == old(cards) && blindTradeQueue == old(blindTradeQueue)
      ensures r.Err? <==> |old(gameQueue)| < 2
      ensures r.Err? ==> r.error == "not enough players" && gameQueue == old(gameQueue) && matchHistory == old(matchHistory)
      ensures r.Ok? ==> gameQueue == old(gameQueue)[2..] && old(gameQueue) == [r.value.p1, r.value.p2] + gameQueue
      ensures r.Ok? ==> r.value == Match(gameId, old(gameQueue)[0], old(gameQueue)[1], 0, 0)
      ensures r.Ok? ==> matchHistory == old(matchHistory)[gameId := r.value]
    {
      if |gameQueue| < 2 {
        return Err("not enough players");
      }
      var p1 := gameQueue[0];
      var p2 := gameQueue[1];
      var x := Match(gameId, p1, p2, 0, 0);
      matchHistory := matchHistory[gameId := x];
      assert gameQueue == [p1, p2] + gameQueue[2..];
      gameQueue := gameQueue[2..];
      r := Ok(x);
    }

    /**
     * Records a card in the player's slot of the match. Returns whether the
     * match is now ready for resolution (both slots non-zero), which is when
     * the source schedules ResolveMatch.
     */
    method PlayCard(gameId: string, id: int, card: int) returns (r: Result<bool>)
      requires Valid()
      modifies this
      ensures Valid()
      ensures players == old(players) && count == old(count) && gameQueue == old(gameQueue)
      ensures cards == old(cards) && blindTradeQueue == old(blindTradeQueue)
      ensures gameId !in old(matchHistory) ==> r == Err("game not found")
      ensures gameId in old(matchHistory) && Play(old(matchHistory)[gameId], id, card).None? ==>
        r == Err("player not in match")
      ensures r.Err? ==> matchHistory == old(matchHistory)
      ensures r.Ok? <==> gameId in old(matchHistory) && Play(old(matchHistory)[gameId], id, card).Some?
      ensures r.Ok? ==>
        && gameId in old(matchHistory)
        && Play(old(matchHistory)[gameId], id, card).Some?
        && matchHistory == old(matchHistory)[gameId := Play(old(matchHistory)[gameId], id, card).value]
      ensures r.Ok? ==> (r.value <==> BothPlayed(matchHistory[gameId]))
    {
      if gameId !in matchHistory {
        return Err("game not found");
      }
      var game := matchHistory[gameId];
      if game.p1 == id {
        game := game.(card1 := card);
      } else if game.p2 == id {
        game := game.(card2 := card);
      } else {
        return Err("player not in match");
      }
      matchHistory := matchHistory[gameId := game];
      r := Ok(BothPlayed(game));
    }

    /** The wallet address of a player; the Go zero value "" for an unknown id. */
    function AddressOf(id: int): string
      reads this
    {
      if id in players then players[id].wallet.address else ""
    }

    /**
     * Decides a match and returns the ledger log request for a decisive
     * result; a missing match or a draw sends none. The match table is only read.
     */
    method ResolveMatch(gameId: string) returns (log: Option<LedgerRequest>)
      ensures log.None? <==> gameId !in matchHistory || matchHistory[gameId].card1 == matchHistory[gameId].card2
      ensures log.Some? ==>
        var v := Judge(matchHistory[gameId]);
        v.Decisive? && log.value == LogMatch(AddressOf(v.winner), AddressOf(v.loser), v.winVal, v.loseVal)
    {
      if gameId !in matchHistory {
        return None;
      }
      var game := matchHistory[gameId];
      var winnerId, loserId, winVal, loseVal;
      if game.card1 > game.card2 {
        winnerId, loserId := game.p1, game.p2;
        winVal, loseVal := game.card1, game.card2;
      } else if game.card2 > game.card1 {
        winnerId, loserId := game.p2, game.p1;
        winVal, loseVal := game.card2, game.card1;
      } else {
        return None;
      }
      log := Some(LogMatch(AddressOf(winnerId), AddressOf(loserId), winVal, loseVal));
    }
  }
}
