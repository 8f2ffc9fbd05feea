/**
 * The decisions taken by the game server's NATS handlers: who may log in,
 * what each side of a round is told, who is notified of a new match, how a
 * player's card cache is rebuilt from the ledger's list, and how a blind-trade
 * join is answered. Messages are typed records; their JSON form is not modelled.
 */
module PubSub {
  import opened Wrappers
  import opened Ledger
  import opened GameLogic
  import opened Session

  // ---------------------------------------------------------------------------
  // Login
  // ---------------------------------------------------------------------------

  datatype LoginReply = LoginOk(clientId: int) | LoginErr(clientId: int, err: string)

  /** The login handler: reject an id above the counter or not registered; it changes nothing. */
  function Login(s: Store, clientId: int): (r: LoginReply)
    reads s
    ensures r.clientId == clientId
    ensures r.LoginOk? <==> clientId <= s.count && clientId in s.players
    ensures r.LoginErr? ==> r.err == "user not found"
  {
    if clientId > s.count || clientId !in s.players then LoginErr(clientId, "user not found")
    else LoginOk(clientId)
  }

  /** In a valid store the counter test is implied by registration: login accepts exactly the ids 1..count. */
  lemma LoginAcceptsExactlyRegistered(s: Store, clientId: int)
    requires s.Valid()
    ensures Login(s, clientId).LoginOk? <==> clientId in s.players
    ensures Login(s, clientId).LoginOk? <==> 1 <= clientId <= s.count
  {
  }

  // ---------------------------------------------------------------------------
  // Round results
  // ---------------------------------------------------------------------------

  datatype RoundResult = Win | Lose | Draw

  /** One round notification published on "game.server": the result and the opponent's card. */
  datatype RoundNotice = RoundNotice(clientId: int, result: RoundResult, card: int)

  /** The per-player result table: P1's notice first, then P2's; each carries the opponent's card. */
  function RoundNotices(g: Match): (r: seq<RoundNotice>)
    ensures |r| == 2 && r[0].clientId == g.p1 && r[1].clientId == g.p2
    ensures r[0].card == g.card2 && r[1].card == g.card1
    ensures r[0].result == Win <==> g.card1 > g.card2
    ensures r[1].result == Win <==> g.card2 > g.card1
    ensures r[0].result == Draw <==> g.card1 == g.card2
    ensures r[0].result == Win <==> r[1].result == Lose
    ensures r[0].result == Draw <==> r[1].result == Draw
  {
    if g.card1 > g.card2 then
      [RoundNotice(g.p1, Win, g.card2), RoundNotice(g.p2, Lose, g.card1)]
    else if g.card2 > g.card1 then
      [RoundNotice(g.p1, Lose, g.card2), RoundNotice(g.p2, Win, g.card1)]
    else
      [RoundNotice(g.p1, Draw, g.card2), RoundNotice(g.p2, Draw, g.card1)]
  }

  /**
   * What the players are told agrees with what ResolveMatch settles: a draw
   * for both exactly when there is no winner, and otherwise "win" goes to the
   * seat whose card is the verdict's winning value.
   */
  lemma RoundNoticesAgreeWithJudge(g: Match)
    ensures Judge(g).NoWinner? <==> RoundNotices(g)[0].result == Draw && RoundNotices(g)[1].result == Draw
    ensures Judge(g).Decisive? ==>
      (RoundNotices(g)[0].result == Win <==> Judge(g).winVal == g.card1 && Judge(g).loseVal == g.card2)
    ensures Judge(g).Decisive? ==>
      (RoundNotices(g)[1].result == Win <==> Judge(g).winVal == g.card2 && Judge(g).loseVal == g.card1)
  {
  }

  /**
   * The play-card handler: records the play, then publishes both round
   * notices when the play succeeded and the match has both slots filled, and
   * runs the resolution the play scheduled.
   */
  method PlayCards(s: Store, gameId: string, clientId: int, card: int)
    returns (notices: seq<RoundNotice>, log: Option<LedgerRequest>)
    requires s.Valid()
    modifies s
    ensures s.Valid()
    ensures s.players == old(s.players) && s.count == old(s.count) && s.gameQueue == old(s.gameQueue)
    ensures s.cards == old(s.cards) && s.blindTradeQueue == old(s.blindTradeQueue)
    ensures gameId !in old(s.matchHistory) || Play(old(s.matchHistory)[gameId], clientId, card).None? ==>
      s.matchHistory == old(s.matchHistory) && notices == [] && log == None
    ensures gameId in old(s.matchHistory) && Play(old(s.matchHistory)[gameId], clientId, card).Some? ==>
      s.matchHistory == old(s.matchHistory)[gameId := Play(old(s.matchHistory)[gameId], clientId, card).value]
    ensures notices != [] ==> gameId in s.matchHistory && BothPlayed(s.matchHistory[gameId])
    ensures notices != [] ==> notices == RoundNotices(s.matchHistory[gameId])
    ensures gameId in old(s.matchHistory) && Play(old(s.matchHistory)[gameId], clientId, card).Some? ==>
      (notices != [] <==> BothPlayed(s.matchHistory[gameId]))
    ensures log.Some? ==> notices != [] && Judge(s.matchHistory[gameId]).Decisive?
    ensures notices != [] ==> (log.None? <==> Judge(s.matchHistory[gameId]).NoWinner?)
    ensures log.Some? ==>
      var v := Judge(s.matchHistory[gameId]);
      log.value == LogMatch(s.AddressOf(v.winner), s.AddressOf(v.loser), v.winVal, v.loseVal)
  {
    notices, log := [], None;
    var played := s.PlayCard(gameId, clientId, card);
    if played.Err? {
      return;
    }
    if played.value {
      log := s.ResolveMatch(gameId);
    }
    if gameId !in s.matchHistory {
      return;
    }
    var game := s.matchHistory[gameId];
    if BothPlayed(game) {
      notices := RoundNotices(game);
    }
  }

  // ---------------------------------------------------------------------------
  // Matchmaking
  // ---------------------------------------------------------------------------

  /** One matchmaking notification published on "topic.matchmaking". */
  datatype MatchNotice = MatchNotice(clientId: int, game: Match)

  /**
   * The find-match handler: queues the player, tries to pair the two oldest
   * entries and, on success, notifies P1 and then P2 with the same match record.
   */
  method JoinGameQueue(s: Store, clientId: int, gameId: string) returns (notices: seq<MatchNotice>)
    requires s.Valid()
    modifies s
    ensures s.Valid()
    ensures s.players == old(s.players) && s.count == old(s.count)
    ensures s.cards == old(s.cards) && s.blindTradeQueue == old(s.blindTradeQueue)
    ensures old(s.gameQueue) == [] ==>
      notices == [] && s.gameQueue == [clientId] && s.matchHistory == old(s.matchHistory)
    ensures old(s.gameQueue) != [] ==>
      var q := old(s.gameQueue) + [clientId];
      var m := Match(gameId, q[0], q[1], 0, 0);
      && notices == [MatchNotice(q[0], m), MatchNotice(q[1], m)]
      && s.gameQueue == q[2..]
      && s.matchHistory == old(s.matchHistory)[gameId := m]
  {
    var _ := s.JoinQueue(clientId);
    notices := [];
    var created := s.CreateMatch(gameId);
    if created.Err? {
      return;
    }
    var m := created.value;
    var participants := [m.p1, m.p2];
    for k := 0 to |participants|
      invariant |notices| == k
      invariant forall j :: 0 <= j < k ==> notices[j] == MatchNotice(participants[j], m)
    {
      notices := notices + [MatchNotice(participants[k], m)];
    }
  }

  // ---------------------------------------------------------------------------
  // See cards: the cache rebuilt from the ledger's list
  // ---------------------------------------------------------------------------

  /** Index j holds the last entry for its card id. */
  ghost predicate IsLastFor(cards: seq<CardDto>, j: int)
  {
    0 <= j < |cards| && forall k :: j < k < |cards| ==> cards[k].id != cards[j].id
  }

  /** The card ids a list mentions. */
  function Ids(cards: seq<CardDto>): set<string>
  {
    if cards == [] then {} else Ids(cards[..|cards| - 1]) + {cards[|cards| - 1].id}
  }

  /** Every id in Ids comes from some entry of the list. */
  lemma {:induction false} IdsHaveEntries(cards: seq<CardDto>, id: string)
    requires id in Ids(cards)
    ensures exists j :: 0 <= j < |cards| && cards[j].id == id
  {
    var n := |cards|;
    if cards[n - 1].id != id {
      IdsHaveEntries(cards[..n - 1], id);
      var j :| 0 <= j < n - 1 && cards[..n - 1][j].id == id;
      assert cards[j].id == id;
    }
  }

  /** m maps exactly the listed ids, each to the power of its last entry in the list. */
  ghost predicate IsCacheOf(m: map<string, int>, cards: seq<CardDto>)
  {
    && m.Keys == Ids(cards)
    && (forall j :: IsLastFor(cards, j) ==> cards[j].id in m && m[cards[j].id] == cards[j].power)
  }

  /** Adding the next list entry to the cache of a prefix gives the cache of the longer prefix. */
  lemma CacheStep(m: map<string, int>, cards: seq<CardDto>, i: int)
    requires 0 <= i < |cards| && IsCacheOf(m, cards[..i])
    ensures IsCacheOf(m[cards[i].id := cards[i].power], cards[..i + 1])
  {
    var p, q := cards[..i], cards[..i + 1];
    var m' := m[cards[i].id := cards[i].power];
    assert q[..i] == p;
    assert m'.Keys == Ids(q);
    forall j | IsLastFor(q, j)
      ensures q[j].id in m' && m'[q[j].id] == q[j].power
    {
      if j < i {
        assert q[i].id != q[j].id;
        assert IsLastFor(p, j);
        assert p[j] == q[j];
      }
    }
  }

  /** Builds the card-id to power map, later duplicates overwriting earlier ones. */
  method BuildCache(cards: seq<CardDto>) returns (m: map<string, int>)
    ensures IsCacheOf(m, cards)
  {
    m := map[];
    for i := 0 to |cards|
      invariant IsCacheOf(m, cards[..i])
    {
      CacheStep(m, cards, i);
      m := m[cards[i].id := cards[i].power];
    }
    assert cards[..|cards|] == cards;
  }

  /** Every id in the list has a last entry. */
  lemma {:induction false} LastEntryExists(cards: seq<CardDto>, j: int)
    requires 0 <= j < |cards|
    ensures exists l :: IsLastFor(cards, l) && cards[l].id == cards[j].id
    decreases |cards| - j
  {
    if !IsLastFor(cards, j) {
      var k :| j < k < |cards| && cards[k].id == cards[j].id;
      LastEntryExists(cards, k);
    }
  }

  /** The rebuilt cache is determined by the list alone. */
  lemma CacheIsUnique(m1: map<string, int>, m2: map<string, int>, cards: seq<CardDto>)
    requires IsCacheOf(m1, cards) && IsCacheOf(m2, cards)
    ensures m1 == m2
  {
    forall id | id in m1
      ensures m1[id] == m2[id]
    {
      IdsHaveEntries(cards, id);
      var j :| 0 <= j < |cards| && cards[j].id == id;
      LastEntryExists(cards, j);
    }
  }

  datatype SeeCardsReply = CardsOk(result: seq<CardDto>) | CardsErr(err: string)

  /**
   * The see-cards handler. `chain` is the ledger's answer for the player's
   * address. Returns the reply and the cache that replaces the player's
   * cached cards wholesale; None leaves the cache untouched.
   */
  method SeeCards(s: Store, clientId: int, chain: Result<seq<CardDto>>)
    returns (reply: SeeCardsReply, cache: Option<map<string, int>>)
    ensures clientId !in s.players ==> reply == CardsErr("player not found") && cache == None
    ensures clientId in s.players && chain.Err? ==>
      reply == CardsErr("Falha ao consultar blockchain: " + chain.error) && cache == None
    ensures clientId in s.players && chain.Ok? ==>
      reply == CardsOk(chain.value) && cache.Some? && IsCacheOf(cache.value, chain.value)
  {
    if clientId !in s.players {
      return CardsErr("player not found"), None;
    }
    if chain.Err? {
      return CardsErr("Falha ao consultar blockchain: " + chain.error), None;
    }
    var newMap := BuildCache(chain.value);
    reply, cache := CardsOk(chain.value), Some(newMap);
  }

  // ---------------------------------------------------------------------------
  // Blind trade
  // ---------------------------------------------------------------------------

  datatype TradeReply = Queued | TradeErr(err: string)

  /** The join-blind-trade reply: "queued" exactly when joining returned no error, else that error. */
  function BlindTradeReply(joinError: Option<string>): (r: TradeReply)
    ensures r.Queued? <==> joinError.None?
    ensures r.TradeErr? ==> r.err == joinError.value
  {
    match joinError
    case None => Queued
    case Some(e) => TradeErr(e)
  }
}
