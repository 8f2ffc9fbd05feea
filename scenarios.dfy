/**
 * Clients of the store and the handlers that state, from their contracts
 * alone, how a fresh server behaves over a whole exchange.
 */
module Scenarios {
  import opened Wrappers
  import opened Ledger
  import opened GameLogic
  import opened Session
  import opened PubSub

  /**
   * Players queued a, b, c pair as (a, b); the lone c is not paired until d
   * arrives, and then pairs as (c, d).
   */
  method FifoPairing(a: int, b: int, c: int, d: int) returns (first: Result<Match>, lone: Result<Match>, second: Result<Match>)
    ensures first == Ok(Match("m1", a, b, 0, 0))
    ensures lone == Err("not enough players")
    ensures second == Ok(Match("m2", c, d, 0, 0))
  {
    var s := new Store();
    var queued := s.JoinQueue(a);
    queued := s.JoinQueue(b);
    queued := s.JoinQueue(c);
    assert s.gameQueue == [a, b, c];
    first := s.CreateMatch("m1");
    assert s.gameQueue == [c];
    lone := s.CreateMatch("m2");
    queued := s.JoinQueue(d);
    assert s.gameQueue == [c, d];
    second := s.CreateMatch("m2");
  }

  /**
   * Two new players are paired through the find-match handler and play
   * cards c1 and c2: the first play publishes nothing; the second publishes
   * the result table and, unless the cards are equal, one match log naming
   * the holder of the greater card as winner.
   */
  method Battle(w1: Wallet, w2: Wallet, c1: int, c2: int)
    returns (paired: seq<MatchNotice>, afterFirst: seq<RoundNotice>, notices: seq<RoundNotice>, log: Option<LedgerRequest>)
    requires c1 != 0 && c2 != 0
    ensures paired == [MatchNotice(1, Match("g", 1, 2, 0, 0)), MatchNotice(2, Match("g", 1, 2, 0, 0))]
    ensures afterFirst == []
    ensures |notices| == 2
    ensures notices[0].clientId == 1 && notices[0].card == c2
    ensures notices[1].clientId == 2 && notices[1].card == c1
    ensures c1 > c2 ==> notices[0].result == Win && notices[1].result == Lose
    ensures c1 > c2 ==> log == Some(LogMatch(w1.address, w2.address, c1, c2))
    ensures c2 > c1 ==> notices[0].result == Lose && notices[1].result == Win
    ensures c2 > c1 ==> log == Some(LogMatch(w2.address, w1.address, c2, c1))
    ensures c1 == c2 ==> notices[0].result == Draw && notices[1].result == Draw && log == None
  {
    var s := new Store();
    var p1 := s.CreatePlayer(w1);
    var p2 := s.CreatePlayer(w2);
    var waiting := JoinGameQueue(s, p1, "g");
    paired := JoinGameQueue(s, p2, "g");
    var noLog;
    afterFirst, noLog := PlayCards(s, "g", p1, c1);
    notices, log := PlayCards(s, "g", p2, c2);
  }

  /**
   * Nothing marks a match as resolved: a participant who plays again after
   * both slots are filled overwrites the slot, and the round is published and
   * settled a second time.
   */
  method ReplayAfterResolution(w1: Wallet, w2: Wallet, c1: int, c2: int, c3: int)
    returns (firstLog: Option<LedgerRequest>, again: seq<RoundNotice>, secondLog: Option<LedgerRequest>)
    requires c1 != 0 && c2 != 0 && c3 != 0
    ensures c1 != c2 ==> firstLog.Some?
    ensures |again| == 2 && again[1].card == c3
    ensures c3 > c2 ==> secondLog == Some(LogMatch(w1.address, w2.address, c3, c2))
    ensures c2 > c3 ==> secondLog == Some(LogMatch(w2.address, w1.address, c2, c3))
  {
    var s := new Store();
    var p1 := s.CreatePlayer(w1);
    var p2 := s.CreatePlayer(w2);
    var waiting := JoinGameQueue(s, p1, "g");
    var paired := JoinGameQueue(s, p2, "g");
    var notices, noLog := PlayCards(s, "g", p1, c1);
    notices, firstLog := PlayCards(s, "g", p2, c2);
    again, secondLog := PlayCards(s, "g", p1, c3);
  }
}

