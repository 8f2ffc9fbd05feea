/**
 * The records of the game server and the pure rules behind its Store:
 * building the pack inventory, removing a drawn pack, recording a play in a
 * match, and deciding a round.
 */
module GameLogic {
  import opened Wrappers
  import opened Ledger

  /** A pack of three card values (a Go `[3]int`); an unfilled slot holds 0. */
  datatype Pack = Pack(first: int, second: int, third: int) {
    function Values(): seq<int> { [first, second, third] }
  }

  const EmptyPack := Pack(0, 0, 0)

  /** A registered player: its sequential id, its wallet and the card values it opened. */
  datatype Player = Player(id: int, wallet: Wallet, cards: seq<int>)

  /** A battle: its id, both participants and their slots, where 0 means "not played". */
  datatype Match = Match(selfId: string, p1: int, p2: int, card1: int, card2: int)

  // ---------------------------------------------------------------------------
  // The pack inventory
  // ---------------------------------------------------------------------------

  /** Number of packs needed for n cards: n / 3 rounded up. */
  function NumPacks(n: nat): nat { (n + 3 - 1) / 3 }

  /** Value held by the slot that would carry card v when only 1..n exist. */
  function Slot(n: nat, v: int): int { if v <= n then v else 0 }

  /** Pack i of the inventory for n cards: values 3i+1, 3i+2, 3i+3, each past n left 0. */
  function PackAt(n: nat, i: int): Pack { Pack(Slot(n, 3 * i + 1), Slot(n, 3 * i + 2), Slot(n, 3 * i + 3)) }

  /** The inventory `setupPacks(n)` builds. */
  function Inventory(n: nat): seq<Pack> { seq(NumPacks(n), i => PackAt(n, i)) }

  /** Go's `copy(dst[:], src)` into a three-slot array: the first min(3, |src|) slots are overwritten. */
  function CopyInto(dst: Pack, src: seq<int>): (r: Pack)
    ensures forall k :: 0 <= k < 3 ==> r.Values()[k] == (if k < |src| then src[k] else dst.Values()[k])
  {
    Pack(if 0 < |src| then src[0] else dst.first,
         if 1 < |src| then src[1] else dst.second,
         if 2 < |src| then src[2] else dst.third)
  }

  /** Copying cards 3i+1.. of the filled buffer (at most three, none past n) into an empty pack gives pack i. */
  lemma CopySliceIsPackAt(vals: seq<int>, n: nat, i: nat)
    requires |vals| == n && forall j :: 0 <= j < n ==> vals[j] == j + 1
    requires 3 * i < n
    ensures CopyInto(EmptyPack, vals[3 * i..if 3 * i + 3 < n then 3 * i + 3 else n]) == PackAt(n, i)
  {
    var source := vals[3 * i..if 3 * i + 3 < n then 3 * i + 3 else n];
    forall k | 0 <= k < |source|
      ensures source[k] == 3 * i + k + 1
    {
      assert source[k] == vals[3 * i + k];
    }
    assert CopyInto(EmptyPack, source).Values() == PackAt(n, i).Values();
  }

  /**
   * setupPacks: fills 1..n into a buffer, then copies it three at a time
   * into a fresh array of ceil(n/3) zeroed packs.
   */
  method SetupPacks(n: nat) returns (packs: seq<Pack>)
    ensures n <= 3 * |packs| < n + 3
    ensures packs == Inventory(n)
  {
    var arr := new int[n];
    for i := 0 to n
      invariant forall j :: 0 <= j < i ==> arr[j] == j + 1
    {
      arr[i] := i + 1;
    }
    var numPacks := (n + 3 - 1) / 3;
    var buf := new Pack[numPacks](_ => EmptyPack);
    for i := 0 to numPacks
      modifies buf
      invariant forall j :: 0 <= j < n ==> arr[j] == j + 1
      invariant forall j :: 0 <= j < i ==> buf[j] == PackAt(n, j)
      invariant forall j :: i <= j < numPacks ==> buf[j] == EmptyPack
    {
      var start := i * 3;
      var end := start + 3;
      assert start + 3 <= 3 * numPacks <= n + 2;
      var sliceEnd := if end < n then end else n;
      CopySliceIsPackAt(arr[..], n, i);
      assert arr[start..sliceEnd] == arr[..][3 * i..if 3 * i + 3 < n then 3 * i + 3 else n];
      buf[i] := CopyInto(buf[i], arr[start..sliceEnd]);
    }
    packs := buf[..];
  }

  /** All card values of a list of packs, pack after pack. */
  function Flatten(ps: seq<Pack>): seq<int>
  {
    if ps == [] then [] else Flatten(ps[..|ps| - 1]) + ps[|ps| - 1].Values()
  }

  /** The values 1..m in order. */
  function Iota(m: nat): seq<int> { seq(m, j => j + 1) }

  /** m zero slots. */
  function Zeros(m: nat): seq<int> { seq(m, j => 0) }

  /** The first k slots of any inventory for n cards, slot by slot. */
  function Slots(n: nat, k: nat): seq<int> { seq(k, j => Slot(n, j + 1)) }

  lemma {:induction false} FlattenPrefix(n: nat, k: nat)
    ensures Flatten(seq(k, i => PackAt(n, i))) == Slots(n, 3 * k)
  {
    if k > 0 {
      var ps := seq(k, i => PackAt(n, i));
      assert ps[..k - 1] == seq(k - 1, i => PackAt(n, i));
      FlattenPrefix(n, k - 1);
      assert Flatten(ps) == Slots(n, 3 * (k - 1)) + PackAt(n, k - 1).Values();
      assert Slots(n, 3 * (k - 1)) + PackAt(n, k - 1).Values() == Slots(n, 3 * k);
    }
  }

  lemma {:induction false} IotaCount(m: nat, v: int)
    ensures multiset(Iota(m))[v] == if 1 <= v <= m then 1 else 0
  {
    if m > 0 {
      assert Iota(m) == Iota(m - 1) + [m];
      IotaCount(m - 1, v);
    }
  }

  lemma {:induction false} ZerosCount(m: nat, v: int)
    ensures multiset(Zeros(m))[v] == if v == 0 then m else 0
  {
    if m > 0 {
      assert Zeros(m) == Zeros(m - 1) + [0];
      ZerosCount(m - 1, v);
    }
  }

  lemma NumPacksBounds(n: nat)
    ensures n <= 3 * NumPacks(n) < n + 3
  {
  }

  lemma SlotsSplit(n: nat, m: nat)
    requires n <= m
    ensures Slots(n, m) == Iota(n) + Zeros(m - n)
  {
    var whole := Iota(n) + Zeros(m - n);
    assert forall j :: 0 <= j < m ==> Slots(n, m)[j] == whole[j];
  }

  /**
   * setupPacks(n) uses every card value 1..n exactly once, no other non-zero
   * value, and pads the last pack with 3 * ceil(n/3) - n zeros.
   */
  lemma InventoryHoldsEachValueOnce(n: nat)
    ensures |Inventory(n)| == NumPacks(n) && n <= 3 * NumPacks(n) < n + 3
    ensures forall v :: 1 <= v <= n ==> multiset(Flatten(Inventory(n)))[v] == 1
    ensures forall v :: v != 0 && !(1 <= v <= n) ==> multiset(Flatten(Inventory(n)))[v] == 0
    ensures multiset(Flatten(Inventory(n)))[0] == 3 * NumPacks(n) - n
  {
    var k := NumPacks(n);
    NumPacksBounds(n);
    FlattenPrefix(n, k);
    SlotsSplit(n, 3 * k);
    var m := multiset(Flatten(Inventory(n)));
    assert m == multiset(Iota(n)) + multiset(Zeros(3 * k - n));
    forall v
      ensures m[v] == (if 1 <= v <= n then 1 else 0) + (if v == 0 then 3 * k - n else 0)
    {
      IotaCount(n, v);
      ZerosCount(3 * k - n, v);
    }
  }

  /** The store's initial inventory: 300 full packs holding 1..900 once each. */
  lemma InitialInventoryIsFull()
    ensures |Inventory(900)| == 300
    ensures forall v :: 1 <= v <= 900 ==> multiset(Flatten(Inventory(900)))[v] == 1
    ensures forall v :: !(1 <= v <= 900) ==> multiset(Flatten(Inventory(900)))[v] == 0
  {
    InventoryHoldsEachValueOnce(900);
  }

  // ---------------------------------------------------------------------------
  // Drawing a pack
  // ---------------------------------------------------------------------------

  /** Removal of element i by overwriting it with the last element and truncating. */
  function SwapRemove<T>(s: seq<T>, i: int): seq<T>
    requires 0 <= i < |s|
  {
    s[i := s[|s| - 1]][..|s| - 1]
  }

  /** Swap-with-last removal takes out exactly the one occurrence s[i]. */
  lemma SwapRemoveTakesOne<T>(s: seq<T>, i: int)
    requires 0 <= i < |s|
    ensures |SwapRemove(s, i)| == |s| - 1
    ensures multiset(SwapRemove(s, i)) == multiset(s) - multiset{s[i]}
    ensures forall j :: 0 <= j < |s| - 1 && j != i ==> SwapRemove(s, i)[j] == s[j]
  {
    var last := |s| - 1;
    var r := SwapRemove(s, i);
    if i == last {
      assert s == r + [s[i]];
    } else {
      assert s == s[..i] + [s[i]] + s[i + 1..last] + [s[last]];
      assert r == s[..i] + [s[last]] + s[i + 1..last];
    }
  }

  // ---------------------------------------------------------------------------
  // Playing a card and deciding the round
  // ---------------------------------------------------------------------------

  /**
   * The slot update of one play: P1's seat is tested before P2's and a repeat
   * play overwrites; None when the player sits in neither seat.
   */
  function Play(g: Match, id: int, card: int): (r: Option<Match>)
    ensures r.None? <==> id != g.p1 && id != g.p2
    ensures r.Some? ==> r.value.selfId == g.selfId && r.value.p1 == g.p1 && r.value.p2 == g.p2
    ensures r.Some? && id == g.p1 ==> r.value.card1 == card && r.value.card2 == g.card2
    ensures r.Some? && id != g.p1 ==> r.value.card1 == g.card1 && r.value.card2 == card
  {
    if g.p1 == id then Some(g.(card1 := card))
    else if g.p2 == id then Some(g.(card2 := card))
    else None
  }

  /** Both slots are filled: the condition that schedules resolution. */
  predicate BothPlayed(g: Match) { g.card1 != 0 && g.card2 != 0 }

  /** A play request: who plays and which card value. */
  datatype Move = Move(player: int, card: int)

  /** The match entry after a series of plays; a play from a non-participant leaves it as it is. */
  function Replay(g: Match, moves: seq<Move>): Match
  {
    if moves == [] then g
    else
      var h := Replay(g, moves[..|moves| - 1]);
      var last := moves[|moves| - 1];
      match Play(h, last.player, last.card)
      case Some(h') => h'
      case None => h
  }

  /**
   * A player paired with itself (the queue does not reject duplicates) only
   * ever fills slot 1, so such a match never becomes ready for resolution.
   */
  lemma {:induction false} SelfMatchNeverResolves(g: Match, moves: seq<Move>)
    requires g.p1 == g.p2 && g.card2 == 0
    ensures Replay(g, moves).card2 == 0 && !BothPlayed(Replay(g, moves))
    ensures Replay(g, moves).p1 == g.p1 && Replay(g, moves).p2 == g.p2
  {
    if moves != [] {
      SelfMatchNeverResolves(g, moves[..|moves| - 1]);
    }
  }

  /** Outcome of a resolved match: no winner, or winner and loser with their card values. */
  datatype Verdict = NoWinner | Decisive(winner: int, loser: int, winVal: int, loseVal: int)

  /** ResolveMatch's rule: the strictly greater card wins; equal cards give no winner. */
  function Judge(g: Match): (v: Verdict)
    ensures v.NoWinner? <==> g.card1 == g.card2
    ensures v.Decisive? ==> v.winVal > v.loseVal
    ensures v.Decisive? ==>
      || (v.winner, v.winVal, v.loser, v.loseVal) == (g.p1, g.card1, g.p2, g.card2)
      || (v.winner, v.winVal, v.loser, v.loseVal) == (g.p2, g.card2, g.p1, g.card1)
  {
    if g.card1 > g.card2 then Decisive(g.p1, g.p2, g.card1, g.card2)
    else if g.card2 > g.card1 then Decisive(g.p2, g.p1, g.card2, g.card1)
    else NoWinner
  }

  /** The same match with the two seats exchanged. */
  function Mirror(g: Match): Match { Match(g.selfId, g.p2, g.p1, g.card2, g.card1) }

  /** The verdict depends on the two (player, card) pairs, not on who sits in which seat. */
  lemma JudgeIgnoresSeating(g: Match)
    ensures Judge(Mirror(g)) == Judge(g)
  {
  }
}
