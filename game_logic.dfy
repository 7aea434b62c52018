/**
 * Chain rotation and round-type alternation. In round r of an n-player game
 * the player with join order j works on the chain started by join order
 * (j - r) mod n, and round types alternate TEXT, DRAWING, TEXT, ...
 */
module GameLogic {
  import opened JsPrelude
  import opened Schema

  /** Which chain (by its owner's join order) a player advances in a round.
      The inner `%` may be negative in JavaScript; adding n and taking `%`
      again brings it into [0, n). */
  function ChainOwnerForPlayerInRound(playerJoinOrder: int, roundNumber: int, totalPlayers: int): (c: int)
    requires totalPlayers > 0
    ensures 0 <= c < totalPlayers
    ensures c == (playerJoinOrder - roundNumber) % totalPlayers
  {
    var inner := TruncRem(playerJoinOrder - roundNumber, totalPlayers);
    ModAddMultiple(inner, 1, totalPlayers);
    TruncRem(inner + totalPlayers, totalPlayers)
  }

  /** Which player (by join order) works on a chain in a round. */
  function PlayerForChainInRound(chainOwnerJoinOrder: int, roundNumber: int, totalPlayers: int): (j: int)
    requires totalPlayers > 0
    ensures chainOwnerJoinOrder + roundNumber >= 0 ==>
              j == (chainOwnerJoinOrder + roundNumber) % totalPlayers
    ensures -totalPlayers < j < totalPlayers
  {
    TruncRem(chainOwnerJoinOrder + roundNumber, totalPlayers)
  }

  function GetRoundType(roundNumber: int): (t: RoundType)
    ensures t == TEXT <==> roundNumber % 2 == 0
  {
    if TruncRem(roundNumber, 2) == 0 then TEXT else DRAWING
  }

  /** JavaScript's `%` differs from the Euclidean one on a negative dividend,
      which is why the chain-owner formula takes the remainder twice. */
  lemma RemainderSignDiffers()
    ensures TruncRem(-1, 3) == -1 && (-1) % 3 == 2
  {
  }

  /** The player found for a player's chain is that player. */
  lemma RoundTrip(j: int, r: int, n: int)
    requires n > 0 && 0 <= j < n && r >= 0
    ensures PlayerForChainInRound(ChainOwnerForPlayerInRound(j, r, n), r, n) == j
  {
    var c := ChainOwnerForPlayerInRound(j, r, n);
    assert c == (j - r) % n && c + r >= 0;
    ModOfSum(j - r, r, n);
    ModOfMultiplePlus(j, 0, j, n);
    calc {
      PlayerForChainInRound(c, r, n);
      (c + r) % n;
      ((j - r) % n + r) % n;
      { assert j - r + r == j; }
      j % n;
    }
  }

  /** The chain found for a chain's contributor is that chain. */
  lemma ReverseRoundTrip(c: int, r: int, n: int)
    requires n > 0 && 0 <= c < n && r >= 0
    ensures ChainOwnerForPlayerInRound(PlayerForChainInRound(c, r, n), r, n) == c
  {
    var j := PlayerForChainInRound(c, r, n);
    assert j == (c + r) % n;
    ModOfSum(c + r, -r, n);
    ModOfMultiplePlus(c, 0, c, n);
    calc {
      ChainOwnerForPlayerInRound(j, r, n);
      (j - r) % n;
      ((c + r) % n + -r) % n;
      { assert c + r + -r == c; }
      c % n;
    }
  }

  /** Within a round, a player contributes to chain c exactly when they are
      the player that PlayerForChainInRound names for c. */
  lemma ContributorOfChain(j: int, c: int, r: int, n: int)
    requires n > 0 && 0 <= j < n && 0 <= c < n && r >= 0
    ensures ChainOwnerForPlayerInRound(j, r, n) == c <==> PlayerForChainInRound(c, r, n) == j
  {
    if ChainOwnerForPlayerInRound(j, r, n) == c {
      RoundTrip(j, r, n);
    }
    if PlayerForChainInRound(c, r, n) == j {
      ReverseRoundTrip(c, r, n);
    }
  }

  /** Two players never work on the same chain in the same round. */
  lemma ChainOwnerInjective(j1: int, j2: int, r: int, n: int)
    requires n > 0 && 0 <= j1 < n && 0 <= j2 < n
    requires ChainOwnerForPlayerInRound(j1, r, n) == ChainOwnerForPlayerInRound(j2, r, n)
    ensures j1 == j2
  {
    var c := ChainOwnerForPlayerInRound(j1, r, n);
    assert c == (j1 - r) % n == (j2 - r) % n;
    ModOfSum(j1 - r, r, n);
    ModOfSum(j2 - r, r, n);
    assert j1 - r + r == j1 && j2 - r + r == j2;
    ModOfMultiplePlus(j1, 0, j1, n);
    ModOfMultiplePlus(j2, 0, j2, n);
    assert j1 == j1 % n == (c + r) % n == j2 % n == j2;
  }

  /** The join orders 0..n-1. */
  function Indices(n: nat): (s: set<int>)
    ensures forall c :: c in s <==> 0 <= c < n
  {
    if n == 0 then {} else Indices(n - 1) + {n - 1}
  }

  /** Any chain c has a contributor in any round r (r may be negative). */
  lemma ContributorExists(c: int, r: int, n: int) returns (j: int)
    requires n > 0 && 0 <= c < n
    ensures 0 <= j < n && ChainOwnerForPlayerInRound(j, r, n) == c
  {
    j := (c + r) % n;
    ModOfSum(c + r, -r, n);
    ModOfMultiplePlus(c, 0, c, n);
    assert c + r + -r == c;
    assert (j - r) % n == c;
  }

  /** The chains (by owner join order) that the n players work on in round r. */
  function ChainsInRound(r: int, n: int): set<int>
    requires n > 0
  {
    set j | j in Indices(n) :: ChainOwnerForPlayerInRound(j, r, n)
  }

  lemma ChainsInRoundCover(r: int, n: int)
    requires n > 0
    ensures Indices(n) <= ChainsInRound(r, n)
  {
    forall c | c in Indices(n) ensures c in ChainsInRound(r, n) {
      var j := ContributorExists(c, r, n);
      assert j in Indices(n);
    }
  }

  lemma ChainsInRoundWithin(r: int, n: int)
    requires n > 0
    ensures ChainsInRound(r, n) <= Indices(n)
  {
    forall j | j in Indices(n) ensures ChainOwnerForPlayerInRound(j, r, n) in Indices(n) {
      var c := ChainOwnerForPlayerInRound(j, r, n);
      assert 0 <= c < n;
    }
  }

  /** In every round the chains being worked on are exactly the chains
      0..n-1, so together with ChainOwnerInjective each chain has exactly
      one contributor. */
  lemma ChainOwnerPermutation(r: int, n: int)
    requires n > 0
    ensures ChainsInRound(r, n) == Indices(n)
  {
    ChainsInRoundCover(r, n);
    ChainsInRoundWithin(r, n);
  }

  /** In round 0 every player starts their own chain. */
  lemma RoundZeroOwnChain(j: int, n: int)
    requires n > 0 && 0 <= j < n
    ensures ChainOwnerForPlayerInRound(j, 0, n) == j
  {
  }

  /** Round 0 is a text round; consecutive rounds alternate; the type repeats every two rounds. */
  lemma RoundTypeAlternates(r: int)
    ensures GetRoundType(0) == TEXT
    ensures GetRoundType(r) != GetRoundType(r + 1)
    ensures GetRoundType(r) == GetRoundType(r + 2)
  {
  }
}
