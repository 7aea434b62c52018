/**
 * The store operations the game server calls, over the four tables held as
 * sequences of rows in insertion order. Reads are functions of the tables;
 * writes are methods of the Store class, which assigns ids the way the
 * autoincrement columns do and takes the current time as a parameter.
 */
module Queries {
  import opened JsPrelude
  import opened Schema
  import Types

  // ---------------------------------------------------------------------
  // Row selectors and sort keys. Each is a named function so that the same
  // WHERE clause is the same term wherever it is used.

  function GameIdIs(id: int): Game -> bool { (g: Game) => g.id == id }
  function GameIdIsNot(id: int): Game -> bool { (g: Game) => g.id != id }
  function GameCodeIs(code: string): Game -> bool { (g: Game) => g.code == code }
  function PlayerIdIs(id: int): Player -> bool { (p: Player) => p.id == id }
  function PlayerIdIsNot(id: int): Player -> bool { (p: Player) => p.id != id }
  function PlayerInGame(gameId: int): Player -> bool { (p: Player) => p.gameId == gameId }
  function PlayerNotInGame(gameId: int): Player -> bool { (p: Player) => p.gameId != gameId }
  function PlayerWithToken(gameId: int, token: string): Player -> bool {
    (p: Player) => p.gameId == gameId && p.sessionToken == token
  }
  function PlaysAgainIn(gameId: int): Player -> bool {
    (p: Player) => p.gameId == gameId && p.postGameChoice == Some(PlayAgain)
  }
  function RoundNotInGame(gameId: int): RoundEntry -> bool { (e: RoundEntry) => e.gameId != gameId }
  function RoundOf(gameId: int, roundNumber: int): RoundEntry -> bool {
    (e: RoundEntry) => e.gameId == gameId && e.roundNumber == roundNumber
  }
  function ChainRowOf(gameId: int, chainOwnerId: int): RoundEntry -> bool {
    (e: RoundEntry) => e.gameId == gameId && e.chainOwnerId == chainOwnerId
  }
  function PreviousRowOf(gameId: int, roundNumber: int, chainOwnerId: int): RoundEntry -> bool {
    (e: RoundEntry) => e.gameId == gameId && e.roundNumber == roundNumber - 1 && e.chainOwnerId == chainOwnerId
  }
  function VoteInGame(gameId: int): Vote -> bool { (v: Vote) => v.gameId == gameId }
  function VoteNotInGame(gameId: int): Vote -> bool { (v: Vote) => v.gameId != gameId }
  function VoteBy(gameId: int, voterId: int): Vote -> bool {
    (v: Vote) => v.gameId == gameId && v.voterId == voterId
  }
  function VoteFor(chainOwnerId: int): Vote -> bool { (v: Vote) => v.chainOwnerId == chainOwnerId }

  predicate IsActive(g: Game) { g.status != RESULTS && g.status != ARCHIVED }

  function JoinOrderOf(p: Player): int { p.joinOrder }
  function CreatedAtOf(g: Game): int { g.createdAt }
  function RoundNumberOf(e: Types.RoundEntry): int { e.roundNumber }
  /** Ascending by this key is descending by vote count. */
  function FewerVotesLater(r: Types.VoteResult): int { 0 - r.voteCount as int }

  // ---------------------------------------------------------------------
  // Generic table facts

  /** SQL `UPDATE ... SET ... WHERE sel`: each selected row becomes f(row). */
  function UpdateWhere<T>(s: seq<T>, sel: T -> bool, f: T -> T): (r: seq<T>)
    ensures |r| == |s|
    ensures forall i :: 0 <= i < |s| ==> r[i] == if sel(s[i]) then f(s[i]) else s[i]
  {
    seq(|s|, i requires 0 <= i < |s| => if sel(s[i]) then f(s[i]) else s[i])
  }

  /** No two rows share a key (a primary key or a unique column). */
  ghost predicate KeysDistinct<T, K>(s: seq<T>, key: T -> K) {
    forall i, j :: 0 <= i < j < |s| ==> key(s[i]) != key(s[j])
  }

  ghost predicate IdsBelow<T>(s: seq<T>, id: T -> int, bound: int) {
    forall i :: 0 <= i < |s| ==> id(s[i]) < bound
  }

  /** Deleting rows keeps the remaining keys distinct. */
  lemma {:induction false} FilterKeepsKeysDistinct<T, K>(s: seq<T>, p: T -> bool, id: T -> K)
    requires KeysDistinct(s, id)
    ensures KeysDistinct(Filter(s, p), id)
  {
    if s != [] {
      FilterKeepsKeysDistinct(s[1..], p, id);
      var t := Filter(s[1..], p);
      if p(s[0]) {
        forall j | 0 <= j < |t| ensures id(s[0]) != id(t[j]) {
          assert t[j] in s[1..];
          var k :| 0 <= k < |s[1..]| && s[1..][k] == t[j];
          assert s[k + 1] == t[j];
        }
      }
    }
  }

  // ---------------------------------------------------------------------
  // Reads

  /** The game row with that primary key, if any. */
  function GameById(games: seq<Game>, id: int): (r: Option<Game>)
    ensures r.Some? ==> r.value in games && r.value.id == id
    ensures r.None? <==> forall i :: 0 <= i < |games| ==> games[i].id != id
  {
    Find(games, GameIdIs(id))
  }

  /** `getGameByCode`: the first game whose code is the upper-cased argument. */
  function GameByCode(games: seq<Game>, code: string): (r: Option<Game>)
    ensures r.Some? ==> r.value in games && r.value.code == AsciiUpper(code)
    ensures r.None? <==> forall i :: 0 <= i < |games| ==> games[i].code != AsciiUpper(code)
  {
    Find(games, GameCodeIs(AsciiUpper(code)))
  }

  /** `String.prototype.toUpperCase` on the ASCII letters (room codes are ASCII). */
  function AsciiUpper(s: string): (r: string)
    ensures |r| == |s|
    ensures forall i :: 0 <= i < |s| ==>
              r[i] == if 'a' <= s[i] <= 'z' then (s[i] as int - 32) as char else s[i]
  {
    if s == [] then []
    else [if 'a' <= s[0] <= 'z' then (s[0] as int - 32) as char else s[0]] + AsciiUpper(s[1..])
  }

  /** `getPlayerBySessionToken`: the first player of the game holding the token. */
  function PlayerBySessionToken(players: seq<Player>, gameId: int, token: string): (r: Option<Player>)
    ensures r.Some? ==> r.value in players && r.value.gameId == gameId && r.value.sessionToken == token
    ensures r.None? <==> forall i :: 0 <= i < |players| ==>
                           !(players[i].gameId == gameId && players[i].sessionToken == token)
  {
    Find(players, PlayerWithToken(gameId, token))
  }

  /** The players of a game in table (insertion) order. */
  function PlayersOf(players: seq<Player>, gameId: int): seq<Player> {
    Filter(players, PlayerInGame(gameId))
  }

  /** `getPlayersForGame`: exactly the players of the game, ordered by join
      order; rows with equal join order keep their table order. */
  function PlayersForGame(players: seq<Player>, gameId: int): (r: seq<Player>)
    ensures multiset(r) == multiset(PlayersOf(players, gameId))
    ensures forall i :: 0 <= i < |r| ==> r[i].gameId == gameId && r[i] in players
    ensures forall i :: 0 <= i < |players| && players[i].gameId == gameId ==> players[i] in r
    ensures forall i, j :: 0 <= i < j < |r| ==> r[i].joinOrder <= r[j].joinOrder
    ensures forall k :: WithKey(r, JoinOrderOf, k) == WithKey(PlayersOf(players, gameId), JoinOrderOf, k)
  {
    var mine := PlayersOf(players, gameId);
    var r := SortBy(mine, JoinOrderOf);
    forall i | 0 <= i < |r| ensures r[i].gameId == gameId && r[i] in players {
      assert r[i] in multiset(mine);
      var k :| 0 <= k < |mine| && mine[k] == r[i];
    }
    forall i | 0 <= i < |players| && players[i].gameId == gameId ensures players[i] in r {
      assert players[i] in mine;
      assert players[i] in multiset(r);
    }
    forall i, j | 0 <= i < j < |r| ensures r[i].joinOrder <= r[j].joinOrder {
      assert JoinOrderOf(r[i]) <= JoinOrderOf(r[j]);
    }
    r
  }

  /** Join orders of a game's rows, in table order, are 0, 1, 2, ... */
  ghost predicate JoinOrdersContiguous(players: seq<Player>, gameId: int) {
    var mine := PlayersOf(players, gameId);
    forall i :: 0 <= i < |mine| ==> mine[i].joinOrder == i
  }

  /** The join order `addPlayer` gives the next player of a game: the number
      of rows of the players table that belong to the game. */
  function NextJoinOrder(players: seq<Player>, gameId: int): (k: nat)
    ensures k == |set i | 0 <= i < |players| && players[i].gameId == gameId|
  {
    FilterCount(players, PlayerInGame(gameId));
    assert Matching(players, PlayerInGame(gameId)) == set i | 0 <= i < |players| && players[i].gameId == gameId;
    |PlayersOf(players, gameId)|
  }

  /** Appending a joiner with the next join order keeps join orders 0..k-1,
      and the roster comes back in that order. */
  lemma JoinKeepsContiguous(players: seq<Player>, p: Player)
    requires JoinOrdersContiguous(players, p.gameId)
    requires p.joinOrder == NextJoinOrder(players, p.gameId)
    ensures JoinOrdersContiguous(players + [p], p.gameId)
    ensures PlayersOf(players + [p], p.gameId) == PlayersOf(players, p.gameId) + [p]
    ensures PlayersForGame(players + [p], p.gameId) == PlayersOf(players, p.gameId) + [p]
  {
    FilterAppend(players, [p], PlayerInGame(p.gameId));
    var mine := PlayersOf(players + [p], p.gameId);
    ContiguousIsSorted(players + [p], p.gameId);
  }

  /** With contiguous join orders the roster is the table order. */
  lemma ContiguousIsSorted(players: seq<Player>, gameId: int)
    requires JoinOrdersContiguous(players, gameId)
    ensures PlayersForGame(players, gameId) == PlayersOf(players, gameId)
    ensures forall i :: 0 <= i < |PlayersForGame(players, gameId)| ==>
              PlayersForGame(players, gameId)[i].joinOrder == i
  {
    SortBySorted(PlayersOf(players, gameId), JoinOrderOf);
  }

  /** After a removal, the next join order can equal a join order still in
      use: with players at join orders 0 and 1, removing the first one makes
      the next joiner's join order 1 again. */
  lemma RemovalRepeatsJoinOrder(a: Player, b: Player)
    requires a.gameId == b.gameId && a.id != b.id && a.joinOrder == 0 && b.joinOrder == 1
    ensures JoinOrdersContiguous([a, b], a.gameId)
    ensures NextJoinOrder(Filter([a, b], PlayerIdIsNot(a.id)), a.gameId) == b.joinOrder
    ensures b in Filter([a, b], PlayerIdIsNot(a.id))
  {
    assert [a, b][1..] == [b];
    assert Filter([a, b], PlayerIdIsNot(a.id)) == [b];
    assert PlayersOf([b], a.gameId) == [b];
  }

  /** `getRoundSubmissions`: the entries of one round of one game. */
  function RoundSubmissions(rounds: seq<RoundEntry>, gameId: int, roundNumber: int): (r: seq<RoundEntry>)
    ensures forall i :: 0 <= i < |r| ==> r[i] in rounds && r[i].gameId == gameId && r[i].roundNumber == roundNumber
    ensures forall i :: 0 <= i < |rounds| && rounds[i].gameId == gameId && rounds[i].roundNumber == roundNumber
              ==> rounds[i] in r
    ensures forall e :: multiset(r)[e] ==
              if e.gameId == gameId && e.roundNumber == roundNumber then multiset(rounds)[e] else 0
  {
    var r := Filter(rounds, RoundOf(gameId, roundNumber));
    forall e ensures multiset(r)[e] ==
                     if e.gameId == gameId && e.roundNumber == roundNumber then multiset(rounds)[e] else 0 {
      FilterMultiset(rounds, RoundOf(gameId, roundNumber), e);
    }
    r
  }

  /** `getPreviousRoundContent`: nothing in round 0; otherwise the content of
      the first entry of round r-1 for that chain, if any. */
  function PreviousRoundContent(rounds: seq<RoundEntry>, gameId: int, roundNumber: int, chainOwnerId: int): (r: Option<string>)
    ensures roundNumber == 0 ==> r == None
    ensures roundNumber != 0 ==>
              (r.None? <==> forall i :: 0 <= i < |rounds| ==> !PreviousRowOf(gameId, roundNumber, chainOwnerId)(rounds[i]))
    ensures r.Some? ==> exists i :: 0 <= i < |rounds| && PreviousRowOf(gameId, roundNumber, chainOwnerId)(rounds[i])
                          && rounds[i].content == r.value
                          && forall j :: 0 <= j < i ==> !PreviousRowOf(gameId, roundNumber, chainOwnerId)(rounds[j])
  {
    if roundNumber == 0 then None
    else
      match Find(rounds, PreviousRowOf(gameId, roundNumber, chainOwnerId))
      case None => None
      case Some(e) => Some(e.content)
  }

  /** The author row of an entry: the player with the entry's player id. */
  function AuthorOf(players: seq<Player>, e: RoundEntry): Option<Player> {
    Find(players, PlayerIdIs(e.playerId))
  }

  function HasAuthor(players: seq<Player>): RoundEntry -> bool {
    (e: RoundEntry) => AuthorOf(players, e).Some?
  }

  function ChainEntry(e: RoundEntry, nickname: string): Types.RoundEntry {
    Types.RoundEntry(e.id, e.roundNumber, e.chainOwnerId, e.playerId, e.kind, e.content, e.submittedAt, nickname)
  }

  /** The inner join of rows with their authors: rows whose author is gone drop out. */
  function JoinAuthors(rows: seq<RoundEntry>, players: seq<Player>): (r: seq<Types.RoundEntry>)
    ensures var kept := Filter(rows, HasAuthor(players));
            |r| == |kept| &&
            forall i :: 0 <= i < |r| ==>
              (AuthorOf(players, kept[i]).Some? &&
               r[i] == ChainEntry(kept[i], AuthorOf(players, kept[i]).value.nickname))
  {
    var kept := Filter(rows, HasAuthor(players));
    seq(|kept|, i requires 0 <= i < |kept| => ChainEntry(kept[i], AuthorOf(players, kept[i]).value.nickname))
  }

  /** The joined rows of one chain of one game, in table order. */
  function ChainRows(rounds: seq<RoundEntry>, players: seq<Player>, gameId: int, chainOwnerId: int): seq<Types.RoundEntry> {
    JoinAuthors(Filter(rounds, ChainRowOf(gameId, chainOwnerId)), players)
  }

  /** `getChain`: the entries of one chain of one game that still have an
      author, with the author's nickname, ordered by round number. */
  function Chain(rounds: seq<RoundEntry>, players: seq<Player>, gameId: int, chainOwnerId: int): (r: seq<Types.RoundEntry>)
    ensures multiset(r) == multiset(ChainRows(rounds, players, gameId, chainOwnerId))
    ensures forall i, j :: 0 <= i < j < |r| ==> r[i].roundNumber <= r[j].roundNumber
    ensures forall k :: WithKey(r, RoundNumberOf, k) == WithKey(ChainRows(rounds, players, gameId, chainOwnerId), RoundNumberOf, k)
  {
    var r := SortBy(ChainRows(rounds, players, gameId, chainOwnerId), RoundNumberOf);
    forall i, j | 0 <= i < j < |r| ensures r[i].roundNumber <= r[j].roundNumber {
      assert RoundNumberOf(r[i]) <= RoundNumberOf(r[j]);
    }
    r
  }

  /** One reveal record per roster entry, in roster order. */
  method CollectReveals(rounds: seq<RoundEntry>, players: seq<Player>, gameId: int, roster: seq<Player>)
    returns (chains: seq<Types.ChainRevealData>)
    ensures |chains| == |roster|
    ensures forall i :: 0 <= i < |roster| ==> chains[i] == RevealFor(rounds, players, gameId, roster[i])
  {
    chains := [];
    for i := 0 to |roster|
      invariant |chains| == i
      invariant forall k :: 0 <= k < i ==> chains[k] == RevealFor(rounds, players, gameId, roster[k])
    {
      chains := chains + [RevealFor(rounds, players, gameId, roster[i])];
    }
  }

  /** The reveal record of one player's chain. */
  function RevealFor(rounds: seq<RoundEntry>, players: seq<Player>, gameId: int, owner: Player): Types.ChainRevealData {
    Types.ChainRevealData(owner.id, owner.nickname, Chain(rounds, players, gameId, owner.id))
  }

  /** Every entry of a chain comes from a row of that game and chain whose
      author is in the players table, and carries that author's nickname. */
  lemma ChainEntriesFromRows(rounds: seq<RoundEntry>, players: seq<Player>, gameId: int, chainOwnerId: int)
    ensures var r := Chain(rounds, players, gameId, chainOwnerId);
            forall i :: 0 <= i < |r| ==>
              (r[i].chainOwnerId == chainOwnerId &&
               exists e :: e in rounds && e.gameId == gameId && AuthorOf(players, e).Some? &&
                 r[i] == ChainEntry(e, AuthorOf(players, e).value.nickname))
  {
    var rows := Filter(rounds, ChainRowOf(gameId, chainOwnerId));
    var kept := Filter(rows, HasAuthor(players));
    var joined := ChainRows(rounds, players, gameId, chainOwnerId);
    var r := Chain(rounds, players, gameId, chainOwnerId);
    forall i | 0 <= i < |r|
      ensures r[i].chainOwnerId == chainOwnerId
      ensures exists e :: e in rounds && e.gameId == gameId && AuthorOf(players, e).Some? &&
                r[i] == ChainEntry(e, AuthorOf(players, e).value.nickname)
    {
      assert r[i] in multiset(joined);
      var m :| 0 <= m < |joined| && joined[m] == r[i];
      assert kept[m] in rows;
    }
  }

  /** A row of the chain whose author exists appears in the chain. */
  lemma ChainHasEveryAuthoredRow(rounds: seq<RoundEntry>, players: seq<Player>, gameId: int, chainOwnerId: int, e: RoundEntry)
    requires e in rounds && e.gameId == gameId && e.chainOwnerId == chainOwnerId && AuthorOf(players, e).Some?
    ensures ChainEntry(e, AuthorOf(players, e).value.nickname) in Chain(rounds, players, gameId, chainOwnerId)
  {
    var rows := Filter(rounds, ChainRowOf(gameId, chainOwnerId));
    var kept := Filter(rows, HasAuthor(players));
    var joined := ChainRows(rounds, players, gameId, chainOwnerId);
    var k :| 0 <= k < |rounds| && rounds[k] == e;
    assert ChainRowOf(gameId, chainOwnerId)(rounds[k]);
    assert e in rows;
    var m :| 0 <= m < |rows| && rows[m] == e;
    assert HasAuthor(players)(rows[m]);
    assert e in kept;
    var n :| 0 <= n < |kept| && kept[n] == e;
    assert joined[n] in multiset(Chain(rounds, players, gameId, chainOwnerId));
  }

  /** The name listed for a voter: the first roster player with that id, else "Unknown". */
  function VoterName(roster: seq<Player>, voterId: int): (name: string)
    ensures (forall i :: 0 <= i < |roster| ==> roster[i].id != voterId) ==> name == "Unknown"
    ensures forall i :: (0 <= i < |roster| && roster[i].id == voterId &&
                         forall j :: 0 <= j < i ==> roster[j].id != voterId) ==> name == roster[i].nickname
  {
    match Find(roster, PlayerIdIs(voterId))
    case None => "Unknown"
    case Some(p) =>
      assert forall i :: (0 <= i < |roster| && roster[i].id == voterId &&
                          forall j :: 0 <= j < i ==> roster[j].id != voterId) ==> p == roster[i] by {
        var k :| 0 <= k < |roster| && roster[k] == p && roster[k].id == voterId
                 && forall j :: 0 <= j < k ==> roster[j].id != voterId;
      }
      p.nickname
  }

  function VoterNames(roster: seq<Player>, votes: seq<Vote>): (names: seq<string>)
    ensures |names| == |votes|
    ensures forall i :: 0 <= i < |votes| ==> names[i] == VoterName(roster, votes[i].voterId)
  {
    if votes == [] then [] else [VoterName(roster, votes[0].voterId)] + VoterNames(roster, votes[1..])
  }

  /** One player's record: the votes naming them as chain owner, and the voters' names in vote order. */
  function ResultFor(roster: seq<Player>, p: Player, votes: seq<Vote>): (r: Types.VoteResult)
    ensures r.chainOwnerId == p.id && r.ownerNickname == p.nickname
    ensures r.voteCount == |Filter(votes, VoteFor(p.id))| == |r.voters|
  {
    var mine := Filter(votes, VoteFor(p.id));
    Types.VoteResult(p.id, p.nickname, |mine|, VoterNames(roster, mine))
  }

  /** The records for every roster player, in roster order (before sorting). */
  function Tally(roster: seq<Player>, votes: seq<Vote>): (t: seq<Types.VoteResult>)
    ensures |t| == |roster|
    ensures forall i :: 0 <= i < |roster| ==> t[i] == ResultFor(roster, roster[i], votes)
  {
    seq(|roster|, i requires 0 <= i < |roster| => ResultFor(roster, roster[i], votes))
  }

  /** The records of a game's players over the game's votes, in join order. */
  function GameTally(players: seq<Player>, votes: seq<Vote>, gameId: int): seq<Types.VoteResult> {
    Tally(PlayersForGame(players, gameId), Filter(votes, VoteInGame(gameId)))
  }

  /** `getVoteResults`: one record per player of the game, sorted by vote
      count from most to fewest; equal counts stay in join order. */
  function VoteResults(players: seq<Player>, votes: seq<Vote>, gameId: int): (r: seq<Types.VoteResult>)
    ensures |r| == |PlayersForGame(players, gameId)|
    ensures multiset(r) == multiset(GameTally(players, votes, gameId))
    ensures forall i, j :: 0 <= i < j < |r| ==> r[i].voteCount >= r[j].voteCount
    ensures forall k :: WithKey(r, FewerVotesLater, k) == WithKey(GameTally(players, votes, gameId), FewerVotesLater, k)
  {
    var r := SortBy(GameTally(players, votes, gameId), FewerVotesLater);
    assert forall i, j :: 0 <= i < j < |r| ==> FewerVotesLater(r[i]) <= FewerVotesLater(r[j]);
    r
  }

  /** Each player of the game has their record among the results, with the
      number of the game's votes naming them. */
  lemma VoteResultsCoverRoster(players: seq<Player>, votes: seq<Vote>, gameId: int, p: Player)
    requires p in players && p.gameId == gameId
    ensures exists i :: 0 <= i < |VoteResults(players, votes, gameId)| &&
              VoteResults(players, votes, gameId)[i].chainOwnerId == p.id &&
              VoteResults(players, votes, gameId)[i].ownerNickname == p.nickname &&
              VoteResults(players, votes, gameId)[i].voteCount == |Filter(Filter(votes, VoteInGame(gameId)), VoteFor(p.id))|
  {
    var roster := PlayersForGame(players, gameId);
    var t := GameTally(players, votes, gameId);
    var r := VoteResults(players, votes, gameId);
    var k :| 0 <= k < |players| && players[k] == p;
    assert p in roster;
    var j :| 0 <= j < |roster| && roster[j] == p;
    assert t[j] in multiset(r);
    var i :| 0 <= i < |r| && r[i] == t[j];
  }

  function SumVotes(rs: seq<Types.VoteResult>): nat {
    if rs == [] then 0 else rs[0].voteCount + SumVotes(rs[1..])
  }

  lemma {:induction false} SumVotesInsert(x: Types.VoteResult, s: seq<Types.VoteResult>)
    ensures SumVotes(InsertBy(x, s, FewerVotesLater)) == x.voteCount + SumVotes(s)
  {
    if s != [] && FewerVotesLater(x) > FewerVotesLater(s[0]) {
      var t := InsertBy(x, s[1..], FewerVotesLater);
      assert ([s[0]] + t)[1..] == t;
      SumVotesInsert(x, s[1..]);
    } else {
      assert ([x] + s)[1..] == s;
    }
  }

  lemma {:induction false} SumVotesSorted(s: seq<Types.VoteResult>)
    ensures SumVotes(SortBy(s, FewerVotesLater)) == SumVotes(s)
  {
    if s != [] {
      SumVotesSorted(s[1..]);
      SumVotesInsert(s[0], SortBy(s[1..], FewerVotesLater));
    }
  }

  function Ids(roster: seq<Player>): set<int> {
    set p | p in roster :: p.id
  }

  function VoteForAny(ids: set<int>): Vote -> bool { (v: Vote) => v.chainOwnerId in ids }

  lemma {:induction false} CountForAnySplit(votes: seq<Vote>, id: int, ids: set<int>)
    requires id !in ids
    ensures |Filter(votes, VoteForAny({id} + ids))| == |Filter(votes, VoteFor(id))| + |Filter(votes, VoteForAny(ids))|
  {
    if votes != [] {
      CountForAnySplit(votes[1..], id, ids);
    }
  }

  lemma {:induction false} SumTally(roster: seq<Player>, everyone: seq<Player>, votes: seq<Vote>)
    requires KeysDistinct(roster, PlayerKey)
    ensures SumVotes(Tally'(everyone, roster, votes)) == |Filter(votes, VoteForAny(Ids(roster)))|
  {
    if roster == [] {
      assert Ids(roster) == {};
      EmptyCount(votes);
    } else {
      var rest := roster[1..];
      assert KeysDistinct(rest, PlayerKey);
      SumTally(rest, everyone, votes);
      assert Tally'(everyone, roster, votes)[1..] == Tally'(everyone, rest, votes);
      assert Ids(roster) == {roster[0].id} + Ids(rest) by {
        assert roster == [roster[0]] + rest;
      }
      assert forall k :: 0 <= k < |rest| ==> rest[k].id != roster[0].id by {
        forall k | 0 <= k < |rest| ensures rest[k].id != roster[0].id {
          assert rest[k] == roster[k + 1];
        }
      }
      assert roster[0].id !in Ids(rest);
      CountForAnySplit(votes, roster[0].id, Ids(rest));
    }
  }

  lemma {:induction false} EmptyCount(votes: seq<Vote>)
    ensures |Filter(votes, VoteForAny({}))| == 0
  {
    if votes != [] {
      EmptyCount(votes[1..]);
    }
  }

  /** Tally with the names looked up in `everyone` while the records follow `roster`. */
  function Tally'(everyone: seq<Player>, roster: seq<Player>, votes: seq<Vote>): (t: seq<Types.VoteResult>)
    ensures |t| == |roster|
    ensures forall i :: 0 <= i < |roster| ==> t[i] == ResultFor(everyone, roster[i], votes)
  {
    seq(|roster|, i requires 0 <= i < |roster| => ResultFor(everyone, roster[i], votes))
  }

  /** The vote counts add up to the number of the game's votes whose chain
      owner is a player of the game (when player ids are distinct). */
  lemma VoteTotal(players: seq<Player>, votes: seq<Vote>, gameId: int)
    requires KeysDistinct(PlayersForGame(players, gameId), PlayerKey)
    ensures var roster := PlayersForGame(players, gameId);
            SumVotes(VoteResults(players, votes, gameId))
            == |Filter(Filter(votes, VoteInGame(gameId)), VoteForAny(Ids(roster)))|
  {
    var roster := PlayersForGame(players, gameId);
    var gameVotes := Filter(votes, VoteInGame(gameId));
    SumVotesSorted(GameTally(players, votes, gameId));
    assert Tally(roster, gameVotes) == Tally'(roster, roster, gameVotes);
    SumTally(roster, roster, gameVotes);
  }

  /** A permutation of rows with distinct keys has distinct keys. */
  lemma {:induction false} PermutationKeepsKeysDistinct<T, K>(s: seq<T>, t: seq<T>, key: T -> K)
    requires KeysDistinct(s, key)
    requires multiset(t) == multiset(s)
    ensures KeysDistinct(t, key)
  {
    forall i, j | 0 <= i < j < |t| ensures key(t[i]) != key(t[j]) {
      assert t[i] in multiset(s) && t[j] in multiset(s);
      var a :| 0 <= a < |s| && s[a] == t[i];
      var b :| 0 <= b < |s| && s[b] == t[j];
      if a == b {
        TwoCopies(t, i, j);
        TwoPositions(s, t[i]);
      }
    }
  }

  /** An element at two positions occurs at least twice. */
  lemma {:induction false} TwoCopies<T>(t: seq<T>, i: int, j: int)
    requires 0 <= i < j < |t| && t[i] == t[j]
    ensures multiset(t)[t[i]] >= 2
  {
    assert t == t[..i] + [t[i]] + t[i + 1..j] + [t[j]] + t[j + 1..];
  }

  /** An element occurring at least twice sits at two distinct positions. */
  lemma {:induction false} TwoPositions<T>(s: seq<T>, x: T)
    requires multiset(s)[x] >= 2
    ensures exists a, b :: 0 <= a < b < |s| && s[a] == x && s[b] == x
  {
    assert s == [s[0]] + s[1..];
    if s[0] == x {
      assert x in multiset(s[1..]);
      var b :| 0 <= b < |s[1..]| && s[1..][b] == x;
      assert s[0] == x && s[b + 1] == x;
    } else {
      TwoPositions(s[1..], x);
      var a, b :| 0 <= a < b < |s[1..]| && s[1..][a] == x && s[1..][b] == x;
      assert s[a + 1] == x && s[b + 1] == x;
    }
  }

  /** Distinct player ids in the table give a roster with distinct ids. */
  lemma RosterKeysDistinct(players: seq<Player>, gameId: int)
    requires KeysDistinct(players, PlayerKey)
    ensures KeysDistinct(PlayersForGame(players, gameId), PlayerKey)
  {
    FilterKeepsKeysDistinct(players, PlayerInGame(gameId), PlayerKey);
    PermutationKeepsKeysDistinct(PlayersOf(players, gameId), PlayersForGame(players, gameId), PlayerKey);
  }

  /** In a consistent store the vote counts of a game add up to the game's
      votes whose chain owner is one of its players. */
  lemma VoteTotalInStore(players: seq<Player>, votes: seq<Vote>, gameId: int)
    requires KeysDistinct(players, PlayerKey)
    ensures var roster := PlayersForGame(players, gameId);
            SumVotes(VoteResults(players, votes, gameId))
            == |Filter(Filter(votes, VoteInGame(gameId)), VoteForAny(Ids(roster)))|
  {
    RosterKeysDistinct(players, gameId);
    VoteTotal(players, votes, gameId);
  }

  /** `getActiveGames`: the games not in RESULTS or ARCHIVED, oldest first. */
  function ActiveGames(games: seq<Game>): (r: seq<Game>)
    ensures forall i :: 0 <= i < |r| ==> r[i] in games && IsActive(r[i])
    ensures forall i :: 0 <= i < |games| && IsActive(games[i]) ==> games[i] in r
    ensures forall i, j :: 0 <= i < j < |r| ==> r[i].createdAt <= r[j].createdAt
    ensures forall g :: multiset(r)[g] == if IsActive(g) then multiset(games)[g] else 0
  {
    var active := Filter(games, IsActive);
    var r := SortBy(active, CreatedAtOf);
    forall i | 0 <= i < |r| ensures r[i] in games && IsActive(r[i]) {
      assert r[i] in multiset(active);
    }
    forall i | 0 <= i < |games| && IsActive(games[i]) ensures games[i] in r {
      assert games[i] in multiset(r);
    }
    forall g ensures multiset(r)[g] == if IsActive(g) then multiset(games)[g] else 0 {
      FilterMultiset(games, IsActive, g);
    }
    r
  }

  /** `getAllGames`: every game, oldest first. */
  function AllGames(games: seq<Game>): (r: seq<Game>)
    ensures multiset(r) == multiset(games)
    ensures forall i, j :: 0 <= i < j < |r| ==> r[i].createdAt <= r[j].createdAt
  {
    SortBy(games, CreatedAtOf)
  }

  /** `hasPlayerVoted`. */
  function HasPlayerVoted(votes: seq<Vote>, gameId: int, playerId: int): (b: bool)
    ensures b <==> exists i :: 0 <= i < |votes| && votes[i].gameId == gameId && votes[i].voterId == playerId
  {
    Find(votes, VoteBy(gameId, playerId)).Some?
  }

  /** `getVoteCount`: the number of vote rows of the game. */
  function VoteCount(votes: seq<Vote>, gameId: int): (n: nat)
    ensures n <= |votes|
    ensures n == |set i | 0 <= i < |votes| && votes[i].gameId == gameId|
  {
    FilterCount(votes, VoteInGame(gameId));
    assert Matching(votes, VoteInGame(gameId)) == set i | 0 <= i < |votes| && votes[i].gameId == gameId;
    |Filter(votes, VoteInGame(gameId))|
  }

  /** A new vote row raises its own game's count by one and leaves every
      other game's count alone. */
  lemma {:induction false} VoteCountAfterCast(votes: seq<Vote>, v: Vote, gameId: int)
    ensures VoteCount(votes + [v], gameId) == VoteCount(votes, gameId) + if v.gameId == gameId then 1 else 0
  {
    FilterAppend(votes, [v], VoteInGame(gameId));
    assert Filter([v], VoteInGame(gameId)) == if v.gameId == gameId then [v] else [];
  }

  /** Once a game's votes are deleted its count is zero, and the other
      games' counts are unchanged. */
  lemma {:induction false} VoteCountAfterDelete(votes: seq<Vote>, deleted: int, gameId: int)
    ensures VoteCount(Filter(votes, VoteNotInGame(deleted)), deleted) == 0
    ensures gameId != deleted ==>
              VoteCount(Filter(votes, VoteNotInGame(deleted)), gameId) == VoteCount(votes, gameId)
  {
    var kept := Filter(votes, VoteNotInGame(deleted));
    FilterNone(kept, VoteInGame(deleted));
    if gameId != deleted {
      FilterOfFilter(votes, deleted, gameId);
    }
  }

  /** Dropping another game's votes does not change which votes of this game remain. */
  lemma {:induction false} FilterOfFilter(votes: seq<Vote>, deleted: int, gameId: int)
    requires gameId != deleted
    ensures Filter(Filter(votes, VoteNotInGame(deleted)), VoteInGame(gameId)) == Filter(votes, VoteInGame(gameId))
  {
    if votes != [] {
      FilterOfFilter(votes[1..], deleted, gameId);
    }
  }

  /** The players carried into a rematch, ordered by their old join order. */
  function PlayAgainPlayers(players: seq<Player>, oldGameId: int): (r: seq<Player>)
    ensures multiset(r) == multiset(Filter(players, PlaysAgainIn(oldGameId)))
    ensures forall i :: 0 <= i < |r| ==> r[i].gameId == oldGameId && r[i].postGameChoice == Some(PlayAgain)
    ensures forall i, j :: 0 <= i < j < |r| ==> r[i].joinOrder <= r[j].joinOrder
  {
    var chosen := Filter(players, PlaysAgainIn(oldGameId));
    var r := SortBy(chosen, JoinOrderOf);
    forall i | 0 <= i < |r| ensures r[i].gameId == oldGameId && r[i].postGameChoice == Some(PlayAgain) {
      assert r[i] in multiset(chosen);
      assert PlaysAgainIn(oldGameId)(r[i]);
    }
    r
  }

  /** The rows `createRematchGame` inserts: the i-th carried player joins the
      new game with join order i, keeping nickname and session token. */
  function RematchRows(again: seq<Player>, newGameId: int, firstId: int, now: nat): (r: seq<Player>)
    ensures |r| == |again|
    ensures forall i :: 0 <= i < |again| ==>
              r[i] == NewPlayer(firstId + i, newGameId, again[i].nickname, i, again[i].sessionToken, now)
  {
    seq(|again|, i requires 0 <= i < |again| =>
      NewPlayer(firstId + i, newGameId, again[i].nickname, i, again[i].sessionToken, now))
  }

  /** The new roster of a rematch: with no rows of the new game yet, the
      inserted rows are exactly the new game's players, in join order 0..k-1. */
  lemma RematchRoster(players: seq<Player>, again: seq<Player>, newGameId: int, firstId: int, now: nat)
    requires forall i :: 0 <= i < |players| ==> players[i].gameId != newGameId
    ensures var rows := RematchRows(again, newGameId, firstId, now);
            PlayersForGame(players + rows, newGameId) == rows &&
            JoinOrdersContiguous(players + rows, newGameId)
  {
    var rows := RematchRows(again, newGameId, firstId, now);
    FilterAppend(players, rows, PlayerInGame(newGameId));
    FilterNone(players, PlayerInGame(newGameId));
    FilterAll(rows, PlayerInGame(newGameId));
    assert PlayersOf(players + rows, newGameId) == rows;
    ContiguousIsSorted(players + rows, newGameId);
  }

  // ---------------------------------------------------------------------
  // Row updates

  function Started(totalRounds: int): Game -> Game {
    (g: Game) => g.(status := PLAYING, currentRound := 0, totalRounds := Some(totalRounds))
  }
  function AdvancedTo(nextRound: int): Game -> Game { (g: Game) => g.(currentRound := nextRound) }
  function WithStatus(status: Status): Game -> Game { (g: Game) => g.(status := status) }
  /** `revealChainIndex = revealChainIndex + 1`, evaluated by the database per row. */
  function RevealAdvanced(): Game -> Game { (g: Game) => g.(revealChainIndex := g.revealChainIndex + 1) }
  function WithChoice(choice: Choice): Player -> Player { (p: Player) => p.(postGameChoice := Some(choice)) }

  function MapOption(o: Option<Game>, f: Game -> Game): Option<Game> {
    match o
    case None => None
    case Some(g) => Some(f(g))
  }

  /** Looking a game up after an update by id: the updated game comes back
      changed by f, every other game as it was. */
  lemma {:induction false} LookupAfterUpdate(games: seq<Game>, id: int, f: Game -> Game, other: int)
    requires forall g :: f(g).id == g.id
    ensures GameById(UpdateWhere(games, GameIdIs(id), f), other)
            == if other == id then MapOption(GameById(games, other), f) else GameById(games, other)
  {
    if games != [] {
      var u := UpdateWhere(games, GameIdIs(id), f);
      assert u[1..] == UpdateWhere(games[1..], GameIdIs(id), f);
      LookupAfterUpdate(games[1..], id, f, other);
    }
  }

  /** Deleting a game's rows leaves every other game's roster as it was. */
  lemma DeleteKeepsOtherRosters(players: seq<Player>, gameId: int, other: int)
    requires other != gameId
    ensures PlayersOf(Filter(players, PlayerNotInGame(gameId)), other) == PlayersOf(players, other)
    ensures PlayersForGame(Filter(players, PlayerNotInGame(gameId)), other) == PlayersForGame(players, other)
  {
    FilterNested(players, gameId, other);
  }

  lemma {:induction false} FilterNested(players: seq<Player>, gameId: int, other: int)
    requires other != gameId
    ensures Filter(Filter(players, PlayerNotInGame(gameId)), PlayerInGame(other)) == Filter(players, PlayerInGame(other))
  {
    if players != [] {
      FilterNested(players[1..], gameId, other);
    }
  }

  // ---------------------------------------------------------------------
  // The store

  function GameKey(g: Game): int { g.id }
  function PlayerKey(p: Player): int { p.id }
  function RoundKey(e: RoundEntry): int { e.id }
  function VoteKey(v: Vote): int { v.id }
  function GameCode(g: Game): string { g.code }

  /** The four tables and their autoincrement counters. `now` parameters
      stand for the clock that fills the created-at columns. */
  class Store {
    var games: seq<Game>
    var players: seq<Player>
    var rounds: seq<RoundEntry>
    var votes: seq<Vote>
    var nextGameId: int
    var nextPlayerId: int
    var nextRoundId: int
    var nextVoteId: int

    /** Primary keys are distinct and below their counters, game codes are
        unique, and every row's game id names a game that was created. */
    ghost predicate Valid()
      reads this
    {
      KeysDistinct(games, GameKey) && IdsBelow(games, GameKey, nextGameId) &&
      KeysDistinct(games, GameCode) &&
      KeysDistinct(players, PlayerKey) && IdsBelow(players, PlayerKey, nextPlayerId) &&
      KeysDistinct(rounds, RoundKey) && IdsBelow(rounds, RoundKey, nextRoundId) &&
      KeysDistinct(votes, VoteKey) && IdsBelow(votes, VoteKey, nextVoteId) &&
      (forall i :: 0 <= i < |players| ==> players[i].gameId < nextGameId) &&
      (forall i :: 0 <= i < |rounds| ==> rounds[i].gameId < nextGameId) &&
      (forall i :: 0 <= i < |votes| ==> votes[i].gameId < nextGameId)
    }

    constructor ()
      ensures Valid()
      ensures games == [] && players == [] && rounds == [] && votes == []
      ensures nextGameId == 1 && nextPlayerId == 1 && nextRoundId == 1 && nextVoteId == 1
    {
      games, players, rounds, votes := [], [], [], [];
      nextGameId, nextPlayerId, nextRoundId, nextVoteId := 1, 1, 1, 1;
    }

    /** Inserts a games row with the next id and the column defaults. */
    method InsertGame(code: string, roundDurationSeconds: int, now: nat) returns (g: Game)
      requires Valid()
      requires forall i :: 0 <= i < |games| ==> games[i].code != code
      modifies this
      ensures Valid()
      ensures g == NewGame(old(nextGameId), code, roundDurationSeconds, now)
      ensures games == old(games) + [g] && nextGameId == old(nextGameId) + 1
      ensures players == old(players) && rounds == old(rounds) && votes == old(votes)
      ensures nextPlayerId == old(nextPlayerId) && nextRoundId == old(nextRoundId) && nextVoteId == old(nextVoteId)
    {
      g := NewGame(nextGameId, code, roundDurationSeconds, now);
      games := games + [g];
      nextGameId := nextGameId + 1;
    }

    /** `createGame`: inserts a lobby game; a code already in use violates the
        unique constraint and inserts nothing. */
    method CreateGame(code: string, roundDurationSeconds: int, now: nat) returns (r: Option<Game>)
      requires Valid()
      modifies this
      ensures Valid()
      ensures (exists i :: 0 <= i < |old(games)| && old(games)[i].code == code) ==>
                r == None && unchanged(this)
      ensures (forall i :: 0 <= i < |old(games)| ==> old(games)[i].code != code) ==>
                r == Some(NewGame(old(nextGameId), code, roundDurationSeconds, now)) &&
                games == old(games) + [r.value] && nextGameId == old(nextGameId) + 1
      ensures players == old(players) && rounds == old(rounds) && votes == old(votes)
      ensures nextPlayerId == old(nextPlayerId) && nextRoundId == old(nextRoundId) && nextVoteId == old(nextVoteId)
    {
      if Find(games, GameCodeIs(code)).Some? {
        return None;
      }
      var g := InsertGame(code, roundDurationSeconds, now);
      r := Some(g);
    }

    /** Inserts a players row with the next id. */
    method InsertPlayer(gameId: int, nickname: string, joinOrder: int, sessionToken: string, now: nat)
      returns (p: Player)
      requires Valid()
      requires gameId < nextGameId
      modifies this
      ensures Valid()
      ensures p == NewPlayer(old(nextPlayerId), gameId, nickname, joinOrder, sessionToken, now)
      ensures players == old(players) + [p] && nextPlayerId == old(nextPlayerId) + 1
      ensures games == old(games) && rounds == old(rounds) && votes == old(votes)
      ensures nextGameId == old(nextGameId) && nextRoundId == old(nextRoundId) && nextVoteId == old(nextVoteId)
    {
      p := NewPlayer(nextPlayerId, gameId, nickname, joinOrder, sessionToken, now);
      players := players + [p];
      nextPlayerId := nextPlayerId + 1;
    }

    /** `addPlayer`: the new player's join order is the number of players the
        game already has. */
    method AddPlayer(gameId: int, nickname: string, sessionToken: string, now: nat) returns (p: Player)
      requires Valid()
      requires GameById(games, gameId).Some?
      modifies this
      ensures Valid()
      ensures p == NewPlayer(old(nextPlayerId), gameId, nickname, NextJoinOrder(old(players), gameId), sessionToken, now)
      ensures players == old(players) + [p] && nextPlayerId == old(nextPlayerId) + 1
      ensures JoinOrdersContiguous(old(players), gameId) ==> JoinOrdersContiguous(players, gameId)
      ensures games == old(games) && rounds == old(rounds) && votes == old(votes)
      ensures nextGameId == old(nextGameId) && nextRoundId == old(nextRoundId) && nextVoteId == old(nextVoteId)
    {
      var joinOrder := |Filter(players, PlayerInGame(gameId))|;
      if JoinOrdersContiguous(players, gameId) {
        JoinKeepsContiguous(players, NewPlayer(nextPlayerId, gameId, nickname, joinOrder, sessionToken, now));
      }
      p := InsertPlayer(gameId, nickname, joinOrder, sessionToken, now);
    }

    /** Applies a game update to the rows with the given id. */
    method UpdateGame(gameId: int, f: Game -> Game)
      requires Valid()
      requires forall g :: f(g).id == g.id && f(g).code == g.code
      modifies this
      ensures Valid()
      ensures |games| == |old(games)|
      ensures forall i :: 0 <= i < |games| ==>
                games[i] == if old(games)[i].id == gameId then f(old(games)[i]) else old(games)[i]
      ensures forall other :: GameById(games, other)
                == if other == gameId then MapOption(GameById(old(games), other), f) else GameById(old(games), other)
      ensures players == old(players) && rounds == old(rounds) && votes == old(votes)
      ensures nextGameId == old(nextGameId) && nextPlayerId == old(nextPlayerId)
      ensures nextRoundId == old(nextRoundId) && nextVoteId == old(nextVoteId)
    {
      forall other ensures GameById(UpdateWhere(games, GameIdIs(gameId), f), other)
            == if other == gameId then MapOption(GameById(games, other), f) else GameById(games, other) {
        LookupAfterUpdate(games, gameId, f, other);
      }
      games := UpdateWhere(games, GameIdIs(gameId), f);
    }

    /** `startGame`: status PLAYING, round 0 and the round count. */
    method StartGame(gameId: int, totalRounds: int)
      requires Valid()
      modifies this
      ensures Valid()
      ensures |games| == |old(games)|
      ensures forall i :: 0 <= i < |games| ==>
                games[i] == if old(games)[i].id == gameId
                            then old(games)[i].(status := PLAYING, currentRound := 0, totalRounds := Some(totalRounds))
                            else old(games)[i]
      ensures players == old(players) && rounds == old(rounds) && votes == old(votes)
      ensures nextGameId == old(nextGameId) && nextPlayerId == old(nextPlayerId)
      ensures nextRoundId == old(nextRoundId) && nextVoteId == old(nextVoteId)
    {
      UpdateGame(gameId, Started(totalRounds));
    }

    /** `advanceRound`: sets the current round. */
    method AdvanceRound(gameId: int, nextRound: int)
      requires Valid()
      modifies this
      ensures Valid()
      ensures |games| == |old(games)|
      ensures forall i :: 0 <= i < |games| ==>
                games[i] == if old(games)[i].id == gameId then old(games)[i].(currentRound := nextRound) else old(games)[i]
      ensures players == old(players) && rounds == old(rounds) && votes == old(votes)
      ensures nextGameId == old(nextGameId) && nextPlayerId == old(nextPlayerId)
      ensures nextRoundId == old(nextRoundId) && nextVoteId == old(nextVoteId)
    {
      UpdateGame(gameId, AdvancedTo(nextRound));
    }

    /** `setGameStatus`. */
    method SetGameStatus(gameId: int, status: Status)
      requires Valid()
      modifies this
      ensures Valid()
      ensures |games| == |old(games)|
      ensures forall i :: 0 <= i < |games| ==>
                games[i] == if old(games)[i].id == gameId then old(games)[i].(status := status) else old(games)[i]
      ensures players == old(players) && rounds == old(rounds) && votes == old(votes)
      ensures nextGameId == old(nextGameId) && nextPlayerId == old(nextPlayerId)
      ensures nextRoundId == old(nextRoundId) && nextVoteId == old(nextVoteId)
    {
      UpdateGame(gameId, WithStatus(status));
    }

    /** `advanceReveal`: the reveal cursor of that game goes up by exactly one. */
    method AdvanceReveal(gameId: int)
      requires Valid()
      modifies this
      ensures Valid()
      ensures |games| == |old(games)|
      ensures forall i :: 0 <= i < |games| ==>
                games[i] == if old(games)[i].id == gameId
                            then old(games)[i].(revealChainIndex := old(games)[i].revealChainIndex + 1)
                            else old(games)[i]
      ensures GameById(old(games), gameId).Some? ==>
                GameById(games, gameId).Some? &&
                GameById(games, gameId).value.revealChainIndex == GameById(old(games), gameId).value.revealChainIndex + 1
      ensures players == old(players) && rounds == old(rounds) && votes == old(votes)
      ensures nextGameId == old(nextGameId) && nextPlayerId == old(nextPlayerId)
      ensures nextRoundId == old(nextRoundId) && nextVoteId == old(nextVoteId)
    {
      UpdateGame(gameId, RevealAdvanced());
    }

    /** `submitRoundEntry`: inserts one entry. */
    method SubmitRoundEntry(gameId: int, roundNumber: int, chainOwnerId: int, playerId: int,
                            kind: RoundType, content: string, now: nat) returns (e: RoundEntry)
      requires Valid()
      requires GameById(games, gameId).Some?
      modifies this
      ensures Valid()
      ensures e == RoundEntry(old(nextRoundId), gameId, roundNumber, chainOwnerId, playerId, kind, content, now)
      ensures rounds == old(rounds) + [e] && nextRoundId == old(nextRoundId) + 1
      ensures games == old(games) && players == old(players) && votes == old(votes)
      ensures nextGameId == old(nextGameId) && nextPlayerId == old(nextPlayerId) && nextVoteId == old(nextVoteId)
    {
      e := RoundEntry(nextRoundId, gameId, roundNumber, chainOwnerId, playerId, kind, content, now);
      rounds := rounds + [e];
      nextRoundId := nextRoundId + 1;
    }

    /** `castVote`: inserts one vote. */
    method CastVote(gameId: int, voterId: int, chainOwnerId: int, now: nat) returns (v: Vote)
      requires Valid()
      requires GameById(games, gameId).Some?
      modifies this
      ensures Valid()
      ensures v == Vote(old(nextVoteId), gameId, voterId, chainOwnerId, now)
      ensures votes == old(votes) + [v] && nextVoteId == old(nextVoteId) + 1
      ensures games == old(games) && players == old(players) && rounds == old(rounds)
      ensures nextGameId == old(nextGameId) && nextPlayerId == old(nextPlayerId) && nextRoundId == old(nextRoundId)
    {
      v := Vote(nextVoteId, gameId, voterId, chainOwnerId, now);
      votes := votes + [v];
      nextVoteId := nextVoteId + 1;
    }

    /** `removePlayer`: deletes the player row with that id. */
    method RemovePlayer(playerId: int)
      requires Valid()
      modifies this
      ensures Valid()
      ensures players == Filter(old(players), PlayerIdIsNot(playerId))
      ensures forall i :: 0 <= i < |players| ==> players[i].id != playerId
      ensures forall i :: 0 <= i < |old(players)| && old(players)[i].id != playerId ==> old(players)[i] in players
      ensures games == old(games) && rounds == old(rounds) && votes == old(votes)
      ensures nextGameId == old(nextGameId) && nextPlayerId == old(nextPlayerId)
      ensures nextRoundId == old(nextRoundId) && nextVoteId == old(nextVoteId)
    {
      FilterKeepsKeysDistinct(players, PlayerIdIsNot(playerId), PlayerKey);
      players := Filter(players, PlayerIdIsNot(playerId));
    }

    /** `deleteGame`, first statement: the game's votes. */
    method DeleteVotesOf(gameId: int)
      requires Valid()
      modifies this
      ensures Valid()
      ensures votes == Filter(old(votes), VoteNotInGame(gameId))
      ensures forall i :: 0 <= i < |votes| ==> votes[i].gameId != gameId
      ensures games == old(games) && players == old(players) && rounds == old(rounds)
      ensures nextGameId == old(nextGameId) && nextPlayerId == old(nextPlayerId)
      ensures nextRoundId == old(nextRoundId) && nextVoteId == old(nextVoteId)
    {
      FilterKeepsKeysDistinct(votes, VoteNotInGame(gameId), VoteKey);
      votes := Filter(votes, VoteNotInGame(gameId));
    }

    /** `deleteGame`, second statement: the game's round entries. */
    method DeleteRoundsOf(gameId: int)
      requires Valid()
      modifies this
      ensures Valid()
      ensures rounds == Filter(old(rounds), RoundNotInGame(gameId))
      ensures forall i :: 0 <= i < |rounds| ==> rounds[i].gameId != gameId
      ensures games == old(games) && players == old(players) && votes == old(votes)
      ensures nextGameId == old(nextGameId) && nextPlayerId == old(nextPlayerId)
      ensures nextRoundId == old(nextRoundId) && nextVoteId == old(nextVoteId)
    {
      FilterKeepsKeysDistinct(rounds, RoundNotInGame(gameId), RoundKey);
      rounds := Filter(rounds, RoundNotInGame(gameId));
    }

    /** `deleteGame`, third statement: the game's players; the rosters of
        other games are untouched. */
    method DeletePlayersOf(gameId: int)
      requires Valid()
      modifies this
      ensures Valid()
      ensures players == Filter(old(players), PlayerNotInGame(gameId))
      ensures forall i :: 0 <= i < |players| ==> players[i].gameId != gameId
      ensures forall other :: other != gameId ==> PlayersForGame(players, other) == PlayersForGame(old(players), other)
      ensures games == old(games) && rounds == old(rounds) && votes == old(votes)
      ensures nextGameId == old(nextGameId) && nextPlayerId == old(nextPlayerId)
      ensures nextRoundId == old(nextRoundId) && nextVoteId == old(nextVoteId)
    {
      FilterKeepsKeysDistinct(players, PlayerNotInGame(gameId), PlayerKey);
      forall other | other != gameId
        ensures PlayersForGame(Filter(players, PlayerNotInGame(gameId)), other) == PlayersForGame(players, other)
      {
        DeleteKeepsOtherRosters(players, gameId, other);
      }
      players := Filter(players, PlayerNotInGame(gameId));
    }

    /** `deleteGame`, last statement: the game row itself. */
    method DeleteGameRow(gameId: int)
      requires Valid()
      modifies this
      ensures Valid()
      ensures games == Filter(old(games), GameIdIsNot(gameId))
      ensures forall i :: 0 <= i < |games| ==> games[i].id != gameId
      ensures players == old(players) && rounds == old(rounds) && votes == old(votes)
      ensures nextGameId == old(nextGameId) && nextPlayerId == old(nextPlayerId)
      ensures nextRoundId == old(nextRoundId) && nextVoteId == old(nextVoteId)
    {
      FilterKeepsKeysDistinct(games, GameIdIsNot(gameId), GameKey);
      FilterKeepsKeysDistinct(games, GameIdIsNot(gameId), GameCode);
      games := Filter(games, GameIdIsNot(gameId));
    }

    /** `deleteGame`: deletes the game's votes, rounds, players and the game
        row, and keeps every row of every other game. */
    method DeleteGame(gameId: int)
      requires Valid()
      modifies this
      ensures Valid()
      ensures votes == Filter(old(votes), VoteNotInGame(gameId))
      ensures rounds == Filter(old(rounds), RoundNotInGame(gameId))
      ensures players == Filter(old(players), PlayerNotInGame(gameId))
      ensures games == Filter(old(games), GameIdIsNot(gameId))
      ensures forall i :: 0 <= i < |votes| ==> votes[i].gameId != gameId
      ensures forall i :: 0 <= i < |rounds| ==> rounds[i].gameId != gameId
      ensures forall i :: 0 <= i < |players| ==> players[i].gameId != gameId
      ensures forall i :: 0 <= i < |games| ==> games[i].id != gameId
      ensures forall other :: other != gameId ==> PlayersForGame(players, other) == PlayersForGame(old(players), other)
      ensures nextGameId == old(nextGameId) && nextPlayerId == old(nextPlayerId)
      ensures nextRoundId == old(nextRoundId) && nextVoteId == old(nextVoteId)
    {
      DeleteVotesOf(gameId);
      DeleteRoundsOf(gameId);
      DeletePlayersOf(gameId);
      DeleteGameRow(gameId);
    }

    /** `setPostGameChoice`: records the choice on the player with that id. */
    method SetPostGameChoice(playerId: int, choice: Choice)
      requires Valid()
      modifies this
      ensures Valid()
      ensures |players| == |old(players)|
      ensures forall i :: 0 <= i < |players| ==>
                players[i] == if old(players)[i].id == playerId
                              then old(players)[i].(postGameChoice := Some(choice))
                              else old(players)[i]
      ensures games == old(games) && rounds == old(rounds) && votes == old(votes)
      ensures nextGameId == old(nextGameId) && nextPlayerId == old(nextPlayerId)
      ensures nextRoundId == old(nextRoundId) && nextVoteId == old(nextVoteId)
    {
      players := UpdateWhere(players, PlayerIdIs(playerId), WithChoice(choice));
    }

    /** The loop of `createRematchGame`: inserts the carried players into the
        new game with join orders 0..k-1. */
    method CopyPlayers(again: seq<Player>, newGameId: int, now: nat)
      requires Valid()
      requires newGameId < nextGameId
      modifies this
      ensures Valid()
      ensures players == old(players) + RematchRows(again, newGameId, old(nextPlayerId), now)
      ensures nextPlayerId == old(nextPlayerId) + |again|
      ensures games == old(games) && rounds == old(rounds) && votes == old(votes)
      ensures nextGameId == old(nextGameId) && nextRoundId == old(nextRoundId) && nextVoteId == old(nextVoteId)
    {
      ghost var rows := RematchRows(again, newGameId, nextPlayerId, now);
      for i := 0 to |again|
        invariant Valid()
        invariant players == old(players) + rows[..i]
        invariant nextPlayerId == old(nextPlayerId) + i
        invariant games == old(games) && rounds == old(rounds) && votes == old(votes)
        invariant nextGameId == old(nextGameId) && nextRoundId == old(nextRoundId) && nextVoteId == old(nextVoteId)
      {
        var p := InsertPlayer(newGameId, again[i].nickname, i, again[i].sessionToken, now);
        assert rows[..i + 1] == rows[..i] + [p];
      }
      assert rows[..|again|] == rows;
    }

    /** `createRematchGame`: inserts a lobby game with the new code, copies
        the old game's play-again players into it in join order with join
        orders 0..k-1, then archives the old game. A code already in use
        violates the unique constraint before anything is written. */
    method CreateRematchGame(oldGameId: int, newCode: string, roundDurationSeconds: int, now: nat)
      returns (r: Option<Game>)
      requires Valid()
      modifies this
      ensures Valid()
      ensures (exists i :: 0 <= i < |old(games)| && old(games)[i].code == newCode) ==>
                r == None && unchanged(this)
      ensures (forall i :: 0 <= i < |old(games)| ==> old(games)[i].code != newCode) ==>
                r == Some(NewGame(old(nextGameId), newCode, roundDurationSeconds, now)) &&
                games == UpdateWhere(old(games) + [r.value], GameIdIs(oldGameId), WithStatus(ARCHIVED)) &&
                players == old(players) + RematchRows(PlayAgainPlayers(old(players), oldGameId), old(nextGameId), old(nextPlayerId), now) &&
                PlayersForGame(players, old(nextGameId)) == RematchRows(PlayAgainPlayers(old(players), oldGameId), old(nextGameId), old(nextPlayerId), now) &&
                nextGameId == old(nextGameId) + 1 &&
                nextPlayerId == old(nextPlayerId) + |PlayAgainPlayers(old(players), oldGameId)|
      ensures rounds == old(rounds) && votes == old(votes)
      ensures nextRoundId == old(nextRoundId) && nextVoteId == old(nextVoteId)
    {
      if Find(games, GameCodeIs(newCode)).Some? {
        return None;
      }
      var newGame := InsertGame(newCode, roundDurationSeconds, now);
      var again := PlayAgainPlayers(players, oldGameId);
      RematchRoster(players, again, newGame.id, nextPlayerId, now);
      CopyPlayers(again, newGame.id, now);
      UpdateGame(oldGameId, WithStatus(ARCHIVED));
      r := Some(newGame);
    }

    /** `getAllChains`: each player's chain, in join order. */
    method AllChains(gameId: int) returns (chains: seq<Types.ChainRevealData>)
      ensures var roster := PlayersForGame(players, gameId);
              |chains| == |roster| &&
              forall i :: 0 <= i < |roster| ==>
                chains[i].chainOwnerId == roster[i].id && chains[i].ownerNickname == roster[i].nickname &&
                chains[i].entries == Chain(rounds, players, gameId, roster[i].id)
    {
      var roster := PlayersForGame(players, gameId);
      chains := CollectReveals(rounds, players, gameId, roster);
    }
  }
}
