/**
 * The four tables of the game store (games, players, rounds, votes) as row
 * datatypes, with the column defaults the schema declares. Ids and timestamps
 * are assigned by the store; timestamps are modelled as a store clock.
 */
module Schema {
  import opened JsPrelude

  datatype Status = LOBBY | PLAYING | REVEAL | VOTING | RESULTS | ARCHIVED

  datatype RoundType = TEXT | DRAWING

  /** The non-null values of the post-game choice column. */
  datatype Choice = PlayAgain | Exit

  datatype Game = Game(
    id: int,
    code: string,
    status: Status,
    currentRound: int,
    totalRounds: Option<int>,
    roundDurationSeconds: int,
    revealChainIndex: int,
    createdAt: nat)

  datatype Player = Player(
    id: int,
    gameId: int,
    nickname: string,
    joinOrder: int,
    sessionToken: string,
    isConnected: bool,
    postGameChoice: Option<Choice>,
    createdAt: nat)

  datatype RoundEntry = RoundEntry(
    id: int,
    gameId: int,
    roundNumber: int,
    chainOwnerId: int,
    playerId: int,
    kind: RoundType,
    content: string,
    submittedAt: nat)

  datatype Vote = Vote(
    id: int,
    gameId: int,
    voterId: int,
    chainOwnerId: int,
    createdAt: nat)

  /** A games row inserted with only its code and round duration given. */
  function NewGame(id: int, code: string, roundDurationSeconds: int, createdAt: nat): (g: Game)
    ensures g.status == LOBBY && g.currentRound == 0 && g.totalRounds == None
    ensures g.revealChainIndex == 0
    ensures g.id == id && g.code == code && g.roundDurationSeconds == roundDurationSeconds
  {
    Game(id, code, LOBBY, 0, None, roundDurationSeconds, 0, createdAt)
  }

  /** A players row inserted with game, nickname, join order and token given. */
  function NewPlayer(id: int, gameId: int, nickname: string, joinOrder: int,
                     sessionToken: string, createdAt: nat): (p: Player)
    ensures p.isConnected && p.postGameChoice == None
    ensures p.id == id && p.gameId == gameId && p.nickname == nickname
    ensures p.joinOrder == joinOrder && p.sessionToken == sessionToken
  {
    Player(id, gameId, nickname, joinOrder, sessionToken, true, None, createdAt)
  }
}
