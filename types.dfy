/**
 * The shapes the server sends to clients: the player and game summaries,
 * round entries of a chain, vote results and the per-client game state.
 */
module Types {
  import opened JsPrelude
  import Schema

  datatype Player = Player(id: int, gameId: int, nickname: string, joinOrder: int, isConnected: bool)

  datatype GameSummary = GameSummary(
    id: int,
    code: string,
    status: Schema.Status,
    currentRound: int,
    totalRounds: Option<int>,
    roundDurationSeconds: int,
    revealChainIndex: int)

  /** One entry of a chain, joined with its author's nickname. */
  datatype RoundEntry = RoundEntry(
    id: int,
    roundNumber: int,
    chainOwnerId: int,
    playerId: int,
    kind: Schema.RoundType,
    content: string,
    submittedAt: nat,
    playerNickname: string)

  datatype ChainRevealData = ChainRevealData(chainOwnerId: int, ownerNickname: string, entries: seq<RoundEntry>)

  datatype VoteResult = VoteResult(chainOwnerId: int, ownerNickname: string, voteCount: nat, voters: seq<string>)

  datatype Assignment = Assignment(chainOwnerId: int, kind: Schema.RoundType, previousContent: Option<string>)

  /** A post-game choice as the client sees it: `null` is None. */
  type ChoiceView = Option<Schema.Choice>

  datatype GameState = GameState(
    game: GameSummary,
    players: seq<Player>,
    myPlayer: Option<Player>,
    isAdmin: bool,
    currentAssignment: Option<Assignment>,
    submittedThisRound: bool,
    submittedPlayerIds: seq<int>,
    postGameChoices: Option<map<int, ChoiceView>>,
    voteResults: Option<seq<VoteResult>>)
}
