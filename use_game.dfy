/**
 * The client's game-state hook: the state updaters run for the broadcast
 * events and the condition under which all chains are fetched on load.
 * An updater maps the previous state (None before the first fetch) to the
 * next one; a redirect it triggers is returned next to the state.
 */
module UseGame {
  import opened JsPrelude
  import Schema
  import opened Types

  /** The outcome of an updater: the next state and the page it navigates to, if any. */
  datatype Outcome = Outcome(state: Option<GameState>, navigateTo: Option<string>)

  function HasPlayerId(id: int): Player -> bool { (p: Player) => p.id == id }
  function NotPlayerId(id: int): Player -> bool { (p: Player) => p.id != id }

  ghost predicate DistinctPlayerIds(players: seq<Player>) {
    forall i, j :: 0 <= i < j < |players| ==> players[i].id != players[j].id
  }

  ghost predicate NoDuplicates(ids: seq<int>) {
    forall i, j :: 0 <= i < j < |ids| ==> ids[i] != ids[j]
  }

  // ---------------------------------------------------------------------
  // player-joined

  /** Appends the joined player unless a player with that id is listed. */
  function OnPlayerJoined(prev: Option<GameState>, player: Player): (r: Option<GameState>)
    ensures prev.None? ==> r.None?
    ensures prev.Some? && (exists i :: 0 <= i < |prev.value.players| && prev.value.players[i].id == player.id) ==> r == prev
    ensures prev.Some? && (forall i :: 0 <= i < |prev.value.players| ==> prev.value.players[i].id != player.id) ==>
              r == Some(prev.value.(players := prev.value.players + [player]))
  {
    match prev
    case None => None
    case Some(s) =>
      if Find(s.players, HasPlayerId(player.id)).Some? then prev
      else Some(s.(players := s.players + [player]))
  }

  /** After the event the player's id is listed exactly once if ids were
      distinct before, and a repeated event changes nothing. */
  lemma PlayerJoinedKeepsIdsDistinct(prev: GameState, player: Player)
    requires DistinctPlayerIds(prev.players)
    ensures var r := OnPlayerJoined(Some(prev), player);
            r.Some? && DistinctPlayerIds(r.value.players) &&
            (exists i :: 0 <= i < |r.value.players| && r.value.players[i].id == player.id) &&
            OnPlayerJoined(r, player) == r
  {
    var r := OnPlayerJoined(Some(prev), player);
    if forall i :: 0 <= i < |prev.players| ==> prev.players[i].id != player.id {
      assert r.value.players[|prev.players|] == player;
    }
  }

  // ---------------------------------------------------------------------
  // player-kicked

  /** Drops the kicked player, unless it is this client's player, who is
      sent to the home page with the state left as it was. */
  function OnPlayerKicked(prev: Option<GameState>, kickedId: int): (r: Outcome)
    ensures prev.None? ==> r == Outcome(None, None)
    ensures prev.Some? && prev.value.myPlayer.Some? && prev.value.myPlayer.value.id == kickedId ==>
              r == Outcome(prev, Some("/?kicked=1"))
    ensures prev.Some? && !(prev.value.myPlayer.Some? && prev.value.myPlayer.value.id == kickedId) ==>
              r.navigateTo.None? && r.state.Some? &&
              r.state.value == prev.value.(players := r.state.value.players) &&
              (forall i :: 0 <= i < |r.state.value.players| ==> r.state.value.players[i].id != kickedId) &&
              (forall i :: 0 <= i < |prev.value.players| && prev.value.players[i].id != kickedId ==>
                 prev.value.players[i] in r.state.value.players)
  {
    match prev
    case None => Outcome(None, None)
    case Some(s) =>
      if s.myPlayer.Some? && s.myPlayer.value.id == kickedId then Outcome(prev, Some("/?kicked=1"))
      else Outcome(Some(s.(players := Filter(s.players, NotPlayerId(kickedId)))), None)
  }

  /** The remaining players keep their order: the kick commutes with splitting the list. */
  lemma PlayerKickedKeepsOrder(prev: GameState, kickedId: int, front: seq<Player>, back: seq<Player>)
    requires prev.players == front + back
    requires !(prev.myPlayer.Some? && prev.myPlayer.value.id == kickedId)
    ensures OnPlayerKicked(Some(prev), kickedId).state.value.players
            == Filter(front, NotPlayerId(kickedId)) + Filter(back, NotPlayerId(kickedId))
  {
    FilterAppend(front, back, NotPlayerId(kickedId));
  }

  /** Kicking the same player twice is the same as kicking once. */
  lemma PlayerKickedIdempotent(prev: Option<GameState>, kickedId: int)
    ensures OnPlayerKicked(OnPlayerKicked(prev, kickedId).state, kickedId).state == OnPlayerKicked(prev, kickedId).state
  {
    if prev.Some? && !(prev.value.myPlayer.Some? && prev.value.myPlayer.value.id == kickedId) {
      var kept := Filter(prev.value.players, NotPlayerId(kickedId));
      FilterAll(kept, NotPlayerId(kickedId));
    }
  }

  // ---------------------------------------------------------------------
  // player-submitted

  /** Records that a player submitted, once. */
  function OnPlayerSubmitted(prev: Option<GameState>, playerId: int): (r: Option<GameState>)
    ensures prev.None? ==> r.None?
    ensures prev.Some? ==> r.Some? && r.value == prev.value.(submittedPlayerIds := r.value.submittedPlayerIds)
    ensures prev.Some? && playerId in prev.value.submittedPlayerIds ==> r == prev
    ensures prev.Some? && playerId !in prev.value.submittedPlayerIds ==>
              r.value.submittedPlayerIds == prev.value.submittedPlayerIds + [playerId]
  {
    match prev
    case None => None
    case Some(s) =>
      if playerId in s.submittedPlayerIds then prev
      else Some(s.(submittedPlayerIds := s.submittedPlayerIds + [playerId]))
  }

  /** The submitted list never gains a duplicate, and a repeated event changes nothing. */
  lemma PlayerSubmittedNoDuplicates(prev: GameState, playerId: int)
    requires NoDuplicates(prev.submittedPlayerIds)
    ensures var r := OnPlayerSubmitted(Some(prev), playerId);
            NoDuplicates(r.value.submittedPlayerIds) &&
            playerId in r.value.submittedPlayerIds &&
            OnPlayerSubmitted(r, playerId) == r
  {
    var r := OnPlayerSubmitted(Some(prev), playerId);
    if playerId !in prev.submittedPlayerIds {
      assert r.value.submittedPlayerIds[|prev.submittedPlayerIds|] == playerId;
    }
  }

  // ---------------------------------------------------------------------
  // post-game-choice

  /** `{...prev.postGameChoices, [playerId]: choice}`; spreading an absent map gives {}. */
  function OnPostGameChoice(prev: Option<GameState>, playerId: int, choice: ChoiceView): (r: Option<GameState>)
    ensures prev.None? ==> r.None?
    ensures prev.Some? ==>
              r.Some? && r.value == prev.value.(postGameChoices := r.value.postGameChoices) &&
              r.value.postGameChoices.Some? &&
              playerId in r.value.postGameChoices.value &&
              r.value.postGameChoices.value[playerId] == choice
    ensures prev.Some? ==> forall k :: k != playerId ==>
              (k in r.value.postGameChoices.value <==> prev.value.postGameChoices.Some? && k in prev.value.postGameChoices.value)
    ensures prev.Some? && prev.value.postGameChoices.Some? ==> forall k :: k != playerId && k in prev.value.postGameChoices.value ==>
              r.value.postGameChoices.value[k] == prev.value.postGameChoices.value[k]
  {
    match prev
    case None => None
    case Some(s) =>
      var before := if s.postGameChoices.Some? then s.postGameChoices.value else map[];
      Some(s.(postGameChoices := Some(before[playerId := choice])))
  }

  /** The last choice of a player wins. */
  lemma LastChoiceWins(prev: Option<GameState>, playerId: int, first: ChoiceView, second: ChoiceView)
    ensures OnPostGameChoice(OnPostGameChoice(prev, playerId, first), playerId, second)
            == OnPostGameChoice(prev, playerId, second)
  {
    if prev.Some? {
      var m := if prev.value.postGameChoices.Some? then prev.value.postGameChoices.value else map[];
      assert m[playerId := first][playerId := second] == m[playerId := second];
    }
  }

  /** Choices of different players commute. */
  lemma ChoicesCommute(prev: Option<GameState>, a: int, ca: ChoiceView, b: int, cb: ChoiceView)
    requires a != b
    ensures OnPostGameChoice(OnPostGameChoice(prev, a, ca), b, cb)
            == OnPostGameChoice(OnPostGameChoice(prev, b, cb), a, ca)
  {
    if prev.Some? {
      var m := if prev.value.postGameChoices.Some? then prev.value.postGameChoices.value else map[];
      assert m[a := ca][b := cb] == m[b := cb][a := ca];
    }
  }

  // ---------------------------------------------------------------------
  // reveal-chain

  /** A reveal event with the fetched entries, or None when the fetch failed. */
  datatype RevealEvent = RevealEvent(chainOwnerId: int, ownerNickname: string, fetched: Option<seq<RoundEntry>>)

  /** Appends the revealed chain when its entries were fetched. */
  function OnRevealChain(prev: seq<ChainRevealData>, e: RevealEvent): (r: seq<ChainRevealData>)
    ensures e.fetched.None? ==> r == prev
    ensures e.fetched.Some? ==> r == prev + [ChainRevealData(e.chainOwnerId, e.ownerNickname, e.fetched.value)]
  {
    match e.fetched
    case None => prev
    case Some(entries) => prev + [ChainRevealData(e.chainOwnerId, e.ownerNickname, entries)]
  }

  /** The updates for a sequence of events, applied in arrival order. */
  function ApplyReveals(prev: seq<ChainRevealData>, events: seq<RevealEvent>): seq<ChainRevealData>
    decreases |events|
  {
    if events == [] then prev
    else ApplyReveals(OnRevealChain(prev, events[0]), events[1..])
  }

  function Fetched(e: RevealEvent): bool { e.fetched.Some? }

  function AsChain(e: RevealEvent): ChainRevealData
    requires e.fetched.Some?
  {
    ChainRevealData(e.chainOwnerId, e.ownerNickname, e.fetched.value)
  }

  /** The chains of the events whose fetch succeeded, in event order. */
  function Successful(events: seq<RevealEvent>): (r: seq<ChainRevealData>)
    ensures |r| <= |events|
  {
    if events == [] then []
    else if events[0].fetched.Some? then [AsChain(events[0])] + Successful(events[1..])
    else Successful(events[1..])
  }

  /** Revealed chains are the earlier ones followed by the fetched chains in
      the order their events arrived. */
  lemma {:induction false} RevealsAppendInOrder(prev: seq<ChainRevealData>, events: seq<RevealEvent>)
    ensures ApplyReveals(prev, events) == prev + Successful(events)
    decreases |events|
  {
    if events != [] {
      RevealsAppendInOrder(OnRevealChain(prev, events[0]), events[1..]);
      if events[0].fetched.Some? {
        assert OnRevealChain(prev, events[0]) + Successful(events[1..])
               == prev + ([AsChain(events[0])] + Successful(events[1..]));
      }
    }
  }

  // ---------------------------------------------------------------------
  // Fetching all chains on load

  /** All chains are fetched on load in the VOTING and RESULTS phases while none are held. */
  function ShouldFetchAllChains(state: Option<GameState>, revealed: seq<ChainRevealData>): bool {
    state.Some? && (state.value.game.status == Schema.VOTING || state.value.game.status == Schema.RESULTS) && |revealed| == 0
  }

  /** The fetch happens in exactly the two late phases with no chains held,
      and a successful reveal turns it off. */
  lemma FetchCondition(state: Option<GameState>, revealed: seq<ChainRevealData>, e: RevealEvent)
    ensures ShouldFetchAllChains(state, revealed) ==>
              state.Some? && state.value.game.status in {Schema.VOTING, Schema.RESULTS} && revealed == []
    ensures state.Some? && state.value.game.status in {Schema.VOTING, Schema.RESULTS} && revealed == [] ==>
              ShouldFetchAllChains(state, revealed)
    ensures state.None? || state.value.game.status in {Schema.LOBBY, Schema.PLAYING, Schema.REVEAL, Schema.ARCHIVED} ==>
              !ShouldFetchAllChains(state, revealed)
    ensures e.fetched.Some? ==> !ShouldFetchAllChains(state, OnRevealChain(revealed, e))
  {
  }

  // ---------------------------------------------------------------------
  // rematch-created

  /** The page a rematch sends this client to: the new game when its recorded
      choice is play-again, otherwise home. The state itself is unchanged.
      `myPlayerId ?? -1` reads the entry for -1 when the id is unknown. */
  function RematchTarget(prev: Option<GameState>, myPlayerId: Option<int>, newCode: string): (r: Outcome)
    ensures r.state == prev && r.navigateTo.Some?
    ensures var key := if myPlayerId.Some? then myPlayerId.value else -1;
            r.navigateTo.value == "/game/" + newCode <==>
              prev.Some? && prev.value.postGameChoices.Some? &&
              key in prev.value.postGameChoices.value &&
              prev.value.postGameChoices.value[key] == Some(Schema.PlayAgain)
  {
    var key := if myPlayerId.Some? then myPlayerId.value else -1;
    var mine: ChoiceView :=
      if prev.Some? && prev.value.postGameChoices.Some? && key in prev.value.postGameChoices.value
      then prev.value.postGameChoices.value[key] else None;
    if mine == Some(Schema.PlayAgain) then Outcome(prev, Some("/game/" + newCode))
    else
      assert "/"[..1] != ("/game/" + newCode)[..1] || |"/"| != |"/game/" + newCode|;
      Outcome(prev, Some("/"))
  }

  /** A player who chose to play again follows the rematch; one who chose to
      exit, or has not chosen, goes home. */
  lemma RematchFollowsChoice(prev: GameState, me: int, newCode: string)
    requires prev.postGameChoices.Some?
    ensures me in prev.postGameChoices.value && prev.postGameChoices.value[me] == Some(Schema.PlayAgain) ==>
              RematchTarget(Some(prev), Some(me), newCode).navigateTo == Some("/game/" + newCode)
    ensures !(me in prev.postGameChoices.value && prev.postGameChoices.value[me] == Some(Schema.PlayAgain)) ==>
              RematchTarget(Some(prev), Some(me), newCode).navigateTo == Some("/")
  {
  }
}
