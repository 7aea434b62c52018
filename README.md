# Gartic Phone clone: a verified model of the game core

This project models, in Dafny, the core of a party game in the style of
"Gartic Phone". Players join a room, and every player starts a chain with a
text prompt. In each round the chains rotate one place, so each player either
draws the previous text or describes the previous drawing. At the end the
chains are revealed one by one, the players vote, and they can ask for a
rematch.

The model covers:

- **Chain rotation and round types** (`game_logic.dfy`, module `GameLogic`).
  - Which chain a player works on in round r, and which player works on chain c.
  - These use JavaScript's truncating `%`, modelled as `JsPrelude.TruncRem`.
  - Rounds alternate TEXT and DRAWING.
  - Proved: both round trips, the per-round permutation, round 0 owning one's
    own chain, and strict alternation.
- **The store operations** (`queries.dfy`, module `Queries`).
  - The four tables (games, players, rounds, votes) are sequences of rows in
    insertion order, with the row types and column defaults in `schema.dfy`.
  - Reads are functions of the tables.
  - Writes are methods of the class `Store`. The store assigns ids the way
    the autoincrement columns do, and takes the clock reading as a parameter.
  - `Store.Valid` holds the table invariants: distinct primary keys below
    their counters, unique game codes, and every row's game id naming a game
    that was created.
  - Sorting (`ORDER BY`, `Array.prototype.sort`) is the stable insertion sort
    `JsPrelude.SortBy`. Its contract states a permutation, sorted order, and
    for every key the same subsequence as the input.
- **The results screen** (`results.dfy`, module `Results`): the displayed
  competition rank, the play-again / exit / undecided lists, and the gate on
  the rematch button.
- **The client game-state hook** (`use_game.dfy`, module `UseGame`). These are
  the updaters run for the broadcast events. Each maps the previous state (or
  `None` before the first fetch) to the next state plus an optional redirect.
- **The client state holders**:
  - the drawing canvas (`use_canvas.dfy`): a `Canvas` with a `Stroke` whose
    point list grows in place;
  - the toast queue (`toast.dfy`);
  - the round countdown (`use_timer.dfy`): a pure step function plus a
    `Countdown` class proved against it;
  - the mm:ss display (`timer.dfy`).

Types in `types.dfy` are the client-side shapes (game state, reveal data,
vote results).

Two behaviours of the code are worth knowing, and the model keeps both:

- **Join orders after a removal.** `addPlayer` gives the next player the
  current number of players in the game (src/lib/db/queries.ts:28-36), so
  after `removePlayer` a new player can get a join order that is still in use. `Queries.RemovalRepeatsJoinOrder`
  shows the case. `Queries.JoinKeepsContiguous` proves that without removals
  the join orders stay 0..k-1.
- **Ranking on unsorted input.** The rank expression (src/components/Results.tsx:106-112)
  assumes sorted input. `Results.UnsortedRankIsZero` shows that it displays
  rank 0 on unsorted input.

## Model

| member | source | states |
|---|---|---|
| `GameLogic.ChainOwnerForPlayerInRound` | src/lib/game-logic.ts:3-9 | for n > 0 and any join order and round (also join order < round), the chain owner lies in [0, n) and equals the mathematical (j - r) mod n, even though JavaScript's inner `%` can be negative |
| `GameLogic.PlayerForChainInRound` | src/lib/game-logic.ts:11-17 | when owner + round >= 0 the player is (c + r) mod n; for a negative sum the single JavaScript `%` can give a negative result, bounded by (-n, n) |
| `GameLogic.GetRoundType` | src/lib/game-logic.ts:19-21 | the round type is TEXT exactly when the round number is even, and DRAWING otherwise |
| `GameLogic.RemainderSignDiffers` | src/lib/game-logic.ts:8 | JavaScript's remainder of -1 by 3 is -1 while the mathematical one is 2: this is why the owner formula adds n and takes `%` again |
| `GameLogic.RoundTrip` | src/lib/game-logic.ts:8-16 | for 0 <= j < n and r >= 0, the player for the chain that player j works on in round r is j |
| `GameLogic.ReverseRoundTrip` | src/lib/game-logic.ts:8-16 | for 0 <= c < n and r >= 0, the chain that chain c's round-r player works on is c |
| `GameLogic.ContributorOfChain` | src/lib/game-logic.ts:8-16 | player j works on chain c in round r exactly when the player named for chain c in round r is j (both directions) |
| `GameLogic.ChainOwnerInjective` | src/lib/game-logic.ts:8 | two players never work on the same chain in the same round |
| `GameLogic.ContributorExists` | src/lib/game-logic.ts:8 | every chain 0..n-1 has a player who works on it in any round r, negative rounds included |
| `GameLogic.ChainOwnerPermutation` | src/lib/game-logic.ts:8 | in every round the chains worked on by players 0..n-1 are exactly the chains 0..n-1, so with injectivity each chain has exactly one contributor |
| `GameLogic.RoundZeroOwnChain` | src/lib/game-logic.ts:8 | in round 0 every player works on their own chain |
| `GameLogic.RoundTypeAlternates` | src/lib/game-logic.ts:20 | round 0 is TEXT, consecutive rounds differ in type, and the type repeats every two rounds |
| `JsPrelude.TruncRem` | src/components/Timer.tsx:5 | JavaScript's `%` by a positive divisor: the result has the sign of the dividend, lies in (-n, n), and is congruent to the dividend modulo n |
| `JsPrelude.SortBy` | src/lib/db/queries.ts:198 | the stable sort: the result is a permutation of the input, sorted by the key, and the elements with any one key keep their input order |
| `Schema.NewGame` | src/lib/db/schema.ts:3-18 | a games row inserted with only a code and round duration gets the declared defaults: status LOBBY, current round 0, no total rounds, reveal index 0 |
| `Schema.NewPlayer` | src/lib/db/schema.ts:20-37 | a players row inserted with game, nickname, join order and token is connected and has no post-game choice |
| `Queries.GameById` | src/lib/db/queries.ts:65 | the row the `games.id` filter of the updates selects: the result is a stored game with that id, and there is no result exactly when no game has that id |
| `Queries.GameByCode` | src/lib/db/queries.ts:13-20 | the result is a stored game whose code is the upper-cased argument, and there is no result exactly when no game has that code |
| `Queries.AsciiUpper` | src/lib/db/queries.ts:17 | upper-casing keeps the length, maps each ASCII lower-case letter to its capital and leaves every other character alone |
| `Queries.PlayerBySessionToken` | src/lib/db/queries.ts:41-51 | the result is a player of that game holding the token, and there is no result exactly when no such player exists |
| `Queries.PlayersForGame` | src/lib/db/queries.ts:53-59 | exactly the players of the game (same multiset), ordered by join order, with equal join orders kept in table order |
| `Queries.JoinKeepsContiguous` | src/lib/db/queries.ts:22-39 | when a game's join orders are 0..k-1, a joiner that gets the player count as join order keeps them 0..k, and the roster is the old roster followed by the joiner |
| `Queries.ContiguousIsSorted` | src/lib/db/queries.ts:53-59 | with join orders 0..k-1 in table order, the roster is the table order and the player at position i has join order i |
| `Queries.NextJoinOrder` | src/lib/db/queries.ts:28-33 | the `count()` of the game's player rows: the number of positions in the players table holding a row of that game |
| `Queries.RemovalRepeatsJoinOrder` | src/lib/db/queries.ts:28-36 | with players at join orders 0 and 1, removing the first makes the next join order 1, which the remaining player still holds |
| `Queries.RoundSubmissions` | src/lib/db/queries.ts:83-93 | the result holds exactly the stored entries of that game and round number, each as many times as the table holds it, and no other entry |
| `Queries.PreviousRoundContent` | src/lib/db/queries.ts:143-161 | nothing for round 0; otherwise nothing exactly when no entry of round r-1 exists for that game and chain, and else the content of such an entry (`LIMIT 1` is taken as the first in table order) |
| `Queries.JoinAuthors` | src/lib/db/queries.ts:119-122 | the inner join: rows whose author is not a stored player drop out, and each kept row carries its author's nickname |
| `Queries.Chain` | src/lib/db/queries.ts:109-127 | the chain is a permutation of the joined rows of that game and chain owner, sorted by round number, with equal round numbers kept in table order |
| `Queries.ChainEntriesFromRows` | src/lib/db/queries.ts:109-127 | every chain entry has that chain owner and comes from a stored row of that game whose author exists, and carries that author's nickname |
| `Queries.ChainHasEveryAuthoredRow` | src/lib/db/queries.ts:109-127 | every stored row of that game and chain whose author exists appears in the chain |
| `Queries.CollectReveals` | src/lib/db/queries.ts:132-139 | the loop yields one reveal record per roster player, in roster order |
| `Queries.RevealFor` | src/lib/db/queries.ts:133-138 | the record pushed for one roster player; its meaning is stated by `Queries.CollectReveals` and `Queries.Store.AllChains` |
| `Queries.VoterName` | src/lib/db/queries.ts:186-189 | a voter id with no roster player gives "Unknown"; otherwise the nickname of the first roster player with that id |
| `Queries.VoterNames` | src/lib/db/queries.ts:186-189 | one name per vote, in vote order, each the voter's name as above |
| `Queries.ResultFor` | src/lib/db/queries.ts:182-196 | a player's record carries their id and nickname, and the vote count equals both the number of votes naming them and the number of voter names |
| `Queries.Tally` | src/lib/db/queries.ts:182-196 | one record per roster player, in roster order |
| `Queries.GameTally` | src/lib/db/queries.ts:175-196 | the unsorted per-player records over the game's votes; `Queries.Tally`, `Queries.VoteResults` and `Queries.VoteResultsCoverRoster` state what they hold |
| `Queries.VoteResults` | src/lib/db/queries.ts:175-199 | one record per player of the game (a permutation of the per-player tally), sorted from most to fewest votes, with equal counts kept in join order |
| `Queries.VoteResultsCoverRoster` | src/lib/db/queries.ts:182-196 | every player of the game has a record with their id and nickname, counting the game's votes that name them |
| `Queries.VoteTotal` | src/lib/db/queries.ts:175-199 | when player ids are distinct, the vote counts add up to the number of the game's votes whose chain owner is a player of the game |
| `Queries.RosterKeysDistinct` | src/lib/db/queries.ts:53-59 | distinct player ids in the table (part of `Store.Valid`) give a roster with distinct ids |
| `Queries.VoteTotalInStore` | src/lib/db/queries.ts:175-199 | for the players table of a valid store, the vote counts add up to the number of the game's votes whose chain owner is a player of the game |
| `Queries.ActiveGames` | src/lib/db/queries.ts:236-244 | exactly the stored games not in RESULTS or ARCHIVED, each as many times as the table holds it, oldest first |
| `Queries.AllGames` | src/lib/db/queries.ts:246-251 | every stored game (a permutation of the table), oldest first |
| `Queries.HasPlayerVoted` | src/lib/db/queries.ts:209-216 | true exactly when a vote of that game by that player exists |
| `Queries.VoteCount` | src/lib/db/queries.ts:201-207 | the `count()` of the game's vote rows: the number of positions in the votes table holding a vote of that game |
| `Queries.VoteCountAfterCast` | src/lib/db/queries.ts:163-173 | casting a vote raises the count of its own game by one and leaves every other game's count alone |
| `Queries.VoteCountAfterDelete` | src/lib/db/queries.ts:229-230 | after a game's votes are deleted its count is 0, and every other game's count is unchanged |
| `Queries.PlayAgainPlayers` | src/lib/db/queries.ts:274-283 | exactly the old game's players whose choice is play-again (same multiset), ordered by join order |
| `Queries.RematchRows` | src/lib/db/queries.ts:285-293 | the i-th carried player becomes a row of the new game with join order i, the same nickname and session token, and the column defaults |
| `Queries.RematchRoster` | src/lib/db/queries.ts:263-301 | when the new game has no players yet, after the inserts its roster is exactly the inserted rows, with join orders 0..k-1 |
| `Queries.LookupAfterUpdate` | src/lib/db/queries.ts:62-65 | after an update by id, a lookup of that id gives the updated game and a lookup of any other id gives what it gave before |
| `Queries.DeleteKeepsOtherRosters` | src/lib/db/queries.ts:229-234 | deleting one game's players leaves every other game's roster, ordered or not, exactly as it was |
| `Queries.Store.constructor` | src/lib/db/schema.ts:3-4 | empty tables, with every autoincrement counter at 1 |
| `Queries.Store.InsertGame` | src/lib/db/queries.ts:6-10 | appends a new games row with the next id and the defaults, keeping the store invariant |
| `Queries.Store.CreateGame` | src/lib/db/queries.ts:5-11 | with a fresh code, appends a lobby game with the next id; with a code in use, the unique constraint rejects it and nothing changes |
| `Queries.Store.InsertPlayer` | src/lib/db/queries.ts:34-38 | appends one players row with the next id and changes no other table |
| `Queries.Store.AddPlayer` | src/lib/db/queries.ts:22-39 | appends a player whose join order is the number of players the game already had; contiguous join orders stay contiguous |
| `Queries.Store.UpdateGame` | src/lib/db/queries.ts:62-65 | applies an update to the rows with the given id only; lookups of other ids are unchanged |
| `Queries.Store.StartGame` | src/lib/db/queries.ts:61-66 | the game with that id becomes PLAYING with current round 0 and the given round count; every other row is unchanged |
| `Queries.Store.AdvanceRound` | src/lib/db/queries.ts:95-100 | only the current round of that game changes |
| `Queries.Store.SetGameStatus` | src/lib/db/queries.ts:102-107 | only the status of that game changes |
| `Queries.Store.AdvanceReveal` | src/lib/db/queries.ts:218-223 | the reveal index of that game goes up by exactly one; nothing else changes |
| `Queries.Store.SubmitRoundEntry` | src/lib/db/queries.ts:68-81 | appends one round entry with the next id and the given fields |
| `Queries.Store.CastVote` | src/lib/db/queries.ts:163-173 | appends one vote with the next id and the given fields |
| `Queries.Store.RemovePlayer` | src/lib/db/queries.ts:225-227 | deletes exactly the player rows with that id and keeps the rest in order |
| `Queries.Store.DeleteVotesOf` | src/lib/db/queries.ts:230 | deletes exactly the game's votes |
| `Queries.Store.DeleteRoundsOf` | src/lib/db/queries.ts:231 | deletes exactly the game's round entries |
| `Queries.Store.DeletePlayersOf` | src/lib/db/queries.ts:232 | deletes exactly the game's players; every other game's roster is unchanged |
| `Queries.Store.DeleteGameRow` | src/lib/db/queries.ts:233 | deletes exactly the game row |
| `Queries.Store.DeleteGame` | src/lib/db/queries.ts:229-234 | no vote, round, player or game row of that game remains, every row of other games is kept in order, and the store invariant holds |
| `Queries.Store.SetPostGameChoice` | src/lib/db/queries.ts:253-261 | only the player rows with that id get the choice |
| `Queries.Store.CopyPlayers` | src/lib/db/queries.ts:285-293 | the loop appends exactly the rematch rows, one per carried player, with consecutive new ids |
| `Queries.Store.CreateRematchGame` | src/lib/db/queries.ts:263-301 | inserts a lobby game with the new code; the new game's roster is exactly the old game's play-again players in join order, renumbered 0..k-1 with nickname and token kept; the old game becomes ARCHIVED; a code in use changes nothing |
| `Queries.Store.AllChains` | src/lib/db/queries.ts:129-141 | one record per player of the game, in join order, holding that player's id, nickname and chain |
| `Results.Rank` | src/components/Results.tsx:106-112 | the rank lies in 0..i+1, and a rank r in 1..i names an earlier result (index r-1) with the same count; `Results.RankIsCompetition` states the ranking on sorted input |
| `Results.FirstRankIsOne` | src/components/Results.tsx:107-108 | the first result is ranked 1 |
| `Results.RankIsCompetition` | src/components/Results.tsx:106-112 | on results sorted by count from most to fewest, the rank at i is one more than the number of earlier results with strictly more votes |
| `Results.RankOfTie` | src/components/Results.tsx:106-112 | on sorted results, a result tied with the one before it has the same rank |
| `Results.RankBounds` | src/components/Results.tsx:106-112 | on sorted results, 1 <= rank <= i + 1 |
| `Results.RanksNonDecreasing` | src/components/Results.tsx:106-112 | on sorted results, ranks never go down |
| `Results.ThreeWayTieExample` | src/components/Results.tsx:106-112 | counts 1, 1, 1, 0 are ranked 1, 1, 1, 4 |
| `Results.UnsortedRankIsZero` | src/components/Results.tsx:109-112 | on unsorted input (counts 0 then 1) the second rank is 0 |
| `Results.PlayAgainList` | src/components/Results.tsx:29-31 | the roster players whose recorded choice is play-again, and all of them |
| `Results.ExitList` | src/components/Results.tsx:32-34 | the roster players whose recorded choice is exit, and all of them |
| `Results.UndecidedList` | src/components/Results.tsx:35-37 | the roster players with no recorded choice, and all of them |
| `Results.ExactlyOneList` | src/components/Results.tsx:29-37 | every player meets exactly one of the play-again, exit and undecided conditions |
| `Results.ListsPartitionPlayers` | src/components/Results.tsx:29-37 | the three lists together hold every player exactly as often as the roster does |
| `Results.ListsKeepOrder` | src/components/Results.tsx:29-37 | each list keeps roster order: the list of a concatenation is the concatenation of the lists |
| `Results.RematchDisabled` | src/components/Results.tsx:186 | the button gate; `Results.EnabledNeedsTwo` and `Results.OneIsNotEnough` state when it is on |
| `Results.EnabledNeedsTwo` | src/components/Results.tsx:186 | an enabled rematch button means no request is in flight and two different roster entries chose play-again |
| `Results.OneIsNotEnough` | src/components/Results.tsx:186 | with at most one play-again player the button is disabled |
| `UseGame.OnPlayerJoined` | src/hooks/useGame.ts:88-92 | no state stays no state; a listed id leaves the state unchanged; otherwise the player is appended at the end |
| `UseGame.PlayerJoinedKeepsIdsDistinct` | src/hooks/useGame.ts:88-92 | with distinct player ids before, they stay distinct, the joined id is listed, and a repeated event changes nothing |
| `UseGame.OnPlayerKicked` | src/hooks/useGame.ts:95-106 | kicking this client's own player keeps the state and redirects to "/?kicked=1"; otherwise exactly the players with that id are removed and everything else in the state is kept |
| `UseGame.PlayerKickedKeepsOrder` | src/hooks/useGame.ts:102-105 | the remaining players keep their order: kicking from a concatenation concatenates the kicks |
| `UseGame.PlayerKickedIdempotent` | src/hooks/useGame.ts:95-106 | kicking the same player twice gives the same state as kicking once |
| `UseGame.OnPlayerSubmitted` | src/hooks/useGame.ts:122-133 | only the submitted list changes: a listed id changes nothing, otherwise it is appended |
| `UseGame.PlayerSubmittedNoDuplicates` | src/hooks/useGame.ts:122-133 | the submitted list never gains a duplicate, contains the id afterwards, and a repeated event changes nothing |
| `UseGame.OnPostGameChoice` | src/hooks/useGame.ts:177-186 | the player's entry becomes the choice (an absent map starts empty); other entries and the rest of the state are kept |
| `UseGame.LastChoiceWins` | src/hooks/useGame.ts:177-186 | two choices by one player leave the state the second alone leaves |
| `UseGame.ChoicesCommute` | src/hooks/useGame.ts:177-186 | choices by different players commute |
| `UseGame.OnRevealChain` | src/hooks/useGame.ts:149-158 | a fetched chain is appended at the end; a failed fetch changes nothing |
| `UseGame.RevealsAppendInOrder` | src/hooks/useGame.ts:141-164 | a sequence of reveal events leaves the earlier chains followed by the fetched chains in arrival order |
| `UseGame.ShouldFetchAllChains` | src/hooks/useGame.ts:59-63 | the condition the fetch effect evaluates; `UseGame.FetchCondition` states its consequences |
| `UseGame.FetchCondition` | src/hooks/useGame.ts:59-63 | the condition the effect evaluates whenever the status or code changes holds exactly in VOTING and RESULTS with no chains held; a successful reveal turns it off |
| `UseGame.RematchTarget` | src/hooks/useGame.ts:194-208 | the state is kept; the redirect goes to "/game/" + code exactly when the recorded choice for this player (key -1 when unknown) is play-again, and home otherwise |
| `UseGame.RematchFollowsChoice` | src/hooks/useGame.ts:196-205 | a player who chose play-again follows the rematch; one who chose exit or nothing goes home |
| `UseCanvas.DropLast` | src/hooks/useCanvas.ts:133 | `slice(0, -1)`: all but the last element, and empty for empty |
| `UseCanvas.UndoAfterFinish` | src/hooks/useCanvas.ts:123-133 | undo right after finishing a stroke gives back the strokes from before |
| `UseCanvas.Stroke.constructor` | src/hooks/useCanvas.ts:82 | a new stroke holds exactly the pressed point, with the given color and width |
| `UseCanvas.Stroke.Push` | src/hooks/useCanvas.ts:102 | the point is appended to the stroke in place |
| `UseCanvas.Canvas.constructor` | src/hooks/useCanvas.ts:40-44 | no strokes, not drawing, color "#000000", brush size 4 |
| `UseCanvas.Canvas.SetColor` | src/hooks/useCanvas.ts:43 | only the color changes |
| `UseCanvas.Canvas.SetBrushSize` | src/hooks/useCanvas.ts:44 | only the brush size changes |
| `UseCanvas.Canvas.PointerDown` | src/hooks/useCanvas.ts:78-95 | a fresh current stroke with exactly the pressed point, in the current color and brush size, and drawing is on; finished strokes are kept |
| `UseCanvas.Canvas.PointerMove` | src/hooks/useCanvas.ts:97-102 | while drawing, the point is appended to the current stroke; otherwise nothing changes; finished strokes keep their points |
| `UseCanvas.Canvas.PointerUp` | src/hooks/useCanvas.ts:123-130 | the stroke in progress, if any, is appended to the finished strokes; then nothing is in progress and drawing is off |
| `UseCanvas.Canvas.Undo` | src/hooks/useCanvas.ts:132-134 | drops exactly the last finished stroke; an empty list stays empty |
| `UseCanvas.Canvas.Clear` | src/hooks/useCanvas.ts:136-138 | no finished strokes remain; the stroke in progress is kept |
| `UseCanvas.Canvas.HasStrokes` | src/hooks/useCanvas.ts:156 | true exactly when there is a finished stroke |
| `Toast.MarkedLeaving` | src/components/Toast.tsx:20-22 | only the toasts with that id are marked leaving; all others are unchanged |
| `Toast.Without` | src/components/Toast.tsx:24 | exactly the toasts with that id are removed |
| `Toast.MarkingKeepsIds` | src/components/Toast.tsx:20-22 | marking keeps the ids increasing |
| `Toast.RemovalKeepsIdsIncreasing` | src/components/Toast.tsx:24 | removal keeps the remaining toasts in order, so the ids stay increasing |
| `Toast.RemovingAbsentId` | src/components/Toast.tsx:24 | removing an id no toast has changes nothing |
| `Toast.ToastLifecycle` | src/components/Toast.tsx:15-27 | a toast with a fresh id that is shown, marked and removed leaves the list as it was before it was shown |
| `Toast.ToastQueue.constructor` | src/components/Toast.tsx:12-13 | no toasts, and the id counter at 0 |
| `Toast.ToastQueue.Show` | src/components/Toast.tsx:15-17 | takes the counter as the id and bumps it, appends the toast not leaving, and the id is above every earlier id |
| `Toast.ToastQueue.MarkLeaving` | src/components/Toast.tsx:19-22 | marks the toast with that id as leaving and keeps ids increasing and below the counter |
| `Toast.ToastQueue.Remove` | src/components/Toast.tsx:23-25 | removes the toast with that id and keeps ids increasing and below the counter |
| `UseTimer.Settle` | src/hooks/useTimer.ts:20-27 | a running timer at or below zero stops and fires the callback; in every other state nothing changes and nothing fires |
| `UseTimer.Tick` | src/hooks/useTimer.ts:29-31 | while running with time left, one second comes off; otherwise there is no interval and nothing changes |
| `UseTimer.Second` | src/hooks/useTimer.ts:20-31 | a stopped timer is unchanged; above one second one second comes off without firing; at one second the timer reaches 0, stops and fires; at or below zero it stops and fires |
| `UseTimer.Started` | src/hooks/useTimer.ts:11-27 | after `start` the seconds left are the duration; the timer runs when the duration is positive and otherwise stops and fires at once |
| `UseTimer.Stopped` | src/hooks/useTimer.ts:16-18 | stopping turns the timer off and keeps the seconds left |
| `UseTimer.StoppedStaysStopped` | src/hooks/useTimer.ts:20-21 | a stopped timer never changes and never fires |
| `UseTimer.CountsDown` | src/hooks/useTimer.ts:20-31 | running with d seconds left, the next k < d seconds count down to d - k without firing |
| `UseTimer.ExpiresAfterDuration` | src/hooks/useTimer.ts:11-31 | started with d > 0 seconds, the timer is still running after d - 1 seconds, stops at zero after exactly d seconds having fired once, and stays that way |
| `UseTimer.StartAtZeroFires` | src/hooks/useTimer.ts:11-27 | a start with no time left fires at once and stops |
| `UseTimer.Countdown.constructor` | src/hooks/useTimer.ts:5-7 | seconds left start at the duration, not running, no expiry yet |
| `UseTimer.Countdown.Start` | src/hooks/useTimer.ts:11-14 | resets to the duration and runs, then the effect's check runs; the expiry count follows `Started` |
| `UseTimer.Countdown.Stop` | src/hooks/useTimer.ts:16-18 | the new state is `Stopped` of the old one, with no expiry |
| `UseTimer.Countdown.Check` | src/hooks/useTimer.ts:20-27 | the new state and the expiry count follow `Settle` |
| `UseTimer.Countdown.OnSecond` | src/hooks/useTimer.ts:29-31 | one interval tick followed by the effect's check: the new state and the expiry count follow `Tick` then `Settle` |
| `Timer.Minutes` | src/components/Timer.tsx:4 | `Math.floor(s / 60)`: the whole m with m * 60 <= s < m * 60 + 60 |
| `Timer.Seconds` | src/components/Timer.tsx:5 | JavaScript's `s % 60`: in [0, 60) for a non-negative count, in (-60, 0] for a negative one, and congruent to the count modulo 60 |
| `Timer.IsLow` | src/components/Timer.tsx:6 | the low warning; `Timer.CriticalIsLow` and `Timer.ZeroDisplay` state its relation to the critical one |
| `Timer.IsCritical` | src/components/Timer.tsx:7 | the critical warning; `Timer.CriticalIsLow` states that it implies the low one |
| `Timer.MinutesSecondsSplit` | src/components/Timer.tsx:4-5 | for a non-negative count, minutes * 60 + seconds is the count, minutes >= 0 and 0 <= seconds < 60 |
| `Timer.NegativeSeconds` | src/components/Timer.tsx:4-5 | at -5 the minutes are -1 and the seconds -5, as JavaScript's `%` gives |
| `Timer.CriticalIsLow` | src/components/Timer.tsx:6-7 | critical implies low, and 6 seconds is low but not critical |
| `Timer.NatToString` | src/components/Timer.tsx:19 | `toString` of a non-negative number is a non-empty string of digits, one digit long exactly below 10 |
| `Timer.NatToStringRoundTrip` | src/components/Timer.tsx:19 | reading the digits back gives the number |
| `Timer.PadStart` | src/components/Timer.tsx:19 | `padStart`: the result is as long as the width (or the input if longer), ends with the input and starts with zeros |
| `Timer.Display` | src/components/Timer.tsx:19 | the displayed text; `Timer.DisplayFields` and `Timer.ZeroDisplay` state what it holds |
| `Timer.DisplayFields` | src/components/Timer.tsx:19 | for a non-negative count the display is minutes ":" seconds, the seconds field is exactly two digits, and reading both fields back gives the count |
| `Timer.ZeroDisplay` | src/components/Timer.tsx:4-19 | at zero both warnings are on and the display is "0:00" |

## Left out

- The database itself is not modelled: the SQL, the async calls and the connection setup. The tables are sequences and the queries are functions and methods over them.
- Concurrent requests are not modelled, including the count-then-insert race in `addPlayer`. Every operation runs alone.
- Timestamps are not clock readings. `created_at` and `submitted_at` are natural numbers passed in as `now`, ordered like the ISO strings they stand for.
- Foreign keys are not enforced. The store does not stop a round or vote row from naming a player that does not exist. `Chain` models the inner join that drops such rows.
- Queries.Store.AddPlayer: requires that the game id names a stored game. The column references `games.id`, and every caller passes the id of a game it just read. A missing game is therefore not modelled as an error. `SubmitRoundEntry` and `CastVote` make the same assumption.
- Tie order in `ORDER BY` is stable table order. SQL leaves rows with equal sort keys in an unspecified order.
- Queries.PreviousRoundContent: `LIMIT 1` without `ORDER BY` returns some matching row in SQL; the model returns the first one in table order. With one entry per chain and round, which the game flow produces, there is only one.
- Queries.GameByCode: `LIMIT 1` is taken as the first matching row in table order. Codes are unique in a valid store, so at most one row matches.
- Queries.PlayerBySessionToken: `LIMIT 1` is taken as the first matching row in table order. SQL would return some matching row.
- Queries.AsciiUpper: upper-cases only ASCII letters. Room codes are ASCII; full Unicode case mapping is not modelled.
- JavaScript numbers are unbounded integers. Floating point, `NaN` and precision loss are not modelled.
- `Math.floor` on a non-integer is not modelled, because the count of seconds is always an integer.
- UseGame.RematchTarget: does not model the session-token copy in local storage before the redirect. Browser storage is outside the model.
- The fetch behind a reveal event is an input (`RevealEvent.fetched`). Network calls are outside the model.
- The all-chains fetch and how its result replaces the revealed list are not modelled. Only the condition that starts the fetch is.
- Other hook bits are not modelled: the event subscription effect, `fetchState`, the `game-started`, `round-started`, `phase-changed`, `results` and `game-ended` handlers, and the pub/sub transport. These are I/O and re-fetching.
- The server route handlers and the guards they apply are not modelled, nor are admin authentication, sessions and the random room codes and tokens. The store takes codes and tokens as inputs.
- Timers are explicit steps, not real time: `setTimeout` and `setInterval` are calls to `Tick`, `MarkLeaving` and `Remove`.
- The expiry callback `onExpire` is counted, not executed. The case where a stale interval fires after `stop` cannot happen, because the interval is cleared whenever the effect re-runs.
- Canvas rendering is not modelled: drawing, coordinate scaling and `toDataURL`. Points are abstract coordinates.
- UseCanvas.Canvas.PointerUp: the source's check that the stroke has at least one point always holds under `Valid`, because every stroke starts with its pressed point.
- Presentation components and pages are not modelled, beyond the rank, list and button-gate expressions of the results screen.
