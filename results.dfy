/**
 * The results screen: the displayed rank of each vote result, the split of
 * the players by post-game choice, and the gate on the admin's rematch button.
 */
module Results {
  import opened JsPrelude
  import Schema
  import opened Types

  // ---------------------------------------------------------------------
  // Display rank

  function SameCount(c: nat): VoteResult -> bool { (r: VoteResult) => r.voteCount == c }

  /** The rank shown for results[i]: i+1 at the top or where the count drops,
      otherwise one more than the index of the first earlier result with the
      same count (0 if there is none, which only unsorted input reaches). */
  function Rank(results: seq<VoteResult>, i: nat): (r: int)
    requires i < |results|
    ensures 0 <= r <= i + 1
    ensures 1 <= r <= i ==> results[r - 1].voteCount == results[i].voteCount
  {
    if i == 0 || results[i].voteCount < results[i - 1].voteCount then i + 1
    else FindIndex(results[..i], SameCount(results[i].voteCount)) + 1
  }

  ghost predicate Descending(results: seq<VoteResult>) {
    forall i, j :: 0 <= i < j < |results| ==> results[i].voteCount >= results[j].voteCount
  }

  /** The number of results whose count is strictly above c. */
  function CountAbove(results: seq<VoteResult>, c: nat): (n: nat)
    ensures n <= |results|
  {
    if results == [] then 0
    else CountAbove(results[..|results| - 1], c) + (if results[|results| - 1].voteCount > c then 1 else 0)
  }

  /** A prefix of results above c followed by results not above c. */
  lemma {:induction false} CountAboveSplit(s: seq<VoteResult>, c: nat, k: nat)
    requires k <= |s|
    requires forall j :: 0 <= j < k ==> s[j].voteCount > c
    requires forall j :: k <= j < |s| ==> s[j].voteCount <= c
    ensures CountAbove(s, c) == k
  {
    if s != [] {
      if k == |s| {
        CountAboveSplit(s[..|s| - 1], c, k - 1);
      } else {
        CountAboveSplit(s[..|s| - 1], c, k);
      }
    }
  }

  /** The first result is ranked 1. */
  lemma FirstRankIsOne(results: seq<VoteResult>)
    requires |results| > 0
    ensures Rank(results, 0) == 1
  {
  }

  /** On results sorted from most to fewest votes the rank is competition
      ranking: one more than the number of results with strictly more votes. */
  lemma RankIsCompetition(results: seq<VoteResult>, i: nat)
    requires Descending(results) && i < |results|
    ensures Rank(results, i) == 1 + CountAbove(results[..i], results[i].voteCount)
  {
    var c := results[i].voteCount;
    if i == 0 || c < results[i - 1].voteCount {
      CountAboveSplit(results[..i], c, i);
    } else {
      var f := FindIndex(results[..i], SameCount(c));
      assert SameCount(c)(results[..i][i - 1]);
      assert 0 <= f;
      forall j | f <= j < i ensures results[..i][j].voteCount <= c {
        assert results[f].voteCount == c;
      }
      CountAboveSplit(results[..i], c, f);
    }
  }

  /** Where the count ties with the previous result, the rank is the same. */
  lemma RankOfTie(results: seq<VoteResult>, i: nat)
    requires Descending(results) && 0 < i < |results|
    requires results[i].voteCount == results[i - 1].voteCount
    ensures Rank(results, i) == Rank(results, i - 1)
  {
    RankIsCompetition(results, i);
    RankIsCompetition(results, i - 1);
    assert results[..i][..i - 1] == results[..i - 1];
  }

  /** On sorted results, 1 <= rank <= i + 1. */
  lemma RankBounds(results: seq<VoteResult>, i: nat)
    requires Descending(results) && i < |results|
    ensures 1 <= Rank(results, i) <= i + 1
  {
    RankIsCompetition(results, i);
  }

  /** On sorted results, ranks never go down. */
  lemma {:induction false} RanksNonDecreasing(results: seq<VoteResult>, i: nat, j: nat)
    requires Descending(results) && i <= j < |results|
    ensures Rank(results, i) <= Rank(results, j)
  {
    if i < j {
      RanksNonDecreasing(results, i, j - 1);
      if results[j].voteCount == results[j - 1].voteCount {
        RankOfTie(results, j);
      } else {
        RankBounds(results, j - 1);
      }
    }
  }

  /** Counts 1, 1, 1, 0 are ranked 1, 1, 1, 4. */
  lemma ThreeWayTieExample(a: VoteResult, b: VoteResult, c: VoteResult, d: VoteResult)
    requires a.voteCount == 1 && b.voteCount == 1 && c.voteCount == 1 && d.voteCount == 0
    ensures var rs := [a, b, c, d];
            Rank(rs, 0) == 1 && Rank(rs, 1) == 1 && Rank(rs, 2) == 1 && Rank(rs, 3) == 4
  {
    var rs := [a, b, c, d];
    assert rs[..1] == [a];
    assert rs[..2] == [a, b];
  }

  /** The rank relies on sorted input: after a rise in count with no earlier
      equal count, the rank shown is 0. */
  lemma UnsortedRankIsZero(a: VoteResult, b: VoteResult)
    requires a.voteCount == 0 && b.voteCount == 1
    ensures Rank([a, b], 1) == 0
  {
    assert [a, b][..1] == [a];
  }

  // ---------------------------------------------------------------------
  // Post-game lists

  /** `postGameChoices[id]`: absent keys read as undefined, i.e. no choice. */
  function ChoiceOf(choices: map<int, ChoiceView>, id: int): ChoiceView {
    if id in choices then choices[id] else None
  }

  function ChosePlayAgain(choices: map<int, ChoiceView>): Player -> bool {
    (p: Player) => ChoiceOf(choices, p.id) == Some(Schema.PlayAgain)
  }
  function ChoseExit(choices: map<int, ChoiceView>): Player -> bool {
    (p: Player) => ChoiceOf(choices, p.id) == Some(Schema.Exit)
  }
  function Undecided(choices: map<int, ChoiceView>): Player -> bool {
    (p: Player) => ChoiceOf(choices, p.id).None?
  }

  function PlayAgainList(players: seq<Player>, choices: map<int, ChoiceView>): (r: seq<Player>)
    ensures forall i :: 0 <= i < |r| ==> r[i] in players && ChoiceOf(choices, r[i].id) == Some(Schema.PlayAgain)
    ensures forall i :: 0 <= i < |players| && ChoiceOf(choices, players[i].id) == Some(Schema.PlayAgain) ==> players[i] in r
  {
    Filter(players, ChosePlayAgain(choices))
  }
  function ExitList(players: seq<Player>, choices: map<int, ChoiceView>): (r: seq<Player>)
    ensures forall i :: 0 <= i < |r| ==> r[i] in players && ChoiceOf(choices, r[i].id) == Some(Schema.Exit)
    ensures forall i :: 0 <= i < |players| && ChoiceOf(choices, players[i].id) == Some(Schema.Exit) ==> players[i] in r
  {
    Filter(players, ChoseExit(choices))
  }
  function UndecidedList(players: seq<Player>, choices: map<int, ChoiceView>): (r: seq<Player>)
    ensures forall i :: 0 <= i < |r| ==> r[i] in players && ChoiceOf(choices, r[i].id).None?
    ensures forall i :: 0 <= i < |players| && ChoiceOf(choices, players[i].id).None? ==> players[i] in r
  {
    Filter(players, Undecided(choices))
  }

  /** Each player satisfies exactly one of the three list conditions. */
  lemma ExactlyOneList(choices: map<int, ChoiceView>, p: Player)
    ensures ChosePlayAgain(choices)(p) || ChoseExit(choices)(p) || Undecided(choices)(p)
    ensures !(ChosePlayAgain(choices)(p) && ChoseExit(choices)(p))
    ensures !(ChosePlayAgain(choices)(p) && Undecided(choices)(p))
    ensures !(ChoseExit(choices)(p) && Undecided(choices)(p))
  {
    match ChoiceOf(choices, p.id)
    case None =>
    case Some(c) => assert c == Schema.PlayAgain || c == Schema.Exit;
  }

  /** The three lists split the roster: together they hold every player
      exactly as often as the roster does. */
  lemma ListsPartitionPlayers(players: seq<Player>, choices: map<int, ChoiceView>)
    ensures multiset(PlayAgainList(players, choices)) + multiset(ExitList(players, choices))
            + multiset(UndecidedList(players, choices)) == multiset(players)
    ensures |PlayAgainList(players, choices)| + |ExitList(players, choices)|
            + |UndecidedList(players, choices)| == |players|
  {
    var a, e, u := PlayAgainList(players, choices), ExitList(players, choices), UndecidedList(players, choices);
    forall x ensures (multiset(a) + multiset(e) + multiset(u))[x] == multiset(players)[x] {
      FilterMultiset(players, ChosePlayAgain(choices), x);
      FilterMultiset(players, ChoseExit(choices), x);
      FilterMultiset(players, Undecided(choices), x);
      ExactlyOneList(choices, x);
    }
    assert multiset(a) + multiset(e) + multiset(u) == multiset(players);
    assert |multiset(a) + multiset(e) + multiset(u)| == |multiset(players)|;
  }

  /** Each list keeps the roster order: splitting the roster splits the list. */
  lemma ListsKeepOrder(front: seq<Player>, back: seq<Player>, choices: map<int, ChoiceView>)
    ensures PlayAgainList(front + back, choices) == PlayAgainList(front, choices) + PlayAgainList(back, choices)
    ensures ExitList(front + back, choices) == ExitList(front, choices) + ExitList(back, choices)
    ensures UndecidedList(front + back, choices) == UndecidedList(front, choices) + UndecidedList(back, choices)
  {
    FilterAppend(front, back, ChosePlayAgain(choices));
    FilterAppend(front, back, ChoseExit(choices));
    FilterAppend(front, back, Undecided(choices));
  }

  // ---------------------------------------------------------------------
  // Rematch gate

  /** The admin's "new game" button is disabled while a request is in flight
      or while fewer than two players chose to play again. */
  function RematchDisabled(loading: bool, players: seq<Player>, choices: map<int, ChoiceView>): bool {
    loading || |PlayAgainList(players, choices)| < 2
  }

  /** An enabled button means two different roster entries chose to play again. */
  lemma EnabledNeedsTwo(loading: bool, players: seq<Player>, choices: map<int, ChoiceView>)
    requires !RematchDisabled(loading, players, choices)
    ensures !loading
    ensures exists i, j :: 0 <= i < j < |players| &&
              ChosePlayAgain(choices)(players[i]) && ChosePlayAgain(choices)(players[j])
  {
    FilterHasTwo(players, ChosePlayAgain(choices));
  }

  /** At most one play-again player keeps the button disabled. */
  lemma OneIsNotEnough(loading: bool, players: seq<Player>, choices: map<int, ChoiceView>, k: nat)
    requires k < |players|
    requires forall i :: 0 <= i < |players| && i != k ==> !ChosePlayAgain(choices)(players[i])
    ensures RematchDisabled(loading, players, choices)
  {
    assert players == players[..k] + [players[k]] + players[k + 1..];
    FilterAppend(players[..k] + [players[k]], players[k + 1..], ChosePlayAgain(choices));
    FilterAppend(players[..k], [players[k]], ChosePlayAgain(choices));
    FilterNone(players[..k], ChosePlayAgain(choices));
    FilterNone(players[k + 1..], ChosePlayAgain(choices));
  }

  lemma {:induction false} FilterHasTwo<T>(s: seq<T>, p: T -> bool)
    requires |Filter(s, p)| >= 2
    ensures exists i, j :: 0 <= i < j < |s| && p(s[i]) && p(s[j])
  {
    if p(s[0]) {
      var t := Filter(s[1..], p);
      assert t[0] in s[1..];
      var j :| 0 <= j < |s[1..]| && s[1..][j] == t[0];
      assert s[j + 1] == t[0];
    } else {
      FilterHasTwo(s[1..], p);
      var i, j :| 0 <= i < j < |s[1..]| && p(s[1..][i]) && p(s[1..][j]);
      assert s[i + 1] == s[1..][i] && s[j + 1] == s[1..][j];
    }
  }
}
