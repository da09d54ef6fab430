/**
 * components/PlayerManagement.tsx: adding and removing players and writing a
 * stroke count into a player's score list. The new roster values are pure
 * functions; the component replaces the `players` atom with them.
 */
module PlayerManagement {
  import opened Wrappers
  import opened Seqs
  import opened JsBuiltins
  import opened Atoms

  // ---------------------------------------------------------------- score lists

  /** `scores[i] || 0`, reading past the end (or at a negative index) as 0. */
  function ScoreAt(scores: seq<Option<int>>, i: int): int {
    if 0 <= i < |scores| then ScoreValue(scores[i]) else 0
  }

  /** `n` array holes. */
  function Holes(n: nat): (r: seq<Option<int>>)
    ensures |r| == n && forall i :: 0 <= i < n ==> r[i] == None
  {
    seq(n, _ => None)
  }

  /**
   * `const s = [...scores]; s[holeIndex] = strokes`: writing past the end
   * lengthens the array and leaves holes in between; a negative index names
   * no array element, so the list stays as it was.
   */
  function WriteScore(scores: seq<Option<int>>, holeIndex: int, strokes: int): (r: seq<Option<int>>)
    ensures holeIndex < 0 ==> r == scores
    ensures holeIndex >= 0 ==> |r| == (if holeIndex < |scores| then |scores| else holeIndex + 1)
    ensures holeIndex >= 0 ==> r[holeIndex] == Some(strokes)
    ensures forall i :: 0 <= i < |r| && i != holeIndex ==> r[i] == if i < |scores| then scores[i] else None
  {
    if holeIndex < 0 then scores
    else if holeIndex < |scores| then scores[holeIndex := Some(strokes)]
    else scores + Holes(holeIndex - |scores|) + [Some(strokes)]
  }

  lemma {:induction false} SumAppend(a: seq<Option<int>>, b: seq<Option<int>>)
    ensures SumScores(a + b) == SumScores(a) + SumScores(b)
  {
    if |a| == 0 {
      assert a + b == b;
    } else {
      SumAppend(a[1..], b);
      assert (a + b)[1..] == a[1..] + b;
    }
  }

  lemma {:induction false} SumOfHoles(n: nat)
    ensures SumScores(Holes(n)) == 0
  {
    if n > 0 {
      SumOfHoles(n - 1);
      assert Holes(n)[1..] == Holes(n - 1);
    }
  }

  lemma {:induction false} SumAfterUpdate(scores: seq<Option<int>>, i: nat, strokes: int)
    requires i < |scores|
    ensures SumScores(scores[i := Some(strokes)]) == SumScores(scores) - ScoreValue(scores[i]) + strokes
  {
    if i > 0 {
      SumAfterUpdate(scores[1..], i - 1, strokes);
      assert scores[i := Some(strokes)][1..] == scores[1..][i - 1 := Some(strokes)];
    }
  }

  /** Writing `strokes` at an index replaces that index's contribution to the sum. */
  lemma SumAfterWrite(scores: seq<Option<int>>, holeIndex: int, strokes: int)
    ensures SumScores(WriteScore(scores, holeIndex, strokes))
         == SumScores(scores) - ScoreAt(scores, holeIndex) + (if holeIndex >= 0 then strokes else 0)
  {
    if 0 <= holeIndex < |scores| {
      SumAfterUpdate(scores, holeIndex, strokes);
    } else if holeIndex >= |scores| {
      var holes := Holes(holeIndex - |scores|);
      SumAppend(scores + holes, [Some(strokes)]);
      SumAppend(scores, holes);
      SumOfHoles(holeIndex - |scores|);
      assert SumScores([Some(strokes)]) == strokes;
    }
  }

  /** Writes at two different indices commute. */
  lemma WritesCommute(scores: seq<Option<int>>, i: int, a: int, j: int, b: int)
    requires i != j
    ensures WriteScore(WriteScore(scores, i, a), j, b) == WriteScore(WriteScore(scores, j, b), i, a)
  {
  }

  /** A second write at the same index overrides the first. */
  lemma LastWriteWins(scores: seq<Option<int>>, i: int, a: int, b: int)
    ensures WriteScore(WriteScore(scores, i, a), i, b) == WriteScore(scores, i, b)
  {
  }

  // ---------------------------------------------------------------- players

  /** The player with `strokes` written at `holeIndex` and the total recomputed from the list. */
  function Rescore(p: Player, holeIndex: int, strokes: int): Player {
    var scores := WriteScore(p.scores, holeIndex, strokes);
    p.(scores := scores, totalStrokes := SumScores(scores))
  }

  /**
   * After a rewrite the player keeps id and name, the total is the sum of the new
   * list, and, if the old total was consistent, it moved by the new strokes minus the old score.
   */
  lemma RescoreTotal(p: Player, holeIndex: int, strokes: int)
    ensures var q := Rescore(p, holeIndex, strokes);
            && q.id == p.id && q.name == p.name
            && q.totalStrokes == SumScores(q.scores)
            && (p.totalStrokes == SumScores(p.scores) ==>
                  q.totalStrokes == p.totalStrokes - ScoreAt(p.scores, holeIndex) + (if holeIndex >= 0 then strokes else 0))
  {
    SumAfterWrite(p.scores, holeIndex, strokes);
  }

  /** `players.map(p => p.id === playerId ? rescored p : p)`. */
  function UpdatedRoster(players: seq<Player>, playerId: string, holeIndex: int, strokes: int): (r: seq<Player>)
    ensures |r| == |players|
    ensures forall i :: 0 <= i < |players| ==>
              r[i] == if players[i].id == playerId then Rescore(players[i], holeIndex, strokes) else players[i]
  {
    seq(|players|, i requires 0 <= i < |players| =>
      if players[i].id == playerId then Rescore(players[i], holeIndex, strokes) else players[i])
  }

  /**
   * A score update keeps every total equal to the sum of its list, changes
   * nobody but the matching players, and leaves the roster alone for an unknown id.
   */
  lemma UpdateKeepsTotalsConsistent(players: seq<Player>, playerId: string, holeIndex: int, strokes: int)
    ensures TotalsConsistent(players) ==> TotalsConsistent(UpdatedRoster(players, playerId, holeIndex, strokes))
    ensures forall i :: 0 <= i < |players| && players[i].id == playerId ==>
              UpdatedRoster(players, playerId, holeIndex, strokes)[i].totalStrokes
                == SumScores(UpdatedRoster(players, playerId, holeIndex, strokes)[i].scores)
    ensures (forall i :: 0 <= i < |players| ==> players[i].id != playerId) ==>
              UpdatedRoster(players, playerId, holeIndex, strokes) == players
  {
  }

  /** The player `addPlayer` creates: trimmed name, no scores, total 0. */
  function NewPlayer(id: string, name: string): (p: Player)
    ensures p.scores == [] && p.totalStrokes == 0 && p.name == Trim(name)
  {
    Player(id, Trim(name), [], 0)
  }

  /** `addPlayer`'s new roster: unchanged for a blank name, else the new player appended. */
  function AddedRoster(players: seq<Player>, name: string, freshId: string): (r: seq<Player>)
    ensures Trim(name) == "" ==> r == players
    ensures Trim(name) != "" ==> |r| == |players| + 1 && r[..|players|] == players && r[|players|] == NewPlayer(freshId, name)
  {
    if Trim(name) == "" then players else players + [NewPlayer(freshId, name)]
  }

  /** A name made only of whitespace is refused; an accepted name is non-empty and trimmed. */
  lemma AddRefusesBlankNames(players: seq<Player>, name: string, freshId: string)
    ensures AddedRoster(players, name, freshId) == players <==> forall i :: 0 <= i < |name| ==> IsWhitespace(name[i])
    ensures |AddedRoster(players, name, freshId)| > |players| ==>
              var p := AddedRoster(players, name, freshId)[|players|];
              p.name != "" && !IsWhitespace(p.name[0]) && !IsWhitespace(p.name[|p.name| - 1])
    ensures TotalsConsistent(players) ==> TotalsConsistent(AddedRoster(players, name, freshId))
  {
    UnchangedIffBlank(players, name, freshId);
    TrimEmptyIff(name);
    if Trim(name) != "" {
      AddedNameIsTrimmed(players, name, freshId);
      AppendKeepsConsistent(players, NewPlayer(freshId, name));
    }
  }

  /** The roster is left alone exactly when the trimmed name is empty. */
  lemma UnchangedIffBlank(players: seq<Player>, name: string, freshId: string)
    ensures AddedRoster(players, name, freshId) == players <==> Trim(name) == ""
  {
    if Trim(name) != "" {
      assert |AddedRoster(players, name, freshId)| == |players| + 1;
    }
  }

  /** An added player's name has no whitespace at either end. */
  lemma AddedNameIsTrimmed(players: seq<Player>, name: string, freshId: string)
    requires Trim(name) != ""
    ensures var p := AddedRoster(players, name, freshId)[|players|];
            p.name != "" && !IsWhitespace(p.name[0]) && !IsWhitespace(p.name[|p.name| - 1])
  {
    TrimIsCore(name);
  }

  /** Appending a player whose total is the sum of an empty list keeps totals consistent. */
  lemma AppendKeepsConsistent(players: seq<Player>, p: Player)
    requires p.scores == [] && p.totalStrokes == 0
    ensures TotalsConsistent(players) ==> TotalsConsistent(players + [p])
  {
    var r := players + [p];
    forall k | 0 <= k < |r| && TotalsConsistent(players) ensures r[k].totalStrokes == SumScores(r[k].scores) {
      if k < |players| {
        assert r[k] == players[k];
      }
    }
  }

  /** The test `p => p.id !== playerId`. */
  function IdIsNot(playerId: string): Player -> bool {
    (p: Player) => p.id != playerId
  }

  /** `removePlayer`'s new roster: `players.filter(p => p.id !== playerId)`. */
  function RemoveById(players: seq<Player>, playerId: string): seq<Player> {
    Filter(players, IdIsNot(playerId))
  }

  /**
   * Removal drops every player with the id, keeps every copy of every other
   * player in roster order, is a no-op for an absent id, and is idempotent.
   */
  lemma RemoveByIdSpec(players: seq<Player>, playerId: string)
    ensures forall p :: p in RemoveById(players, playerId) ==> p in players && p.id != playerId
    ensures forall i :: 0 <= i < |players| && players[i].id != playerId ==> players[i] in RemoveById(players, playerId)
    ensures IsSubsequence(RemoveById(players, playerId), players)
    ensures (forall i :: 0 <= i < |players| ==> players[i].id != playerId) ==> RemoveById(players, playerId) == players
    ensures RemoveById(RemoveById(players, playerId), playerId) == RemoveById(players, playerId)
    ensures TotalsConsistent(players) ==> TotalsConsistent(RemoveById(players, playerId))
    ensures forall p :: multiset(RemoveById(players, playerId))[p] == if p.id != playerId then multiset(players)[p] else 0
  {
    RemovedAreOthers(players, playerId);
    FilterMultiplicities(players, IdIsNot(playerId));
    FilterIsSubsequence(players, IdIsNot(playerId));
    FilterIdempotent(players, IdIsNot(playerId));
    RemoveAbsentIsNoOp(players, playerId);
    FilterKeepsConsistent(players, IdIsNot(playerId));
  }

  /** What removal keeps comes from the roster and has another id. */
  lemma RemovedAreOthers(players: seq<Player>, playerId: string)
    ensures forall p :: p in RemoveById(players, playerId) ==> p in players && p.id != playerId
  {
    var r := RemoveById(players, playerId);
    forall p | p in r ensures p in players && p.id != playerId {
      var k :| 0 <= k < |r| && r[k] == p;
    }
  }

  /** Removing an id nobody has changes nothing. */
  lemma RemoveAbsentIsNoOp(players: seq<Player>, playerId: string)
    ensures (forall i :: 0 <= i < |players| ==> players[i].id != playerId) ==> RemoveById(players, playerId) == players
  {
    if forall i :: 0 <= i < |players| ==> players[i].id != playerId {
      FilterKeepsAll(players, IdIsNot(playerId));
    }
  }

  /** Dropping players keeps the remaining totals consistent. */
  lemma FilterKeepsConsistent(players: seq<Player>, keep: Player -> bool)
    ensures TotalsConsistent(players) ==> TotalsConsistent(Filter(players, keep))
  {
    var r := Filter(players, keep);
    if TotalsConsistent(players) {
      forall k | 0 <= k < |r| ensures r[k].totalStrokes == SumScores(r[k].scores) {
        var i :| 0 <= i < |players| && players[i] == r[k];
      }
    }
  }

  /** The component: the `players` atom and the text of the name input. */
  class PlayerManagement {
    const store: Store
    var newPlayerName: string

    constructor (store: Store)
      ensures this.store == store && newPlayerName == ""
    {
      this.store := store;
      newPlayerName := "";
    }

    /** The name input's `onChange`. */
    method EditName(value: string)
      modifies this`newPlayerName
      ensures newPlayerName == value
    {
      newPlayerName := value;
    }

    /**
     * `addPlayer`: a blank (after trimming) name changes nothing; otherwise one
     * player with the trimmed name, no scores and total 0 is appended and the
     * input is cleared. `freshId` stands for `Date.now().toString()`.
     */
    method AddPlayer(freshId: string)
      modifies this`newPlayerName, store`players
      ensures store.players == AddedRoster(old(store.players), old(newPlayerName), freshId)
      ensures newPlayerName == if Trim(old(newPlayerName)) == "" then old(newPlayerName) else ""
    {
      if Trim(newPlayerName) != "" {
        store.players := store.players + [NewPlayer(freshId, newPlayerName)];
        newPlayerName := "";
      }
    }

    /** `removePlayer`. */
    method RemovePlayer(playerId: string)
      modifies store`players
      ensures store.players == RemoveById(old(store.players), playerId)
    {
      store.players := RemoveById(store.players, playerId);
    }

    /** `updatePlayerScore`. */
    method UpdatePlayerScore(playerId: string, holeIndex: int, strokes: int)
      modifies store`players
      ensures store.players == UpdatedRoster(old(store.players), playerId, holeIndex, strokes)
      ensures TotalsConsistent(old(store.players)) ==> TotalsConsistent(store.players)
    {
      UpdateKeepsTotalsConsistent(store.players, playerId, holeIndex, strokes);
      store.players := UpdatedRoster(store.players, playerId, holeIndex, strokes);
    }
  }
}
