/**
 * components/ScoreEntry.tsx: typing a stroke count for a player on the current
 * hole. The raw text is remembered per player id; the parsed number is written
 * at index `currentHole - 1` and the player's total is recomputed.
 */
module ScoreEntry {
  import opened Wrappers
  import opened JsBuiltins
  import opened Atoms
  import opened PlayerManagement

  /** `parseInt(strokes) || 0`: text with no leading integer reads as 0. */
  function StrokesNumber(raw: string): int {
    ParseInt(raw).GetOr(0)
  }

  /**
   * Nothing is rejected: any integer typed in, zero and negatives included, is
   * what gets stored; only text without a leading integer becomes 0.
   */
  lemma StrokesNumberKeepsEveryInteger(n: int, raw: string)
    ensures StrokesNumber(IntToString(n)) == n
    ensures LeadingDigits(SignFree(TrimStart(raw))) == "" ==> StrokesNumber(raw) == 0
  {
    ParseIntOfIntToString(n);
  }

  /**
   * The roster after an entry for `playerId` on `currentHole`: the matching player
   * holds the parsed strokes at index `currentHole - 1` and a total equal to the
   * sum of their list; everyone else is unchanged.
   */
  lemma EntryWritesCurrentHole(players: seq<Player>, playerId: string, currentHole: int, raw: string)
    requires currentHole >= 1
    ensures var r := UpdatedRoster(players, playerId, currentHole - 1, StrokesNumber(raw));
            && |r| == |players|
            && (forall i :: 0 <= i < |players| && players[i].id != playerId ==> r[i] == players[i])
            && (forall i :: 0 <= i < |players| && players[i].id == playerId ==>
                  && r[i].id == playerId && r[i].name == players[i].name
                  && |r[i].scores| >= currentHole
                  && r[i].scores[currentHole - 1] == Some(StrokesNumber(raw))
                  && r[i].totalStrokes == SumScores(r[i].scores))
  {
  }

  /** The component: the `players` atom, the game state it reads, and its text map. */
  class ScoreEntryForm {
    const store: Store
    var scores: map<string, string>

    constructor (store: Store)
      ensures this.store == store && scores == map[]
    {
      this.store := store;
      scores := map[];
    }

    /** `updateScore(playerId, strokes)`. */
    method UpdateScore(playerId: string, strokes: string)
      modifies this`scores, store`players
      ensures scores == old(scores)[playerId := strokes]
      ensures store.players == UpdatedRoster(old(store.players), playerId, store.gameState.currentHole - 1, StrokesNumber(strokes))
      ensures TotalsConsistent(old(store.players)) ==> TotalsConsistent(store.players)
    {
      scores := scores[playerId := strokes];
      var holeIndex := store.gameState.currentHole - 1;
      var strokesNum := StrokesNumber(strokes);
      UpdateKeepsTotalsConsistent(store.players, playerId, holeIndex, strokesNum);
      store.players := UpdatedRoster(store.players, playerId, holeIndex, strokesNum);
    }
  }
}
