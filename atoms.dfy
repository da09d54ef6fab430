/**
 * The shared game state of lib/atoms.ts: players, penalties and the game
 * state record, with their initial values. The three jotai atoms become the
 * three fields of one `Store` object that every component holds a reference to.
 */
module Atoms {
  import opened Wrappers

  /**
   * A player. `scores[i]` is the stroke count entered for hole i + 1; the list
   * is a JavaScript array, so writing past its end leaves holes (None) behind.
   */
  datatype Player = Player(id: string, name: string, scores: seq<Option<int>>, totalStrokes: int)

  /** How long a penalty lasts: one shot, one hole, or the rest of the game. */
  datatype PenaltyType = Shot | Hole | Persistent

  /** A penalty instance (the source's field `type` is called `kind` here). */
  datatype Penalty = Penalty(
    id: string,
    title: string,
    description: string,
    kind: PenaltyType,
    isActive: bool,
    targetPlayerId: Option<string>)

  datatype GamePhase = Setup | ScoreEntry | LeaderPenalty | GameComplete

  datatype GameState = GameState(
    currentHole: int,
    totalHoles: int,
    isGameActive: bool,
    currentLeader: Option<string>,
    phase: GamePhase)

  /** The hole count a new game starts with, and the fallback for an unreadable edit. */
  const DefaultTotalHoles: int := 18

  const InitialGameState: GameState := GameState(1, DefaultTotalHoles, false, None, Setup)

  /** `score || 0`: a hole in the score list counts as 0. */
  function ScoreValue(c: Option<int>): int {
    c.GetOr(0)
  }

  /** `scores.reduce((sum, score) => sum + (score || 0), 0)`. */
  function SumScores(scores: seq<Option<int>>): int {
    if |scores| == 0 then 0 else ScoreValue(scores[0]) + SumScores(scores[1..])
  }

  /** Every player's stored total is the sum of their score list. */
  predicate TotalsConsistent(players: seq<Player>) {
    forall i :: 0 <= i < |players| ==> players[i].totalStrokes == SumScores(players[i].scores)
  }

  /** The three atoms; every component reads and replaces these fields. */
  class Store {
    var players: seq<Player>
    var penalties: seq<Penalty>
    var gameState: GameState

    /** The atoms' initial values: no players, no penalties, hole 1 of 18, not started. */
    constructor ()
      ensures players == [] && penalties == []
      ensures gameState.currentHole == 1 && gameState.totalHoles == 18
      ensures !gameState.isGameActive && gameState.currentLeader == None && gameState.phase == Setup
    {
      players := [];
      penalties := [];
      gameState := InitialGameState;
    }
  }
}
