/**
 * components/GameManager.tsx: an older game controller that the page does not
 * use, with its own start, next-hole, end and reset rules over the same atoms.
 */
module GameManager {
  import opened Wrappers
  import opened Seqs
  import opened Atoms
  import opened GameLogic
  import opened ActivePenalties
  import Page

  predicate IsPersistent(p: Penalty) {
    p.kind == Persistent
  }

  /** `prev.filter(p => p.type === 'persistent')`, this controller's next-hole sweep. */
  function KeepPersistent(penalties: seq<Penalty>): seq<Penalty> {
    Filter(penalties, IsPersistent)
  }

  /**
   * This sweep keeps exactly the persistent penalties, in order and with every
   * copy, and is
   * idempotent; it is stricter than the page's sweep, which also keeps active
   * shot and hole penalties: the page keeps everything this one keeps.
   */
  lemma KeepPersistentSpec(penalties: seq<Penalty>)
    ensures IsSubsequence(KeepPersistent(penalties), penalties)
    ensures KeepPersistent(KeepPersistent(penalties)) == KeepPersistent(penalties)
    ensures forall i :: 0 <= i < |penalties| && penalties[i].kind == Persistent ==> penalties[i] in KeepPersistent(penalties)
    ensures forall i :: 0 <= i < |KeepPersistent(penalties)| ==> KeepPersistent(penalties)[i].kind == Persistent
    ensures KeepPersistent(Page.NextHoleSweep(penalties)) == KeepPersistent(penalties)
    ensures forall p :: multiset(KeepPersistent(penalties))[p] == if p.kind == Persistent then multiset(penalties)[p] else 0
  {
    FilterMultiplicities(penalties, IsPersistent);
    FilterIsSubsequence(penalties, IsPersistent);
    FilterIdempotent(penalties, IsPersistent);
    FilterNarrowing(penalties, Page.PersistentOrActive, IsPersistent);
  }

  /** `prev.map(p => ({ ...p, scores: [], totalStrokes: 0 }))`. */
  function ClearScores(players: seq<Player>): (r: seq<Player>)
    ensures |r| == |players|
    ensures forall i :: 0 <= i < |players| ==> r[i] == players[i].(scores := [], totalStrokes := 0)
  {
    seq(|players|, i requires 0 <= i < |players| => players[i].(scores := [], totalStrokes := 0))
  }

  /**
   * After clearing, ids, names and order are kept, every total is consistent
   * with its (empty) list, and nobody leads.
   */
  lemma ClearScoresSpec(players: seq<Player>)
    ensures forall i :: 0 <= i < |players| ==>
              ClearScores(players)[i].id == players[i].id && ClearScores(players)[i].name == players[i].name
    ensures TotalsConsistent(ClearScores(players))
    ensures DetermineLeaders(ClearScores(players)) == []
  {
    LeadersEmptyIff(ClearScores(players));
  }

  /** `parseInt(value) || 18`, applied only while no game runs (the input is disabled otherwise). */
  function EditedHoles(gameState: GameState, raw: string): (gs: GameState)
    ensures gameState.isGameActive ==> gs == gameState
    ensures !gameState.isGameActive ==> gs == gameState.(totalHoles := Page.HolesFromInput(raw))
  {
    if gameState.isGameActive then gameState else gameState.(totalHoles := Page.HolesFromInput(raw))
  }

  class GameManager {
    const store: Store

    constructor (store: Store)
      ensures this.store == store
    {
      this.store := store;
    }

    /** `startGame`: refused below two players; the phase is left alone. */
    method StartGame() returns (accepted: bool)
      modifies store`gameState
      ensures accepted == (|store.players| >= 2)
      ensures !accepted ==> store.gameState == old(store.gameState)
      ensures accepted ==> store.gameState == old(store.gameState).(isGameActive := true, currentHole := 1)
    {
      if |store.players| < 2 {
        return false;
      }
      store.gameState := store.gameState.(isGameActive := true, currentHole := 1);
      return true;
    }

    /** `nextHole`: acts only before the last hole; then one hole on and only persistent penalties kept. */
    method NextHole()
      modifies store`gameState, store`penalties
      ensures old(store.gameState.currentHole) < old(store.gameState.totalHoles) ==>
                && store.gameState == old(store.gameState).(currentHole := old(store.gameState.currentHole) + 1)
                && store.penalties == KeepPersistent(old(store.penalties))
      ensures old(store.gameState.currentHole) >= old(store.gameState.totalHoles) ==>
                store.gameState == old(store.gameState) && store.penalties == old(store.penalties)
      ensures store.gameState.currentHole <= store.gameState.totalHoles || store.gameState == old(store.gameState)
    {
      if store.gameState.currentHole < store.gameState.totalHoles {
        store.gameState := store.gameState.(currentHole := store.gameState.currentHole + 1);
        store.penalties := KeepPersistent(store.penalties);
      }
    }

    /** `endGame`: stopped, back to hole 1, every score wiped, no penalties. */
    method EndGame()
      modifies store
      ensures store.gameState == old(store.gameState).(isGameActive := false, currentHole := 1)
      ensures store.players == ClearScores(old(store.players))
      ensures store.penalties == []
    {
      store.gameState := store.gameState.(isGameActive := false, currentHole := 1);
      store.players := ClearScores(store.players);
      store.penalties := [];
    }

    /**
     * `resetGame`: hole 1 of 18, stopped, no leader, no players, no penalties.
     * The record it writes has no phase, so the phase is left unspecified.
     */
    method ResetGame()
      modifies store
      ensures store.gameState.currentHole == 1 && store.gameState.totalHoles == 18
      ensures !store.gameState.isGameActive && store.gameState.currentLeader == None
      ensures store.players == [] && store.penalties == []
    {
      var phase: GamePhase := *;
      store.gameState := GameState(1, 18, false, None, phase);
      store.players := [];
      store.penalties := [];
    }

    /** The hole-count input's `onChange`. */
    method EditTotalHoles(raw: string)
      modifies store`gameState
      ensures store.gameState == EditedHoles(old(store.gameState), raw)
    {
      if !store.gameState.isGameActive {
        store.gameState := store.gameState.(totalHoles := Page.HolesFromInput(raw));
      }
    }
  }
}
