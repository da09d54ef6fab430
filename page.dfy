/**
 * app/page.tsx: the session's phase machine. Each event handler is one atomic
 * step on a `Session` record (the three atoms plus the page's three flags);
 * the `Home` class holds those fields and its methods are proved to take
 * exactly these steps.
 */
module Page {
  import opened Wrappers
  import opened Seqs
  import opened JsBuiltins
  import opened Atoms
  import opened GameLogic
  import opened PlayerManagement
  import opened ActivePenalties

  datatype Session = Session(
    players: seq<Player>,
    gameState: GameState,
    penalties: seq<Penalty>,
    showTieBreaker: bool,
    showWheel: bool,
    penaltySelected: bool)

  /** The atoms' initial values with every flag lowered. */
  const InitialSession: Session := Session([], InitialGameState, [], false, false, false)

  // ---------------------------------------------------------------- derived values

  /** `needsTieBreaker`: more than one leader. */
  function NeedsTieBreaker(players: seq<Player>): bool {
    |DetermineLeaders(players)| > 1
  }

  /** A tie-break is needed exactly when two different roster positions both lead. */
  lemma NeedsTieBreakerIff(players: seq<Player>)
    ensures NeedsTieBreaker(players) <==>
              exists i, j :: 0 <= i < j < |players| && IsLeader(players[i], players) && IsLeader(players[j], players)
  {
    LeadersMatchReference(players);
    FilterHasTwo(players, LeaderIn(players));
  }

  /** The submit guard: some player has a positive count at `holeIndex` (a hole or 0 does not count). */
  predicate HasValidScores(players: seq<Player>, holeIndex: int) {
    exists i :: 0 <= i < |players| && ScoreAt(players[i].scores, holeIndex) > 0
  }

  lemma {:induction false} SumCoversEachScore(scores: seq<Option<int>>, k: int)
    requires forall i :: 0 <= i < |scores| ==> ScoreValue(scores[i]) >= 0
    ensures SumScores(scores) >= ScoreAt(scores, k) && SumScores(scores) >= 0
  {
    if |scores| > 0 {
      SumCoversEachScore(scores[1..], k - 1);
      assert forall i :: 1 <= i < |scores| ==> scores[i] == scores[1..][i - 1];
    }
  }

  /**
   * With consistent totals and no negative count entered, a submission the
   * guard accepts always has a leader, so it always leads to the penalty phase.
   */
  lemma ValidScoresMeanALeader(players: seq<Player>, holeIndex: int)
    requires TotalsConsistent(players)
    requires forall i, k :: 0 <= i < |players| && 0 <= k < |players[i].scores| ==> ScoreValue(players[i].scores[k]) >= 0
    requires HasValidScores(players, holeIndex)
    ensures DetermineLeaders(players) != []
  {
    var i :| 0 <= i < |players| && ScoreAt(players[i].scores, holeIndex) > 0;
    SumCoversEachScore(players[i].scores, holeIndex);
    LeadersEmptyIff(players);
  }

  // ---------------------------------------------------------------- the sweep

  predicate PersistentOrActive(p: Penalty) {
    p.kind == Persistent || p.isActive
  }

  /** The filter `handlePenaltyComplete` applies to the penalties on moving to the next hole. */
  function NextHoleSweep(penalties: seq<Penalty>): seq<Penalty> {
    Filter(penalties, PersistentOrActive)
  }

  /**
   * The sweep keeps order, is idempotent, keeps every copy of a persistent or an
   * active penalty, drops every completed shot or hole penalty, and changes neither the
   * list the panel shows nor what "clear expired" would keep.
   */
  lemma NextHoleSweepSpec(penalties: seq<Penalty>)
    ensures IsSubsequence(NextHoleSweep(penalties), penalties)
    ensures NextHoleSweep(NextHoleSweep(penalties)) == NextHoleSweep(penalties)
    ensures forall i :: 0 <= i < |penalties| && (penalties[i].kind == Persistent || penalties[i].isActive) ==>
              penalties[i] in NextHoleSweep(penalties)
    ensures forall i :: 0 <= i < |NextHoleSweep(penalties)| ==>
              NextHoleSweep(penalties)[i].kind == Persistent || NextHoleSweep(penalties)[i].isActive
    ensures ActiveOnly(NextHoleSweep(penalties)) == ActiveOnly(penalties)
    ensures ClearExpired(NextHoleSweep(penalties)) == ClearExpired(penalties)
    ensures forall p :: multiset(NextHoleSweep(penalties))[p] ==
                        if p.kind == Persistent || p.isActive then multiset(penalties)[p] else 0
  {
    FilterMultiplicities(penalties, PersistentOrActive);
    FilterIsSubsequence(penalties, PersistentOrActive);
    FilterIdempotent(penalties, PersistentOrActive);
    FilterNarrowing(penalties, PersistentOrActive, IsActivePenalty);
    FilterNarrowing(penalties, PersistentOrActive, ActiveAndPersistent);
  }

  // ---------------------------------------------------------------- the total-holes input

  /** `parseInt(value) || 18`: unreadable text and 0 both give 18. */
  function HolesFromInput(raw: string): int {
    match ParseInt(raw)
    case Some(n) => if n != 0 then n else DefaultTotalHoles
    case None => DefaultTotalHoles
  }

  /** Every non-zero count typed in is stored as typed (no range check); 0 and text without digits give 18. */
  lemma HolesFromInputCases(n: int, raw: string)
    ensures n != 0 ==> HolesFromInput(IntToString(n)) == n
    ensures HolesFromInput(IntToString(0)) == DefaultTotalHoles
    ensures LeadingDigits(SignFree(TrimStart(raw))) == "" ==> HolesFromInput(raw) == DefaultTotalHoles
    ensures HolesFromInput(raw) != 0
  {
    HolesFromTypedCount(n);
    HolesFromTypedCount(0);
    HolesFromText(raw);
  }

  lemma HolesFromTypedCount(n: int)
    ensures HolesFromInput(IntToString(n)) == if n != 0 then n else DefaultTotalHoles
  {
    ParseIntOfIntToString(n);
  }

  lemma HolesFromText(raw: string)
    ensures LeadingDigits(SignFree(TrimStart(raw))) == "" ==> HolesFromInput(raw) == DefaultTotalHoles
    ensures HolesFromInput(raw) != 0
  {
  }

  // ---------------------------------------------------------------- the handlers as steps

  /** `startGame`: refused below two players; otherwise active, hole 1, score entry. */
  function StartGameStep(s: Session): (t: Session)
    ensures |s.players| < 2 ==> t == s
    ensures |s.players| >= 2 ==>
              t == s.(gameState := GameState(1, s.gameState.totalHoles, true, s.gameState.currentLeader, ScoreEntry))
  {
    if |s.players| < 2 then s
    else s.(gameState := s.gameState.(isGameActive := true, currentHole := 1, phase := ScoreEntry))
  }

  /**
   * `submitScores`: refused unless some player has a positive count for the
   * current hole; then the penalty phase if anyone leads, else game over on the
   * last hole or the next hole.
   */
  function SubmitScoresStep(s: Session): (t: Session)
    ensures !HasValidScores(s.players, s.gameState.currentHole - 1) ==> t == s
    ensures t.players == s.players && t.penalties == s.penalties
    ensures t.showTieBreaker == s.showTieBreaker && t.showWheel == s.showWheel && t.penaltySelected == s.penaltySelected
    ensures t.gameState.totalHoles == s.gameState.totalHoles && t.gameState.isGameActive == s.gameState.isGameActive
    ensures HasValidScores(s.players, s.gameState.currentHole - 1) ==>
              if DetermineLeaders(s.players) != [] then
                t.gameState == s.gameState.(phase := LeaderPenalty)
              else if s.gameState.currentHole >= s.gameState.totalHoles then
                t.gameState == s.gameState.(phase := GameComplete)
              else
                t.gameState == s.gameState.(currentHole := s.gameState.currentHole + 1, phase := ScoreEntry)
  {
    if !HasValidScores(s.players, s.gameState.currentHole - 1) then s
    else s.(gameState := AfterScores(s.players, s.gameState))
  }

  /** Where a hole's accepted scores lead: the penalty phase, game over or the next hole. */
  function AfterScores(players: seq<Player>, gs: GameState): GameState {
    if DetermineLeaders(players) != [] then gs.(phase := LeaderPenalty)
    else if gs.currentHole >= gs.totalHoles then gs.(phase := GameComplete)
    else gs.(currentHole := gs.currentHole + 1, phase := ScoreEntry)
  }

  /** `resetGame`: from any session, the initial one. */
  function ResetGameStep(s: Session): (t: Session)
    ensures t.players == [] && t.penalties == []
    ensures t.gameState == GameState(1, 18, false, None, Setup)
    ensures !t.showTieBreaker && !t.showWheel && !t.penaltySelected
  {
    InitialSession
  }

  /** `showPenaltyWheel`: the tie-breaker if several lead, else the wheel; the selection flag is lowered. */
  function ShowPenaltyWheelStep(s: Session): (t: Session)
    ensures t.players == s.players && t.gameState == s.gameState && t.penalties == s.penalties
    ensures !t.penaltySelected
    ensures t.showTieBreaker == (s.showTieBreaker || NeedsTieBreaker(s.players))
    ensures t.showWheel == (s.showWheel || !NeedsTieBreaker(s.players))
  {
    if NeedsTieBreaker(s.players) then s.(showTieBreaker := true, penaltySelected := false)
    else s.(showWheel := true, penaltySelected := false)
  }

  /** `handleTieBreakerComplete`: the chosen player is not used; the wheel replaces the tie-breaker. */
  function TieBreakerCompleteStep(s: Session): (t: Session)
    ensures t.players == s.players && t.gameState == s.gameState && t.penalties == s.penalties
    ensures !t.showTieBreaker && t.showWheel && !t.penaltySelected
  {
    s.(showTieBreaker := false, showWheel := true, penaltySelected := false)
  }

  /** `handlePenaltySelected`. */
  function PenaltySelectedStep(s: Session): (t: Session)
    ensures t.players == s.players && t.gameState == s.gameState && t.penalties == s.penalties
    ensures t.showTieBreaker == s.showTieBreaker && t.showWheel == s.showWheel && t.penaltySelected
  {
    s.(penaltySelected := true)
  }

  /**
   * `handlePenaltyComplete`: on or past the last hole only the phase changes, to
   * game over; otherwise the next hole in score entry, the sweep applied, and
   * every flag lowered.
   */
  function PenaltyCompleteStep(s: Session): (t: Session)
    ensures t.players == s.players
    ensures s.gameState.currentHole >= s.gameState.totalHoles ==>
              t == s.(gameState := s.gameState.(phase := GameComplete))
    ensures s.gameState.currentHole < s.gameState.totalHoles ==>
              && t.gameState == s.gameState.(currentHole := s.gameState.currentHole + 1, phase := ScoreEntry)
              && t.penalties == NextHoleSweep(s.penalties)
              && !t.showTieBreaker && !t.showWheel && !t.penaltySelected
  {
    var gs := s.gameState;
    if gs.currentHole >= gs.totalHoles then s.(gameState := gs.(phase := GameComplete))
    else
      Session(s.players, gs.(currentHole := gs.currentHole + 1, phase := ScoreEntry),
              NextHoleSweep(s.penalties), false, false, false)
  }

  /** The setup screen's hole-count input. */
  function EditTotalHolesStep(s: Session, raw: string): (t: Session)
    ensures t == s.(gameState := s.gameState.(totalHoles := HolesFromInput(raw)))
  {
    s.(gameState := s.gameState.(totalHoles := HolesFromInput(raw)))
  }

  // ---------------------------------------------------------------- the session invariant

  /**
   * What the handlers keep true: the hole is at least 1; a game is running
   * exactly outside setup; in the penalty phase somebody leads; while playing,
   * the hole is 1 or within the hole count.
   */
  predicate Consistent(s: Session) {
    var gs := s.gameState;
    && gs.currentHole >= 1
    && (gs.isGameActive <==> gs.phase != Setup)
    && (gs.phase == LeaderPenalty ==> DetermineLeaders(s.players) != [])
    && (gs.phase == ScoreEntry || gs.phase == LeaderPenalty ==> gs.currentHole == 1 || gs.currentHole <= gs.totalHoles)
  }

  lemma InitialSessionConsistent()
    ensures Consistent(InitialSession)
  {
  }

  /**
   * Each handler keeps the invariant when fired from the screen that shows its
   * control: start and the hole count in setup, submit in score entry, the wheel
   * controls and "done" in the penalty phase; reset anywhere.
   */
  lemma HandlersKeepConsistent(s: Session, raw: string)
    requires Consistent(s)
    ensures s.gameState.phase == Setup ==> Consistent(StartGameStep(s)) && Consistent(EditTotalHolesStep(s, raw))
    ensures s.gameState.phase == ScoreEntry ==> Consistent(SubmitScoresStep(s))
    ensures Consistent(ResetGameStep(s))
    ensures Consistent(ShowPenaltyWheelStep(s)) && Consistent(TieBreakerCompleteStep(s)) && Consistent(PenaltySelectedStep(s))
    ensures s.gameState.phase == LeaderPenalty ==> Consistent(PenaltyCompleteStep(s))
  {
  }

  /**
   * Roster edits (the setup and score-entry screens) keep the invariant outside
   * the penalty phase, and penalty edits keep it always.
   */
  lemma EditsKeepConsistent(s: Session, players: seq<Player>, penalties: seq<Penalty>)
    requires Consistent(s)
    ensures s.gameState.phase != LeaderPenalty ==> Consistent(s.(players := players))
    ensures Consistent(s.(penalties := penalties))
  {
  }

  /** In the penalty phase of a consistent session, a leader can always be drawn. */
  lemma PenaltyPhaseHasATarget(s: Session, roll: real)
    requires Consistent(s) && s.gameState.phase == LeaderPenalty && 0.0 <= roll < 1.0
    ensures GetRandomLeader(DetermineLeaders(s.players), roll).Some?
    ensures GetRandomLeader(DetermineLeaders(s.players), roll).value in s.players
  {
    LeadersAreTheLowestPositive(s.players);
  }

  // ---------------------------------------------------------------- the page

  /** The page: the shared atoms and its own three flags. */
  class Home {
    const store: Store
    var showTieBreaker: bool
    var showWheel: bool
    var penaltySelected: bool

    constructor (store: Store)
      ensures this.store == store && !showTieBreaker && !showWheel && !penaltySelected
    {
      this.store := store;
      showTieBreaker := false;
      showWheel := false;
      penaltySelected := false;
    }

    /** The session the page currently renders. */
    function Snapshot(): Session
      reads this, store
    {
      Session(store.players, store.gameState, store.penalties, showTieBreaker, showWheel, penaltySelected)
    }

    /** `startGame`; `accepted` is false where the source raises its alert. */
    method StartGame() returns (accepted: bool)
      modifies store`gameState
      ensures accepted == (|old(store.players)| >= 2)
      ensures Snapshot() == StartGameStep(old(Snapshot()))
    {
      if |store.players| < 2 {
        return false;
      }
      store.gameState := store.gameState.(isGameActive := true, currentHole := 1, phase := ScoreEntry);
      return true;
    }

    /** `submitScores`; `accepted` is false where the source raises its alert. */
    method SubmitScores() returns (accepted: bool)
      modifies store`gameState
      ensures accepted == HasValidScores(old(store.players), old(store.gameState.currentHole) - 1)
      ensures Snapshot() == SubmitScoresStep(old(Snapshot()))
    {
      ghost var before := Snapshot();
      var gs := store.gameState;
      if !HasValidScores(store.players, gs.currentHole - 1) {
        return false;
      }
      var leaders := DetermineLeaders(store.players);
      if |leaders| > 0 {
        gs := gs.(phase := LeaderPenalty);
      } else if gs.currentHole >= gs.totalHoles {
        gs := gs.(phase := GameComplete);
      } else {
        gs := gs.(currentHole := gs.currentHole + 1, phase := ScoreEntry);
      }
      assert gs == AfterScores(before.players, before.gameState);
      assert before.(gameState := gs) == SubmitScoresStep(before);
      store.gameState := gs;
      return true;
    }

    /** `resetGame` (clearing saved storage is not modelled). */
    method ResetGame()
      modifies this, store
      ensures Snapshot() == ResetGameStep(old(Snapshot()))
    {
      store.gameState := GameState(1, 18, false, None, Setup);
      store.players := [];
      store.penalties := [];
      showTieBreaker := false;
      showWheel := false;
      penaltySelected := false;
    }

    /** `handleTieBreakerComplete`, the tie-breaker's callback. */
    method HandleTieBreakerComplete()
      modifies this
      ensures Snapshot() == TieBreakerCompleteStep(old(Snapshot()))
    {
      showTieBreaker := false;
      showWheel := true;
      penaltySelected := false;
    }

    /** `showPenaltyWheel`. */
    method ShowPenaltyWheel()
      modifies this
      ensures Snapshot() == ShowPenaltyWheelStep(old(Snapshot()))
    {
      if NeedsTieBreaker(store.players) {
        showTieBreaker := true;
      } else {
        showWheel := true;
      }
      penaltySelected := false;
    }

    /** `handlePenaltySelected`, the wheel's callback. */
    method HandlePenaltySelected()
      modifies this`penaltySelected
      ensures penaltySelected
      ensures Snapshot() == PenaltySelectedStep(old(Snapshot()))
    {
      penaltySelected := true;
    }

    /** `handlePenaltyComplete` (clearing saved storage is not modelled). */
    method HandlePenaltyComplete()
      modifies this, store`gameState, store`penalties
      ensures Snapshot() == PenaltyCompleteStep(old(Snapshot()))
    {
      if store.gameState.currentHole >= store.gameState.totalHoles {
        store.gameState := store.gameState.(phase := GameComplete);
      } else {
        store.gameState := store.gameState.(currentHole := store.gameState.currentHole + 1, phase := ScoreEntry);
        store.penalties := Filter(store.penalties, PersistentOrActive);
        showTieBreaker := false;
        showWheel := false;
        penaltySelected := false;
      }
    }

    /** The hole-count input's `onChange`. */
    method EditTotalHoles(raw: string)
      modifies store`gameState
      ensures Snapshot() == EditTotalHolesStep(old(Snapshot()), raw)
    {
      store.gameState := store.gameState.(totalHoles := HolesFromInput(raw));
    }
  }
}
