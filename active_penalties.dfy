/**
 * components/ActivePenalties.tsx: the list of active penalties, the name shown
 * for a penalty's target, completing a penalty, and the "clear expired" button.
 */
module ActivePenalties {
  import opened Wrappers
  import opened Seqs
  import opened Atoms
  import opened PlayerManagement

  // ---------------------------------------------------------------- the shown list

  predicate IsActivePenalty(p: Penalty) {
    p.isActive
  }

  /** `penalties.filter(p => p.isActive)`. */
  function ActiveOnly(penalties: seq<Penalty>): seq<Penalty> {
    Filter(penalties, IsActivePenalty)
  }

  /**
   * The shown list is exactly the active penalties, in their original order,
   * each as many times as it occurs in the list.
   */
  lemma ActiveOnlySpec(penalties: seq<Penalty>)
    ensures forall i :: 0 <= i < |ActiveOnly(penalties)| ==> ActiveOnly(penalties)[i].isActive
    ensures forall i :: 0 <= i < |penalties| && penalties[i].isActive ==> penalties[i] in ActiveOnly(penalties)
    ensures IsSubsequence(ActiveOnly(penalties), penalties)
    ensures forall p :: multiset(ActiveOnly(penalties))[p] == if p.isActive then multiset(penalties)[p] else 0
  {
    FilterIsSubsequence(penalties, IsActivePenalty);
    FilterMultiplicities(penalties, IsActivePenalty);
  }

  // ---------------------------------------------------------------- target names

  const CurrentLeaderId: string := "current-leader"
  const CurrentLeaderLabel: string := "Current Leader"
  const UnknownPlayerLabel: string := "Unknown Player"

  /** `players.find(p => p.id === id)`: the first player with the id. */
  function FindPlayer(players: seq<Player>, id: string): (found: Option<Player>)
    ensures found.None? <==> forall i :: 0 <= i < |players| ==> players[i].id != id
    ensures found.Some? ==> exists k :: 0 <= k < |players| && players[k] == found.value
                                        && found.value.id == id
                                        && forall j :: 0 <= j < k ==> players[j].id != id
  {
    if |players| == 0 then None
    else if players[0].id == id then Some(players[0])
    else
      var rest := FindPlayer(players[1..], id);
      assert forall i :: 1 <= i < |players| ==> players[i] == players[1..][i - 1];
      rest
  }

  /**
   * `getPlayerName`: "Current Leader" for the placeholder id, the first matching
   * player's name, or "Unknown Player" for a dangling id or an empty name.
   */
  function GetPlayerName(players: seq<Player>, playerId: string): string {
    if playerId == CurrentLeaderId then CurrentLeaderLabel
    else match FindPlayer(players, playerId)
      case Some(p) => if p.name != "" then p.name else UnknownPlayerLabel
      case None => UnknownPlayerLabel
  }

  /** The three outcomes of `getPlayerName`, each tied to the roster. */
  lemma GetPlayerNameCases(players: seq<Player>, playerId: string)
    ensures playerId == CurrentLeaderId ==> GetPlayerName(players, playerId) == CurrentLeaderLabel
    ensures playerId != CurrentLeaderId && (forall i :: 0 <= i < |players| ==> players[i].id != playerId) ==>
              GetPlayerName(players, playerId) == UnknownPlayerLabel
    ensures forall k :: 0 <= k < |players| && players[k].id == playerId && playerId != CurrentLeaderId
                        && (forall j :: 0 <= j < k ==> players[j].id != playerId) ==>
              GetPlayerName(players, playerId) == if players[k].name != "" then players[k].name else UnknownPlayerLabel
  {
    var found := FindPlayer(players, playerId);
    forall k | 0 <= k < |players| && players[k].id == playerId && playerId != CurrentLeaderId
               && (forall j :: 0 <= j < k ==> players[j].id != playerId)
      ensures GetPlayerName(players, playerId) == if players[k].name != "" then players[k].name else UnknownPlayerLabel
    {
      var m :| 0 <= m < |players| && players[m] == found.value && found.value.id == playerId
               && forall j :: 0 <= j < m ==> players[j].id != playerId;
      assert !(m < k) && !(k < m);
    }
  }

  /** After the target player is removed, the penalty's target shows as "Unknown Player". */
  lemma RemovedTargetIsUnknown(players: seq<Player>, playerId: string)
    requires playerId != CurrentLeaderId
    ensures GetPlayerName(RemoveById(players, playerId), playerId) == UnknownPlayerLabel
  {
    RemoveByIdSpec(players, playerId);
    var r := RemoveById(players, playerId);
    assert forall i :: 0 <= i < |r| ==> r[i] in r;
  }

  /** The label shown for a penalty: `getPlayerName(penalty.targetPlayerId || "")`. */
  function TargetLabel(players: seq<Player>, target: Option<string>): string {
    GetPlayerName(players, target.GetOr(""))
  }

  /**
   * A penalty without a target shows "Unknown Player" unless some player has the
   * empty id; a penalty aimed at a player shows the first such player's name, or
   * "Unknown Player" when that name is empty.
   */
  lemma TargetLabelCases(players: seq<Player>, target: Option<string>)
    ensures target.None? && (forall i :: 0 <= i < |players| ==> players[i].id != "") ==>
              TargetLabel(players, target) == UnknownPlayerLabel
    ensures forall k :: target.Some? && target.value != CurrentLeaderId && 0 <= k < |players| && players[k].id == target.value
                        && (forall j :: 0 <= j < k ==> players[j].id != target.value) ==>
              TargetLabel(players, target) == if players[k].name != "" then players[k].name else UnknownPlayerLabel
  {
    GetPlayerNameCases(players, target.GetOr(""));
  }

  // ---------------------------------------------------------------- completing

  /** `penalties.map(p => p.id === penaltyId ? { ...p, isActive: false } : p)`. */
  function Completed(penalties: seq<Penalty>, penaltyId: string): (r: seq<Penalty>)
    ensures |r| == |penalties|
    ensures forall i :: 0 <= i < |penalties| ==>
              r[i] == if penalties[i].id == penaltyId then penalties[i].(isActive := false) else penalties[i]
  {
    if |penalties| == 0 then []
    else
      var head := if penalties[0].id == penaltyId then penalties[0].(isActive := false) else penalties[0];
      [head] + Completed(penalties[1..], penaltyId)
  }

  /** The test `p => p.id !== penaltyId`. */
  function PenaltyIdIsNot(penaltyId: string): Penalty -> bool {
    (p: Penalty) => p.id != penaltyId
  }

  /**
   * Completing a penalty removes exactly the penalties with that id from the
   * shown list; doing it twice is doing it once; an unknown id changes nothing.
   */
  lemma {:induction false} CompleteSpec(penalties: seq<Penalty>, penaltyId: string)
    ensures ActiveOnly(Completed(penalties, penaltyId)) == Filter(ActiveOnly(penalties), PenaltyIdIsNot(penaltyId))
    ensures Completed(Completed(penalties, penaltyId), penaltyId) == Completed(penalties, penaltyId)
    ensures (forall i :: 0 <= i < |penalties| ==> penalties[i].id != penaltyId) ==> Completed(penalties, penaltyId) == penalties
  {
    if |penalties| > 0 {
      CompleteSpec(penalties[1..], penaltyId);
      assert Completed(penalties, penaltyId)[1..] == Completed(penalties[1..], penaltyId);
    }
  }

  // ---------------------------------------------------------------- clearing

  predicate ActiveAndPersistent(p: Penalty) {
    p.isActive && p.kind == Persistent
  }

  /**
   * `clearExpiredPenalties`: drops every inactive penalty and every shot or hole
   * penalty, so only active persistent ones remain.
   */
  function ClearExpired(penalties: seq<Penalty>): seq<Penalty> {
    Filter(penalties, ActiveAndPersistent)
  }

  /**
   * Clearing keeps exactly the active persistent penalties, in order and with
   * every copy, and is idempotent.
   */
  lemma ClearExpiredSpec(penalties: seq<Penalty>)
    ensures forall p :: p in ClearExpired(penalties) ==> p in penalties && p.isActive && p.kind == Persistent
    ensures forall i :: 0 <= i < |penalties| && penalties[i].isActive && penalties[i].kind == Persistent ==>
              penalties[i] in ClearExpired(penalties)
    ensures IsSubsequence(ClearExpired(penalties), penalties)
    ensures ClearExpired(ClearExpired(penalties)) == ClearExpired(penalties)
    ensures ActiveOnly(ClearExpired(penalties)) == ClearExpired(penalties)
    ensures forall p :: multiset(ClearExpired(penalties))[p] ==
                        if p.isActive && p.kind == Persistent then multiset(penalties)[p] else 0
  {
    ClearedAreActivePersistent(penalties);
    ClearedAreAllShown(penalties);
    FilterMultiplicities(penalties, ActiveAndPersistent);
    FilterIsSubsequence(penalties, ActiveAndPersistent);
    FilterIdempotent(penalties, ActiveAndPersistent);
  }

  lemma ClearedAreActivePersistent(penalties: seq<Penalty>)
    ensures forall p :: p in ClearExpired(penalties) ==> p in penalties && p.isActive && p.kind == Persistent
  {
    var r := ClearExpired(penalties);
    forall p | p in r ensures p in penalties && p.isActive && p.kind == Persistent {
      var k :| 0 <= k < |r| && r[k] == p;
    }
  }

  lemma ClearedAreAllShown(penalties: seq<Penalty>)
    ensures ActiveOnly(ClearExpired(penalties)) == ClearExpired(penalties)
  {
    var r := ClearExpired(penalties);
    assert forall i :: 0 <= i < |r| ==> ActiveAndPersistent(r[i]);
    FilterKeepsAll(r, IsActivePenalty);
  }

  /** The component over the `penalties` and `players` atoms. */
  class ActivePenaltiesPanel {
    const store: Store

    constructor (store: Store)
      ensures this.store == store
    {
      this.store := store;
    }

    /** `activePenalties`, the list the panel shows. */
    function Shown(): seq<Penalty>
      reads store
    {
      ActiveOnly(store.penalties)
    }

    /** `completePenalty`: the completed penalty leaves the shown list, which otherwise stays as it was. */
    method CompletePenalty(penaltyId: string)
      modifies store`penalties
      ensures store.penalties == Completed(old(store.penalties), penaltyId)
      ensures Shown() == Filter(old(Shown()), PenaltyIdIsNot(penaltyId))
    {
      CompleteSpec(store.penalties, penaltyId);
      store.penalties := Completed(store.penalties, penaltyId);
    }

    /** `clearExpiredPenalties`: afterwards every penalty left is shown. */
    method ClearExpiredPenalties()
      modifies store`penalties
      ensures store.penalties == ClearExpired(old(store.penalties))
      ensures Shown() == store.penalties
    {
      ClearExpiredSpec(store.penalties);
      store.penalties := ClearExpired(store.penalties);
    }
  }
}
