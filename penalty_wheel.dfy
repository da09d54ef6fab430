/**
 * components/PenaltyWheel.tsx: the catalog of penalty templates and the spin.
 * A spin runs a number of ticks, each highlighting a random catalog entry, then
 * appends a new active penalty aimed at a randomly drawn leader and tells the
 * page a penalty was chosen. Every `Math.random()` outcome is a parameter in
 * [0, 1); the timer-driven ticks are a plain loop.
 */
module PenaltyWheel {
  import opened Wrappers
  import opened JsBuiltins
  import opened Atoms
  import opened GameLogic
  import opened ActivePenalties
  import Page

  /** A catalog entry: a penalty without id, activity or target. */
  datatype PenaltyTemplate = PenaltyTemplate(title: string, description: string, kind: PenaltyType)

  /** `defaultPenalties`, in order. */
  const DefaultPenalties: seq<PenaltyTemplate> := [
    PenaltyTemplate("Fel fot (alla)", "Alla andra ska spela med fel fot på utslag nästa hål", Hole),
    PenaltyTemplate("Fel fot (du)", "Du ska spela med fel fot på utslag nästa hål", Hole),
    PenaltyTemplate("Svepa öl (alla)", "Alla andra ska svepa en öl", Shot),
    PenaltyTemplate("Svepa öl (du)", "Du ska svepa en öl", Shot),
    PenaltyTemplate("Kasta ut bollen", "Du får kasta ut bollen på nästa utslag", Shot),
    PenaltyTemplate("Klacka", "Du väljer en valfri spelare som måste klacka på nästa spark", Shot),
    PenaltyTemplate("Finsk fylla", "Finsk fylla (snurra 15 varv) på två valfri spelare vid utslag", Shot),
    PenaltyTemplate("Blinda ögon", "Du måste sparka med slutna ögon på nästa spark", Shot),
    PenaltyTemplate("Hoppa ett ben", "Du måste hoppa på ett ben när du sparkar nästa gång", Shot),
    PenaltyTemplate("Sjung joppe", "Du måste sjunga under nästa utspark", Shot),
    PenaltyTemplate("Endast insida", "Du får bara sparka med insidan av foten detta hål", Hole),
    PenaltyTemplate("Inga våldsamme", "Bollen får inte lämna marken på nästa hål", Hole),
    PenaltyTemplate("Tystnad", "Du får inte prata förrän nästa hål är klart", Hole),
    PenaltyTemplate("Extra spark", "Du måste ta en extra spark på nästa hål", Hole),
    PenaltyTemplate("Endast tå", "Du får bara sparka med tån på nästa spark", Shot),
    PenaltyTemplate("Händer bakom rygg", "Du måste ha händerna bakom ryggen när du sparkar detta hål", Hole),
    PenaltyTemplate("Indianen", "Du måste sitta ner när du sparkar nästa gång", Shot),
    PenaltyTemplate("Slow motion", "Du måste sparka extremt långsamt på nästa spark", Shot),
    PenaltyTemplate("Armarna upp", "Du måste hålla armarna upp i luften när du sparkar nästa hål", Hole)
  ]

  /** The kinds of a list of templates, in order. */
  function Kinds(templates: seq<PenaltyTemplate>): (kinds: seq<PenaltyType>)
    ensures |kinds| == |templates|
    ensures forall i :: 0 <= i < |templates| ==> kinds[i] == templates[i].kind
  {
    seq(|templates|, i requires 0 <= i < |templates| => templates[i].kind)
  }

  /** The catalog's kinds, entry by entry. */
  const CatalogKinds: seq<PenaltyType> :=
    [Hole, Hole, Shot, Shot, Shot, Shot, Shot, Shot, Shot, Shot, Hole, Hole, Hole, Hole, Shot, Hole, Shot, Shot, Hole]

  lemma CatalogKindsByEntry()
    ensures |DefaultPenalties| == 19
    ensures Kinds(DefaultPenalties) == CatalogKinds
  {
    var kinds := Kinds(DefaultPenalties);
    assert forall i :: 0 <= i < 19 ==> kinds[i] == CatalogKinds[i];
  }

  lemma ShotCount()
    ensures multiset(CatalogKinds)[Shot] == 11
  {
  }

  lemma HoleCount()
    ensures multiset(CatalogKinds)[Hole] == 8
  {
  }

  lemma PersistentCount()
    ensures multiset(CatalogKinds)[Persistent] == 0
  {
  }

  lemma NoPersistentKind()
    ensures forall i :: 0 <= i < |CatalogKinds| ==> CatalogKinds[i] != Persistent
  {
    PersistentCount();
    forall i | 0 <= i < |CatalogKinds| ensures CatalogKinds[i] != Persistent {
      assert CatalogKinds[i] in multiset(CatalogKinds);
    }
  }

  /** The catalog has 19 entries: 11 shot penalties, 8 hole penalties and no persistent one. */
  lemma CatalogComposition()
    ensures |DefaultPenalties| == 19
    ensures multiset(Kinds(DefaultPenalties))[Shot] == 11
    ensures multiset(Kinds(DefaultPenalties))[Hole] == 8
    ensures multiset(Kinds(DefaultPenalties))[Persistent] == 0
    ensures forall i :: 0 <= i < |DefaultPenalties| ==> DefaultPenalties[i].kind != Persistent
  {
    CatalogKindsByEntry();
    ShotCount();
    HoleCount();
    PersistentCount();
    NoPersistentKind();
    forall i | 0 <= i < |DefaultPenalties| ensures DefaultPenalties[i].kind != Persistent {
      assert Kinds(DefaultPenalties)[i] == DefaultPenalties[i].kind;
    }
  }

  // ---------------------------------------------------------------- random outcomes

  /** `15 + Math.floor(Math.random() * 10)`. */
  function WheelCycles(roll: real): (cycles: nat)
    requires 0.0 <= roll < 1.0
    ensures 15 <= cycles <= 24
  {
    15 + RandomIndex(roll, 10)
  }

  /** Every tick count from 15 to 24 comes out of some draw. */
  lemma WheelCyclesReachesAll(cycles: nat)
    requires 15 <= cycles <= 24
    ensures exists roll :: 0.0 <= roll < 1.0 && WheelCycles(roll) == cycles
  {
    RandomIndexReachesAll(10, cycles - 15);
    var roll :| 0.0 <= roll < 1.0 && RandomIndex(roll, 10) == cycles - 15;
    assert WheelCycles(roll) == cycles;
  }

  /** One tick: `Math.floor(Math.random() * defaultPenalties.length)`. */
  function TickIndex(roll: real): (i: nat)
    requires 0.0 <= roll < 1.0
    ensures i < |DefaultPenalties|
  {
    RandomIndex(roll, |DefaultPenalties|)
  }

  /**
   * The target: a randomly drawn leader's id, or none when nobody leads;
   * `targetPlayer?.id || undefined` also turns an empty id into none.
   */
  function DrawTarget(leaders: seq<Player>, roll: real): (target: Option<string>)
    requires 0.0 <= roll < 1.0
    ensures leaders == [] ==> target == None
    ensures target.Some? ==> target.value != "" && exists i :: 0 <= i < |leaders| && leaders[i].id == target.value
    ensures leaders != [] && (forall i :: 0 <= i < |leaders| ==> leaders[i].id != "") ==> target.Some?
  {
    match GetRandomLeader(leaders, roll)
    case None => None
    case Some(p) =>
      assert exists i :: 0 <= i < |leaders| && leaders[i] == p;
      if p.id != "" then Some(p.id) else None
  }

  /** Every leader with a non-empty id can be the target. */
  lemma DrawTargetReachesAll(leaders: seq<Player>, k: nat)
    requires k < |leaders| && leaders[k].id != ""
    ensures exists roll :: 0.0 <= roll < 1.0 && DrawTarget(leaders, roll) == Some(leaders[k].id)
  {
    GetRandomLeaderReachesAll(leaders, k);
    var roll :| 0.0 <= roll < 1.0 && GetRandomLeader(leaders, roll) == Some(leaders[k]);
    assert DrawTarget(leaders, roll) == Some(leaders[k].id);
  }

  // ---------------------------------------------------------------- the commit

  /** The penalty a template becomes: its text and kind, active, with the id and target given. */
  function NewPenalty(template: PenaltyTemplate, id: string, target: Option<string>): Penalty {
    Penalty(id, template.title, template.description, template.kind, true, target)
  }

  /** The penalty list after the wheel commits catalog entry `index`. */
  function Committed(penalties: seq<Penalty>, players: seq<Player>, index: nat, targetRoll: real, freshId: string): seq<Penalty>
    requires index < |DefaultPenalties| && 0.0 <= targetRoll < 1.0
  {
    penalties + [NewPenalty(DefaultPenalties[index], freshId, DrawTarget(DetermineLeaders(players), targetRoll))]
  }

  /**
   * The commit appends one new active, non-persistent penalty with the entry's
   * text and kind, the fresh id and the drawn target, and keeps the list before it.
   */
  lemma CommittedAppendsOnePenalty(penalties: seq<Penalty>, players: seq<Player>, index: nat, targetRoll: real, freshId: string)
    requires index < |DefaultPenalties| && 0.0 <= targetRoll < 1.0
    ensures var r := Committed(penalties, players, index, targetRoll, freshId);
            && |r| == |penalties| + 1 && r[..|penalties|] == penalties
            && var p := r[|penalties|];
               && p.id == freshId && p.isActive
               && p.title == DefaultPenalties[index].title
               && p.description == DefaultPenalties[index].description
               && p.kind == DefaultPenalties[index].kind
               && p.kind != Persistent
               && p.targetPlayerId == DrawTarget(DetermineLeaders(players), targetRoll)
  {
    CatalogComposition();
    var r := Committed(penalties, players, index, targetRoll, freshId);
    assert r[..|penalties|] == penalties;
  }

  /**
   * A committed penalty shows in the panel, and its target, when there is one,
   * is a player who leads.
   */
  lemma CommittedPenaltyIsShownAndAimedAtALeader(penalties: seq<Penalty>, players: seq<Player>, index: nat, targetRoll: real, freshId: string)
    requires index < |DefaultPenalties| && 0.0 <= targetRoll < 1.0
    ensures var r := Committed(penalties, players, index, targetRoll, freshId);
            && r[|penalties|] in ActiveOnly(r)
            && (r[|penalties|].targetPlayerId.Some? ==>
                  exists i :: 0 <= i < |players| && players[i].id == r[|penalties|].targetPlayerId.value
                              && IsLeader(players[i], players))
  {
    var r := Committed(penalties, players, index, targetRoll, freshId);
    CommittedAppendsOnePenalty(penalties, players, index, targetRoll, freshId);
    AppendedActiveIsShown(penalties, r[|penalties|]);
    DrawnTargetLeads(players, targetRoll);
  }

  /** An active penalty appended to the list appears in the panel. */
  lemma AppendedActiveIsShown(penalties: seq<Penalty>, p: Penalty)
    requires p.isActive
    ensures p in ActiveOnly(penalties + [p])
  {
    assert (penalties + [p])[|penalties|] == p;
  }

  /** A drawn target is the id of a roster player who leads. */
  lemma DrawnTargetLeads(players: seq<Player>, roll: real)
    requires 0.0 <= roll < 1.0
    ensures var target := DrawTarget(DetermineLeaders(players), roll);
            target.Some? ==> exists i :: 0 <= i < |players| && players[i].id == target.value && IsLeader(players[i], players)
  {
    var leaders := DetermineLeaders(players);
    var target := DrawTarget(leaders, roll);
    LeadersAreTheLowestPositive(players);
    if target.Some? {
      var j :| 0 <= j < |leaders| && leaders[j].id == target.value;
      assert leaders[j] in leaders;
      var i :| 0 <= i < |players| && players[i] == leaders[j];
    }
  }

  // ---------------------------------------------------------------- which entry is picked

  /** Where the highlight rests when the ticks end: the last tick's entry. */
  function StopIndex(tickRolls: seq<real>): (i: nat)
    requires |tickRolls| > 0 && forall k :: 0 <= k < |tickRolls| ==> 0.0 <= tickRolls[k] < 1.0
    ensures i < |DefaultPenalties|
  {
    TickIndex(tickRolls[|tickRolls| - 1])
  }

  /**
   * The entry the spin commits as written: `currentIndex` read inside the
   * closure is the value from when the spin began, whatever the ticks did.
   */
  function PickedAsWritten(startIndex: nat, tickRolls: seq<real>): nat {
    startIndex
  }

  /** The entry evidently intended: the one the wheel stops on. */
  function PickedIntended(tickRolls: seq<real>): (i: nat)
    requires |tickRolls| > 0 && forall k :: 0 <= k < |tickRolls| ==> 0.0 <= tickRolls[k] < 1.0
    ensures i < |DefaultPenalties|
  {
    StopIndex(tickRolls)
  }

  /**
   * As written, a freshly shown wheel (highlight 0) always commits the first
   * template, "Fel fot (alla)", whatever it stops on; with every tick drawing
   * 0.5 it stops on entry 9 and still commits entry 0.
   */
  lemma FreshWheelAlwaysPicksFirstEntry(tickRolls: seq<real>)
    ensures DefaultPenalties[PickedAsWritten(0, tickRolls)].title == "Fel fot (alla)"
    ensures var halves := seq(15, _ => 0.5);
            StopIndex(halves) == 9 && PickedAsWritten(0, halves) != StopIndex(halves)
  {
    var halves := seq(15, _ => 0.5);
    assert halves[14] == 0.5;
    assert 0.5 * 19 as real == 9.5;
  }

  /** Corrected, every catalog entry can be the one committed. */
  lemma IntendedPickReachesAll(k: nat)
    requires k < |DefaultPenalties|
    ensures exists tickRolls: seq<real> ::
              && |tickRolls| == 15
              && (forall j :: 0 <= j < |tickRolls| ==> 0.0 <= tickRolls[j] < 1.0)
              && PickedIntended(tickRolls) == k
  {
    RandomIndexReachesAll(|DefaultPenalties|, k);
    var roll :| 0.0 <= roll < 1.0 && RandomIndex(roll, |DefaultPenalties|) == k;
    var rolls := seq(15, _ => roll);
    assert rolls[14] == roll;
    assert PickedIntended(rolls) == k;
  }

  // ---------------------------------------------------------------- the component

  class PenaltyWheel {
    const store: Store
    var isSpinning: bool
    var selectedPenalty: Option<Penalty>
    var selectedPenaltyIndex: Option<nat>
    var currentIndex: nat

    /** Highlight and selection always name catalog entries. */
    predicate Valid()
      reads this
    {
      currentIndex < |DefaultPenalties| &&
      (selectedPenaltyIndex.Some? ==> selectedPenaltyIndex.value < |DefaultPenalties|)
    }

    constructor (store: Store)
      ensures this.store == store && Valid()
      ensures !isSpinning && selectedPenalty == None && selectedPenaltyIndex == None && currentIndex == 0
    {
      this.store := store;
      isSpinning := false;
      selectedPenalty := None;
      selectedPenaltyIndex := None;
      currentIndex := 0;
    }

    /**
     * `spinWheel`: `WheelCycles(cycleRoll)` ticks, one roll each; then the
     * entry highlighted when the spin began is committed with a target drawn by
     * `targetRoll`, and the page's `onPenaltySelected` (if given) is called.
     */
    method SpinWheel(cycleRoll: real, tickRolls: seq<real>, targetRoll: real, freshId: string, home: Page.Home?)
      requires Valid()
      requires 0.0 <= cycleRoll < 1.0 && 0.0 <= targetRoll < 1.0
      requires |tickRolls| == WheelCycles(cycleRoll)
      requires forall k :: 0 <= k < |tickRolls| ==> 0.0 <= tickRolls[k] < 1.0
      modifies this, store`penalties, home
      ensures Valid() && !isSpinning
      ensures currentIndex == StopIndex(tickRolls)
      ensures selectedPenaltyIndex == Some(PickedAsWritten(old(currentIndex), tickRolls))
      ensures store.penalties ==
                Committed(old(store.penalties), store.players, old(currentIndex), targetRoll, freshId)
      ensures selectedPenalty == Some(store.penalties[|store.penalties| - 1])
      ensures home != null ==>
                && home.penaltySelected
                && home.showTieBreaker == old(home.showTieBreaker) && home.showWheel == old(home.showWheel)
    {
      isSpinning := true;
      selectedPenalty := None;
      selectedPenaltyIndex := None;
      var startIndex := currentIndex;
      ghost var before := store.penalties;
      Animate(WheelCycles(cycleRoll), tickRolls);
      Commit(startIndex, targetRoll, freshId);
      ghost var after := store.penalties;
      assert after == Committed(before, store.players, startIndex, targetRoll, freshId);
      isSpinning := false;
      NotifySelected(home);
      assert store.penalties == after;
    }

    /** `onPenaltySelected?.()`: the page, when there is one, marks the penalty as chosen. */
    method NotifySelected(home: Page.Home?)
      modifies home
      ensures home != null ==>
                && home.penaltySelected
                && home.showTieBreaker == old(home.showTieBreaker) && home.showWheel == old(home.showWheel)
    {
      if home != null {
        home.HandlePenaltySelected();
      }
    }

    /** The ticks of `animate`: each one highlights the entry its roll picks. */
    method Animate(maxCycles: nat, tickRolls: seq<real>)
      requires Valid() && maxCycles > 0 && |tickRolls| == maxCycles
      requires forall k :: 0 <= k < |tickRolls| ==> 0.0 <= tickRolls[k] < 1.0
      modifies this`currentIndex
      ensures Valid() && currentIndex == StopIndex(tickRolls)
    {
      var cycles := 0;
      while cycles < maxCycles
        invariant 0 <= cycles <= maxCycles
        invariant currentIndex < |DefaultPenalties|
        invariant cycles > 0 ==> currentIndex == TickIndex(tickRolls[cycles - 1])
      {
        currentIndex := TickIndex(tickRolls[cycles]);
        cycles := cycles + 1;
      }
    }

    /**
     * The last step of `animate`: a new penalty from catalog entry `index`, aimed
     * at a drawn leader, is appended to the store and becomes the selection.
     */
    method Commit(index: nat, targetRoll: real, freshId: string)
      requires Valid() && index < |DefaultPenalties| && 0.0 <= targetRoll < 1.0
      modifies this`selectedPenalty, this`selectedPenaltyIndex, store`penalties
      ensures Valid()
      ensures selectedPenaltyIndex == Some(index)
      ensures store.penalties == Committed(old(store.penalties), store.players, index, targetRoll, freshId)
      ensures selectedPenalty == Some(store.penalties[|store.penalties| - 1])
    {
      var leaders := DetermineLeaders(store.players);
      var target := DrawTarget(leaders, targetRoll);
      var newPenalty := NewPenalty(DefaultPenalties[index], freshId, target);
      store.penalties := store.penalties + [newPenalty];
      selectedPenalty := Some(newPenalty);
      selectedPenaltyIndex := Some(index);
    }
  }
}
