/**
 * components/TieBreaker.tsx: a spin among the tied leaders. Each tick moves the
 * highlight one player on (wrapping round); when the ticks end, the player at
 * the index read from the spin's closure becomes the selection, which a
 * confirm button hands to the page.
 */
module TieBreaker {
  import opened Wrappers
  import opened JsBuiltins
  import opened Atoms
  import Page

  /** `12 + Math.floor(Math.random() * 8)`. */
  function TieCycles(roll: real): (cycles: nat)
    requires 0.0 <= roll < 1.0
    ensures 12 <= cycles <= 19
  {
    12 + RandomIndex(roll, 8)
  }

  /** Every tick count from 12 to 19 comes out of some draw. */
  lemma TieCyclesReachesAll(cycles: nat)
    requires 12 <= cycles <= 19
    ensures exists roll :: 0.0 <= roll < 1.0 && TieCycles(roll) == cycles
  {
    RandomIndexReachesAll(8, cycles - 12);
    var roll :| 0.0 <= roll < 1.0 && RandomIndex(roll, 8) == cycles - 12;
    assert TieCycles(roll) == cycles;
  }

  /** The highlight after `cycles` ticks of `(prev + 1) % n` from `start`. */
  function HighlightAfter(start: nat, n: nat, cycles: nat): (i: nat)
    requires n > 0
    ensures cycles > 0 ==> i < n
  {
    if cycles == 0 then start else (start + cycles) % n
  }

  lemma TickStep(start: nat, n: nat, cycles: nat)
    requires n > 0
    ensures (HighlightAfter(start, n, cycles) + 1) % n == HighlightAfter(start, n, cycles + 1)
  {
    if cycles > 0 {
      var a := start + cycles;
      assert a == (a / n) * n + a % n;
      assert a + 1 == (a / n) * n + (a % n + 1);
      ModOfShift(a % n + 1, a / n, n);
    }
  }

  lemma ModOfShift(r: int, q: int, n: int)
    requires n > 0
    ensures (q * n + r) % n == r % n
  {
    var x := q * n + r;
    assert x == (x / n) * n + x % n;
    assert r == (r / n) * n + r % n;
    var d := x / n - q - r / n;
    assert d * n == r % n - x % n;
  }

  lemma DivMod(x: int, n: int)
    requires n > 0
    ensures x == (x / n) * n + x % n && 0 <= x % n < n
  {
  }

  lemma ModOfSubtract(k: int, q: int, n: int)
    requires n > 0
    ensures (k - q * n) % n == k % n
  {
    assert (-q) * n == -(q * n);
    ModOfShift(k, -q, n);
  }

  /** From any start, `12 + (k - start - 12) % n` ticks end on index `k`. */
  lemma TicksLandingOn(start: nat, k: nat, n: nat)
    requires 0 < n && k < n
    ensures 12 <= 12 + (k - start - 12) % n < 12 + n
    ensures (start + 12 + (k - start - 12) % n) % n == k
  {
    var diff := k - start - 12;
    DivMod(diff, n);
    ModOfSubtract(k, diff / n, n);
    DivMod(k, n);
    assert k / n == 0;
    assert start + 12 + diff % n == k - (diff / n) * n;
  }

  /**
   * The winner as written: the player at the index the closure read when the
   * spin began, or none if that index is past the list.
   */
  function WinnerAsWritten(tiedPlayers: seq<Player>, start: nat): (winner: Option<Player>)
    ensures winner.Some? <==> start < |tiedPlayers|
    ensures winner.Some? ==> winner.value == tiedPlayers[start]
  {
    if start < |tiedPlayers| then Some(tiedPlayers[start]) else None
  }

  /** The winner evidently intended: the player the highlight stops on. */
  function WinnerIntended(tiedPlayers: seq<Player>, start: nat, roll: real): (winner: Player)
    requires |tiedPlayers| > 0 && 0.0 <= roll < 1.0
    ensures winner in tiedPlayers
  {
    tiedPlayers[HighlightAfter(start, |tiedPlayers|, TieCycles(roll))]
  }

  /**
   * As written, a fresh tie-breaker (highlight 0) always selects the first tied
   * player: with two tied players and the draw 0.125 the spin takes 13 ticks,
   * stops on the second player, and still selects the first.
   */
  lemma FreshTieBreakerAlwaysPicksFirst(tiedPlayers: seq<Player>, roll: real)
    requires |tiedPlayers| > 0 && 0.0 <= roll < 1.0
    ensures WinnerAsWritten(tiedPlayers, 0) == Some(tiedPlayers[0])
    ensures |tiedPlayers| == 2 ==>
              && TieCycles(0.125) == 13
              && HighlightAfter(0, 2, TieCycles(0.125)) == 1
              && WinnerIntended(tiedPlayers, 0, 0.125) == tiedPlayers[1]
  {
    assert 0.125 * 8 as real == 1.0;
  }

  /**
   * Corrected, with at most eight tied players, whatever the starting
   * highlight, every tied player can win.
   */
  lemma IntendedWinnerReachesAll(tiedPlayers: seq<Player>, start: nat, k: nat)
    requires 0 < |tiedPlayers| <= 8 && k < |tiedPlayers|
    ensures exists roll :: 0.0 <= roll < 1.0 && WinnerIntended(tiedPlayers, start, roll) == tiedPlayers[k]
  {
    var n := |tiedPlayers|;
    var cycles := 12 + (k - start - 12) % n;
    TicksLandingOn(start, k, n);
    TieCyclesReachesAll(cycles);
    var roll :| 0.0 <= roll < 1.0 && TieCycles(roll) == cycles;
    assert HighlightAfter(start, n, cycles) == k;
    assert WinnerIntended(tiedPlayers, start, roll) == tiedPlayers[k];
  }

  class TieBreaker {
    var tiedPlayers: seq<Player>
    var isSpinning: bool
    var selectedPlayer: Option<Player>
    var currentIndex: nat

    constructor (tiedPlayers: seq<Player>)
      ensures this.tiedPlayers == tiedPlayers
      ensures !isSpinning && selectedPlayer == None && currentIndex == 0
    {
      this.tiedPlayers := tiedPlayers;
      isSpinning := false;
      selectedPlayer := None;
      currentIndex := 0;
    }

    /**
     * `spinWheel`: clears the selection, runs `TieCycles(cycleRoll)` ticks of
     * `(prev + 1) % n`, then selects the player at the index the closure read
     * when the spin began. The page only shows it for two or more tied players.
     */
    method SpinWheel(cycleRoll: real)
      requires |tiedPlayers| > 0 && 0.0 <= cycleRoll < 1.0
      modifies this`isSpinning, this`selectedPlayer, this`currentIndex
      ensures !isSpinning
      ensures currentIndex == HighlightAfter(old(currentIndex), |tiedPlayers|, TieCycles(cycleRoll))
      ensures currentIndex < |tiedPlayers|
      ensures selectedPlayer == WinnerAsWritten(tiedPlayers, old(currentIndex))
    {
      isSpinning := true;
      selectedPlayer := None;
      var startIndex := currentIndex;
      var n := |tiedPlayers|;
      var maxCycles := TieCycles(cycleRoll);
      var cycles := 0;
      while cycles < maxCycles
        invariant 0 <= cycles <= maxCycles
        invariant currentIndex == HighlightAfter(startIndex, n, cycles)
        invariant selectedPlayer == None && isSpinning
      {
        TickStep(startIndex, n, cycles);
        currentIndex := (currentIndex + 1) % n;
        cycles := cycles + 1;
      }
      selectedPlayer := if startIndex < n then Some(tiedPlayers[startIndex]) else None;
      isSpinning := false;
    }

    /** `confirmSelection`: the page's callback runs only once a player is selected. */
    method ConfirmSelection(home: Page.Home) returns (invoked: bool)
      modifies home
      ensures invoked <==> selectedPlayer.Some?
      ensures invoked ==> home.Snapshot() == Page.TieBreakerCompleteStep(old(home.Snapshot()))
      ensures !invoked ==> home.Snapshot() == old(home.Snapshot())
    {
      if selectedPlayer.Some? {
        home.HandleTieBreakerComplete();
        return true;
      }
      return false;
    }
  }
}
