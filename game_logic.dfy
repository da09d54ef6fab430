/**
 * lib/gameLogic.ts: who leads, whether the penalty wheel is due, the leader
 * message, and a random pick among the leaders. Golf scoring: the lowest
 * positive total leads; a total of 0 or less means "no score" and never leads.
 */
module GameLogic {
  import opened Wrappers
  import opened Seqs
  import opened JsBuiltins
  import opened Atoms

  predicate HasPositiveTotal(p: Player) {
    p.totalStrokes > 0
  }

  /** `Math.min(...players.map(p => p.totalStrokes))` on a non-empty list. */
  function MinTotal(players: seq<Player>): (m: int)
    requires |players| > 0
    ensures forall i :: 0 <= i < |players| ==> m <= players[i].totalStrokes
    ensures exists i :: 0 <= i < |players| && players[i].totalStrokes == m
  {
    if |players| == 1 then players[0].totalStrokes
    else
      var rest := MinTotal(players[1..]);
      assert forall i :: 1 <= i < |players| ==> players[i] == players[1..][i - 1];
      if players[0].totalStrokes <= rest then players[0].totalStrokes else rest
  }

  /**
   * `determineLeaders`: the players with a positive total equal to the lowest
   * positive total, in roster order; empty when nobody has a positive total.
   */
  function DetermineLeaders(players: seq<Player>): seq<Player> {
    if |players| == 0 then []
    else
      var withScores := Filter(players, HasPositiveTotal);
      if |withScores| == 0 then []
      else
        var lowest := MinTotal(withScores);
        Filter(withScores, HasTotal(lowest))
  }

  /** The test `p => p.totalStrokes === t`. */
  function HasTotal(t: int): Player -> bool {
    (p: Player) => p.totalStrokes == t
  }

  /** The reference definition: a positive total no other positive total undercuts. */
  predicate IsLeader(p: Player, players: seq<Player>) {
    && p.totalStrokes > 0
    && forall i :: 0 <= i < |players| && players[i].totalStrokes > 0 ==> p.totalStrokes <= players[i].totalStrokes
  }

  /** The test `p => IsLeader(p, players)`. */
  function LeaderIn(players: seq<Player>): Player -> bool {
    (p: Player) => IsLeader(p, players)
  }

  /** The lowest positive total is positive, is some player's total, and undercuts every positive total. */
  lemma LowestPositiveTotal(players: seq<Player>)
    requires |Filter(players, HasPositiveTotal)| > 0
    ensures var lowest := MinTotal(Filter(players, HasPositiveTotal));
            && lowest > 0
            && (exists j :: 0 <= j < |players| && players[j].totalStrokes == lowest)
            && forall j :: 0 <= j < |players| && players[j].totalStrokes > 0 ==> lowest <= players[j].totalStrokes
  {
    var withScores := Filter(players, HasPositiveTotal);
    var lowest := MinTotal(withScores);
    var k :| 0 <= k < |withScores| && withScores[k].totalStrokes == lowest;
    assert withScores[k] in players && HasPositiveTotal(withScores[k]);
    forall j | 0 <= j < |players| && players[j].totalStrokes > 0
      ensures lowest <= players[j].totalStrokes
    {
      assert HasPositiveTotal(players[j]);
      var m :| 0 <= m < |withScores| && withScores[m] == players[j];
    }
  }

  /** With a positive total around, being at the lowest positive total is being a leader. */
  lemma AtLowestIsLeader(players: seq<Player>, p: Player)
    requires |Filter(players, HasPositiveTotal)| > 0 && p in players
    ensures (p.totalStrokes > 0 && p.totalStrokes == MinTotal(Filter(players, HasPositiveTotal))) == IsLeader(p, players)
  {
    var lowest := MinTotal(Filter(players, HasPositiveTotal));
    LowestPositiveTotal(players);
    if IsLeader(p, players) {
      var j :| 0 <= j < |players| && players[j].totalStrokes == lowest;
      assert p.totalStrokes <= players[j].totalStrokes;
    }
  }

  /** `determineLeaders` is exactly the roster filtered by the reference definition. */
  lemma LeadersMatchReference(players: seq<Player>)
    ensures DetermineLeaders(players) == Filter(players, LeaderIn(players))
  {
    var reference := LeaderIn(players);
    var withScores := Filter(players, HasPositiveTotal);
    if |players| == 0 {
    } else if |withScores| == 0 {
      var r := Filter(players, reference);
      if |r| > 0 {
        assert r[0] in players && HasPositiveTotal(r[0]);
        assert false;
      }
    } else {
      var lowest := MinTotal(withScores);
      var atLowest := HasTotal(lowest);
      var both := And(HasPositiveTotal, atLowest);
      FilterCompose(players, HasPositiveTotal, atLowest);
      forall i | 0 <= i < |players| ensures both(players[i]) == reference(players[i]) {
        AtLowestIsLeader(players, players[i]);
      }
      FilterExtensional(players, both, reference);
      assert DetermineLeaders(players) == Filter(withScores, atLowest);
    }
  }

  /** There are no leaders exactly when no player has a positive total (an empty roster included). */
  lemma LeadersEmptyIff(players: seq<Player>)
    ensures DetermineLeaders(players) == [] <==> forall i :: 0 <= i < |players| ==> players[i].totalStrokes <= 0
  {
    LeadersMatchReference(players);
    var leaders := DetermineLeaders(players);
    if leaders != [] {
      assert leaders[0] in players && IsLeader(leaders[0], players);
    }
    if exists i :: 0 <= i < |players| && players[i].totalStrokes > 0 {
      var i :| 0 <= i < |players| && players[i].totalStrokes > 0;
      assert HasPositiveTotal(players[i]);
      assert players[i] in Filter(players, HasPositiveTotal);
      LowestPositiveTotal(players);
      var j :| 0 <= j < |players| && players[j].totalStrokes == MinTotal(Filter(players, HasPositiveTotal));
      assert LeaderIn(players)(players[j]);
      assert players[j] in leaders;
    }
  }

  /**
   * Every leader is a roster member with a positive total that no positive total
   * undercuts, all leaders share one total, and every player at that total is a leader.
   */
  lemma LeadersAreTheLowestPositive(players: seq<Player>)
    ensures forall l :: l in DetermineLeaders(players) ==> l in players && IsLeader(l, players)
    ensures forall i :: 0 <= i < |players| && IsLeader(players[i], players) ==> players[i] in DetermineLeaders(players)
    ensures forall l, m :: l in DetermineLeaders(players) && m in DetermineLeaders(players) ==> l.totalStrokes == m.totalStrokes
  {
    LeadersMatchReference(players);
    var leaders := DetermineLeaders(players);
    forall l | l in leaders ensures l in players && IsLeader(l, players) {
      var a :| 0 <= a < |leaders| && leaders[a] == l;
      assert LeaderIn(players)(leaders[a]);
    }
    forall l, m | l in leaders && m in leaders ensures l.totalStrokes == m.totalStrokes {
      LeadersTie(players, l, m);
    }
  }

  /** Two leaders of the same roster have the same total. */
  lemma LeadersTie(players: seq<Player>, l: Player, m: Player)
    requires l in players && m in players && IsLeader(l, players) && IsLeader(m, players)
    ensures l.totalStrokes == m.totalStrokes
  {
    var i :| 0 <= i < |players| && players[i] == l;
    var j :| 0 <= j < |players| && players[j] == m;
    assert l.totalStrokes <= players[j].totalStrokes && m.totalStrokes <= players[i].totalStrokes;
  }

  /** The leaders keep their roster order: the result is a subsequence of the roster. */
  lemma LeadersKeepRosterOrder(players: seq<Player>)
    ensures IsSubsequence(DetermineLeaders(players), players)
  {
    LeadersMatchReference(players);
    FilterIsSubsequence(players, LeaderIn(players));
  }

  /** `shouldShowPenaltyWheel`: someone leads and the first hole is over. */
  function ShouldShowPenaltyWheel(players: seq<Player>, currentHole: int): (show: bool)
    ensures show <==> currentHole > 1 && exists i :: 0 <= i < |players| && players[i].totalStrokes > 0
  {
    LeadersEmptyIff(players);
    |DetermineLeaders(players)| > 0 && currentHole > 1
  }

  const NoScoresMessage: string := "No scores yet"

  /**
   * `getLeaderMessage`: "No scores yet" when nobody leads; "<name> is leading
   * with <n> strokes" for one leader; "<names> are tied for the lead with <n>
   * strokes" for several, <n> being the first leader's total.
   */
  function GetLeaderMessage(players: seq<Player>): string {
    LeadersMessage(DetermineLeaders(players))
  }

  /** The text `getLeaderMessage` builds from the list of leaders. */
  function LeadersMessage(leaders: seq<Player>): string {
    if |leaders| == 0 then NoScoresMessage
    else if |leaders| == 1 then
      leaders[0].name + " is leading with " + TotalText(leaders[0])
    else
      Join(Names(leaders), ", ") + " are tied for the lead with " + TotalText(leaders[0])
  }

  function Names(players: seq<Player>): (names: seq<string>)
    ensures |names| == |players|
    ensures forall i :: 0 <= i < |players| ==> names[i] == players[i].name
  {
    seq(|players|, i requires 0 <= i < |players| => players[i].name)
  }

  /** "<n> strokes" for a player's total. */
  function TotalText(p: Player): string {
    IntToString(p.totalStrokes) + " strokes"
  }

  /**
   * The message says "No scores yet" exactly when nobody has a positive total;
   * otherwise it reads "is leading with" for one leader and "are tied for the
   * lead with" after the joined names for several, and in both cases starts
   * with the first leader's name and ends with that leader's total.
   */
  lemma LeaderMessageCases(players: seq<Player>)
    ensures GetLeaderMessage(players) == NoScoresMessage <==> forall i :: 0 <= i < |players| ==> players[i].totalStrokes <= 0
    ensures |DetermineLeaders(players)| == 1 ==>
              GetLeaderMessage(players)
              == DetermineLeaders(players)[0].name + " is leading with " + TotalText(DetermineLeaders(players)[0])
    ensures |DetermineLeaders(players)| > 1 ==>
              GetLeaderMessage(players)
              == Join(Names(DetermineLeaders(players)), ", ") + " are tied for the lead with " + TotalText(DetermineLeaders(players)[0])
    ensures DetermineLeaders(players) != [] ==>
              && |GetLeaderMessage(players)| >= |DetermineLeaders(players)[0].name| + |TotalText(DetermineLeaders(players)[0])|
              && GetLeaderMessage(players)[..|DetermineLeaders(players)[0].name|] == DetermineLeaders(players)[0].name
              && GetLeaderMessage(players)[|GetLeaderMessage(players)| - |TotalText(DetermineLeaders(players)[0])|..]
                 == TotalText(DetermineLeaders(players)[0])
  {
    LeadersEmptyIff(players);
    var leaders := DetermineLeaders(players);
    if |leaders| > 0 {
      MessageStartsAndEnds(leaders);
    }
  }

  /** A message about at least one leader starts with the first one's name and ends with their total. */
  lemma MessageStartsAndEnds(leaders: seq<Player>)
    requires |leaders| > 0
    ensures |LeadersMessage(leaders)| > |NoScoresMessage|
    ensures |LeadersMessage(leaders)| >= |leaders[0].name| + |TotalText(leaders[0])|
    ensures LeadersMessage(leaders)[..|leaders[0].name|] == leaders[0].name
    ensures LeadersMessage(leaders)[|LeadersMessage(leaders)| - |TotalText(leaders[0])|..] == TotalText(leaders[0])
  {
    var first := leaders[0];
    var tail := TotalText(first);
    var head := if |leaders| == 1 then first.name else Join(Names(leaders), ", ");
    var middle := if |leaders| == 1 then " is leading with " else " are tied for the lead with ";
    assert LeadersMessage(leaders) == head + middle + tail;
    assert head[..|first.name|] == first.name;
  }

  /** With several leaders the message is their joined names, the tie wording and the total. */
  lemma TiedMessageShape(leaders: seq<Player>)
    requires |leaders| > 1
    ensures LeadersMessage(leaders) == Join(Names(leaders), ", ") + " are tied for the lead with " + TotalText(leaders[0])
  {
  }

  /** A tied message names every leader: the `i`-th leader's name sits at its place in the joined list. */
  lemma TiedMessageNamesEveryLeader(leaders: seq<Player>, i: nat)
    requires |leaders| > 1 && i < |leaders|
    ensures Offset(Names(leaders), ", ", i) + |leaders[i].name| <= |LeadersMessage(leaders)|
    ensures LeadersMessage(leaders)[Offset(Names(leaders), ", ", i)..Offset(Names(leaders), ", ", i) + |leaders[i].name|]
            == leaders[i].name
  {
    TiedMessageShape(leaders);
    JoinedTextPlacesName(Names(leaders), ", ", LeadersMessage(leaders), " are tied for the lead with ", TotalText(leaders[0]), i);
  }

  /** In a tied message every leader's name but the first comes right after ", ". */
  lemma TiedMessageSeparatesLeaders(leaders: seq<Player>, i: nat)
    requires 1 <= i < |leaders|
    ensures 2 <= Offset(Names(leaders), ", ", i) <= |LeadersMessage(leaders)|
    ensures LeadersMessage(leaders)[Offset(Names(leaders), ", ", i) - 2..Offset(Names(leaders), ", ", i)] == ", "
  {
    TiedMessageShape(leaders);
    JoinedTextPlacesSep(Names(leaders), ", ", LeadersMessage(leaders), " are tied for the lead with ", TotalText(leaders[0]), i);
  }

  /** In a joined list followed by any text, the `i`-th string sits at its offset. */
  lemma JoinedTextPlacesName(names: seq<string>, sep: string, text: string, middle: string, tail: string, i: nat)
    requires i < |names| && text == Join(names, sep) + middle + tail
    ensures Offset(names, sep, i) + |names[i]| <= |text|
    ensures text[Offset(names, sep, i)..Offset(names, sep, i) + |names[i]|] == names[i]
  {
    var o := Offset(names, sep, i);
    JoinPlacesString(names, sep, i);
    PieceOfPrefix(Join(names, sep), middle, tail, o, o + |names[i]|, names[i]);
  }

  /** In a joined list followed by any text, `sep` comes right before every string but the first. */
  lemma JoinedTextPlacesSep(names: seq<string>, sep: string, text: string, middle: string, tail: string, i: nat)
    requires 1 <= i < |names| && text == Join(names, sep) + middle + tail
    ensures |sep| <= Offset(names, sep, i) <= |text|
    ensures text[Offset(names, sep, i) - |sep|..Offset(names, sep, i)] == sep
  {
    var o := Offset(names, sep, i);
    JoinPlacesSep(names, sep, i);
    PieceOfPrefix(Join(names, sep), middle, tail, o - |sep|, o, sep);
  }

  /** A piece of `head` stays where it is once more text follows. */
  lemma PieceOfPrefix(head: string, middle: string, tail: string, lo: nat, hi: nat, piece: string)
    requires lo <= hi <= |head| && head[lo..hi] == piece
    ensures hi <= |head + middle + tail| && (head + middle + tail)[lo..hi] == piece
  {
    SliceOfFront(head + middle, tail, lo, hi);
    SliceOfFront(head, middle, lo, hi);
  }

  /** The count the message quotes parses back to the leaders' shared total. */
  lemma LeaderMessageQuotesTotal(players: seq<Player>)
    requires DetermineLeaders(players) != []
    ensures var leaders := DetermineLeaders(players);
            forall l :: l in leaders ==> ParseInt(IntToString(leaders[0].totalStrokes)) == Some(l.totalStrokes)
  {
    var leaders := DetermineLeaders(players);
    LeadersAreTheLowestPositive(players);
    ParseIntOfIntToString(leaders[0].totalStrokes);
  }

  /** `getRandomLeader`: null for no leaders, else `leaders[Math.floor(roll * n)]`. */
  function GetRandomLeader(leaders: seq<Player>, roll: real): (pick: Option<Player>)
    requires 0.0 <= roll < 1.0
    ensures pick.None? <==> |leaders| == 0
    ensures pick.Some? ==> pick.value in leaders
  {
    if |leaders| == 0 then None else Some(leaders[RandomIndex(roll, |leaders|)])
  }

  /** Every leader is the pick for some draw. */
  lemma GetRandomLeaderReachesAll(leaders: seq<Player>, k: nat)
    requires k < |leaders|
    ensures exists roll :: 0.0 <= roll < 1.0 && GetRandomLeader(leaders, roll) == Some(leaders[k])
  {
    RandomIndexReachesAll(|leaders|, k);
    var roll :| 0.0 <= roll < 1.0 && RandomIndex(roll, |leaders|) == k;
    assert GetRandomLeader(leaders, roll) == Some(leaders[k]);
  }
}
