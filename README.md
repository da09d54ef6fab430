# Party golf: the game-session engine in Dafny

This project models the game-session engine of a party crazy-golf scorer, a
Next.js page written in TypeScript. Players are added on a setup screen. Each
hole, every player types a stroke count. After each hole the lowest positive
total leads. A tie between leaders is settled by a spinning tie-breaker, and a
spinning penalty wheel then gives the leader a drinking-game penalty. Penalties
last one shot, one hole or the whole game. They are completed by hand. When play moves to the
next hole, completed shot and hole penalties are swept away and persistent ones
stay, completed or not.

The model follows the program's own structure, one module per source file:

- `Atoms` holds the records and the three shared atoms (`lib/atoms.ts`). The
  `Store` class stands for the atoms; every component holds a reference to it.
- `GameLogic` holds the pure leaderboard functions (`lib/gameLogic.ts`).
- `PlayerManagement`, `ScoreEntry`, `ActivePenalties`, `PenaltyWheel`,
  `TieBreaker`, `Scoreboard` and `GameManager` model the React components. Each
  component is a class over the store plus its own local state, and each
  handler is a method.
- `Page` models the page (`app/page.tsx`). Every event handler is a pure step
  function on a `Session` record, which holds the three atoms and the page's
  three flags. The `Home` class's methods are proved to take exactly those
  steps. A session invariant `Consistent` is proved to be kept by every handler
  when it fires from the screen that shows its control.
- `JsBuiltins` gives the JavaScript built-ins the code relies on: `trim`,
  `parseInt`, `String(n)`, `join`, and `Math.floor(Math.random() * n)`.
  `Seqs` holds `filter` and its lemmas, and `Wrappers` holds `Option`.

Every `Math.random()` outcome is a parameter: a `real` in [0, 1). Ids made from
`Date.now()` or `Math.random()` are passed in as a `freshId` parameter. The
animation timers become plain loops.

Where the design description and the code disagree, the model follows the code:

- A stroke count of zero or a negative count is stored, not rejected. Only text
  with no leading integer becomes 0 (`ScoreEntry.StrokesNumberKeepsEveryInteger`).
- The tie-breaker's chosen player is thrown away by the page
  (`app/page.tsx:110-114`). The wheel draws its target afresh among all leaders
  (`components/PenaltyWheel.tsx:165-169`).
- The wheel's pick and the tie-breaker's pick are not the entry the animation
  stops on (see Findings).
- The scoreboard's crown requires a positive lowest total
  (`Scoreboard.RowsSpec`), and it agrees with `determineLeaders` then
  (`Scoreboard.CrownedRowLeads`).

## Model

| member | source | states |
|---|---|---|
| GameLogic.MinTotal | lib/gameLogic.ts:9 | the minimum is some player's total and no total in the list is lower |
| GameLogic.LowestPositiveTotal | lib/gameLogic.ts:6-9 | with a positive total present, the lowest positive total is positive, is some player's total, and no positive total is lower |
| GameLogic.AtLowestIsLeader | lib/gameLogic.ts:9-10 | a roster player has a positive total equal to the lowest positive total exactly when the reference definition calls them a leader |
| GameLogic.LeadersMatchReference | lib/gameLogic.ts:3-11 | determineLeaders equals the roster filtered by an independent "positive and no positive total is lower" test |
| GameLogic.LeadersEmptyIff | lib/gameLogic.ts:4-7 | there are no leaders exactly when no player has a positive total |
| GameLogic.LeadersAreTheLowestPositive | lib/gameLogic.ts:6-10 | every leader is on the roster and leads by the reference definition, every such player is returned, and all leaders share one total |
| GameLogic.LeadersKeepRosterOrder | lib/gameLogic.ts:10 | the leaders are a subsequence of the roster, so roster order is kept |
| GameLogic.ShouldShowPenaltyWheel | lib/gameLogic.ts:13-16 | the wheel is due exactly when the hole is past 1 and some player has a positive total |
| GameLogic.Names | lib/gameLogic.ts:24 | the names of the leaders, position by position |
| GameLogic.LeaderMessageCases | lib/gameLogic.ts:18-26 | "No scores yet" exactly when no player has a positive total; one leader gives "<name> is leading with <total> strokes"; several give their names joined by ", ", then " are tied for the lead with " and the first leader's total; every message about leaders starts with the first leader's name and ends with their total |
| GameLogic.TiedMessageNamesEveryLeader | lib/gameLogic.ts:24-25 | in a tied message every leader's name appears, at its place in the joined list |
| GameLogic.TiedMessageSeparatesLeaders | lib/gameLogic.ts:24-25 | in a tied message every leader's name but the first comes right after ", " |
| GameLogic.LeaderMessageQuotesTotal | lib/gameLogic.ts:22-25 | the count the message quotes reads back as the total every leader shares |
| GameLogic.GetRandomLeader | lib/gameLogic.ts:28-32 | none for an empty list, otherwise one of the leaders |
| GameLogic.GetRandomLeaderReachesAll | lib/gameLogic.ts:28-32 | every leader is picked by some random draw |
| JsBuiltins.TrimIsCore | components/PlayerManagement.tsx:13 | the trimmed name is a contiguous piece of the input with no whitespace at either end |
| JsBuiltins.TrimEmptyIff | components/PlayerManagement.tsx:13 | a string trims to empty exactly when it is all whitespace |
| JsBuiltins.ParseInt | components/ScoreEntry.tsx:18 | parseInt gives NaN (none) exactly when no digit follows the leading whitespace and an optional sign |
| JsBuiltins.ParseIntOfIntToString | components/ScoreEntry.tsx:18 | parseInt reads back every integer written in decimal |
| JsBuiltins.Join | lib/gameLogic.ts:24 | the join of no string is empty, of one string is that string, and otherwise starts with the first string |
| JsBuiltins.JoinLength | lib/gameLogic.ts:24 | a join is as long as its strings together plus one separator per gap |
| JsBuiltins.JoinPlacesString | lib/gameLogic.ts:24 | every string sits in the join at its offset: the strings before it, each followed by the separator |
| JsBuiltins.JoinPlacesSep | lib/gameLogic.ts:24 | the separator comes right before every string but the first |
| JsBuiltins.RandomIndex | lib/gameLogic.ts:30 | floor(random * n) is an index below n |
| JsBuiltins.RandomIndexReachesAll | lib/gameLogic.ts:30 | every index below n comes out of some random draw |
| Atoms.Store.constructor | lib/atoms.ts:31-39 | the atoms start with no players, no penalties, and hole 1 of 18 in setup, not active, with no leader |
| PlayerManagement.WriteScore | components/PlayerManagement.tsx:32-33 | the write lands at the hole index, the list grows with holes to reach it, and every other entry is kept |
| PlayerManagement.SumAfterWrite | components/PlayerManagement.tsx:32-37 | the sum after a write moves by the new strokes minus the old score |
| PlayerManagement.WritesCommute | components/PlayerManagement.tsx:32-33 | writes to two different holes commute |
| PlayerManagement.LastWriteWins | components/PlayerManagement.tsx:32-33 | a second write to the same hole replaces the first |
| PlayerManagement.RescoreTotal | components/PlayerManagement.tsx:34-38 | a rescored player keeps id and name, and the total is the sum of the new list and moves by the difference |
| PlayerManagement.UpdatedRoster | components/PlayerManagement.tsx:30-41 | only the players with the id are rescored, and every other player is kept |
| PlayerManagement.UpdateKeepsTotalsConsistent | components/PlayerManagement.tsx:30-41 | a score update keeps every total equal to its sum, and an unknown id changes nothing |
| PlayerManagement.NewPlayer | components/PlayerManagement.tsx:14-19 | a new player has the trimmed name, no scores and total 0 |
| PlayerManagement.AddedRoster | components/PlayerManagement.tsx:13-20 | a blank name leaves the roster alone; otherwise the new player is appended after the unchanged roster |
| PlayerManagement.AddRefusesBlankNames | components/PlayerManagement.tsx:13-20 | the roster is unchanged exactly when the name is all whitespace; an added name is non-empty and trimmed; totals stay consistent |
| PlayerManagement.RemoveByIdSpec | components/PlayerManagement.tsx:25-27 | removal drops exactly the players with the id, keeps every copy of the rest in order, is a no-op for an absent id and is idempotent |
| PlayerManagement.PlayerManagement.EditName | components/PlayerManagement.tsx:50 | the name input holds the typed text |
| PlayerManagement.PlayerManagement.AddPlayer | components/PlayerManagement.tsx:12-23 | the roster becomes AddedRoster, and the input is cleared only when a player was added |
| PlayerManagement.PlayerManagement.RemovePlayer | components/PlayerManagement.tsx:25-27 | the roster becomes RemoveById |
| PlayerManagement.PlayerManagement.UpdatePlayerScore | components/PlayerManagement.tsx:29-42 | the roster becomes UpdatedRoster, and totals stay consistent |
| ScoreEntry.StrokesNumberKeepsEveryInteger | components/ScoreEntry.tsx:18 | every integer typed in is stored as typed, zero and negatives included; text with no leading integer gives 0 |
| ScoreEntry.EntryWritesCurrentHole | components/ScoreEntry.tsx:17-32 | the matching player holds the parsed strokes at index currentHole - 1 with a consistent total; everyone else is unchanged |
| ScoreEntry.ScoreEntryForm.UpdateScore | components/ScoreEntry.tsx:13-33 | the raw text is stored under the player id, the roster is updated at the current hole, and totals stay consistent |
| ActivePenalties.ActiveOnlySpec | components/ActivePenalties.tsx:12 | the panel shows exactly the active penalties, in order, every copy of each |
| ActivePenalties.FindPlayer | components/ActivePenalties.tsx:16 | none exactly when no player has the id; otherwise the first player with it |
| ActivePenalties.GetPlayerNameCases | components/ActivePenalties.tsx:14-18 | "Current Leader" for the placeholder id, the first match's name, or "Unknown Player" for a missing player or an empty name |
| ActivePenalties.TargetLabelCases | components/ActivePenalties.tsx:100 | a penalty without a target reads "Unknown Player" unless a player has the empty id; one aimed at a player reads the first such player's name, or "Unknown Player" when that name is empty |
| ActivePenalties.RemovedTargetIsUnknown | components/ActivePenalties.tsx:14-18 | after the target player is removed, the penalty shows "Unknown Player" |
| ActivePenalties.Completed | components/ActivePenalties.tsx:20-24 | every penalty with the id becomes inactive, and everything else is kept |
| ActivePenalties.CompleteSpec | components/ActivePenalties.tsx:20-24 | completing hides exactly the penalties with the id from the panel; it is idempotent and a no-op for an absent id |
| ActivePenalties.ClearExpiredSpec | components/ActivePenalties.tsx:26-35 | clearing keeps exactly the active persistent penalties, in order and every copy of each; it is idempotent and leaves only penalties the panel shows |
| ActivePenalties.ActivePenaltiesPanel.CompletePenalty | components/ActivePenalties.tsx:20-24 | the penalties become Completed, and the shown list loses exactly the completed penalty |
| ActivePenalties.ActivePenaltiesPanel.ClearExpiredPenalties | components/ActivePenalties.tsx:26-35 | the penalties become ClearExpired, all of which the panel shows |
| Page.NeedsTieBreakerIff | app/page.tsx:29-30 | a tie-break is needed exactly when two roster positions both lead |
| Page.ValidScoresMeanALeader | app/page.tsx:67-79 | with consistent totals and no negative count, an accepted submission always has a leader |
| Page.NextHoleSweepSpec | app/page.tsx:143-152 | the sweep keeps order, is idempotent, keeps every copy of each persistent or active penalty and nothing else, and changes neither the panel nor what clearing would keep |
| Page.HolesFromInputCases | app/page.tsx:241-245 | a non-zero count is stored as typed; 0 and text without digits give 18; the count is never 0 |
| Page.StartGameStep | app/page.tsx:53-65 | refused below two players; otherwise active, hole 1, score entry |
| Page.SubmitScoresStep | app/page.tsx:67-92 | refused with no positive count for the hole; otherwise the penalty phase if someone leads, else game over on the last hole, else the next hole |
| Page.ResetGameStep | app/page.tsx:94-108 | from any session: no players, no penalties, hole 1 of 18 in setup, every flag lowered |
| Page.TieBreakerCompleteStep | app/page.tsx:110-114 | the tie-breaker closes and the wheel opens; the atoms are unchanged |
| Page.ShowPenaltyWheelStep | app/page.tsx:116-124 | the tie-breaker opens when several lead, else the wheel; the selection flag is lowered |
| Page.PenaltySelectedStep | app/page.tsx:126-128 | only the selection flag is raised |
| Page.PenaltyCompleteStep | app/page.tsx:130-158 | game over on or past the last hole; otherwise the next hole, the sweep applied, every flag lowered |
| Page.EditTotalHolesStep | app/page.tsx:241-245 | only the hole count changes, to the parsed input |
| Page.InitialSessionConsistent | app/page.tsx:22-27 | the initial session satisfies the session invariant |
| Page.HandlersKeepConsistent | app/page.tsx:53-158 | every handler fired from its own screen keeps the session invariant |
| Page.EditsKeepConsistent | app/page.tsx:22-24 | roster edits outside the penalty phase, and penalty edits at any time, keep the invariant |
| Page.PenaltyPhaseHasATarget | app/page.tsx:116-124 | in the penalty phase of a consistent session a leader can always be drawn |
| Page.Home.constructor | app/page.tsx:25-27 | the page's flags start lowered |
| Page.Home.StartGame | app/page.tsx:53-65 | the session takes StartGameStep, and the start is accepted exactly with two or more players |
| Page.Home.SubmitScores | app/page.tsx:67-92 | the session takes SubmitScoresStep, and the submission is accepted exactly when some count is positive |
| Page.Home.ResetGame | app/page.tsx:94-108 | the session takes ResetGameStep |
| Page.Home.HandleTieBreakerComplete | app/page.tsx:110-114 | the session takes TieBreakerCompleteStep |
| Page.Home.ShowPenaltyWheel | app/page.tsx:116-124 | the session takes ShowPenaltyWheelStep |
| Page.Home.HandlePenaltySelected | app/page.tsx:126-128 | the session takes PenaltySelectedStep |
| Page.Home.HandlePenaltyComplete | app/page.tsx:130-158 | the session takes PenaltyCompleteStep |
| Page.Home.EditTotalHoles | app/page.tsx:241-245 | the session takes EditTotalHolesStep |
| PenaltyWheel.CatalogComposition | components/PenaltyWheel.tsx:9-105 | the catalog has 19 templates: 11 shot, 8 hole and no persistent one |
| PenaltyWheel.WheelCycles | components/PenaltyWheel.tsx:157 | a spin runs 15 to 24 ticks |
| PenaltyWheel.WheelCyclesReachesAll | components/PenaltyWheel.tsx:157 | every tick count from 15 to 24 comes out of some draw |
| PenaltyWheel.TickIndex | components/PenaltyWheel.tsx:193 | each tick highlights a catalog entry |
| PenaltyWheel.DrawTarget | components/PenaltyWheel.tsx:165-169 | no target without leaders; a target is a leader's non-empty id; with leaders whose ids are non-empty there is always a target |
| PenaltyWheel.DrawTargetReachesAll | components/PenaltyWheel.tsx:165-169 | every leader with a non-empty id can be the target |
| PenaltyWheel.CommittedAppendsOnePenalty | components/PenaltyWheel.tsx:171-180 | one new active, non-persistent penalty with the template's text and kind, the fresh id and the drawn target, appended after the unchanged list |
| PenaltyWheel.CommittedPenaltyIsShownAndAimedAtALeader | components/PenaltyWheel.tsx:165-180 | the new penalty appears in the panel, and its target is a roster player who leads |
| PenaltyWheel.StopIndex | components/PenaltyWheel.tsx:192-196 | the wheel stops on the catalog entry of the last tick |
| PenaltyWheel.PickedIntended | components/PenaltyWheel.tsx:162 | corrected: the committed entry is the one the wheel stops on |
| PenaltyWheel.FreshWheelAlwaysPicksFirstEntry | components/PenaltyWheel.tsx:147-162 | as written, a freshly shown wheel always commits "Fel fot (alla)", even when it stops on entry 9 |
| PenaltyWheel.IntendedPickReachesAll | components/PenaltyWheel.tsx:162 | corrected, every catalog entry can be committed |
| PenaltyWheel.PenaltyWheel.constructor | components/PenaltyWheel.tsx:142-148 | nothing spinning or selected, highlight 0 |
| PenaltyWheel.PenaltyWheel.Animate | components/PenaltyWheel.tsx:158-199 | after the ticks the highlight rests on the last tick's entry |
| PenaltyWheel.PenaltyWheel.Commit | components/PenaltyWheel.tsx:160-182 | the store's penalty list becomes the committed list, and the appended penalty and its entry become the selection |
| PenaltyWheel.PenaltyWheel.NotifySelected | components/PenaltyWheel.tsx:184 | when the page is given, its selection flag is raised and its other flags are unchanged |
| PenaltyWheel.PenaltyWheel.SpinWheel | components/PenaltyWheel.tsx:150-200 | the highlight ends on the last tick's entry; the penalty committed is the one highlighted when the spin began, aimed at a drawn leader; the page's selection flag is raised |
| TieBreaker.TieCycles | components/TieBreaker.tsx:27 | a spin runs 12 to 19 ticks |
| TieBreaker.TieCyclesReachesAll | components/TieBreaker.tsx:27 | every tick count from 12 to 19 comes out of some draw |
| TieBreaker.HighlightAfter | components/TieBreaker.tsx:43 | after one or more ticks the highlight is a valid index |
| TieBreaker.TickStep | components/TieBreaker.tsx:43 | one more tick moves the highlight one place on, wrapping round |
| TieBreaker.WinnerAsWritten | components/TieBreaker.tsx:32-33 | as written, the winner is the player at the index read when the spin began |
| TieBreaker.WinnerIntended | components/TieBreaker.tsx:32-33 | corrected: the winner is the tied player the highlight stops on |
| TieBreaker.FreshTieBreakerAlwaysPicksFirst | components/TieBreaker.tsx:20-33 | as written, a fresh tie-breaker always selects the first tied player, even when it stops on the second |
| TieBreaker.IntendedWinnerReachesAll | components/TieBreaker.tsx:27-43 | corrected, with up to eight tied players every one of them can win from any start |
| TieBreaker.TieBreaker.constructor | components/TieBreaker.tsx:18-20 | nothing spinning or selected, highlight 0 |
| TieBreaker.TieBreaker.SpinWheel | components/TieBreaker.tsx:22-50 | the highlight ends after the drawn number of wrapping ticks; the selection is the player at the starting index |
| TieBreaker.TieBreaker.ConfirmSelection | components/TieBreaker.tsx:52-56 | the page's callback runs exactly when a player is selected, and the page then takes TieBreakerCompleteStep |
| Scoreboard.Insert | components/Scoreboard.tsx:11 | insertion adds exactly one copy of the player |
| Scoreboard.InsertKeepsSorted | components/Scoreboard.tsx:11 | insertion into a sorted ranking keeps it sorted |
| Scoreboard.SortByTotal | components/Scoreboard.tsx:11 | the ranking is a permutation of the roster, sorted by total |
| Scoreboard.SortIsStable | components/Scoreboard.tsx:11 | the sort is stable: players with equal totals keep roster order |
| Scoreboard.RowsSpec | components/Scoreboard.tsx:52-94 | row i has rank i+1, the name, total and holes played; the crown only on the first row with a positive total; tied exactly when another player shares the total |
| Scoreboard.FirstIsLowest | components/Scoreboard.tsx:11 | the top of the ranking is on the roster and no total is lower |
| Scoreboard.CrownedRowLeads | components/Scoreboard.tsx:53 | a crowned first row is a leader in the sense of determineLeaders |
| Scoreboard.CellAt | components/Scoreboard.tsx:133-135 | a cell shows a dash exactly when the score is missing or 0, else the count |
| Scoreboard.Grid | components/Scoreboard.tsx:120-137 | one row per player, one column per hole so far, each cell from that player's scores |
| Scoreboard.Render | components/Scoreboard.tsx:13-19 | the "no players" notice exactly for an empty roster, otherwise a row for every player |
| Scoreboard.GridSumsToTotal | components/Scoreboard.tsx:118-137 | when the grid has a column for every recorded hole, the counts shown across a player's grid row add up to the sum of the player's scores, which is the total when totals are consistent |
| GameManager.KeepPersistentSpec | components/GameManager.tsx:31 | this sweep keeps exactly the persistent penalties, in order and every copy of each; it is idempotent and ignores the page's sweep |
| GameManager.ClearScores | components/GameManager.tsx:42 | every player loses all scores and has total 0 |
| GameManager.ClearScoresSpec | components/GameManager.tsx:42 | ids and names are kept, totals are consistent, and nobody leads |
| GameManager.EditedHoles | components/GameManager.tsx:69-73 | the hole count changes only while no game runs |
| GameManager.GameManager.StartGame | components/GameManager.tsx:11-22 | refused below two players; otherwise active at hole 1 |
| GameManager.GameManager.NextHole | components/GameManager.tsx:24-33 | before the last hole: one hole on, only persistent penalties kept; otherwise nothing changes |
| GameManager.GameManager.EndGame | components/GameManager.tsx:35-44 | stopped at hole 1, every score wiped, no penalties |
| GameManager.GameManager.ResetGame | components/GameManager.tsx:46-55 | hole 1 of 18, stopped, no leader, no players, no penalties |
| GameManager.GameManager.EditTotalHoles | components/GameManager.tsx:69-73 | the state becomes EditedHoles |

## Left out

- Storage: loading on mount, saving on every change and clearing on reset (`lib/storage.ts`, `app/page.tsx:33-51`) are I/O. The model starts from the atoms' initial values.
- Rendering: the JSX, the theme, the colors, the hover handlers, and the highlight drawn while a wheel spins. The page's leader banner (`app/page.tsx:370-376`) and the tie-breaker's winner text are text formatting only.
- Timing: the `setTimeout` chains and the slowing-down delay arithmetic. Each spin is modelled as its complete sequence of ticks.
- Randomness: `Math.random()` is a parameter in [0, 1). The model proves that every outcome is reachable, not that outcomes are equally likely.
- Ids: `Date.now()` and `Math.random()` ids are a `freshId` parameter. Their uniqueness is not modelled.
- `alert`: a refused start or submission is modelled as no change plus an `accepted` result of false.
- `parseInt`: the hexadecimal prefix, the radix argument and the loss of precision past 2^53 are not modelled. Totals are unbounded integers, not floating-point numbers.
- React batching: each handler is one atomic step that reads the values of the render it runs in.
- The hole-count input's HTML range of 1 to 36 is not enforced by the handler, so it is not modelled.
- GameManager.GameManager.ResetGame: the record it writes has no phase field, so the phase is left unspecified.
- TieBreaker.TieBreaker.SpinWheel: requires at least one tied player, because `% 0` would give NaN. The page shows the tie-breaker only for two or more leaders.
- PenaltyWheel.PenaltyWheel.SpinWheel: about the page it states only that the selection flag is raised and the other flags are unchanged, not the page's whole session. The page shares the penalty atom with the wheel, so its session also sees the appended penalty.
- The argument the wheel and the tie-breaker pass to their callbacks: the page ignores it, so it is not modelled.

## Findings

| source | as written | input that shows it | evidently intended | confidence | as-written member | corrected member |
|---|---|---|---|---|---|---|
| components/PenaltyWheel.tsx:162 | the committed template is `defaultPenalties[currentIndex]`, where `currentIndex` is the value captured when the spin began, not the tick's highlight | a freshly shown wheel whose 15 ticks all draw 0.5 stops on entry 9 ("Sjung joppe") yet commits entry 0 ("Fel fot (alla)"), as does every spin of a fresh wheel | commit the entry the wheel stops on, so every template can be drawn | not executed | PenaltyWheel.FreshWheelAlwaysPicksFirstEntry | PenaltyWheel.IntendedPickReachesAll |
| components/TieBreaker.tsx:32 | the winner is `tiedPlayers[currentIndex]`, where `currentIndex` is the value captured when the spin began | two tied players and a cycle draw of 0.125: 13 ticks stop on the second player, yet the first is selected, as on every first spin | select the player the highlight stops on | not executed | TieBreaker.FreshTieBreakerAlwaysPicksFirst | TieBreaker.IntendedWinnerReachesAll |
