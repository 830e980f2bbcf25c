# Sokoban grid engine and screen rules, modelled in Dafny

This project models the browser client of a small block-pushing puzzle game.
The centre is the grid engine of the game screen. A level is a grid of integer
cells: 0 empty, 1 wall, 2 player, 3 block, 4 goal. The engine finds the start
and the goal by a row-major scan. It accepts or refuses each arrow key. On an
accepted key it rewrites the cells of a copy of the grid and moves the player.
When the player arrives on the goal coordinate captured at load, it stops the
one-second timer and posts the elapsed time. Beside the engine sit four small
rules from the other screens:

- the leaderboard of the clear screen (append the player, stable sort by time, keep three, assign ranks);
- the shared `m:ss` clock formatter;
- the profile form check and the error text of a failed update;
- the select screen's total play time in minutes, rounded up.

Files:

- `wrappers.dfy`: `Option`, which stands for JavaScript's `null`/`undefined`.
- `time_format.dfy`: the `m:ss` formatter, with a parser as its partner and both round trips.
- `game.dfy`: the grid rules as functions and lemmas. The row-major scan is a method with loops. The session is the class `Game.Engine`, with `Tick`, `Leave` and `Move`. The module `GameScenarios` plays two small levels.
- `clear.dfy`: the ranking pipeline as written, and the intended tie rule beside it.
- `profile.dfy`: form validation and the choice of error text.
- `select.dfy`: the total-time fold and the minute rounding.

Modelling choices:

- Rows may differ in length. Every lookup checks the row first and then the column, as `field[y] && field[y][x]` does. A read outside the grid is `None`, which is JavaScript's `undefined`. Any code other than 0, 3 and 4 blocks a move.
- `Move` takes the key string itself. A key other than the four arrows aims at the player's own cell. When that cell holds the player code, `canMove` refuses the key. On a level with no player cell the start is (0,0), and there a non-arrow key is accepted when (0,0) holds an empty or goal code: on `[[4, 0]]` any non-arrow key clears the level at once. The model keeps this behaviour. From such a default start the move also overwrites whatever (0,0) held: on `[[1, 0]]` the key `ArrowRight` gives `[[0, 2]]`, losing a wall and gaining a player code; this is why `Game.StepConservesCells` asks for a source holding the player code.
- The write `updatedField[y][x] = v` is `Game.Write`. At an index inside the row it replaces the cell. At the index just past the end of the row it appends, as JavaScript does. Appending can only happen when the level has no player cell and the default start (0,0) lies at the end of an empty first row.
- The engine's `cleared` flag stands for the timer stop, the result post and the navigation to the clear screen. After that navigation the game screen is gone, so later keys change nothing. The model's `Move` is a no-op once `cleared` holds, and likewise once `Leave` has removed the listener (`mounted` is false). `posted` is the record handed to the result sink.
- A level is expected to be rectangular with exactly one player cell; the code checks neither. The model follows the code: ragged rows are allowed, and the first player cell in scan order wins, with (0,0) when there is none. `Move` promises that a sole player cell stays the sole player cell.
- A tied leaderboard entry is evidently meant to share the previous entry's rank. The code reads the rank from the array before the ranks are assigned, so the tied entry has no rank. `Clear.FetchRanking` models the code; see Findings.
- String lengths in the profile form are JavaScript lengths. They count UTF-16 code units, so a character outside the Basic Multilingual Plane counts twice (`Profile.Utf16Length`).
- `Math.ceil(total / 60)` is `(total + 59) / 60` on integers. With Dafny's Euclidean division this equals the ceiling for every integer total.

## Model

| member | source | states |
|---|---|---|
| `Game.Level` | src/components/Game/Game.jsx:38 | the level is 1 exactly for difficulty `easy`; anything else, including no parameter, gives 2 |
| `Game.CanMove` | src/components/Game/Game.jsx:154-162 | a target outside the grid is refused; an empty or goal target is accepted; a block target is accepted exactly when the cell behind it is empty; nothing else is accepted |
| `Game.CanMoveClassify` | src/components/Game/Game.jsx:154-162 | `canMove` accepts exactly the moves that a case analysis on the target code classifies as plain or push, and the push test in the update picks out exactly the pushes |
| `Game.PushNeedsEmpty` | src/components/Game/Game.jsx:158-160 | a block is never pushed off the grid or onto a wall, block, goal or unknown code; it is always pushed onto an empty cell |
| `Game.OtherKeyRejected` | src/components/Game/Game.jsx:104-126 | a key other than the four arrows targets the player's own cell; when that cell holds the player code, the key is refused |
| `Game.WriteAt` | src/components/Game/Game.jsx:131-136 | a write to the copied grid changes the written cell only; every other cell keeps its value and stays inside the grid |
| `Game.StepAt` | src/components/Game/Game.jsx:127-137 | after an accepted move the source is empty, the target holds the player, the far cell holds the block on a push, and every other cell is unchanged |
| `Game.StepShape` | src/components/Game/Game.jsx:127-137 | an accepted move from a source cell inside the grid keeps the number of rows and the length of every row |
| `Game.StepSameCells` | src/components/Game/Game.jsx:127-137 | an accepted move from a source cell inside the grid neither adds nor removes cells: a position is in the new grid exactly when it was in the old one |
| `Game.StepKeepsSole` | src/components/Game/Game.jsx:130-140 | if the source was the only player cell, the target is the only player cell after the move |
| `Game.StepConservesCells` | src/components/Game/Game.jsx:130-137 | an accepted move from a cell holding the player code keeps the count of every cell code, except that stepping onto the goal turns one goal code into an empty code; player and block counts never change |
| `Game.FindCell` | src/components/Game/Game.jsx:81-98 | the nested row-major loops return the first cell holding the code, or nothing exactly when no cell holds it |
| `Game.FindPlayerPosition` | src/components/Game/Game.jsx:81-88 | the start is the first player cell in row-major order, or (0,0) when the level has none |
| `Game.FindFlagPosition` | src/components/Game/Game.jsx:91-98 | the goal is the first goal cell in row-major order, or null exactly when the level has none |
| `Game.FirstIsUnique` | src/components/Game/Game.jsx:81-98 | the first match of the scan is unique |
| `Game.FirstPlayerIsSole` | src/components/Game/Game.jsx:81-88 | on a level with exactly one player cell, the scan finds that cell |
| `Game.CellContent` | src/components/Game/Game.jsx:195-204 | the text is `P` exactly for the player code, `F` exactly for the goal code, and empty otherwise |
| `Game.CellClass` | src/components/Game/Game.jsx:207-210 | the class is `player` exactly at the player position, whatever the code there; elsewhere it is `wall`, `block` or `flag` for codes 1, 3 and 4 and `empty` for every other code |
| `Game.RenderAgrees` | src/components/Game/Game.jsx:183-185 | while the player cell is the only player cell, the `player` class and the `P` text mark the same cell |
| `Game.Engine.constructor` | src/components/Game/Game.jsx:33-58 | after loading, time is 0 and the level is not cleared; the start and the goal are the scan results and the timer runs; a failed fetch leaves the empty field, (0,0), no goal and no timer |
| `Game.Engine.Tick` | src/components/Game/Game.jsx:69-73 | a tick adds exactly one second while the timer runs and nothing otherwise |
| `Game.Engine.Leave` | src/components/Game/Game.jsx:62-65 | leaving the screen stops the timer; the listener cleanup at lines 165-168 goes with it, so no later tick or key has an effect |
| `Game.Engine.Move` | src/components/Game/Game.jsx:101-151 | a refused key, and any key after clearing or after leaving the screen, changes nothing; an accepted key rewrites the grid by the step rule and moves the player to the target; the level is cleared, the timer stopped and the current time posted exactly when the new position equals the goal captured at load, never when there is no goal; a sole player cell stays sole |
| `Game.Engine.Clock` | src/components/Game/Game.jsx:171-175 | the timer text reads back as exactly the elapsed seconds |
| `GameScenarios.CornerLevel` | src/components/Game/Game.jsx:101-149 | on the walled 3×3 level, Down then Right clears the level on the second key at (2,2) and posts level 2 with time 0 |
| `GameScenarios.PushRowSteps` | src/components/Game/Game.jsx:126-137 | on the row player, block, empty, wall, Right pushes the block one cell; a second Right is refused because of the wall behind the block |
| `TimeFormat.FormatTimeMeaning` | src/components/Clear/Clear.jsx:44-48 | the text is digits, a colon and two digits below 60, and minutes × 60 + seconds equals the input |
| `TimeFormat.ParseFormatTime` | src/components/Clear/Clear.jsx:44-48 | parsing the formatted text gives back the seconds |
| `TimeFormat.FormatParseTime` | src/components/Clear/Clear.jsx:44-48 | every clock text whose minutes have no leading zero is what the formatter prints for its parsed value |
| `TimeFormat.FormatTimeInjective` | src/components/Clear/Clear.jsx:44-48 | different times never print the same text |
| `Clear.Pool` | src/components/Clear/Clear.jsx:22-25 | the pool is the fetched results unchanged, then one record with the player's name and time and no rank |
| `Clear.SortByTime` | src/components/Clear/Clear.jsx:27-28 | the sorted pool is ordered by time and is a permutation of the pool |
| `Clear.SortByTimeStable` | src/components/Clear/Clear.jsx:27-28 | for every time, the records of that time keep their pool order (the sort is stable) |
| `Clear.StableSortUnique` | src/components/Clear/Clear.jsx:27-28 | being ordered and stable pins the result down: two such sequences with the same records of every time are equal |
| `Clear.Top` | src/components/Clear/Clear.jsx:29 | the kept records are the first min(3, n) of the sorted pool |
| `Clear.AssignRanks` | src/components/Clear/Clear.jsx:30-33 | names and times are copied; the first record has rank 1; a record whose time differs from the previous one has rank index + 1; a tied record has the previous record's rank as it was before the map |
| `Clear.RankingShape` | src/components/Clear/Clear.jsx:22-33 | the ranking has min(3, n + 1) records in time order, the same names and times as the start of the sorted pool, and no dropped record is faster than a kept one |
| `Clear.PlayerInPool` | src/components/Clear/Clear.jsx:22-25 | the player's record is always among the sorted records |
| `Clear.TiedRankMissing` | src/components/Clear/Clear.jsx:30-32 | when the fetched records carry no rank, every tied record in the ranking has no rank |
| `Clear.TieExample` | src/components/Clear/Clear.jsx:30-32 | one fetched record and the player both at 10 seconds: the second record shown is the player's, with no rank |
| `Clear.RankIntended` | src/components/Clear/Clear.jsx:32 | the corrected rule keeps names and times and gives every record a rank |
| `Clear.RankIntendedIsCompetition` | src/components/Clear/Clear.jsx:32 | on a time-ordered list the corrected ranks are one more than the number of strictly faster records |
| `Clear.IntendedRanks` | src/components/Clear/Clear.jsx:30-33 | under the corrected rule the first record has rank 1, a tied record has the rank computed for the previous record, and a new time has rank index + 1 |
| `Profile.IsFormValid` | src/components/Profile/Profile.jsx:27 | valid exactly when the username has at least 5 characters, all ASCII letters or digits, and the nickname has at least 4 UTF-16 code units |
| `Profile.MatchesAlnumPlusAll` | src/components/Profile/Profile.jsx:27 | the pattern `^[a-zA-Z0-9]+$` matches exactly the non-empty strings of ASCII letters and digits |
| `Profile.SubmitDisabled` | src/components/Profile/Profile.jsx:68 | the submit button is disabled exactly when the form is not valid |
| `Profile.ForeignCharacterInvalid` | src/components/Profile/Profile.jsx:27 | any username character outside ASCII letters and digits makes the form invalid, whatever the lengths |
| `Profile.ShortInputsInvalid` | src/components/Profile/Profile.jsx:27 | an empty username, or a nickname of at most 3 code units, is never valid |
| `Profile.NicknameContentIrrelevant` | src/components/Profile/Profile.jsx:27 | with at least 4 characters, the nickname's content never decides; validity then depends on the username alone |
| `Profile.UpdateProfile` | src/services/api.js:48-51 | a 2xx status resolves; otherwise the rejection message contains `409` exactly when the status is 409 |
| `Profile.HandleUpdateProfile` | src/components/Profile/Profile.jsx:30-43 | success navigates to the select screen; a failure shows the taken-name text exactly when the message contains `409`, and the generic text otherwise |
| `Profile.StatusToOutcome` | src/components/Profile/Profile.jsx:37-41 | from HTTP status to screen: 2xx navigates, 409 says the name is taken, every other status shows the generic failure |
| `Select.ReduceIsSum` | src/components/Select/Select.jsx:18 | the left fold from a start value adds the sum of all times to that value |
| `Select.TotalTime` | src/components/Select/Select.jsx:18 | the total is the sum of the results' times; no results give 0 |
| `Select.TotalTimeOrderFree` | src/components/Select/Select.jsx:18 | the total does not depend on the order of the results |
| `Select.CeilMinutes` | src/components/Select/Select.jsx:19 | the minutes m are the ceiling of total / 60: m × 60 ≥ total and (m − 1) × 60 < total |
| `Select.CeilMinutesExamples` | src/components/Select/Select.jsx:19 | 60k seconds give k minutes, any total from 1 to 60 gives 1, and 0 gives 0 |
| `Select.TotalPlayMinutes` | src/components/Select/Select.jsx:18-19 | the shown minutes are the ceiling of the summed seconds over 60; no results give 0; a non-negative sum never gives negative minutes |

## Left out

- Network I/O (`getField`, `getResults`, `getProfile`, `updateProfile`, `postResult` in src/services/api.js) is left out. The fetched level and the fetched results are parameters. The update response is its HTTP status, or a rejection message for a network error. The post to the result sink is the `posted` field.
- A failed `getResults` leaves the leaderboard empty; the model takes the fetched list as given and does not model the failed fetch.
- `postResult` is called without `await` and without a `catch`: its outcome is never looked at, and a failure does not stop the move to the clear screen. The model records only the report handed over.
- React state, effects and the ref that mirrors the player position are left out: the engine is one object updated by sequential calls.
- `setInterval`/`clearInterval` and the `keydown` listener are left out. A tick is a call of `Tick`, a key press a call of `Move`, and unmounting the screen, which clears the timer and removes the listener, a call of `Leave`.
- Navigation and URL handling are left out: the `navigate` URLs, `URLSearchParams`, `encodeURIComponent`, and `parseInt` of the `time` query parameter. The clear screen receives the time as an integer. A `NaN` time, and the comparator's behaviour on `NaN`, are not modelled.
- Times are whole numbers. JavaScript's floating-point `Math.floor`/`Math.ceil` are integer division and ceiling division.
- Records in the leaderboard carry a name, a time and a rank. Any other field of a fetched result is copied unchanged by the spread, as the name is, but is not represented.
- A JavaScript string may hold a lone surrogate. A Dafny `char` cannot, so such strings are not modelled in the profile checks.
- Loading the current profile into the profile form, the select screen's nickname display, logout and navigation, the login screen, the routes and token storage are left out. They are form and network plumbing with no rule of their own.
- `console.log`/`console.error` logging is left out.
- The engine scenario of the one-row level (push, then refusal at the wall) is stated on the rules (`GameScenarios.PushRowSteps`), not replayed through `Game.Engine`.

## Findings

| source | as written | input that shows it | evidently intended | confidence | as-written member | corrected member |
|---|---|---|---|---|---|---|
| src/components/Clear/Clear.jsx:32 | a record tied with the previous one takes `arr[index - 1].rank`, and `arr` is the array before the map, whose records carry no `rank` | fetched `[{username: "alice", time: 10}]`, player `bob` with time 10: bob's record gets rank `undefined` | a tied record shares the rank computed for the previous record (competition ranking: 1 + number of strictly faster records) | high; not executed | `Clear.TieExample` | `Clear.RankIntendedIsCompetition` |
