# Character Debate Arena — a Dafny model of its turn engine

The Character Debate Arena stages a "debate battle" between two fans of two
user-named characters. This project models four parts of it in Dafny 4.11 and
proves properties of them.

The server handler `game-event` plays one turn of a stored match. It does the
following, in order:

- it picks the acting agent and the attacked agent from the length of the
  chat log;
- it turns the narrator's reply into one chat entry, with an optional
  `[Image: url]` marker found by an image search;
- it pushes that entry onto the stored record;
- it parses the judge's `Rating: N`;
- it turns the rating into damage against the health snapshot the client
  sent;
- it decides the winner.

The other three parts:

- **The match store** (`MatchManager`) is a `Map` from match id to record.
  It hands records out by reference.
- **The `start-game` handler** builds the debaters' names (`<prefix>
  <character> Fan`) and the topic. It then creates the record and seeds its
  log with one `System` entry.
- **The browser page** splits the image marker off a message bubble, names
  the current agent, and updates its state in `startDebate` and
  `continueBattle`. Polling continues only while a match id is set and no
  winner is.

Modules, one file each:

- `Wrappers`: `Option`.
- `JsText`: the JavaScript string built-ins the code relies on. These are
  `\s`, `trim`, `indexOf`, `split`, a leftmost regular-expression scan,
  `parseInt` on digits, `String(n)` and `join`.
- `Domain`: chat entries, the health map, and the `System` filter.
- `MatchStore`: the `Match` and `MatchManager` classes. Methods say what they
  change in `modifies`.
- `TurnEngine`: `game-event.js`. Pure functions specify each step. The methods
  `ComposeMessage`, `Score`, `SpeakTurn`, `PlayTurn` and `HandleGameEvent`
  follow the handler's step-by-step reassignments and its in-place `push`, and
  are proved against those functions.
- `StartGame`: `start-game.js`.
- `ClientView`: `index.js`. It includes the `HomePage` class for the
  component state.

These are parameters of the model:

- the two language-model chains, as functions from the prompt to a reply or a
  failure;
- the Tavily image search, as a function from the query to its first image
  or a failure;
- `Date.now()`, as the id string;
- `Math.random()`, as the prefix index;
- each server answer, as an input to the browser methods.

## Model

| member | source | states |
|---|---|---|
| TurnEngine.ActingIndex | src/pages/api/game-event.js:30-31 | the acting index is below the number of agents, and equals the log length while that is smaller |
| TurnEngine.TargetIndex | src/pages/api/game-event.js:32-33 | the target is the next index, wrapping to 0 after the last; it differs from the acting index exactly when there are at least two agents |
| TurnEngine.TwoAgentsAlternate | src/pages/api/game-event.js:30-33 | with two agents, one more log entry hands the turn to the other agent, and the agent attacked now acts next |
| TurnEngine.CharacterName | src/pages/api/game-event.js:34 | whenever `split(' ')` gives a second piece, the character name is that piece; it never contains a blank |
| StartGame.CharacterNameOfAgentName | src/pages/api/game-event.js:34 | the character read back from a generated agent name is the character, when it is one word |
| TurnEngine.RecentEntries | src/pages/api/game-event.js:36-38 | the last min(2, n) of the n non-`System` entries, in order, none of them `System` |
| TurnEngine.SystemEntriesNotInHistory | src/pages/api/game-event.js:36-40 | appending a `System` entry leaves the prompt history unchanged |
| TurnEngine.NewestEntryLast | src/pages/api/game-event.js:36-38 | after a debater entry is appended, it is last in the history, with at most the previous debater entry before it |
| TurnEngine.RecentHistory | src/pages/api/game-event.js:36-40 | with no recent entries the history is empty; with one it is `agent: message`; with two it is both lines in log order, joined by a newline |
| TurnEngine.ImageDescription | src/pages/api/game-event.js:65 | the description is shorter than the request, since its last character is dropped, and it is trimmed |
| TurnEngine.ImageQuery | src/pages/api/game-event.js:66 | the query starts with the character name and ends with ` image`, and is 7 characters longer than the name and the description together: one blank after the name plus ` image` |
| TurnEngine.ImageMarker | src/pages/api/game-event.js:68 | the appended marker starts with a blank, ends with `]`, and is 10 characters longer than the URL; that the page reads exactly this URL back is `ClientView.ImageMarkerRoundTrip` |
| TurnEngine.FoundImage | src/pages/api/game-event.js:18 | the found URL is the first result's image exactly when that is a non-empty string, and otherwise null |
| TurnEngine.Narrate | src/pages/api/game-event.js:57-71 | empty content keeps the skip text; otherwise the text is the trimmed part before the first `[IMAGE:`, with no image when the request is absent or empty; for a non-empty request whose search returns, the image is exactly `FoundImage` of the first result, and the marker is appended exactly when there is one; it fails exactly when a search was made and it threw |
| TurnEngine.ComposeMessage | src/pages/api/game-event.js:57-71 | the step-by-step reassignment of message and image URL ends with what `Narrate` gives, and fails exactly when `Narrate` does |
| TurnEngine.Speak | src/pages/api/game-event.js:30-71 | with agents, there is an entry exactly when the narrator replies to the prompt (acting agent, its character, target agent, recent history) and `Narrate` does not fail; the entry is the acting agent's and the target is `TargetIndex`; there is no entry without agents |
| TurnEngine.SpeakTurn | src/pages/api/game-event.js:30-71 | the step-by-step version computes exactly `Speak` |
| TurnEngine.RatingAt | src/pages/api/game-event.js:87 | a match of `Rating:\s*(\d+)` at `i` leaves room for the label and at least one digit after it |
| TurnEngine.ParseRating | src/pages/api/game-event.js:87-88 | a verdict with no `Rating:\s*\d` match rates 5 |
| TurnEngine.RatingOfFirstMatch | src/pages/api/game-event.js:87-88 | when the first match of `Rating:` plus white space plus digits comes after any text `pre` that holds no match, the rating is the value of that whole digit run, leading zeros included |
| TurnEngine.RatingOfVerdict | src/pages/api/game-event.js:87-88 | `Rating:`, white space, the decimal digits of n and text not starting with a digit rates exactly n, however large, with no clamping |
| TurnEngine.Damage | src/pages/api/game-event.js:90 | damage is at least 5, and in (5, 20] for ratings 1 to 10 |
| TurnEngine.DamageMonotone | src/pages/api/game-event.js:90 | a higher rating never deals less damage |
| TurnEngine.DamageAnchors | src/pages/api/game-event.js:7-8 | rating 10 deals 20, the default 5 deals 12, and 0 deals 5 |
| TurnEngine.ApplyDamage | src/pages/api/game-event.js:92-93 | only `character{target+1}` changes, to max(0, old − damage); it is never negative and strictly lower when old and damage are positive; a target beyond the second agent changes neither field; there is no upper cap |
| TurnEngine.Winner | src/pages/api/game-event.js:95-97 | character 1 down gives `agents[1]`, checked first; otherwise character 2 down gives `agents[0]`; with two agents there is a winner exactly when one character is at or below 0 |
| TurnEngine.Score | src/pages/api/game-event.js:87-97 | the step-by-step damage, copied health and winner agree with `Damage`, `ApplyDamage` and `Winner` |
| TurnEngine.Advance | src/pages/api/game-event.js:30-101 | an entry is pushed exactly when `Speak` gives one, and it is that entry; a 200 exists exactly when the judge then replied, and carries that rating's damage, the target's lowered health, the resulting winner and the image URL `Speak` found; a 500 comes with no entry or with a judge failure |
| TurnEngine.RepliesPlayTheTurn | src/pages/api/game-event.js:52-101 | when the narrator, the image search and the judge all answer, the turn is played: a 200 whose message is the acting agent's entry, which is also the one pushed |
| TurnEngine.NarratorFailureStoresNothing | src/pages/api/game-event.js:52-55 | a failed or timed-out narrator call answers 500 and pushes nothing, rather than skipping the turn |
| TurnEngine.JudgeFailureKeepsEntry | src/pages/api/game-event.js:73-85 | a failing judge answers 500, while the entry `Speak` gives, the acting agent's, is already pushed |
| TurnEngine.PlayedHitsOnlyTarget | src/pages/api/game-event.js:30-33 | with two agents, a 200 lowers the health of character 2 on an even log length and of character 1 on an odd one, and leaves the other unchanged |
| TurnEngine.PlayTurn | src/pages/api/game-event.js:73 | the stored record's log gains exactly the entry `Advance` pushes, before the judge is asked |
| TurnEngine.HandleGameEvent | src/pages/api/game-event.js:24-25 | a missing id answers 404; otherwise the stored record gets exactly `Advance`'s entry, and the store keeps the same records under the same ids |
| MatchStore.Match.Push | src/pages/api/game-event.js:73 | `chatLog.push`: the log gains the entry at its end |
| MatchStore.MatchManager.constructor | src/utils/matchManager.js:2-4 | the store starts empty |
| MatchStore.MatchManager.CreateMatch | src/utils/matchManager.js:6-15 | a fresh record with an empty log is stored under the id and returned, replacing any earlier one; other ids keep their records |
| MatchStore.MatchManager.GetMatch | src/utils/matchManager.js:17-19 | returns the stored record itself, or none when the id is absent; while every key is its record's id, a found record carries the id asked for; nothing changes |
| MatchStore.MatchManager.UpdateMatch | src/utils/matchManager.js:21-23 | the id maps to the given record whether or not it was present; other ids keep their records; writing back the same record changes nothing |
| MatchStore.MatchManager.DeleteMatch | src/utils/matchManager.js:25-27 | the id is removed, and nothing changes when it was absent; other ids keep their records |
| StartGame.AgentName | src/pages/api/start-game.js:5-9 | the name is the chosen prefix, a blank, the character, a blank and `Fan` |
| StartGame.AgentNames | src/pages/api/start-game.js:21 | one name per character, in the same order |
| StartGame.Topic | src/pages/api/start-game.js:35 | the topic is `c0 vs c1`; a missing character shows as `undefined` |
| StartGame.HandleStartGame | src/pages/api/start-game.js:21-43 | a failing moderator answers 500 and stores nothing; otherwise a fresh record is stored under the id, with topic `c0 vs c1`, the agent names and the single `System` opening; the answer carries that id, log and names; other ids keep their records |
| StartGame.FirstAdvanceBySecondAgent | src/pages/api/start-game.js:37 | because the opening is log entry 0, the first turn is played by `agents[1]` against character 1, with an empty history |
| JsText.Trim | src/pages/api/game-event.js:62 | `trim`: no white space at either end, and empty exactly when the input is all white space |
| JsText.TrimOfTrimmed | src/pages/api/game-event.js:62 | trimming already-trimmed text leaves it unchanged |
| JsText.TrimIsSlice | src/pages/api/game-event.js:62 | the result is one slice of the input, with only white space before and after it |
| JsText.TrimOfPadded | src/pages/api/game-event.js:62 | white space, then trimmed text, then white space, trims to exactly that text |
| JsText.IsSpace | src/pages/api/game-event.js:62 | a white-space character is never a decimal digit and never `]` |
| JsText.IndexOf | src/pages/api/game-event.js:61 | the leftmost occurrence at or after `from`, or none when there is no occurrence |
| JsText.SplitHeadOf | src/pages/api/game-event.js:61 | the first piece is the text before the first `[IMAGE:` (the whole text when it does not occur), and the second is the text up to the next occurrence or the end |
| JsText.FindFrom | src/pages/api/game-event.js:87 | the leftmost position in the range where the predicate holds, or none when it holds nowhere |
| JsText.FindFromFirst | src/pages/api/game-event.js:87 | the leftmost matching position is the one found |
| JsText.RunEnd | src/pages/api/game-event.js:87 | where a greedy `\s*` or `\d+` run stops: the end, or the first character outside the class |
| JsText.RunEndIsUnique | src/pages/api/game-event.js:87 | the end of a run is fixed by the run itself |
| JsText.NatToString | src/pages/index.js:113 | `String(n)` gives decimal digits, with no leading zero except for 0 |
| JsText.DecimalValue | src/pages/api/game-event.js:88 | a digit run is worth 0 exactly when every digit is `0` |
| JsText.DecimalOfLeadingZero | src/pages/api/game-event.js:88 | `parseInt` ignores leading zeros: `0` followed by digits has the value of the digits |
| JsText.DecimalOfNatToString | src/pages/api/game-event.js:88 | `parseInt(String(n)) == n` |
| JsText.SplitBlankFrom | src/pages/api/game-event.js:34 | `split(' ')` gives at least one piece, and no piece contains a blank |
| JsText.JoinSplitBlank | src/pages/api/game-event.js:34 | joining the pieces of `split(' ')` with a blank gives the string back |
| JsText.JoinEnds | src/pages/api/game-event.js:40 | a join begins with the first part and ends with the last; with one part it is that part |
| Domain.NonSystem | src/pages/api/game-event.js:37 | the filter keeps no `System` entry and never lengthens the log |
| Domain.NonSystemKeeps | src/pages/index.js:86 | every debater entry survives the filter |
| Domain.NonSystemFromLog | src/pages/index.js:86 | every entry the filter keeps comes from the log and is a debater entry |
| Domain.NonSystemAppend | src/pages/api/game-event.js:37 | the filter distributes over appending one entry |
| ClientView.SchemeLength | src/pages/index.js:7 | `https?:\/\/` matches 8, 7 or 0 characters, and a match fits in the string |
| ClientView.MarkerAt | src/pages/index.js:7 | a marker needs room for `[Image: `, a scheme, one URL character and `]` |
| ClientView.IsImageUrl | src/pages/index.js:7 | a URL the capture group matches is longer than its scheme and holds no blank and no `]` |
| ClientView.CaptureIsImageUrl | src/pages/index.js:7-9 | the capture group of a marker is a scheme followed by at least one URL character, with no white space or `]` anywhere |
| ClientView.CutMarker | src/pages/index.js:9-10 | the bubble for a marker has an image whose URL the capture group matches, and trimmed text; which URL and which text is `CutMarkerShows` |
| ClientView.CutMarkerShows | src/pages/index.js:9-10 | the bubble shows the URL the marker at `i` spells between `[Image: ` and `]`, and the message with exactly that span taken out, trimmed |
| ClientView.ExciseIsSplice | src/pages/index.js:10 | taking out a span leaves what is before it followed by what is after it |
| ClientView.ExtractImage | src/pages/index.js:7-10 | there is no image exactly when no position matches the marker regex, and then the text is the trimmed message; any image is a URL the capture group matches; the text is always trimmed |
| ClientView.ExtractImageShows | src/pages/index.js:7-10 | any image comes from the leftmost position where the marker regex matches, and the bubble shows the URL that marker spells and the message with only that marker taken out, trimmed |
| ClientView.ImageMarkerRoundTrip | src/pages/index.js:7-10 | the bubble for trimmed, marker-free text followed by the server's ` [Image: u]` marker shows that text and the image u |
| ClientView.SideIgnoresDebater | src/pages/index.js:13 | as written, neither generated debater name contains `1` unless its character does, so both bubbles go on the left with the character-2 avatar |
| ClientView.DebatersFaceEachOther | src/pages/index.js:13 | with the corrected side rule, the two generated debaters of different characters are drawn on opposite sides |
| ClientView.CurrentAgentOf | src/pages/index.js:123 | the banner names `agents[turn mod n]`, the agent the server lets act at that log length, or `''` without agents |
| ClientView.DamageNoticeReadsBack | src/pages/index.js:113 | the damage note starts with the agent, and the number in it is `String(damage)`, which reads back as the damage |
| ClientView.HomePage.constructor | src/pages/index.js:46-54 | the initial state: empty names and log, not loading, no winner, match id or agents, full health, turn 0 |
| ClientView.HomePage.CurrentAgent | src/pages/index.js:177 | the banner names the agent the server lets act at the page's turn, or `''` without agents |
| ClientView.HomePage.StartDebate | src/pages/index.js:68-95 | log, winner, health and turn are reset; success sets the match id, the non-`System` log, the agents and turn 1; with a non-empty id polling is then scheduled and the start button disabled, and with two agents the banner names `agents[1]`; failure leaves only the error text as the log and keeps the old match id |
| ClientView.HomePage.ContinueBattle | src/pages/index.js:97-121 | a 200 appends the message and then the `System` damage note, takes the server's health, adds 1 to the turn and sets a returned winner, which stops polling; a failure clears the match id, which stops polling, and changes nothing else |

## Left out

- The language-model prompts, the chains and the Tavily call are not modelled; their outputs are free parameters. A timeout of the 35-second race counts as a failed call, with no wall clock.
- The 5-second polling timer and concurrent advances of the same match are not modelled. The model is one call at a time.
- HTTP plumbing is not modelled: the method check, the 405 answer, headers and JSON encoding. Only the 404 / 500 / 200 outcomes remain.
- `Date.now()` and `Math.random()` are parameters, so the id string and the prefix index can be any values.
- TurnEngine.Damage: computed exactly as `5 + floor(15 * rating / 10)`, not with the double-precision `(rating / 10) * 15`. The two agree for every rating from 0 to 81, which covers the judge's 1 to 10 scale. They first differ at 82, where double arithmetic gives 127 and the exact form 128; 164, 328 and 338 differ too.
- TurnEngine.ParseRating: `parseInt` of a huge digit run is exact here, while JavaScript loses precision beyond 2^53.
- Strings are sequences of code points. UTF-16 surrogate pairs are not modelled.
- A narrator reply with falsy content (missing, null, empty) is the empty string, which keeps the skip text as the code does.
- A judge reply with missing content makes `.match` throw at line 87, after the entry is pushed, so the handler answers 500. The model's `ChainFailed` judge gives exactly that outcome. A judge reply with empty content rates 5 in both.
- The health map holds two integers. A client snapshot with other keys or non-numbers is not modelled.
- With more than two agents the server writes a `character3` or higher key. The model drops it, so neither modelled field changes.
- React rendering, `next/image`, scrolling and styling are not modelled. A stale-closure read of `matchId`/`health` in the timer callback is not modelled either.
- TurnEngine.HandleGameEvent: a stored record is modelled only through its log. The record's `id`, `topic` and `agents` are constants because no code assigns them.
- Where a reader might expect otherwise, the model follows the code:
  - the record has no health field, since the client's snapshot is used;
  - health has no upper clamp and the rating is not clamped;
  - `createMatch` silently replaces an existing id;
  - a narrator timeout is a 500 rather than a skipped turn.

## Findings

| source | as written | input that shows it | evidently intended | confidence | as-written member | corrected member |
|---|---|---|---|---|---|---|
| src/pages/index.js:13 | a bubble is right-aligned with the character-1 avatar when the agent name contains the digit `1` | characters `Pikachu` and `Charizard` give `Loyal Pikachu Fan` and `Devoted Charizard Fan`; neither contains `1`, so both go on the left | the first debater (for character 1) on the right, the second on the left | medium, not executed | ClientView.SideIgnoresDebater | ClientView.DebatersFaceEachOther |
