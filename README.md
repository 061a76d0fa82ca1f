# Salaryman simulator and Rust exercises: a Dafny model

This project models the per-tick selection and state-update systems of the
Bevy game `salaryman_simulator`, and a handful of small routines from the
Rust exercise crates beside it:

- **Pointer picking** (`mouse_event.rs`). `listen_mouse_input` stores the
  cursor's screen and world position, and keeps the last ones when the window
  reports no cursor. `mouse_event` scans the selectables in query order. It
  takes the first whose rectangle, magnified ×8, strictly contains the pointer
  offset. It then writes that selectable, or nothing, into every
  `CurrentHovered`, and moves and scales the hover hint over it.
- **Movement and the proximity hint** (`player.rs`, `main.rs`).
  `player_movement` builds a direction from W, A, S and D, with opposite keys
  cancelling, and moves only when that direction is not zero.
  `player_check_collision` loops over every (player, desk) pair. A desk nearer
  than 60 shows the interaction hint and sets its text, but only when the hint
  is not already Visible. A desk further away hides a Visible hint.
  Every pair overwrites the verdict of the pairs before it.
- **Renaming** (`main.rs`). `update_people` renames the first
  "Elaina Proctor" to "Elaina Hume" in place and stops.
- **The guessing game** (`guessing_game`). The game loop is a step machine
  over `prev` and `trolling_count`. It replies too small, a little small, too
  big or correct, and it panics at the second "trolling" guess.
- **`first_word`** (`ownership`), **`fibonacci`** and the lines of
  **`christmas_song`** (`if_practice`).

Bevy queries are modelled as sequences in iteration order. A query whose
components the system writes is an `array`, updated in place. Entity
components that are values are datatypes. `MouseInput` and the guessing game's
loop state are classes. Coordinates are `real`.

`player_check_collision` has no closest-object selection: the last
(player, desk) pair decides the hint (`Player.LaterFarDeskHidesHint`).

The declarations of `MouseSelectable`, `CurrentHovered` and `MouseInput` are
not part of this model. Their fields are taken from how `mouse_event.rs` uses
them: `select_rect`, `selectable`, `camera_position` and `world_position`.

## Model

| member | source | states |
|---|---|---|
| `MouseEvent.MouseInput.Listen` | salaryman_simulator/src/mouse_event.rs:27-55 | no cursor: both positions keep their old values; a cursor: the screen position is overwritten, and the world position too when the camera converts it (the ray origin with z dropped); otherwise the world position is kept |
| `MouseEvent.FirstHit` | salaryman_simulator/src/mouse_event.rs:68-93 | the index returned is a hit (all four strict comparisons against the ×8 rectangle), no earlier selectable is a hit, and None exactly when no selectable is a hit |
| `MouseEvent.FindHovered` | salaryman_simulator/src/mouse_event.rs:68-93 | the loop with early exit returns exactly the first hit |
| `MouseEvent.FirstHitIsUnique` | salaryman_simulator/src/mouse_event.rs:83-91 | a hit with no hit before it is the one chosen |
| `MouseEvent.LaterItemsIgnored` | salaryman_simulator/src/mouse_event.rs:89-91 | after the first hit the scan stops: appending any selectables leaves the choice unchanged |
| `MouseEvent.MissesAreSkipped` | salaryman_simulator/src/mouse_event.rs:68-93 | when no selectable in a prefix is hit, the choice is the first hit after that prefix, shifted by the prefix length |
| `MouseEvent.EdgeIsNotHit` | salaryman_simulator/src/mouse_event.rs:83-86 | a pointer exactly on a magnified edge is not a hit |
| `MouseEvent.CenterIsHit` | salaryman_simulator/src/mouse_event.rs:83-86 | the magnified rectangle's centre is a hit exactly when the rectangle has positive width and height |
| `MouseEvent.Hovered` | salaryman_simulator/src/mouse_event.rs:95-104 | the published selectable is absent exactly when nothing is hit, and otherwise is the selectable of a hit region with no hit before it, that is, the first hit |
| `MouseEvent.ShowOver` | salaryman_simulator/src/mouse_event.rs:108-130 | the hint becomes Visible; its translation x and y become the hit's, its x and y scale become the rectangle's width×0.1 and height×0.1; its translation z, rotation and z scale are untouched |
| `MouseEvent.ShowOverIdempotent` | salaryman_simulator/src/mouse_event.rs:108-130 | placing the hint over the same hit a second time changes nothing, so a tick with the same pointer leaves the hint as it was |
| `MouseEvent.MouseEventSystem` | salaryman_simulator/src/mouse_event.rs:57-137 | every `CurrentHovered` holds the first hit's selectable or None; on a hit every hint takes the hit's x and y and scale (width×0.1, height×0.1); on no hit only the first hint is hidden before the `return`, with its transform unchanged, and later hints are untouched |
| `Common.DistanceSquared` | salaryman_simulator/src/player.rs:41-43 | the squared distance between two positions is never negative |
| `Player.NetDirection` | salaryman_simulator/src/player.rs:15-26 | each component is in {−1, 0, 1}; x is +1 exactly for D without A and −1 exactly for A without D, likewise y with W and S; z is 0; the direction is zero exactly when both pairs of opposite keys cancel |
| `Player.Direction` | salaryman_simulator/src/main.rs:110-123 | the direction accumulated key by key is the net direction |
| `Player.NonZeroHasLength` | salaryman_simulator/src/player.rs:28 | for a key direction, `length_squared() > 0` exactly when it is not zero |
| `Player.PlayerMovement` | salaryman_simulator/src/player.rs:8-32 | with a zero net direction no player moves; otherwise every player takes one step along the normalised direction, scaled by its speed times 0.02 |
| `Player.StepFollowsDirection` | salaryman_simulator/src/main.rs:125-127 | for a positive speed, each coordinate moves with the sign of the direction's component, and z never changes |
| `Player.DefaultSpeedStep` | salaryman_simulator/src/components.rs:11-19 | at the speed of `Person::default()` (200), holding W alone moves exactly 4 units up per tick, with rotation and scale kept |
| `Player.InRangeMatchesDistance` | salaryman_simulator/src/player.rs:41-45 | comparing the squared distance with 3600 is the same as comparing the distance with 60 (strictly) |
| `Player.StepHint` | salaryman_simulator/src/player.rs:45-59 | in range the hint is Visible afterwards; a hint that was already Visible is not written at all, text included; a hint that was not Visible gets the template as its text; out of range the hint is not Visible afterwards, its text is untouched, and a hint that was not Visible is unchanged |
| `Player.ShowOrHideHints` | salaryman_simulator/src/player.rs:45-60 | every hint takes the step of one (player, desk) pair |
| `Player.Row` | salaryman_simulator/src/player.rs:40-45 | one verdict per desk, in desk order, each the range test against that desk |
| `Player.PlayerCheckCollision` | salaryman_simulator/src/player.rs:34-63 | every hint ends as its old value after the verdicts of all (player, desk) pairs, taken player by player and desk by desk |
| `Player.VerdictsLength` | salaryman_simulator/src/player.rs:39-40 | there is one verdict per (player, desk) pair |
| `Player.LastVerdict` | salaryman_simulator/src/player.rs:39-45 | the last verdict is that of the last player and the last desk |
| `Player.NoPairs` | salaryman_simulator/src/player.rs:39-40 | with no players or no desks there are no verdicts |
| `Player.FinalVisibilityIsLastPair` | salaryman_simulator/src/player.rs:39-62 | the hint ends Visible exactly when the last (player, desk) pair is in range; with no pairs the hint is unchanged |
| `Player.TextIsOldOrTemplate` | salaryman_simulator/src/player.rs:46-52 | the template never changes, and the text ends as its old value or the template |
| `Player.VisibleHintNotRewritten` | salaryman_simulator/src/player.rs:46-52 | a Visible hint that stays in range is never written |
| `Player.OutOfRangeOnlyHides` | salaryman_simulator/src/player.rs:54-59 | out of range the text is never modified; a Visible hint ends Hidden; any other hint is unchanged |
| `Player.LaterFarDeskHidesHint` | salaryman_simulator/src/player.rs:39-62 | a desk in range followed by a desk out of range leaves the hint not Visible: this is not a closest-target selection |
| `Player.NearAndFarDesks` | salaryman_simulator/src/player.rs:45 | a desk 10 units away is in range and one 200 units away is not |
| `People.FirstIndexOf` | salaryman_simulator/src/main.rs:97-98 | the index found holds the name and no earlier index does; None exactly when the name is absent |
| `People.Renamed` | salaryman_simulator/src/main.rs:96-103 | the length is kept; with no "Elaina Proctor" nothing changes; the only element that can change is the first "Elaina Proctor", which becomes "Elaina Hume"; later ones are kept |
| `People.UpdatePeople` | salaryman_simulator/src/main.rs:96-103 | the names after the in-place loop with `break` are the renamed names |
| `People.AtMostOneRenamed` | salaryman_simulator/src/main.rs:99-100 | at most one name changes |
| `People.RenamedCounts` | salaryman_simulator/src/main.rs:98-100 | when present, exactly one "Elaina Proctor" is removed and one "Elaina Hume" added |
| `GuessingGame.ClassifyAsWritten` | guessing_game/src/main.rs:36-48 | the computation of `secret_number - 5` panics exactly when the secret is below 5 |
| `GuessingGame.Classify` | guessing_game/src/main.rs:36-48 | too small exactly when guess < secret − 5; a little small exactly when secret − 5 ≤ guess < secret; too big exactly when guess > secret; correct exactly when equal |
| `GuessingGame.ClassifyAgrees` | guessing_game/src/main.rs:36-48 | for a secret of 5 or more the code as written and the corrected classification agree |
| `GuessingGame.AsWrittenUnderflows` | guessing_game/src/main.rs:12-36 | secret 3 can be drawn, and the guess 2 then panics in the code as written, where "a little small" was meant |
| `GuessingGame.TrollingMovesAway` | guessing_game/src/main.rs:50 | a trolling guess is strictly further from the secret than the previous guess |
| `GuessingGame.FirstGuessIsFair` | guessing_game/src/main.rs:9-12 | with `prev` starting at 0 and the secret at least 1, the first numeric guess is never trolling |
| `GuessingGame.Step` | guessing_game/src/main.rs:23-61 | input that does not parse leaves the state unchanged; a numeric guess gets the classification; the correct guess wins with `prev` and the count untouched, before the trolling check; otherwise a reply is fair exactly when the guess is not trolling, and a fair guess sets `prev`; the first trolling guess warns and sets the count to 1; a later one aborts |
| `GuessingGame.CountAtMostOne` | guessing_game/src/main.rs:50-59 | over any input, the trolling count never exceeds 1 |
| `GuessingGame.OverIsFinal` | guessing_game/src/main.rs:44-47 | once the game is won or aborted, later input changes nothing |
| `GuessingGame.NonNumericIsSkipped` | guessing_game/src/main.rs:23-32 | lines that do not parse are skipped with no effect on the game |
| `GuessingGame.TwoTrollsAbort` | guessing_game/src/main.rs:50-59 | two trolling guesses in a row from a count of 0 end the game with a panic |
| `GuessingGame.Game.constructor` | guessing_game/src/main.rs:9-12 | the game starts with `prev` and the trolling count both 0, still playing |
| `GuessingGame.Game.Guess` | guessing_game/src/main.rs:14-62 | one pass of the loop body changes the state, and replies, as the step function says |
| `GuessingGame.Play` | guessing_game/src/main.rs:14-62 | the loop over the typed lines ends in the state of the step function run over those lines, with a trolling count of at most 1 |
| `Ownership.FirstSpace` | ownership/src/main.rs:19-25 | the index is at most the length; no byte before it is a space; the byte at it is a space when it is short of the end; it is the length exactly when there is no space |
| `Ownership.Word` | ownership/src/main.rs:16-29 | the first word is a prefix, has no space, is followed by a space when shorter than the string, and is all of the string when there is no space |
| `Ownership.FirstWord` | ownership/src/main.rs:16-29 | the scan with early return yields the first word |
| `Ownership.WordIdempotent` | ownership/src/main.rs:16-29 | the first word of a first word is itself |
| `Ownership.EmptyWord` | ownership/src/main.rs:28 | an empty string gives an empty word |
| `Ownership.HelloWorld` | ownership/src/main.rs:2-6 | "hello world" gives "hello" |
| `IfPractice.Fibonacci` | if_practice/src/main.rs:27-35 | for n ≤ 47 the u32 recursion never overflows and equals the mathematical Fibonacci number |
| `IfPractice.FibIterIsFib` | if_practice/src/main.rs:27-35 | the iteration `a, b := b, a + b` agrees with the recursive definition |
| `IfPractice.FibMonotone` | if_practice/src/main.rs:27-35 | the Fibonacci numbers never decrease |
| `IfPractice.FibFitsU32` | if_practice/src/main.rs:27-35 | every Fibonacci number up to the 47th is below 2^32 |
| `IfPractice.Fib48Overflows` | if_practice/src/main.rs:27-35 | the 48th is not, so `fibonacci(48)` would overflow |
| `IfPractice.FibonacciOfTen` | if_practice/src/main.rs:12-14 | `fibonacci(10)` is 55 |
| `IfPractice.ChristmasSong` | if_practice/src/main.rs:37-70 | the nested countdown loops emit exactly the lines of the twelve verses in order |
| `IfPractice.GiftsAt` | if_practice/src/main.rs:62-67 | gift line k of verse i is gift i − k, and carries "And " exactly when it is gift 0 and i ≠ 0 |
| `IfPractice.VerseShape` | if_practice/src/main.rs:57-69 | verse i has i + 3 lines: its heading, gifts i, i−1, …, 0, and a blank line; "And " stands exactly before gift 0 in verses i ≥ 1 and never in verse 0 |
| `IfPractice.SongCounts` | if_practice/src/main.rs:57-69 | n verses have n headings and 1 + 2 + … + n gift lines (twice the gift count is n(n+1)) |
| `IfPractice.TwelveVerses` | if_practice/src/main.rs:57-69 | the song has 12 verses and 78 gift lines |
| `IfPractice.RenderedAnd` | if_practice/src/main.rs:63-66 | a printed gift line starts with "And " exactly when the prefix was printed |

## Findings

| source | as written | input that shows it | evidently intended | confidence | as-written member | corrected member |
|---|---|---|---|---|---|---|
| guessing_game/src/main.rs:12-36 | `let minus = secret_number - 5;` on u32, for a secret drawn from 1 to 100 | secret 3, guess 2: the subtraction underflows and a build with overflow checks panics (a release build wraps, and every low guess is then "too small") | the lower edge of "a little small" clamped at 0 (`saturating_sub`), so every guess below the secret is "a little small" | not executed; high | `GuessingGame.ClassifyAsWritten`, `GuessingGame.AsWrittenUnderflows` | `GuessingGame.Classify` |

The game model (`GuessingGame.Step`, `GuessingGame.Game.Guess`,
`GuessingGame.Play`) uses the corrected classification.
`GuessingGame.ClassifyAgrees` shows that it agrees with the code as written
for every secret of 5 or more.

## Left out

- Window, camera and keyboard queries: the cursor position, the camera's `viewport_to_world` and the set of pressed keys are inputs.
- `add_mouse_input`, `add_player`, `add_people`, `sprite_setup`, `greet_people`: entity spawning and a timer-driven greeting. They hold no logic to model.
- `SalarymanSimulator/src/lib.rs`: wgpu/winit window, device and event-loop plumbing.
- `salaryman_simulator/src/gui.rs`: font loading and text spawning. Its `update_pop_up` uses time-driven float trigonometry.
- `println!`, `print!` and `panic!` messages. The guessing game's replies and the song's lines are values, and `Line` has a `Render` giving each line's text.
- Floating point: coordinates are reals. f32 rounding in distances, the 0.02 step factor and `normalize` is not modelled.
- Player.PlayerMovement: a diagonal step uses the constant 0.70710677, the f32 value of 1/√2, in exact real arithmetic. That is only an approximation of `normalize` followed by f32 multiplication. The model does not prove that the step has length speed × 0.02.
- Player.PlayerCheckCollision: the range test compares the squared distance with 3600 instead of taking a square root (`Player.InRangeMatchesDistance` relates the two). The panic of `sections[0]` on a text with no sections is not modelled; the hint's text stands for that first section.
- GuessingGame.Step: uses the corrected classification. For a secret of 1 to 4 the code as written panics at `secret_number - 5` on every numeric guess, the correct one included, while the model plays on (see "## Findings"; `GuessingGame.ClassifyAsWritten` models that panic).
- GuessingGame.Play: the model stops when the typed lines run out. In the code, end of input makes `read_line` return an empty line, which does not parse, so the loop repeats forever; that endless loop is not modelled.
- `stdin`, `parse` and `rand`: a line is Some(u32) when it parses and None otherwise, and the secret is a parameter limited to the range of `gen_range(1, 101)`.
- `fehrer_to_celsius` and `celsius_to_fehrer`: f64 arithmetic only.
- `data_type`, `function` and `variables`: demonstration prints with nothing to state.
- `first_word` works on the string's UTF-8 bytes. Only the byte position of the cut is modelled, not the `&str` borrow.
