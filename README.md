# ChimeraBox game and QbitTime command line, modelled in Dafny

This project models two programs of the repository.

**The ChimeraBox 2D game** (`ChimeraBox_2d_game.py`). It is a single pygame
frame loop. The player square moves with the arrow keys and is kept on the
800x600 screen. Standing on a lab pays that lab's research value, at most once
per 1000 ms per lab. Research is capped at 1000, and reaching the cap wins.
Red-team enemies spawn just outside the top, left or right edge and head for
the vault. Each enemy that touches the vault is removed and costs 25 of the
vault's 500 integrity; reaching 0 loses. Once the game is over, holding R
restarts and holding Q quits.

- `Geometry` holds integer rectangles and the overlap test.
- `ChimeraRules` states every rule of a frame as a function on a `GameState`
  value. `Step` is one whole frame, and the invariant `Inv` is proved to be
  kept by every frame.
- `ChimeraGame` carries out the same rules imperatively:
  - `Player` is a class whose `Update` moves its rectangle field by field.
  - `Game` holds the sprite groups and the module-level variables as fields.
    Each of its methods is proved to leave `State()` equal to the rule
    function applied to the old state. So `Game.Tick` is exactly `Step`, and
    `Valid()` is kept.

The model follows the code as written in three places where a reader of the
game's comments or of its description would expect something else:

- **A breach overrides a win in the same frame.** The header comment (line
  14) says research must be maxed out "before" integrity hits 0, which reads
  as research winning a tie. But the lab loop (lines 188-199) runs before the
  vault loop (lines 214-222) in the same frame, and the vault loop sets
  `win_condition = False`. A frame that reaches the cap and breaches the
  vault is therefore lost (`ChimeraRules.BreachOverridesWin`).
- **The spawn gate never gets faster.** The spawn gate (line 202) compares
  with `enemy_spawn_timer`, which is set once to 2000 (line 163) and never
  reassigned. Only `enemy_spawn_timer_max` decays by 0.995 towards 500, and
  the only code that reads it is that decay itself (line 204). The increasing
  difficulty the comment on line 203 announces never takes effect: spawns
  stay at most one per 2000 ms, and the gate is strict (`>`), not `>=`
  (`ChimeraRules.SpawnRule`, `ChimeraRules.SpawnIgnoresTimerMax`).
- **The restart is a partial reset, run in the same frame as the logic.**
  The comment on line 265 calls it a reset of the game state, and line 273
  notes that the buildings group is kept. The labs' visit times are not
  reset, so a lab visited just before the game ended still waits out its
  cooldown after the restart. The game-over screen (line 248) is checked
  after the game logic of the same frame, so a frame can end the game and
  restart it at once.

**The QbitTime command line** (`QbitTime_CLI.py`, `process_command`). One line
of input is stripped and split on whitespace. The first word is lower-cased
and selects a branch. The module `QbitTimeCli` models it as the pure function
`ProcessCommand`, which returns a `Reply`. The reply holds the printed lines
(one entry per `print` call) and whether the `"exit_program"` value was
returned.

Two entries of the help table, `add` and `config`, have no branch of their
own. Typing them prints the unknown-command line
(`QbitTimeCli.AdvertisedButUnhandled`).

## Model

| member | source | states |
|---|---|---|
| Geometry.OverlapsIffSharedPixel | ChimeraBox_2d_game.py:188 | the overlap test used for sprite collisions (`Geometry.Overlaps`) holds exactly when some pixel lies inside both rectangles, and it is symmetric |
| Geometry.CenteredAt | ChimeraBox_2d_game.py:58 | assigning a rectangle's centre keeps its size and puts its (floor-halved) centre exactly at the given point |
| ChimeraRules.MovePlayer | ChimeraBox_2d_game.py:61-80 | the shifted corner is kept where there is room; otherwise it is clamped to 0 or to the last on-screen coordinate, per axis; the box always ends on screen |
| ChimeraGame.Player.Update | ChimeraBox_2d_game.py:61-80 | the field-by-field key and edge updates leave the corner where MovePlayer puts it |
| ChimeraGame.Player.constructor | ChimeraBox_2d_game.py:53-59 | the player starts with its centre at (400, 550) |
| ChimeraRules.VisitLabs | ChimeraBox_2d_game.py:188-199 | the lab loop keeps the number of buildings; each building is visited on its own (cooldown stamp only when it pays); research stays within [start, 1000] |
| ChimeraRules.VisitLabsResearch | ChimeraBox_2d_game.py:189-199 | capping after every addition is capping the total gained; the cap flag is set exactly when something was gained and the total reaches 1000 |
| ChimeraRules.NoCollectNoChange | ChimeraBox_2d_game.py:189-191 | when no lab passes the vault, value and cooldown tests, the loop changes nothing |
| ChimeraRules.VisitLabsIdempotent | ChimeraBox_2d_game.py:188-193 | running the lab loop again at the same time and place pays nothing and changes nothing |
| ChimeraRules.RevisitWithinCooldown | ChimeraBox_2d_game.py:189-193 | within 1000 ms of a visit, a lab that paid does not pay again, wherever the player stands; if every lab that would pay the second time paid the first time, the second pass changes nothing |
| ChimeraGame.VisitEachLab | ChimeraBox_2d_game.py:188-199 | the imperative lab loop computes the research, the updated buildings and the win flag of VisitLabs |
| ChimeraGame.Game.GatherResearch | ChimeraBox_2d_game.py:188-199 | the game's new state is the research step applied to the old state |
| ChimeraRules.SpawnRect | ChimeraBox_2d_game.py:103-113 | a new enemy is a 15x15 box just outside the chosen edge, at the drawn offset along it, not overlapping the screen |
| ChimeraRules.SpawnReachesWholeEdge | ChimeraBox_2d_game.py:104-113 | every box on the three spawn edges is produced by some side and offset in range |
| ChimeraRules.Steer | ChimeraBox_2d_game.py:118-127 | an enemy step keeps speed, target and size; an enemy whose centre is on the target does not move |
| ChimeraRules.Hits | ChimeraBox_2d_game.py:214 | the enemies reported as hits are group members that overlap the vault |
| ChimeraRules.Survivors | ChimeraBox_2d_game.py:214 | the enemies left after the hits are killed are group members that do not overlap the vault |
| ChimeraRules.HitsSurvivorsPartition | ChimeraBox_2d_game.py:214 | hits and survivors together are exactly the group, as a multiset |
| ChimeraRules.DamageAfter | ChimeraBox_2d_game.py:215-222 | the vault-hit loop never raises integrity and never takes it below 0, and a breach leaves it at exactly 0 after at least one hit |
| ChimeraRules.DamageClosedForm | ChimeraBox_2d_game.py:215-222 | after n hits the integrity is the old one minus 25n, floored at 0; the breach branch ran exactly when n > 0 and 25n reaches the integrity |
| ChimeraRules.TwentyHitsBreach | ChimeraBox_2d_game.py:215-222 | from 500 integrity the twentieth hit breaches and no earlier one does |
| ChimeraRules.DecaySpawnTimer | ChimeraBox_2d_game.py:204 | the decayed maximum never falls below 500, and it shrinks strictly while it is above 500 |
| ChimeraRules.InitialState | ChimeraBox_2d_game.py:136-168 | the set-up state satisfies the game invariant, has no enemies, no research, full integrity, the player centred at (400, 550), and records the start time as the last spawn |
| ChimeraRules.AfterSpawn | ChimeraBox_2d_game.py:202-208 | the spawn block adds exactly one enemy, on a spawn edge and after the existing ones, when it is due and records now as the spawn time; otherwise it changes nothing; the gate interval is untouched and the maximum does not grow or pass 500 |
| ChimeraRules.AfterVault | ChimeraBox_2d_game.py:214-222 | the vault block keeps only group members off the vault, never raises integrity or takes it below 0, loses integrity only by removing enemies, and ends a running game only as a loss at integrity 0 |
| ChimeraRules.Logic | ChimeraBox_2d_game.py:180-222 | a running frame's logic keeps every building's box, name and value (only visit times change) and the spawn gate, never lowers research or raises integrity, adds at most one enemy, and moves the player as `MovePlayer` does |
| ChimeraRules.Restart | ChimeraBox_2d_game.py:263-278 | the restart block keeps the buildings and the gate, centres the player at (400, 550), clears enemies and research, refills integrity, and yields a running state that satisfies the invariant |
| ChimeraRules.Step | ChimeraBox_2d_game.py:172-281 | a whole frame keeps the number of buildings and the gate; unless the frame's logic leaves the game over with R held, the frame is exactly the logic step (or no change when the game was already over), so the restart happens only on game over with R; with R held the frame never ends on the game-over screen |
| ChimeraRules.LogicOutcome | ChimeraBox_2d_game.py:180-222 | a running frame ends the game iff it reaches the research cap or breaches; it wins iff it reaches the cap without a breach; the message matches; research is 1000 iff the cap was reached; integrity is 0 iff breached |
| ChimeraRules.BreachOverridesWin | ChimeraBox_2d_game.py:195-222 | a frame that both reaches the cap and breaches is a loss |
| ChimeraRules.StepPreservesInv | ChimeraBox_2d_game.py:172-281 | every frame keeps the bounds on research, integrity and the spawn maximum, the player on screen, and the agreement of flags, message and counters |
| ChimeraRules.GameOverFreezes | ChimeraBox_2d_game.py:180-281 | while the game is over and R is not held, a frame changes nothing |
| ChimeraRules.SpawnRule | ChimeraBox_2d_game.py:202-208 | a frame adds one enemy exactly when more than 2000 ms passed since the last spawn, and then records now as the spawn time |
| ChimeraRules.SpawnIgnoresTimerMax | ChimeraBox_2d_game.py:202-208 | the decaying maximum influences nothing in a frame except itself |
| ChimeraRules.TimerMaxNonIncreasing | ChimeraBox_2d_game.py:202-208 | between restarts the spawn maximum never grows or passes 500, and the gate interval never changes |
| ChimeraRules.VaultHitsResolved | ChimeraBox_2d_game.py:214-222 | each vault hit is removed once and costs 25 down to 0; at 0 the loss message and flags are set, otherwise they are unchanged |
| ChimeraRules.RestartResets | ChimeraBox_2d_game.py:263-278 | R resets research, integrity, enemies, player, spawn maximum, spawn time and flags, and leaves the buildings as they were |
| ChimeraRules.ZonesFixed | ChimeraBox_2d_game.py:188-199 | no frame moves, renames or revalues a building |
| ChimeraGame.Game.constructor | ChimeraBox_2d_game.py:136-168 | the set-up state is the initial state, which satisfies the invariant |
| ChimeraGame.Game.SpawnEnemy | ChimeraBox_2d_game.py:202-208 | the game's new state is the spawn step applied to the old state |
| ChimeraGame.Game.UpdateEnemies | ChimeraBox_2d_game.py:211 | the loop over the group leaves each enemy stepped once, in place, and nothing else changed |
| ChimeraGame.Game.ResolveVaultHits | ChimeraBox_2d_game.py:214-222 | the kill-and-damage loop leaves the state the vault step computes |
| ChimeraGame.Game.Restart | ChimeraBox_2d_game.py:263-278 | the restart block leaves the state the restart function computes |
| ChimeraGame.Game.Tick | ChimeraBox_2d_game.py:172-285 | one loop iteration is exactly Step, keeps the invariant, and returns running exactly as the quit event and Q on the game-over screen decide |
| QbitTimeCli.Lower | QbitTime_CLI.py:31 | lower-casing keeps the length and maps every character on its own |
| QbitTimeCli.LowerIdempotent | QbitTime_CLI.py:31 | lower-casing twice is lower-casing once |
| QbitTimeCli.DropSpaces | QbitTime_CLI.py:27 | the result starts with a non-space, and it is empty exactly when the input is all whitespace |
| QbitTimeCli.DropSpacesSuffix | QbitTime_CLI.py:27 | the left strip is the input from some point on, and everything cut off before that point is whitespace |
| QbitTimeCli.TrimRight | QbitTime_CLI.py:27 | the result ends with a non-space, and what was cut off at the end is all whitespace |
| QbitTimeCli.TrimRightPrefix | QbitTime_CLI.py:27 | the right strip is a prefix of the input |
| QbitTimeCli.Strip | QbitTime_CLI.py:27 | the stripped line is empty exactly when the input is all whitespace, and otherwise starts and ends with a non-space |
| QbitTimeCli.StripSlice | QbitTime_CLI.py:27 | the stripped line is a contiguous slice of the input with only whitespace before and after it |
| QbitTimeCli.Split | QbitTime_CLI.py:27 | every token is non-empty and free of whitespace |
| QbitTimeCli.SplitNoneIffBlank | QbitTime_CLI.py:27-29 | there are no tokens exactly when the input is all whitespace |
| QbitTimeCli.SplitIgnoresLeadingSpace | QbitTime_CLI.py:27 | leading whitespace does not change the tokens |
| QbitTimeCli.SplitIgnoresTrailingSpace | QbitTime_CLI.py:27 | trailing whitespace does not change the tokens |
| QbitTimeCli.SplitStrip | QbitTime_CLI.py:27 | stripping before splitting gives the same tokens as splitting alone |
| QbitTimeCli.SplitSeparated | QbitTime_CLI.py:27 | any non-empty run of whitespace between two parts of a line separates them: the tokens are the tokens of the left part followed by those of the right part |
| QbitTimeCli.Join | QbitTime_CLI.py:40 | joining no parts gives the empty string and a single part is returned without a separator; `SplitJoin` states that splitting undoes single-space joining |
| QbitTimeCli.SplitJoin | QbitTime_CLI.py:40 | words joined by single spaces split back into the same words |
| QbitTimeCli.HelpLines | QbitTime_CLI.py:16-22 | the help text is the two heading lines ("Available commands:" and the dashes), one row per entry of the help table (`COMMANDS_HELP` when dispatched) in order (usage padded to 40 columns, " - ", description), and the two closing lines (the "(QTM)" note and the usage hint) |
| QbitTimeCli.PadRight | QbitTime_CLI.py:20 | the field starts with the text, is padded with spaces only, and has length max(40, text length) |
| QbitTimeCli.Dispatch | QbitTime_CLI.py:34-68 | exit is signalled exactly for "exit"; every branch prints something; a word without a branch prints only the unknown-command line |
| QbitTimeCli.ProcessCommand | QbitTime_CLI.py:26-68 | blank input prints nothing and does not exit; other input prints something; exit is signalled exactly when the lower-cased first word is "exit" |
| QbitTimeCli.SameWordsSameReply | QbitTime_CLI.py:27-32 | two lines with the same arguments and the same lower-cased command word get the same reply |
| QbitTimeCli.WhitespaceRunsCollapse | QbitTime_CLI.py:27-40 | widening any gap of a line to a longer run of whitespace does not change the reply |
| QbitTimeCli.CommandWordCaseInsensitive | QbitTime_CLI.py:31 | a line gets the same reply as its lower-cased command word followed by its arguments |
| QbitTimeCli.HelpReply | QbitTime_CLI.py:34-35 | help, in any case and with any arguments, prints the help text and does not exit |
| QbitTimeCli.HelloReply | QbitTime_CLI.py:36-37 | hello, in any case and with any arguments, prints its greeting and does not exit |
| QbitTimeCli.ExitReply | QbitTime_CLI.py:64-66 | exit, in any case and with any arguments, prints the farewell line and ends the session |
| QbitTimeCli.GreetReply | QbitTime_CLI.py:38-42 | greet echoes its arguments joined by single spaces, or prints its usage line when there are none |
| QbitTimeCli.DefineMnodeReply | QbitTime_CLI.py:45-53 | define_mnode uses the first argument as the id and the rest joined (or "No data") as the data; with no argument it prints its usage line |
| QbitTimeCli.LinkMnodesArity | QbitTime_CLI.py:55-62 | link_mnodes prints the link lines exactly for three arguments, and otherwise its usage line |
| QbitTimeCli.AdvertisedButUnhandled | QbitTime_CLI.py:64-68 | "add" and "config", in any case, print the unknown-command line with the lower-cased word |
| QbitTimeCli.HelpTableListsAddAndConfig | QbitTime_CLI.py:4-14 | the help table advertises add and config, and the dispatcher has no branch for them |

## Left out

- Rendering, fonts, the overlay, label drawing, `pygame.display.flip` and the 30 FPS clock: none of them affects the game state.
- The clock (`pygame.time.get_ticks`) and the keyboard and event queue become fields of `TickInput`.
- `random.choice`, `random.randint` and `random.uniform` become inputs. Their ranges are preconditions (`ValidInput`).
- ChimeraRules.Steer: the float homing step of `Enemy.update` (square root, division, truncation into the integer rectangle) is an input displacement. Only the guard that an enemy on its target does not move is modelled.
- The factor 0.995 is an exact real, not a binary double. The decayed maximum is read only by its own decay, so nothing else depends on it.
- `Rect.colliderect` and `spritecollide` are modelled as the strict overlap of two rectangles; every rectangle of the game has positive size.
- Sprites are shared objects in pygame (`all_sprites`, `buildings_group`, `enemies_group`). Here the buildings and enemies are values in sequence fields of `Game`; `all_sprites` is used only for drawing and is left out.
- The debug `print` calls in the game loop are left out.
- The quit event is modelled only through the `running` result of `Game.Tick`. `pygame.quit` and `sys.exit` are left out.
- Whitespace and lower-casing in the command line are ASCII only. Python's Unicode whitespace and case mapping are not modelled.
- `main()`, the prompt, `input`, and the handling of Ctrl+C and end of input in the command line are console I/O and are left out.
- QbitTimeCli.Split: its own contract states only that every token is a non-empty run without whitespace; which tokens come out is stated by `SplitSeparated`, `SplitJoin`, `SplitStrip` and `SplitNoneIffBlank`.
- QbitTimeCli.Dispatch: its own contract states the exit flag, that every branch prints, and the unknown-command reply; the reply of each handled word is stated by the lemmas `HelpReply`, `HelloReply`, `ExitReply`, `GreetReply`, `DefineMnodeReply` and `LinkMnodesArity` instead.
