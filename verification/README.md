# Tetris engines, the Tetris autoplayer and the SmartDNS dashboard's config handling in Dafny

This project models three programs.

- **The Tetris game of `Tetris/tetris.py`.**
  - The rules engine, on a 30×14 arena: the 7-bag, spawning, turns with six wall-kick offsets and T-spin detection, sideways and downward moves, the ghost piece, hard drop, hold, locking, line clears with their score tables, and the lock delay with its 15-restart cap.
  - The demo-mode AI:
    - the board evaluator;
    - the two-ply search, over every rotation, column and optional hold;
    - the executor, which turns a chosen target into a hold/turn/shift/drop plan and plays it one action per step.
- **The LCD variant, `Tetris/tetris_lcd.py`.** It has a 20×10 arena, a widening left/right wall-kick probe, and line clears that wait for an animation before rows are removed.
- **The SmartDNS dashboard, `SmartDash/app.py`.** The model covers:
  - how it infers a server's type from its address;
  - how it names domain-set files;
  - the line-by-line parse of `smartdns.conf` into a settings record;
  - the merge of server lines into one entry per (group, type) pair;
  - the writer that turns the record back into a file;
  - the add-server action;
  - the answer filter applied to `nslookup` output.

Modules follow the programs' structure:

| Module | Contents |
|---|---|
| `Grid` | Boards, piece matrices, collision, rotation, landing, placement and full-row clearing, shared by both games |
| `Shapes` | The seven tetrominoes and the bag |
| `Tetris` | The `tetris.py` engine |
| `TetrisEval`, `TetrisSearch`, `TetrisAutoplay` | Its AI |
| `TetrisLcd` | The LCD game |
| `Text` | The string operations the dashboard relies on |
| `SmartDnsConfig` | The settings record, naming, the server merge and add-server |
| `SmartDnsRead`, `SmartDnsWrite` | The parser and the writer |
| `SmartDnsFiling`, `SmartDnsRoundTrip` | What a write followed by a read preserves |
| `SmartDnsLookup` | The DNS test's answer filter |
| `Sorting`, `Lists`, `Wrappers` | Generic helpers |

Randomness and the outside world arrive as parameters:

- **Bag shuffles:** a shuffle is a parameter that must be a permutation of the seven shapes.
- **Random choices:** the random horizontal I piece is a flag, and the LCD game's random next piece is a `pick` argument.
- **Domain-list files:** what the file system says about each file is a `stat` function.
- **DNS test:** the `nslookup` output arrives as its lines.

Elapsed time is an integer count of ticks.

## Model

| member | source | states |
|---|---|---|
| Grid.CheckCollision | Tetris/tetris.py:1232-1245 | The cell-by-cell scan reports a hit exactly when some filled cell of the piece is below the floor, beyond a side wall, or over an occupied arena cell; cells above the top never collide |
| Grid.FloorCollides | Tetris/tetris.py:1232-1245 | A piece with a filled cell, placed at or below the last row, always collides, so a drop always ends |
| Grid.Rotate | Tetris/tetris_lcd.py:310-315 | The transpose-and-reverse turn yields a matrix of swapped dimensions |
| Grid.RotateAt | Tetris/tetris.py:1257-1266 | Cell by cell, a positive direction is the clockwise turn and any other is the counter-clockwise turn |
| Grid.RotateRoundTrip | Tetris/tetris.py:1257-1266 | A clockwise turn followed by a counter-clockwise turn gives back the original matrix |
| Grid.RotateFourTimes | Tetris/tetris.py:1257-1266 | Four clockwise turns give back the original matrix, which is why the AI tries only four rotations |
| Grid.ZipRotationIsClockwise | Tetris/tetris.py:1257-1266 | The AI's turn (reverse the rows, then transpose) is the same clockwise rotation as the game's |
| Grid.FreeWithinWalls | Tetris/tetris.py:1232-1245 | A piece that does not collide has every filled cell above the floor and between the side walls |
| Grid.RaiseNeedsBoard | Tetris/tetris.py:1232-1245 | If a piece collides but fits one row higher, the raised piece still starts at most its own height above row 0, because above the board only the walls collide |
| Grid.WalledHitReachesBoard | Tetris/tetris_lcd.py:296-303 | A piece within the side walls that collides has a cell at or below row 0, since above the board only the walls block |
| Grid.FirstFit | Tetris/tetris.py:1269-1283 | The kick chosen is the first offset at which the turned piece is free; every earlier offset collides; if none is free, every offset collides |
| Grid.LandingRow | Tetris/tetris.py:1447-1458 | Dropping from a row reaches the last row where the piece is free, and the row below it collides |
| Grid.Place | Tetris/tetris.py:1050-1059 | Placing writes each in-bounds filled cell of the piece and leaves every cell the piece does not cover unchanged |
| Grid.Stamp | Tetris/tetris.py:1344-1349 | The lock's stamp keeps the board's shape and changes only cells that some filled piece cell addresses through Python indices |
| Grid.StampWrites | Tetris/tetris.py:1344-1349 | Each filled cell with indices Python accepts lands at its wrapped cell: a row above the top counts up from the bottom row, a negative column from the right wall |
| Grid.StampInside | Tetris/tetris.py:1344-1349 | For a piece inside the board no index wraps, and the stamp is the plain placement |
| Grid.StampedFullRowsWithinPiece | Tetris/tetris.py:1341-1356 | Stamping into a board with no full rows completes at most as many rows as the piece is tall, even when cells wrap from above the top |
| Grid.StampKeepsFull | Tetris/tetris_lcd.py:305-308 | The stamp writes only filled cells, so a full row stays full |
| Grid.ClearFull | Tetris/tetris.py:1060-1067 | Clearing keeps the non-full rows in order under as many fresh empty rows as there were full ones; the count is the number of full rows, and no full row remains |
| Grid.KeepCount | Tetris/tetris.py:1060-1063 | Kept rows plus full rows account for every row |
| Grid.ClearIdempotent | Tetris/tetris.py:1060-1067 | A board with no full rows is left unchanged, with nothing cleared |
| Grid.ClearTwice | Tetris/tetris.py:1060-1067 | Clearing a cleared board changes nothing |
| Shapes.ShapeMatrix | Tetris/tetris.py:54-62 | Every shape's matrix is square, at most 4×4, holds only cell values 0 to 7 (empty or a colour id), and has a filled cell |
| Shapes.InitialMatrix | Tetris/tetris.py:1181-1188 | The initial matrix is the shape's own matrix, except for the I piece when the horizontal draw comes up |
| Shapes.ShuffleIsBag | Tetris/tetris.py:1190-1194 | A shuffle of the seven names is a bag holding each shape exactly once |
| Tetris.Draw | Tetris/tetris.py:1196-1200 | Drawing pops the last piece of the bag, or of a fresh bag when the bag is empty, and keeps the rest a sub-bag |
| Tetris.SevenBag | Tetris/tetris.py:1190-1200 | Seven draws starting from an empty bag yield the seven shapes once each: the first shuffle in reverse order |
| Tetris.DrainBag | Tetris/tetris.py:1196-1200 | Draws empty a partly used bag in reverse order before any refill is touched |
| Tetris.Spawn | Tetris/tetris.py:1202-1230 | The next piece becomes current, centred on the top row; the lock counters and the rotation flags reset and hold becomes available; the game is over exactly when the new piece collides |
| Tetris.ResetLockTimer | Tetris/tetris.py:1669-1673 | A move restarts the lock timer only while fewer than 15 restarts have been used, and never takes the count past 15 |
| Tetris.OccupiedCorners | Tetris/tetris.py:1300-1313 | The T-spin corner count ranges from 0 to 4 |
| Tetris.CornersGrowWithBoard | Tetris/tetris.py:1300-1313 | Filling board cells never lowers the corner count |
| Tetris.CornersAboveBoard | Tetris/tetris.py:1300-1313 | For a box entirely above row 0, only the walls count: each side contributes its two corners exactly when that side is past a wall |
| Tetris.CornersOnFloor | Tetris/tetris.py:1300-1313 | A box whose bottom corners are at or below the floor has at least those two corners occupied |
| Tetris.Kicked | Tetris/tetris.py:1269-1283 | An accepted turn installs the turned matrix at the kicked position, marks the last move as a turn, re-evaluates the T-spin and restarts the lock timer under the cap |
| Tetris.RotatePiece | Tetris/tetris.py:1247-1285 | A turn while paused or over changes nothing; otherwise it takes the first free offset, or changes nothing when none is free |
| Tetris.RotatePieceFrame | Tetris/tetris.py:1247-1285 | A turn leaves the arena, score, bag, hold and game flags untouched |
| Tetris.MoveDown | Tetris/tetris.py:1287-1298 | A soft drop moves one row down when the row below is free; otherwise it only marks the piece grounded |
| Tetris.Slid | Tetris/tetris.py:1320-1330 | A free sideways step moves the piece, clears the last-turn flag, re-evaluates grounding and restarts the lock timer under the cap |
| Tetris.MoveHorizontal | Tetris/tetris.py:1315-1330 | A blocked sideways step changes nothing and reports failure; a free step slides the piece and reports success |
| Tetris.MoveHorizontalFrame | Tetris/tetris.py:1315-1330 | A sideways move changes only the position and the lock and ground state |
| Tetris.GhostPosition | Tetris/tetris.py:1447-1458 | The ghost piece sits in the same column, at the last free row before the piece would collide |
| Tetris.HardDrop | Tetris/tetris.py:1332-1339 | From any playable state, a hard drop locks the piece at the ghost position, even one that lands partly above row 0 |
| Tetris.ClearLinesScan | Tetris/tetris.py:1381-1392 | The bottom-up scan that deletes each full row and re-checks the same index ends with the non-full rows under fresh empty rows, having counted the full rows |
| Tetris.ClearLines | Tetris/tetris.py:1379-1420 | A clear removes exactly the full rows; the score rises by the base or T-spin table entry times the level (a zero-line T-spin earns 100); lines and the per-count statistics grow; the level rises by one exactly when lines were cleared and the score reaches 1000 times the level |
| Tetris.SpinTablesCompared | Tetris/tetris.py:1405-1412 | The T-spin table pays more than the base table for one to three lines and less for four |
| Tetris.LockPiece | Tetris/tetris.py:1341-1356 | From any playable state, locking stamps the piece through Python indices, so a cell above row 0 lands that many rows up from the bottom. The next piece spawns and is tested against the stamped board; only then are that board's full rows cleared and scored. The new state is playable, not grounded, has hold available and zero lock moves, and the bag stays a sub-bag |
| Tetris.LockClearsAtMostPieceHeight | Tetris/tetris.py:1341-1356 | On a board with no full rows, locking completes at most as many rows as the piece is tall, and so at most four, wrapped cells included |
| Tetris.HoldPiece | Tetris/tetris.py:1358-1377 | Hold does nothing when it is disabled, already used, paused or over. Otherwise the current type is stored and hold is spent. A held piece comes back to the spawn position with its own matrix and the arena and bag unchanged. The first hold spawns the next piece |
| Tetris.HoldOncePerSpawn | Tetris/tetris.py:1358-1362 | A second hold before the next spawn does nothing |
| Tetris.Tick | Tetris/tetris.py:1723-1735 | Lock delay: nothing happens when paused, over or airborne. A grounded piece accumulates time and locks once the total reaches the limit |
| Tetris.ResetCapStopsRestarts | Tetris/tetris.py:1669-1673 | Once 15 restarts are used, neither sideways moves nor turns restart the lock timer |
| Tetris.ResetGame | Tetris/tetris.py:1149-1179 | A new game starts on an empty arena with zero score and lines, the chosen level and zeroed statistics. Current and next come from the shuffle in pop order. Hold is empty and available, and the state is playable |
| Tetris.ResetGameInv | Tetris/tetris.py:1149-1179 | A new game satisfies the engine invariant |
| Tetris.SpawnKeepsInv | Tetris/tetris.py:1202-1230 | Spawning preserves the engine invariant: board shape, colour codes, valid current and next matrices, no full rows, the lock cap, a bag with no repeats, and a piece within the side walls, above the floor and at most its own height above row 0. The piece may overlap the stack |
| Tetris.RotateKeepsInv | Tetris/tetris.py:1247-1285 | Turning preserves the engine invariant |
| Tetris.MovesKeepInv | Tetris/tetris.py:1287-1330 | Soft drops and sideways moves preserve the engine invariant |
| Tetris.NoIndexError | Tetris/tetris.py:1341-1356 | Under the invariant, every filled cell of the piece has Python-valid indices, both where the piece is and at its landing row, so a lock never raises IndexError |
| Tetris.KickedBounds | Tetris/tetris.py:1269-1283 | A turn that fits at a kick stays within the walls, and the upward kick never lifts the piece more than its height above row 0 |
| Tetris.LockKeepsInv | Tetris/tetris.py:1341-1356 | Locking preserves the engine invariant, with no condition on where the piece is |
| Tetris.HardDropKeepsInv | Tetris/tetris.py:1332-1339 | Every hard drop preserves the engine invariant, including one that lands above row 0 |
| Tetris.HoldKeepsInv | Tetris/tetris.py:1358-1377 | Hold preserves the engine invariant |
| Tetris.TickKeepsInv | Tetris/tetris.py:1723-1735 | Every lock-delay tick preserves the engine invariant, including one that locks |
| TetrisEval.Heights | Tetris/tetris.py:765-772 | One height per column, each between 0 and the number of rows |
| TetrisEval.StackHeightIsMaxHeight | Tetris/tetris.py:955-959 | The stack height the search uses to pick its mode equals the tallest column height the evaluator computes |
| TetrisEval.HolesAreEmptyCellsBelowTop | Tetris/tetris.py:793-803 | A column's holes are exactly its empty cells below its top filled cell |
| TetrisEval.LandingOnlyShiftsScore | Tetris/tetris.py:930-951 | The landing row enters the score only as a penalty of 200 per row between the landing row and the floor; all other terms are the same as with no landing row |
| TetrisEval.LowerLandingScoresMore | Tetris/tetris.py:930-933 | Landing one row lower scores exactly 200 more |
| TetrisEval.HighRiskPrefersMoreLines | Tetris/tetris.py:916-921 | In high-risk mode, more cleared lines always score higher on the same board |
| TetrisEval.NormalModePrefersFourLines | Tetris/tetris.py:916-921 | In normal mode, a four-line clear beats any smaller clear on the same board |
| TetrisEval.NormalModeAvoidsSingles | Tetris/tetris.py:902-921 | In normal mode, a single line scores below clearing nothing |
| TetrisEval.NextMode | Tetris/tetris.py:962-965 | High-risk mode switches on above a stack height of 15 and off below 6; between those heights it keeps its previous value |
| TetrisSearch.FourTurnsIdentity | Tetris/tetris.py:970-982 | Four AI turns give back the starting matrix |
| TetrisSearch.Candidates | Tetris/tetris.py:970-982 | The current piece is always a candidate. There is a second candidate, the held piece or else the next one, exactly when hold is enabled and available |
| TetrisSearch.DropLands | Tetris/tetris.py:984-1000 | A column yields no placement exactly when the piece collides at the top row; otherwise it lands at the first row above a collision |
| TetrisSearch.RotationsExactly | Tetris/tetris.py:984-1000 | The placements enumerated for a candidate are exactly the landings of its four rotations in columns -2 to COLS+1 |
| TetrisSearch.PlacementsExactly | Tetris/tetris.py:984-1000 | The first ply enumerates exactly the placements reachable by some candidate |
| TetrisSearch.Simulate | Tetris/tetris.py:1050-1067 | Simulation leaves a board of the right shape with no full rows; on a board with none, it clears at most as many rows as the piece is tall |
| TetrisSearch.Ranked | Tetris/tetris.py:1002 | The ranking is a permutation of the scored first-ply moves, sorted best first with ties in generation order |
| TetrisSearch.Top | Tetris/tetris.py:1009-1010 | The second ply looks only at the first `SearchLimit` ranked moves, or all of them when there are fewer |
| TetrisSearch.BestReply | Tetris/tetris.py:1017-1035 | The best reply is the highest next-piece score, or none when the next piece has no placement |
| TetrisSearch.Decide | Tetris/tetris.py:1037-1046 | No move exactly when there is no placement. A pair with a reply wins with the first strictly greatest total. With no replies, the top-ranked move is taken with its own score |
| TetrisSearch.Search | Tetris/tetris.py:953-1048 | The search yields no placement exactly when there is no ranked move. Otherwise it commits, with a score, to the placement of one of the ranked moves |
| TetrisSearch.SearchChoosesReachable | Tetris/tetris.py:953-1048 | The search picks a move exactly when one exists, and the move it picks is reachable by one of the candidates |
| TetrisSearch.DecideFallbackIsBest | Tetris/tetris.py:1043-1046 | Without a reply, the fallback scores at least as well as every ranked move |
| TetrisSearch.FindBestMove | Tetris/tetris.py:953-965 | The search runs in the mode the stack height selects |
| TetrisSearch.BestMoveIsReachable | Tetris/tetris.py:953-1048 | The chosen target is a placement some candidate can reach |
| TetrisAutoplay.BuildActions | Tetris/tetris.py:1081-1110 | The plan is an optional hold, then `rot` turns, then `abs(dx)` shifts in one direction only, then one drop; its net shift is `dx` |
| TetrisAutoplay.Perform | Tetris/tetris.py:1115-1128 | Every action is carried out. Hold, turn and shift leave the arena and score alone. The drop locks the piece and brings in the next one, with hold available and the lock state reset |
| TetrisAutoplay.PlanAdvances | Tetris/tetris.py:1112-1132 | Each step plays the next action; the plan ends exactly at its drop and otherwise the step advances by one |
| TetrisAutoplay.PlanStarts | Tetris/tetris.py:1081-1132 | A new plan starts at its first action |
| TetrisAutoplay.ExecuteStartsPlan | Tetris/tetris.py:1079-1132 | With no plan stored, the executor builds the plan for the target and plays its first action |
| TetrisAutoplay.Execute | Tetris/tetris.py:1079-1132 | One executor step keeps the AI mode, and when it reports the plan finished, no plan is stored and the step counter is back at 0 |
| TetrisAutoplay.ExecuteKeepsInv | Tetris/tetris.py:1079-1132 | Every executor step preserves the engine invariant |
| TetrisAutoplay.DemoStep | Tetris/tetris.py:1690-1708 | Demo mode restarts a finished game as a running game with no plan, and changes nothing while paused |
| TetrisAutoplay.Autoplay | Tetris/tetris.py:1700-1708 | A step with a plan in progress keeps the AI mode. A step without one first sets the mode from the stack height |
| TetrisAutoplay.AutoplayStarts | Tetris/tetris.py:1700-1706 | With no plan in progress, demo mode searches, records the mode, and starts executing the chosen target |
| TetrisAutoplay.DemoStepKeepsInv | Tetris/tetris.py:1683-1708 | Every demo step preserves the engine invariant |
| TetrisLcd.ShapeBits | Tetris/tetris_lcd.py:24-32 | Each LCD shape is a square matrix of 0/1 cells with a filled cell |
| TetrisLcd.ShapeBitsOutline | Tetris/tetris_lcd.py:24-32 | Each LCD shape has the same outline as the colour version of the same shape |
| TetrisLcd.PlayerReset | Tetris/tetris_lcd.py:288-294 | Next becomes current at the top row, centred and inside the walls, and the picked shape becomes next; the game is over exactly when the new piece collides |
| TetrisLcd.NewGame | Tetris/tetris_lcd.py:278-286 | A new game starts on an empty arena at level 1 with zero score and lines and nothing to clear, and it satisfies the invariant |
| TetrisLcd.PlayerRotate | Tetris/tetris_lcd.py:317-326 | A turn never changes the arena. Either nothing changes, or the piece takes the turned matrix in the same row at a position where it does not collide |
| TetrisLcd.RotateProbe | Tetris/tetris_lcd.py:317-326 | The widening probe at offsets 0, +1, -1, +2, -2, … tries as many offsets as the turned piece is wide, and finds the first free one or reports that all collide |
| TetrisLcd.RotateRefused | Tetris/tetris_lcd.py:317-326 | When no probed offset fits, the turn is undone and nothing changes |
| TetrisLcd.RotateAccepted | Tetris/tetris_lcd.py:317-326 | When some offset fits, the turn takes the first one that does, in the same row |
| TetrisLcd.PlayerDrop | Tetris/tetris_lcd.py:328-334 | A drop moves one row down when the row below is free; otherwise the piece stays put and is grounded. A grounded piece that falls restarts its lock timer |
| TetrisLcd.MovePlayer | Tetris/tetris_lcd.py:371-376 | A sideways step succeeds exactly when the target is free; it then restarts a grounded piece's lock timer; a refused step changes nothing |
| TetrisLcd.GhostPos | Tetris/tetris_lcd.py:366-369 | The ghost is the last free row below the piece in the same column |
| TetrisLcd.Sweep | Tetris/tetris_lcd.py:347-351 | The rows to clear are exactly the full rows, in ascending order |
| TetrisLcd.LockPiece | Tetris/tetris_lcd.py:336-340 | From any state, locking stamps the piece through Python indices (a cell above row 0 lands that many rows up from the bottom), resets ground and timer, and records the full rows of the stamped arena. With none, the next piece spawns; otherwise the piece stays where it was until the clear ends |
| TetrisLcd.LockSpawnsUnlessRowsComplete | Tetris/tetris_lcd.py:336-340 | The next piece spawns at once exactly when the merge completed no row |
| TetrisLcd.PlayerHardDrop | Tetris/tetris_lcd.py:342-345 | From any state, a pending clear included, a hard drop stamps the piece at the ghost position and records that arena's full rows; if some are full, the piece stays at the ghost position |
| TetrisLcd.GhostBounds | Tetris/tetris_lcd.py:366-369 | The ghost of a piece within the walls is within the walls too, and at most the piece's height above row 0 |
| TetrisLcd.NoIndexError | Tetris/tetris_lcd.py:336-345 | Under the invariant, every cell the hard drop's merge writes has Python-valid indices, pending clear or not, and so does the lock-delay merge of a running piece: the merge never raises IndexError |
| TetrisLcd.PendingHardDropClimbs | Tetris/tetris_lcd.py:342-345 | A hard drop while a clear is pending, with the piece still in its own stamped cells, moves it one row up and stamps it there, and the clear stays pending |
| TetrisLcd.FinishClearLoop | Tetris/tetris_lcd.py:355-357 | Removing the rows one at a time in ascending order adds 100, 200, 400, … to the score (100·(2ⁿ−1) in all) and counts each line |
| TetrisLcd.FinishClear | Tetris/tetris_lcd.py:353-364 | The animation's end adds the doubling score and the lines, raises the level by one exactly when the score reaches 500 times the level, empties the clear list and spawns the next piece |
| TetrisLcd.FinishClearRemovesFullRows | Tetris/tetris_lcd.py:347-364 | Removing the swept rows in sorted order leaves exactly the non-full rows under fresh empty rows |
| TetrisLcd.Tick | Tetris/tetris_lcd.py:450-460 | Nothing happens while a clear is pending, when paused, over or airborne. A grounded piece accumulates time and locks at the limit |
| TetrisLcd.RotateKeepsInv | Tetris/tetris_lcd.py:317-326 | A turn preserves the LCD invariant: board shape, 0/1 cells, the clear list equal to the full rows, the piece within the side walls and above the floor, and, in a running game with no clear pending, a piece at or below row 0 that overlaps nothing |
| TetrisLcd.DropKeepsInv | Tetris/tetris_lcd.py:328-334 | A drop preserves the LCD invariant |
| TetrisLcd.MoveKeepsInv | Tetris/tetris_lcd.py:371-376 | A sideways move preserves the LCD invariant |
| TetrisLcd.LockKeepsInv | Tetris/tetris_lcd.py:336-340 | Locking preserves the LCD invariant wherever the piece is, with or without a pending clear |
| TetrisLcd.HardDropKeepsInv | Tetris/tetris_lcd.py:342-345 | Every hard drop preserves the LCD invariant, including one during a pending clear. In a running game with no clear pending, the ghost position is inside the board |
| TetrisLcd.FinishKeepsInv | Tetris/tetris_lcd.py:353-364 | Finishing a clear preserves the LCD invariant |
| TetrisLcd.TickKeepsInv | Tetris/tetris_lcd.py:450-460 | The lock-delay tick preserves the LCD invariant |
| SmartDnsConfig.InferServerType | SmartDash/app.py:32-39 | HTTPS for an `https://` address. TLS for a `tls://` address or one containing `:853`. Plain otherwise. Each case is an exact if-and-only-if on the lower-cased, stripped address |
| SmartDnsConfig.InferIgnoresCaseAndPadding | SmartDash/app.py:34 | Case and surrounding whitespace of the address do not change the inferred type |
| SmartDnsConfig.DomainFileName | SmartDash/app.py:28-30 | A domain-list file name lies under `/etc/smartdns/` and contains no spaces |
| SmartDnsConfig.NamesAreWords | SmartDash/app.py:28-30 | For a plain friendly name, the generated set name and file name are single words, so they fit on one config line |
| SmartDnsConfig.FileNameIgnoresCase | SmartDash/app.py:28-30 | The case of the friendly name changes neither the file name nor the set name |
| SmartDnsConfig.SetNameGroup | SmartDash/app.py:431 | For a one-word friendly name without `-`, the parser's friendly-name rule recovers it, lower-cased, from the set name |
| SmartDnsConfig.NewDomainSet | SmartDash/app.py:430-444 | A new set has the generated name and file, the friendly name as its group, and a count of zero |
| SmartDnsConfig.Domains | SmartDash/app.py:152-158 | A line is counted exactly when it is a non-blank line of the file that does not start with `#` |
| SmartDnsConfig.DomainsKeepRepeats | SmartDash/app.py:152-158 | Each counted line is counted as many times as it occurs in the file, so a repeated domain counts twice; other lines count zero times |
| SmartDnsConfig.CountDomains | SmartDash/app.py:152-158 | The counting loop returns the number of counted lines |
| SmartDnsConfig.FindGroup | SmartDash/app.py:366-369 | The search finds the first entry with the given (group, type) pair, or reports that none has it |
| SmartDnsConfig.AddAddress | SmartDash/app.py:174-182 | Adding an address appends an entry exactly when its pair is new, and keeps pairs unique and entries non-empty |
| SmartDnsConfig.AddAddressFiles | SmartDash/app.py:366-375 | Adding an address appends it to its own pair's list and changes no other pair's list |
| SmartDnsConfig.Merge | SmartDash/app.py:172-184 | The merge yields one non-empty entry per (group, type) pair |
| SmartDnsConfig.MergeAddresses | SmartDash/app.py:172-184 | Each pair's merged list is exactly that pair's addresses, in line order |
| SmartDnsConfig.MergeCovers | SmartDash/app.py:172-184 | Every server line's pair appears among the merged entries |
| SmartDnsConfig.MergeOrder | SmartDash/app.py:172-184 | Merged entries appear in the order their pairs first occur in the file |
| SmartDnsConfig.AddServer | SmartDash/app.py:359-383 | A missing or empty address is rejected. Otherwise only the server list changes |
| SmartDnsRead.GroupOptionFinds | SmartDash/app.py:112-117 | The group comes from the first `-group` option that has a value; without one, the server is in the common group |
| SmartDnsRead.ApplySetting | SmartDash/app.py:84-118 | A server line only records the server. Any other keyword line changes only the settings. Neither touches the domain sets |
| SmartDnsRead.StepLine | SmartDash/app.py:74-78 | Blank lines and comment lines change nothing |
| SmartDnsRead.ServerSetting | SmartDash/app.py:109-118 | A server line records its address, its type word and its group |
| SmartDnsRead.ServerWordIgnored | SmartDash/app.py:109-110 | A server type word without an address records nothing |
| SmartDnsRead.CacheSizeEnables | SmartDash/app.py:88-90 | A `cache-size` line sets the size and turns the cache on |
| SmartDnsRead.BindLineReadsPort | SmartDash/app.py:84-85 | A `bind [::]:P` line reads back port P |
| SmartDnsRead.BindTcpLineReadsPort | SmartDash/app.py:86-87 | A `bind-tcp [::]:P` line reads back TCP port P |
| SmartDnsRead.ApplyRule | SmartDash/app.py:138-149 | A rule line changes only the speed-check mode, the response mode and the IPv6 flag |
| SmartDnsRead.ReadRules | SmartDash/app.py:134-150 | The rule lines read after a header are consumed, but never more lines than exist, and change only the rule fields |
| SmartDnsRead.WithStat | SmartDash/app.py:151-167 | A set's count and date come from its file when it exists; a missing file counts zero |
| SmartDnsRead.ReadDomainSet | SmartDash/app.py:119-169 | A header gives the set its name and file, and its friendly name and group as the name up to the first `-`. A following `# Source =` line gives the URL and is consumed; without one the URL is empty. The count comes from the list file when it exists and is zero otherwise |
| SmartDnsRead.ReadLines | SmartDash/app.py:73-170 | The parse loop only appends domain sets, keeping earlier ones in order. Lines that open no set add none |
| SmartDnsRead.ReadConfig | SmartDash/app.py:41-187 | With no file the defaults are returned. A parsed file yields server entries with unique pairs, none of them empty |
| SmartDnsRead.StepsAppend | SmartDash/app.py:73-170 | Reading lines one after another composes over concatenation |
| SmartDnsRead.ReadPlain | SmartDash/app.py:73-170 | Lines that open no domain set are read one at a time |
| SmartDnsWrite.Partition | SmartDash/app.py:214-222 | The named and common server lists together hold every entry exactly once |
| SmartDnsWrite.SortedNamed | SmartDash/app.py:215 | Non-common entries are written sorted by group: a permutation of the named entries |
| SmartDnsWrite.Ordered | SmartDash/app.py:214-222 | The writer's order is a permutation of all entries |
| SmartDnsWrite.WriteConfig | SmartDash/app.py:190-198 | The file opens with its title line and then the UDP and TCP bind lines for the configured ports |
| SmartDnsWrite.WrittenLists | SmartDash/app.py:190-236 | An enabled cache writes its size line. Every domain set gets its `domain-set -name -file` header and its `domain-rules` line |
| SmartDnsFiling.OrderedFiles | SmartDash/app.py:214-222 | Writing named entries sorted by group (a stable sort) before the common ones keeps every pair's addresses in their order |
| SmartDnsFiling.MergeWritten | SmartDash/app.py:172-184 | Merging the server lines of a written file gives back every pair's address list unchanged |
| SmartDnsRoundTrip.HeaderRead | SmartDash/app.py:196-198 | The bind lines read back both ports |
| SmartDnsRoundTrip.CacheBlockRead | SmartDash/app.py:199-204 | An enabled cache block reads back the whole cache record |
| SmartDnsRoundTrip.TuningRead | SmartDash/app.py:205-213 | The prefetch, serve-expired and AAAA lines read back their settings |
| SmartDnsRoundTrip.ServerSectionRead | SmartDash/app.py:214-222 | The server section reads back as its server lines, named groups sorted first and then the common group |
| SmartDnsRoundTrip.RuleApplied | SmartDash/app.py:229-236 | A written rule line reads back its non-`none` modes and its IPv6 flag |
| SmartDnsRoundTrip.RuleLineRead | SmartDash/app.py:134-150 | Exactly the one written rule line is consumed |
| SmartDnsRoundTrip.SetBlockRead | SmartDash/app.py:119-169 | A written domain-set block reads back as one set and consumes exactly its own lines |
| SmartDnsRoundTrip.ReadBackFields | SmartDash/app.py:121-150 | A written set keeps its name, file, source URL, IPv6 flag and non-`none` modes. Its friendly name and group come back as the name up to the first `-` |
| SmartDnsRoundTrip.SetSectionRead | SmartDash/app.py:223-236 | The domain-set section reads back each set, in order |
| SmartDnsRoundTrip.ReadWritten | SmartDash/app.py:41-236 | Reading a written file gives the written settings, the merged written servers and the read-back sets |
| SmartDnsRoundTrip.RoundTrip | SmartDash/app.py:41-236 | Write then read keeps the bind ports, prefetch, serve-expired and AAAA settings. The cache survives when enabled and reads back as the default otherwise. Every pair's address list survives, and the sets come back as read-back sets |
| SmartDnsLookup.ReadLookup | SmartDash/app.py:285-301 | The DNS test collects the usable addresses after the answer mark and passes exactly when there is one; none is the local resolver or a `#53` line |
| SmartDnsLookup.AnswersExactly | SmartDash/app.py:293-300 | With the mark after some lines, an address is reported exactly when an `Address:` line after the mark has it as its usable last word |
| SmartDnsLookup.NoMarkNoAnswers | SmartDash/app.py:296-298 | Output without the answer mark reports no address |
| Sorting.InsertionSort | Tetris/tetris.py:1002 | The sort returns a permutation of its input, sorted whenever the comparison is a total preorder on its elements |
| Sorting.SortedStays | SmartDash/app.py:215 | Sorting an already sorted list leaves it unchanged |

## Left out

- **Not modelled:** rendering (pyglet windows, the LCD pixels, particles, labels), sound, keyboard and gamepad input, and the DAS/ARR auto-repeat timers.
- **Gravity:**
  - `tetris.py` advances its drop counter by `0.9 ** (level - 1)`, a floating-point value, so gravity is not modelled there.
  - The LCD game's drop interval is not modelled either.
  - Soft drop (`MoveDown`, `PlayerDrop`) is modelled as an operation.
- **Lock delay:** elapsed time is integer ticks, and the lock limit (0.5 s in `tetris.py`, `LOCK_DELAY` in the LCD game) is a tick count.
- **Demo mode:**
  - Not modelled: the idle timer that enters demo mode, the target score that leaves it, and the 0.05 s pacing between actions.
  - A demo frame is `DemoStep` followed by the lock-delay `Tetris.Tick`. The model keeps the two as separate steps.
- **Random choices are parameters:** bag shuffles, the horizontal-I coin, and the LCD game's next piece.
- **Dashboard I/O is not modelled:** Flask routes, HTTP, subprocess calls, file reads, writes, backups and restores, and the `nslookup` timeout.
  - The file arrives as a list of lines (`None` when it is missing).
  - The writer produces a list of lines.
  - Domain-list files are seen through `stat`, and a read failure counts as a missing file.
- **Other dashboard routes are left out:** the update and delete routes and the domain-content routes.
  - They only rewrite fields of the record before `write_config`.
  - Only `add_server` and the naming used by `add_domain_set` are modelled.
- **String handling:**
  - `strip` and `split` use Python's full whitespace set: the ASCII blanks, 0x1C-0x1F, U+0085, U+00A0, U+1680, U+2000-U+200A, U+2028, U+2029, U+202F, U+205F and U+3000. `lower` is modelled for the ASCII letters only; other characters are kept as they are.
  - The newlines `readlines` leaves on each line are not modelled; `strip` removes them anyway.
- SmartDnsRoundTrip.RoundTrip: holds for configurations whose values are single words (the `Writable` condition). A value with spaces or a comment mark would not survive the write, and this is not stated.
- SmartDnsRoundTrip.ReadBackFields: the round trip does not keep a set's friendly name, group or `none` modes. They come back as the name's prefix and the defaults, as the parser dictates.
- TetrisLcd.LockPiece: `Grid.Stamp` skips a cell whose index Python rejects, where the game's merge would raise IndexError. `TetrisLcd.NoIndexError` shows that no merge the game performs from an invariant state has such a cell.
- TetrisLcd.Tick: does not run the clear-animation timer. `FinishClear` is the step that ends a pending clear.
- Tetris.LockPiece: `Grid.Stamp` writes through Python's negative indices. A cell whose index Python rejects (more than a board height above row 0, or a board width off a side) raises IndexError in the source; the stamp skips it instead. `Tetris.NoIndexError` shows that no lock reachable under the invariant has such a cell.
- Tetris.Tick: covers only the lock-delay part of the frame update, not gravity or the soft-drop key.
