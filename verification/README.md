# What the generators and checkers of Terrustia compute

This project models the parts of the repository whose correctness is least visible from any one function,
and proves what they compute.

**The placeable-object generator** (`tile_object.rs`, and its second implementation in
`check_tile_object.py`) runs a small imperative program over objects that share three mutable modules by
reference, guarded by copy-on-write flags that `CopyFrom` leaves alone, with a memo whose inputs live in a
different module from the memo.

- `TileHeap` is the heap and the statements; `TileProgram` the programs, with locals and loops.
- `TileSharing` says exactly when a stamped object changes, and under which discipline none ever does;
  `TileDeepCopy` exactly when sharing means the same as copying; `TileWriteThrough` shows what happens otherwise.
- `TileLines` says what single lines do, field by field, and what row a tile written out in full comes to.
- `TileMemo` says what `Calculate` puts in its memo and exactly when that goes stale, for every object that
  shares it.
- `TileCells`, `TileMachine` and `TileGenerator` are the generator itself, as classes and methods that change
  shared cells in place, proved against the heap.
- `TileTwin` is the second interpreter, which keeps references where the first copies records,
  `TileTwinProgram` how it reads the heads of loops, and `TileTable` compares the tables the two emit.
- `TileGeometry` is the frame arithmetic that reads the table: `frame_of`, `style_of`, `origin_of`.

**The line-oriented readers** find blocks by counting braces (`Blocks`) and walk a method line by line:
`ProjectileStats`, `DropMethods` and `NpcScopes`. Each has a tree of statements with a big-step meaning, a
printer to lines, and a theorem that the walk over the printed lines computes the meaning.

**The analyses**: `SpawnTypes` (which npc ids a type expression can produce) and `DropRules` (which item a
registration of a rule variable gives to which npc, in whatever order the lines come).

**The client**: `ClientFraming` (frames out of a growing buffer, the capture file and its reader) and
`ClientWorld` (a store of whole sections that must behave as one map).

**Table compaction**: `Recipes`, `Immunities`, and `GelCalls`, the rewriting of one call in the text of the
drop database.

`Options` and `Division` are shared helpers.

## What turned out otherwise

- *Copying from a current object that owns no module can still write through.* Forbidding `newTile` to copy
  from an owner does not protect what is stamped: `OwnerBehindSource` copies through an alternate that owns
  nothing but shares an owner's module. `StampedForever` holds under the condition that nothing copied *is
  owned* by another current object (`SourceFree`). Equality with deep copying needs that of all three current
  objects. Neither discipline is necessary; what is, is this: everything stamped keeps its value exactly when
  no statement changes in place a module of it (`StampedKeptIff`, `KeptAlongIff`), and the run agrees with deep
  copying after every statement exactly when no in-place write is seen by another object (`SharingIff`).
- *The width memo goes stale in three ways*: a width written in place under a module another object had
  calculated, a module without a memo that is calculated from one of two objects of different widths, and a
  new width for an object that owns one of the two modules and so gets no new coordinate module. `StaleIff` and `WriterStaleIff`
  are exact for every object, `AlwaysFreshIff` for every run.
- *The two interpreters agree statement by statement and still can emit different tables.* Emission
  calculates each row as it writes it, and fills in a module that lost its memo; the generator goes up the
  tile ids, the checker by first insertion. `TablesIff` and `ProgramTables` say exactly when the tables are
  equal, `OrderSeen` is a program for which they are not, and `UnownedWidthTables` and `DisciplinedTables`
  give two conditions on programs that rule it out.
- *The two interpreters do not take the same lines for loops.* A loop whose bound has a dot in it is passed
  over by the generator and run once, as plain lines, by the checker (`DottedRuns`, `DottedStops`). Every
  program is to the checker the one with such blocks spliced in (`TwinUnrollsSpliced`), which is what
  `ProgramTables` compares for every program; the two keep in step exactly when those blocks do nothing
  (`AlignedIff`).
- *`origin_of` on the negative side of a sheet* leads back to a cell's place only along the axes where the
  cell is level with its corner (`CellRoundTripIff`).
- *A label before `default:` in the same group of a flat switch is lost, and a `default` arm is never read.* A
  switch comes out as written exactly when no `default:` follows the type's label in the group it selects or
  that group changes nothing (`SwitchIff`, and `InStepIff` for programs); `DefaultHides` is a switch where it
  does not.
- *A `break` is stepped over* by the drop-method interpreter, so what it computes is the program without its
  `break`s (`RunsMeaning`, for every program). A switch comes out as C# has it exactly when what the `break`
  leaves out would end by itself and leave the local alone (`BreakIff`), as it does when nothing is written
  after the `break` (`TidyHarmless`). `InStepIff` is that for all switches of a program, and `BreakGoesOn` a
  switch that comes out wrong.
- *A braceless `if` over something other than the type does not hold its assignment back* in the npc scope
  walk. `WalksMeaning` covers every tree with that reading; for one such `if` it is right exactly when no arm
  is directly around or the arm's types have the value already (`BareIff`, and `InStepIff` for programs).
- *The spawn analysis misses ids exactly when a cycle of assignments that produces anything has a step up on
  it* (`CompleteIff`, `NeverRound`).
- *The spawn analysis reports more than its ids have paths to.* What it reports is exactly what the look-up meets
  and cannot read (`Reported`), which is what a path of moves towards an id leads to, but for what lies behind an
  offset by none of its steps, as in `Next(0)` (`MovesIff`, `NoSteps`).
- *A rule registered twice gives its items to the first npc alone* (`SecondParentLost`): what is lost is just
  the items at or below it (`SecondRegistration`).
- *`known_tiles` lists the known positions exactly when no section has more tiles than its columns and rows
  hold* (`ListingIff`).
- *The evil variants of a recipe do not ask whether it may be decrafted.* For every list, item and evil the
  answer is a locked recipe, and not the one promised, exactly when the last recipe of the world's evil is
  locked (`LockedIff`, `DecraftLockedIff`); `EvilIgnoresLock` is the smallest such list.

## Model

| member | source | states |
|---|---|---|
| TileHeap.StepWF | crates/terrustia-codegen/src/tile_object.rs:869-976 | no statement leaves a module address dangling, forgets the order of stamping, or touches the base object record; the heap only grows |
| TileHeap.StepKeeps | crates/terrustia-codegen/src/tile_object.rs:869-976 | every object after a statement, down to the last sub-tile, is one from before it or one of the three current objects with its own fields changed |
| TileHeap.ModulesKept | crates/terrustia-codegen/src/tile_object.rs:886-976 | statements that write no field only move module addresses around |
| TileHeap.RunAppend | crates/terrustia-codegen/src/tile_object.rs:767-772 | a run of two blocks is a run of the first and then of the second, stopping where it stops |
| TileHeap.PutSubsAt | crates/terrustia-codegen/src/tile_object.rs:940-963 | a list of styles puts the sub-tile at each of them, keeps every other entry, pads with holes no further than needed, and fails exactly on a negative style |
| TileProgram.ExecIsRun | crates/terrustia-codegen/src/tile_object.rs:767-867 | interpreting line by line, loops and locals included, is unrolling the program first and running the flat result |
| TileLines.BaseLine | crates/terrustia-codegen/src/tile_object.rs:459-501 | a `Width`, `Height` or `Origin` line writes the field it names, with what its tokens stand for, and no other field of that object; an object sharing its base module is left alone if nothing changes and else gets its own |
| TileLines.CoordLine | crates/terrustia-codegen/src/tile_object.rs:503-530 | the same for the four fields of the coordinate module, whose memo goes with any change |
| TileLines.StyleLine | crates/terrustia-codegen/src/tile_object.rs:532-560 | the same for the five fields of the style module |
| TileLines.CopyLine | crates/terrustia-codegen/src/tile_object.rs:447-457 | copies take over the modules of their source and leave the flags alone; full copies take the sub-tiles too, a tile's first sub-tile standing for the tile |
| TileLines.StampLine | crates/terrustia-codegen/src/tile_object.rs:927-939 | `addTile` stamps at its number, or at the wrap limit and a number, in 32 bits, calculates the tile and starts a blank one |
| TileLines.SlotLine | crates/terrustia-codegen/src/tile_object.rs:832-976 | a named object is kept as the tile was, a new object is blank, and an alternate writes its style where it owns the module |
| TileLines.SubTileLine | crates/terrustia-codegen/src/tile_object.rs:940-963 | `addSubTile` puts the sub-tile at exactly the styles it lists, on the tile's own list or a new one with holes |
| TileLines.SubTileRangeLine | crates/terrustia-codegen/src/tile_object.rs:940-963 | `addSubTileRange` puts it at as many styles as it says, from the first on |
| TileLines.LoopLine | crates/terrustia-codegen/src/tile_object.rs:793-821 | a loop of one line is that line for every value of the variable from the first bound to the last, which `<=` takes in and `<` leaves out, and the variable is gone behind it |
| TileLines.WrittenRow | crates/terrustia-codegen/src/tile_object.rs:562-1048 | for any values of all fields: a tile set field by field and stamped at an id held in a local has exactly the row those fields call for, full sizes included, and any id but an unsigned 32-bit number stops the program |
| TileLines.BlankRow | crates/terrustia-codegen/src/tile_object.rs:402-433 | a tile stamped with no field set has the base object's row |
| TileLines.Chair | crates/terrustia-codegen/src/tile_object.rs:96-111 | rows of 16 and 18 with padding 2 and a fix of (0, 2) make a chair 18 wide and 40 high, whose second variant is framed at (18, 0) |
| TileMemo.StepHeight | crates/terrustia-codegen/src/tile_object.rs:459-572 | no statement leaves a memoised height that differs from the formula on the fields beside it |
| TileMemo.ProgramHeight | crates/terrustia-codegen/src/tile_object.rs:562-572 | no program, whatever it shares and writes through, ever leaves a stale memoised height: each is the second padding fix and then every row of the module with its padding, end to end |
| TileMemo.StepWidth | crates/terrustia-codegen/src/tile_object.rs:459-501 | writes of `Width` through objects owning neither module keep every memoised width that of all the objects sharing it |
| TileMemo.ProgramMemo | crates/terrustia-codegen/src/tile_object.rs:459-572 | a program with only such writes leaves no stale memo on any object, named object or sub-tile; each memoised width is the object's columns, each with its padding, and the first padding fix |
| TileMemo.HeightLaws | crates/terrustia-codegen/src/tile_object.rs:562-572 | without rows the height is the second padding fix, a row more adds its height and the padding, and neither the width nor the first fix is read |
| TileMemo.WidthLaws | crates/terrustia-codegen/src/tile_object.rs:562-572 | without columns the width is the first padding fix, a column more adds the cell width and the padding, and neither the rows nor the second fix are read |
| TileMemo.StaleIff | crates/terrustia-codegen/src/tile_object.rs:459-572 | for every statement and every object with a fresh memo that it does not write: the memo is stale afterwards exactly when the statement writes another width in place in the base module it refers to, or calculates its coordinate module from another width, and the cell size shows the difference |
| TileMemo.WriterStaleIff | crates/terrustia-codegen/src/tile_object.rs:459-501 | for the object written: exactly when the width changes, visibly, and no new coordinate module comes with it |
| TileMemo.StepFreshIff | crates/terrustia-codegen/src/tile_object.rs:869-976 | a statement leaves a state without a stale memo exactly when it stales none of the objects left after it |
| TileMemo.AlwaysFreshIff | crates/terrustia-codegen/src/tile_object.rs:767-976 | and a run has no stale memo in any of its states exactly when none of its statements makes one |
| TileMemo.ProgramFreshIff | crates/terrustia-codegen/src/tile_object.rs:767-976 | so for every program from its start |
| TileMemo.OriginBeforeWidth | crates/terrustia-codegen/src/tile_object.rs:447-501 | after copying a stamped object, `Origin` (changed) then `Width` keeps the source's full width and `Width` then `Origin` does not |
| TileSharing.SameValueIff | crates/terrustia-codegen/src/tile_object.rs:384-393 | two heaps give an object the same value, sub-tiles included, exactly when each of its modules is the same in both |
| TileSharing.StepSafe | crates/terrustia-codegen/src/tile_object.rs:434-560 | a disciplined statement keeps every stamped object clear of every module a current object owns |
| TileSharing.StepSettled | crates/terrustia-codegen/src/tile_object.rs:434-560 | an object clear of owned modules stays clear, and keeps every field but the memo, through any statement whose copy target owns nothing |
| TileSharing.StampedKeptIff | crates/terrustia-codegen/src/tile_object.rs:434-560 | one statement leaves the value of everything stamped, named or base alone exactly when it changes in place no module any of it refers to, sub-tiles included |
| TileSharing.KeptAlongIff | crates/terrustia-codegen/src/tile_object.rs:767-976 | an object has one value all through a run exactly when no statement of the run changes a module of it in place |
| TileSharing.StampedForever | crates/terrustia-codegen/src/tile_object.rs:434-976 | copying discipline is enough: nothing stamped, named or base ever changes a field but the memo, over any disciplined run and any continuation without an owner as copy target |
| TileWriteThrough.OwnerAsTarget | crates/terrustia-codegen/src/tile_object.rs:447-467 | an owner as copy target writes through into a stamped tile |
| TileWriteThrough.OwnerAsSource | crates/terrustia-codegen/src/tile_object.rs:447-467 | an owner as copy source writes through into the tile stamped from the copy |
| TileWriteThrough.OwnerBehindSource | crates/terrustia-codegen/src/tile_object.rs:447-467 | so does an owner whose module reaches `newTile` through an object that owns nothing |
| TileDeepCopy.StepIff | crates/terrustia-codegen/src/tile_object.rs:434-976 | one statement equals its deep-copying version exactly when no in-place write is seen by another object, and both stop together |
| TileDeepCopy.SharingIff | crates/terrustia-codegen/src/tile_object.rs:434-976 | a run and its deep-copying version agree after every prefix, stops included, exactly when no in-place write of the run is seen by another object |
| TileDeepCopy.DisciplinedProgram | crates/terrustia-codegen/src/tile_object.rs:434-976 | every program that never copies to or from an owner still at work means the same with deep copies |
| TileCells.CloneBase | crates/terrustia-codegen/src/tile_object.rs:493-501 | the cells afterwards are those of the heap's clone, new cells for exactly the modules it detaches |
| TileCells.SetBase | crates/terrustia-codegen/src/tile_object.rs:459-489 | early return, copy-on-write or write in place: the shared cells hold what the heap setter says, seen by every holder |
| TileCells.SetCoord | crates/terrustia-codegen/src/tile_object.rs:503-530 | the same for the coordinate module, whose memo is cleared unless the setter returns early |
| TileCells.SetStyle | crates/terrustia-codegen/src/tile_object.rs:532-560 | the same for the style module |
| TileCells.Calculate | crates/terrustia-codegen/src/tile_object.rs:562-572 | the memo is filled once, in the cell all its sharers hold: the object's columns with their padding and the first fix, the rows one after another with theirs and the second |
| TileMachine.Interpreter.constructor | crates/terrustia-codegen/src/tile_object.rs:692-706 | the machine starts as the initial heap, with no locals |
| TileMachine.Interpreter.Copy | crates/terrustia-codegen/src/tile_object.rs:886-924 | copying statements share the source's cells, or report a missing source, exactly as the heap step |
| TileMachine.Interpreter.AddTile | crates/terrustia-codegen/src/tile_object.rs:927-939 | stamping a tile is the heap step, and fails exactly on an id outside 32 bits |
| TileMachine.Interpreter.AddBaseTile | crates/terrustia-codegen/src/tile_object.rs:927-939 | keeping a named object is the heap step |
| TileMachine.Interpreter.AddSub | crates/terrustia-codegen/src/tile_object.rs:940-963 | adding sub-tiles by list or range is the heap step, and fails exactly on a negative style |
| TileMachine.Interpreter.AddAlternate | crates/terrustia-codegen/src/tile_object.rs:964-973 | an alternate is calculated, restyled and dropped, with what that writes through |
| TileMachine.Interpreter.Line | crates/terrustia-codegen/src/tile_object.rs:791-867 | one line of a program, a loop included, is the model's line, state and locals both |
| TileMachine.Interpreter.Run | crates/terrustia-codegen/src/tile_object.rs:767-772 | a block ends in the model's state and locals, or fails with it |
| TileGenerator.Table | crates/terrustia-codegen/src/tile_object.rs:1020-1048 | the emission loop over the shared cells gives the table of the heap, ids ascending |
| TileTwin.StepTogether | tools/check_tile_object.py:284-404 | one statement takes the reference-holding interpreter and the copying one to matching states, or stops both |
| TileTwin.RunTogether | tools/check_tile_object.py:265-404 | so does any run: aliasing objects and sub-tile lists is never seen |
| TileTwin.InitialTwins | tools/check_tile_object.py:213-224 | the two start alike |
| TileTable.EmitAt | tools/check_tile_object.py:431-450 | a row holds its memo, or the width of the first object emitted with its module |
| TileTable.TablesIff | tools/check_tile_object.py:431-450 | two emission orders give one table exactly when no uncalculated module is first reached with two widths that show |
| TileTable.SomeAscending | crates/terrustia-codegen/src/tile_object.rs:1020-1048 | the tiles of any state can be listed from the lowest id up |
| TileTwinProgram.TwinUnrollsSpliced | tools/check_tile_object.py:207-320 | on every program the checker runs what the generator would run with each loop over a dotted bound replaced by its block |
| TileTwinProgram.AlignedIff | tools/check_tile_object.py:284-320 | for every program the two come line by line to the same statements and locals exactly when every such block they come to, run once there, does nothing |
| TileTwinProgram.DottedRuns | crates/terrustia-codegen/src/tile_object.rs:793-821 | a loop over a dotted bound that stamps a tile: no tile for the generator, one for the checker |
| TileTwinProgram.DottedStops | tools/check_tile_object.py:207-320 | with the loop variable in the block the checker stops, the generator does not |
| TileTable.ProgramTables | tools/check_tile_object.py:407-452 | for every program the checker finishes exactly when the generator finishes the spliced program, their tables are then equal exactly under that condition, and the spliced program is the program itself where the two keep in step |
| TileTable.UnownedWidthTables | crates/terrustia-codegen/src/tile_object.rs:1020-1048 | programs writing `Width` only through objects owning neither module satisfy it |
| TileTable.DisciplinedTables | crates/terrustia-codegen/src/tile_object.rs:1020-1048 | programs keeping the copying discipline satisfy it, stamped modules staying calculated |
| TileTable.OrderSeen | tools/check_tile_object.py:431-450 | one program whose tile 20 is 6 wide in one table and 4 in the other |
| TileTable.ProgramGeometry | crates/terrustia-codegen/src/tile_object.rs:96-169 | from program to mined cell: every shapely row of such a program's table leads any cell of any style whose frame fits 16 bits back to its corner, its style and its random variant, with no 32-bit overflow on the way, and frames no two pairs of a style and a variant alike |
| TileTable.ProgramCell | crates/terrustia-codegen/src/tile_object.rs:96-169 | the same of one cell, the conditions written in the tile's own fields and the bounds as numbers |
| TileGeometry.PlaceFrame | crates/terrustia-codegen/src/tile_object.rs:96-111 | the frame of a style is one from which its position, and with it the style and the random variant, can be read back |
| TileGeometry.IndexRoundTrip | crates/terrustia-codegen/src/tile_object.rs:96-140 | the position along the style axis survives the sheet, negative positions included |
| TileGeometry.StyleRoundTrip | crates/terrustia-codegen/src/tile_object.rs:96-140 | `style_of` undoes `frame_of` for every style and every random offset below the multiplier, with no overflow on the way back, and what is left of the position is that offset |
| TileGeometry.FramesApart | crates/terrustia-codegen/src/tile_object.rs:96-111 | two different pairs of a style and a random variant never share a frame |
| TileGeometry.QuotIs | crates/terrustia-codegen/src/tile_object.rs:96-169 | division and remainder truncate: the rest lies on the dividend's side of zero |
| TileGeometry.FrameIs | crates/terrustia-codegen/src/tile_object.rs:96-111 | where a style is framed in numbers, wrapped or not, along either axis, and exactly which numbers on the way must fit 32 bits |
| TileGeometry.IndexIs | crates/terrustia-codegen/src/tile_object.rs:121-140 | which position any frame at all leads to, inside a cell or on its corner, and exactly which numbers must fit |
| TileGeometry.StyleIs | crates/terrustia-codegen/src/tile_object.rs:121-140 | a style takes as many positions as its multiplier says, at least one; a sheet without a size has style 0 alone |
| TileGeometry.FitsIs | crates/terrustia-codegen/src/tile_object.rs:96-169 | 32 and 16 bits are the signed ranges |
| TileGeometry.InvertibleIff | crates/terrustia-codegen/src/tile_object.rs:96-140 | the sheets on which every style survives are exactly those with non-zero sizes, a positive multiplier, and a positive line skip where they wrap |
| TileGeometry.OriginOf | crates/terrustia-codegen/src/tile_object.rs:147-169 | the subtracting loop counts the whole rows above the cell |
| TileGeometry.OriginIs | crates/terrustia-codegen/src/tile_object.rs:147-169 | the column and row of any frame at all in numbers, kept within the object, and exactly which numbers on the way must fit 32 bits |
| TileGeometry.RowsAboveIs | crates/terrustia-codegen/src/tile_object.rs:157-168 | every row counted ends at the distance or above it and the next one past it, for any heights |
| TileGeometry.CellRoundTripIff | crates/terrustia-codegen/src/tile_object.rs:147-169 | a cell leads to its own column and row exactly where its corner is not negative along an axis the cell is off |
| TileGeometry.CellToStyle | crates/terrustia-codegen/src/tile_object.rs:114-169 | in exact arithmetic any cell of any style from zero up leads to the corner, and the corner to the style |
| TileGeometry.MinedCell | crates/terrustia-codegen/src/tile_object.rs:114-169 | in the emitted code's own arithmetic: where the frame could be placed and the cell's frame fits 16 bits, both lookups stay in 32 bits and give the cell's place and the style |
| Blocks.SplitBraced | crates/terrustia-codegen/src/projectiles.rs:110-128 | counting braces finds exactly the block that was printed, whatever it holds and whatever follows |
| Blocks.SplitAt | tools/check_placed_items.py:437-445 | on any lines, printed or not, the cut is at the first one that brings the braces level, and there is none if none does |
| Blocks.Count | tools/check_placed_items.py:437-445 | the counting loop cuts where the specification cuts, and says whether the block closed |
| ProjectileStats.ConditionHolds | crates/terrustia-codegen/src/projectiles.rs:70-89 | `None` exactly when some term is not about the type, else whether the type is among the ids the condition lists, each range written out from its first to its last |
| ProjectileStats.HoldsIs | crates/terrustia-codegen/src/projectiles.rs:70-89 | any condition holds of a type exactly when the one with its ranges written out id by id does, which is when it lists that id and nothing foreign |
| ProjectileStats.RangeHolds | crates/terrustia-codegen/src/projectiles.rs:70-89 | one id holds of itself alone, and a range of exactly the types from its first to its last |
| ProjectileStats.LineSets | crates/terrustia-codegen/src/projectiles.rs:207-260 | each assignment changes the stat it names, `*=` multiplying, and no other |
| ProjectileStats.WrittenRead | crates/terrustia-codegen/src/projectiles.rs:34-260 | any stats written out line by line are the stats read, for every type, and no lines at all leave the defaults |
| ProjectileStats.ByTypeRead | crates/terrustia-codegen/src/projectiles.rs:171-205 | of an `if` for a type, an `else if` for a range and an `else` exactly one is read, ranges with both ends |
| ProjectileStats.NoBreak | crates/terrustia-codegen/src/projectiles.rs:142-169 | in a switch a label behind statements starts a new group without a `break` as with one, and `break` and `default:` end the labels |
| ProjectileStats.SwitchRead | crates/terrustia-codegen/src/projectiles.rs:133-169 | the flat reading of a switch runs exactly the groups naming the type after their last `default:` |
| ProjectileStats.EvalRead | crates/terrustia-codegen/src/projectiles.rs:103-205 | the walk over the printed form of any tree of assignments, chains and switches computes the tree's meaning |
| ProjectileStats.SwitchIff | crates/terrustia-codegen/src/projectiles.rs:133-169 | a switch read flat does what the group it selects does, `default` group included, exactly when no `default:` follows the type's label there or that group changes nothing |
| ProjectileStats.WrittenIs | crates/terrustia-codegen/src/projectiles.rs:133-169 | a switch as written runs the group naming the type, else the one with `default:`, else nothing |
| ProjectileStats.LawfulIs | crates/terrustia-codegen/src/projectiles.rs:133-169 | a program is taken as C# unless a switch somewhere in it names the type in two groups |
| ProjectileStats.InStepIff | crates/terrustia-codegen/src/projectiles.rs:103-205 | for every program and type the walk has the stats as written after every statement it comes to, nested ones included, exactly when that holds of every switch it comes to |
| ProjectileStats.DefaultHides | crates/terrustia-codegen/src/projectiles.rs:150-155 | a switch where it fails: a group that names a type before `default:` is not read for it |
| ProjectileStats.Stats.ReadInto | crates/terrustia-codegen/src/projectiles.rs:103-205 | the walk with its index, its `already` flag and its recursion is the specified walk |
| ProjectileStats.Read | crates/terrustia-codegen/src/projectiles.rs:97-101 | a type's stats on the printed form of any program are the program's meaning from the defaults, read flat, and as written where every switch is read right; of a chain by type the width is that of the first arm whose ids have the type |
| DropMethods.ArmsRead | tools/check_placed_items.py:512-535 | splitting a switch body gives its arms back, the labels of nested switches untouched |
| DropMethods.ChosenRead | tools/check_placed_items.py:536-545 | the arm run is the first naming the style, else the last default |
| DropMethods.RunsMeaning | tools/check_placed_items.py:437-545 | the walk over the printed form of any program returns, falls through or gives up as the program without its `break`s means, for every style |
| DropMethods.TruthLaws | tools/check_placed_items.py:419-434 | at least n is not below n, at most n is below n + 1, a range is both its bounds, one style is the range of itself, and `== n || != m` fails for m alone |
| DropMethods.IfElseRuns | tools/check_placed_items.py:419-501 | `if (c) return a; return b;` returns by the condition, each with its bound as a number, and gives up on one the interpreter does not know |
| DropMethods.OneArm | tools/check_placed_items.py:472-494 | of an `if`, an `else if` and an `else` one is run, and behind one that was run no condition is read |
| DropMethods.Accumulates | tools/check_placed_items.py:409-416 | a line assigns or returns a number and as much again per style, or the local as it is |
| DropMethods.AnswerIs | tools/check_placed_items.py:587-596 | what was returned is the answer, and failing that the local |
| DropMethods.RowIs | tools/check_placed_items.py:455-464 | a switch expression answers with its first row for the style, else its last `_` row, else nothing |
| DropMethods.GivesUp | tools/check_placed_items.py:448-509 | a stray brace, a `break` or an empty line means nothing; an unknown line, or a head whose block is missing or never closes, ends it all |
| DropMethods.BareLost | tools/check_placed_items.py:437-480 | what follows an `if` without a block is lost, whatever the condition |
| DropMethods.Beyond | tools/check_placed_items.py:563-579 | above the highest style its lines name, a method that computes nothing from the style runs alike for every style |
| DropMethods.BreakIff | tools/check_placed_items.py:506-545 | the walk over a switch left by a `break` ends as C# does exactly when what the `break` leaves out would end by itself with the local as it was |
| DropMethods.InStepIff | tools/check_placed_items.py:437-545 | for every program, the walk comes out of each switch it meets as C# does, nested ones included, exactly when no `break` leaves anything out |
| DropMethods.RunsAsWritten | tools/check_placed_items.py:437-545 | a program all of whose switches come out right ends as C# does |
| DropMethods.TidyHarmless | tools/check_placed_items.py:506-509 | they do for every style when nothing is written after a `break`, nor after the `if`s around it |
| DropMethods.TidyIs | tools/check_placed_items.py:506-509 | only a `break` must come last, in its block and in the chain it is in |
| DropMethods.BreakGoesOn | tools/check_placed_items.py:506-545 | a switch whose arm breaks inside an `if` and returns below it: C# goes on behind the switch, the walk returns |
| DropMethods.State.RunBlock | tools/check_placed_items.py:448-509 | the walk as it runs, its local and its returned value, is the specified walk |
| DropMethods.State.RunSwitch | tools/check_placed_items.py:512-545 | so is the switch, collecting arms and falling back |
| DropMethods.ItemDrop | tools/check_placed_items.py:587-601 | the item is what the program without its `break`s answers, returned or else the local, a negative answer being none, and what C# answers where every switch is harmless; an `if` with a return and one behind it give the item their condition, in numbers, calls for |
| DropMethods.HighestStyle | tools/check_placed_items.py:563-579 | the largest style any line of the method names, and no less than zero |
| DropMethods.FromDropMethod | tools/check_placed_items.py:582-602 | a method's items are those it answers for the styles from zero to the highest it names, and one style the interpreter gives up on ends it all; above that style a method that computes nothing from it ends alike for all |
| NpcScopes.AssignedAt | tools/check_npc_data.py:134-141 | an assignment reaches each type of its arm and no other |
| NpcScopes.StartedAt | tools/check_npc_data.py:119-128 | the head of an arm starts an entry for each of its types that has none |
| NpcScopes.SampleRead | tools/check_npc_data.py:119-143 | of a method with an assignment by itself, an arm, a foreign block in it and a nested arm, each assignment reaches the types of its own arm alone, in the order of the lines |
| NpcScopes.WalkNested | tools/check_npc_data.py:119-143 | on any lines at all the stack of open arms stays ordered by depth |
| NpcScopes.StackIsOpenArms | tools/check_npc_data.py:119-143 | at every line of any printed nest the stack is exactly the arms open there, each strictly deeper than the one around it |
| NpcScopes.WalksMeaning | tools/check_npc_data.py:119-143 | on any printed tree an assignment reaches exactly the types of the block directly around it, if that is a type arm, a braceless foreign `if` not counting as a block, and stack and depth come back as they were |
| NpcScopes.BareIff | tools/check_npc_data.py:130-141 | one braceless foreign `if` is read as written exactly when no arm is directly around or the arm's types have the value already |
| NpcScopes.InStepIff | tools/check_npc_data.py:119-143 | for every program, the pass has the table as written after every statement, nested ones included, exactly when every braceless foreign `if` it comes to is of that kind |
| NpcScopes.MeansAsWritten | tools/check_npc_data.py:119-143 | a program all of whose braceless foreign `if`s are of that kind gets the table it is written to give |
| NpcScopes.FromSource | tools/check_npc_data.py:110-144 | the single pass over any method's lines gives the table its tree means as the pass reads it, and as written where braceless foreign `if`s change nothing |
| SpawnTypes.ResolveSound | tools/check_spawn_reach.py:171-244 | every id returned has a path of assignments to it |
| SpawnTypes.CanSolves | tools/check_spawn_reach.py:230-243 | the ids with such a path solve the assignment equations |
| SpawnTypes.CanLeast | tools/check_spawn_reach.py:230-243 | and every solution has at least those |
| SpawnTypes.CompleteIff | tools/check_spawn_reach.py:171-244 | the analysis returns all of them exactly when no productive cycle of assignments has a step up on it |
| SpawnTypes.Reported | tools/check_spawn_reach.py:171-244 | an expression is reported unresolved exactly when a chain of look-ups, cyclic or not, leads to it and no rule reads it or nothing assigns it |
| SpawnTypes.MovesIff | tools/check_spawn_reach.py:187-191 | moves towards an id lead to an expression exactly when a chain of look-ups does on which every offset has a step |
| SpawnTypes.NoSteps | tools/check_spawn_reach.py:187-191 | the base of an offset by none of its steps is reported though no move leads there |
| SpawnTypes.Listed | tools/check_spawn_reach.py:181-243 | a literal, a range up to before its end, a listed set and an offset have exactly their ids and report nothing; an unread or unassigned expression reports itself |
| SpawnTypes.NeverRound | tools/check_spawn_reach.py:187-191 | a local that steps itself up: one id found, more possible |
| SpawnTypes.RosterOf | tools/check_spawn_reach.py:273-284 | the roster is the positive ids of the calls, each with a path of assignments, all such ids where nothing climbs; unresolved is exactly what some call's look-up meets and cannot read |
| SpawnTypes.RosterExact | tools/check_spawn_reach.py:273-284 | over calls that do not climb the roster is what the assignments can produce |
| DropRules.StepSound | tools/check_drops.py:285-502 | after each line everything the scan holds is something the lines so far say |
| DropRules.LearnIs | tools/check_drops.py:314-502 | what each line says and no more: items held by a rule, rules below a rule, npcs registered for a rule or an item |
| DropRules.LineGives | tools/check_drops.py:314-502 | a registration gives its npcs its items and those of the rules it names, what hangs off a rule goes where that goes, and no other npc gains by a registration |
| DropRules.ScanSound | tools/check_drops.py:294-502 | in any order of lines every recorded pair has a path of rule variables from a registration |
| DropRules.ScanExact | tools/check_drops.py:294-502 | with one parent per rule, which may name it again, and rules declared first, the record is exactly what such paths justify |
| DropRules.OrderlyIs | tools/check_drops.py:294-502 | what such lines are: a declaration before anything is registered for its rule, and a rule carried or registered only while nothing is registered for it and it hangs off nothing else, and where the scan needs it known already |
| DropRules.OrderFree | tools/check_drops.py:294-502 | two such orders of the same facts give the same record |
| DropRules.SecondParentLost | tools/check_drops.py:285-293 | a rule registered twice loses its items for the second npc |
| DropRules.SecondRegistration | tools/check_drops.py:285-293 | wherever the lines so far were orderly, a second registration of a rule records nothing, while the lines give its npc every item at or below the rule |
| DropRules.FileRecord | tools/check_drops.py:295-312 | over a whole file every pair is justified inside one method, and orderly methods lose none |
| DropRules.Scanner.Bind | tools/check_drops.py:285-292 | the recursion ends on cyclic aliases and gives everything hung below a name its npcs and its items, once |
| DropRules.Scanner.Process | tools/check_drops.py:314-502 | each line does what the specified scan does, in whatever order the mentioned names come |
| DropRules.ParseGame | tools/check_drops.py:229-504 | a file's record, method by method |
| ClientFraming.ReframeLossless | crates/terrustia-client/src/codec.rs:19-40 | the frames of a stream and its tail are the stream, byte for byte |
| ClientFraming.ReframeEncoded | crates/terrustia-client/src/codec.rs:19-40 | frames sent are the frames read back, whatever follows them |
| ClientFraming.FrameBytes | crates/terrustia-client/src/codec.rs:19-40 | a frame starts with its own length, low byte first, then its id and its payload |
| ClientFraming.HeadIs | crates/terrustia-client/src/codec.rs:19-40 | what is at the head of a buffer, by the number its first two bytes make |
| ClientFraming.BrokenStays | crates/terrustia-client/src/codec.rs:23-26 | a length below the minimum at a frame boundary stays an error there, and no later byte adds a frame |
| ClientFraming.Client.Decode | crates/terrustia-client/src/codec.rs:19-40 | splitting one frame off the buffer in place, or leaving it untouched |
| ClientFraming.Client.ReadFrame | crates/terrustia-client/src/lib.rs:879-898 | the next frame, error or end depends on the bytes alone, not on how they were cut into reads; delivered frames and buffer are always what was received |
| ClientFraming.Client.Drain | crates/terrustia-client/src/lib.rs:650-660 | reading on and on yields exactly the frames of the concatenated reads and stops on their tail |
| ClientFraming.CaptureRoundTrip | crates/terrustia-client/src/tap.rs:62-87 | for any interleaving of chunks shorter than 2^32 bytes the capture reads back to the server's bytes |
| ClientFraming.RecordBytes | crates/terrustia-client/src/tap.rs:78-87 | a record is 1 or 0 for its direction, a zero, the saturated microseconds and the length low byte first, and the chunk |
| ClientFraming.MagicIs | crates/terrustia-client/src/tap.rs:32 | a capture starts with the seven bytes of its name and version |
| ClientFraming.ReadIs | crates/terrustia-client/examples/conform.rs:381-396 | the reader takes the chunk of a record marked 1, passes over any other, and stops on one cut short |
| ClientFraming.Tap.Chunk | crates/terrustia-client/src/tap.rs:78-87 | the header array and the bytes written are the record of that chunk |
| ClientFraming.CheckCapture | crates/terrustia-client/examples/conform.rs:373-424 | not a capture, cut short, or replayed: exactly when, with the frames, tail and broken length of the recorded stream |
| ClientFraming.Session | crates/terrustia-client/examples/conform.rs:366-424 | a whole session, sends and reads interleaved in any way: the frames delivered live and the frames of its capture are those of the bytes received, and the capture holds what was sent and what came, each in order |
| ClientWorld.IndexInjective | crates/terrustia-client/src/world.rs:126-142 | two positions of one section never share a slot, narrow sections and negative positions included |
| ClientWorld.AtIs | crates/terrustia-client/src/world.rs:126-142 | what is known of a position by its column and row in a section of 200 by 150, as many columns to a row as the world has left |
| ClientWorld.PlacedIs | crates/terrustia-client/src/world.rs:57-69 | the listing goes row by row, with the columns the section has inside the world |
| ClientWorld.World.GetTile | crates/terrustia-client/src/world.rs:126-142 | reading is looking up the one map the sections stand for |
| ClientWorld.World.SetTile | crates/terrustia-client/src/world.rs:145-167 | succeeds exactly where a tile is known, changes that position and no other |
| ClientWorld.World.SetLiquid | crates/terrustia-client/src/world.rs:173-185 | changes the liquid of one known tile, to lava, honey and shimmer for 1, 2 and 3 and water for the rest, and nothing else anywhere |
| ClientWorld.World.ApplySection | crates/terrustia-client/src/world.rs:72-84 | a section replaces its own positions and no others |
| ClientWorld.ListingIff | crates/terrustia-client/src/world.rs:57-69 | the listing is the map, each known position once, exactly when no section has a tile too many |
| ClientWorld.SomeOrder | crates/terrustia-client/src/world.rs:57-69 | any store has an order of sections to list it in |
| ClientWorld.World.KnownTiles | crates/terrustia-client/src/world.rs:57-69 | so it is for the listing as it is made, in any order of sections |
| Recipes.DecraftMeaning | crates/terrustia-codegen/src/recipes.rs:65-92 | for every item and either evil the packed tables give the ingredients, yield and alchemy flag of the list's last qualifying recipe, or nothing |
| Recipes.LookUpHas | crates/terrustia-codegen/src/recipes.rs:65-70 | every row of an ascending table is found by its key |
| Recipes.Generate | crates/terrustia-codegen/src/recipes.rs:1128-1205 | folding, sorting, renumbering and packing any recipe list gives such tables, whose spans tile the packed array and whose rows keep the order of the list |
| Recipes.Fold | crates/terrustia-codegen/src/recipes.rs:1129-1145 | each map holds the last qualifying recipe per item |
| Recipes.AnswerIs | crates/terrustia-codegen/src/recipes.rs:1129-1145 | the answer by where the last recipe that may be decrafted and the last one marked for the world's evil are: the second where there are both, none without the first |
| Recipes.Pack | crates/terrustia-codegen/src/recipes.rs:1162-1176 | every kept recipe's ingredients are found in bounds where its row says, end to end |
| Recipes.LockedIff | crates/terrustia-codegen/src/recipes.rs:1129-1145 | for every list, item and evil: the answer is marked as not decraftable, and is not the recipe that would be kept without such ones, exactly when the item comes apart and the last recipe of the world's evil is so marked |
| Recipes.DecraftLockedIff | crates/terrustia-codegen/src/recipes.rs:65-92 | the row the reader returns is that recipe's in those cases and the promised one's in all others |
| Recipes.EvilIgnoresLock | crates/terrustia-codegen/src/recipes.rs:1132-1145 | the smallest such list, for either evil: a locked evil variant is decrafted where a plain recipe is promised |
| Recipes.InterleavingFree | crates/terrustia-codegen/src/recipes.rs:1029-1048 | appended families answer like any interleaving when no item is made by both |
| Recipes.AnswerOfOnly | crates/terrustia-codegen/src/recipes.rs:1128-1145 | lists that agree, in order, on the recipes of an item agree on how it comes apart |
| Immunities.ImmunityMask | crates/terrustia-codegen/src/buffs.rs:120-154 | the set built by flags, names and corrections in order is the declared immunity, buff by buff |
| Immunities.ImmuneIs | crates/terrustia-codegen/src/buffs.rs:120-154 | whip buffs go by one flag, all other buffs by the other, named ones by name; 20 brings 30 and 375, 69 brings 36, and 353 goes by its own table |
| Immunities.ImmuneNone | crates/terrustia-codegen/src/buffs.rs:120-154 | a type without data is immune to shimmer at most |
| Immunities.SetBit | crates/terrustia-codegen/src/buffs.rs:157-165 | setting one bit of a word changes that bit alone |
| Immunities.BitIs | crates/terrustia-codegen/src/buffs.rs:157-165 | bit k is the binary digit for two to the k |
| Immunities.Bits | crates/terrustia-codegen/src/buffs.rs:157-165 | the bitmap has the bits of the ids in range, and has room for every buff |
| Immunities.Intern | crates/terrustia-codegen/src/buffs.rs:248-260 | two types share a slot exactly when their sets are equal, and the slot holds that set |
| Immunities.Generate | crates/terrustia-proto/src/buffs.rs:548-557 | the reader says immune exactly where the game's setup does, for every type and buff in range, the implied immunities and the shimmer table included; types share a slot exactly when their sets are equal; no such buff is immune and no such type is not |
| GelCalls.BalancedArgs | crates/terrustia-codegen/src/drops.rs:78-103 | the scan with its depth and its argument in hand splits as specified |
| GelCalls.ArgsJoined | crates/terrustia-codegen/src/drops.rs:78-103 | the arguments joined by commas are exactly the text up to the matching parenthesis |
| GelCalls.ArgsRead | crates/terrustia-codegen/src/drops.rs:78-103 | arguments printed in a call are the arguments read back |
| GelCalls.DesugarsCalls | crates/terrustia-codegen/src/drops.rs:133-159 | every call of a text becomes the `Common` call with its defaults and all other text survives, for any number of calls |
| GelCalls.EveryText | crates/terrustia-codegen/src/drops.rs:133-159 | whatever text can be rewritten is clear text and calls, rewritten that way |
| GelCalls.DesugarGel | crates/terrustia-codegen/src/drops.rs:133-159 | the loop stepping by argument lengths is that rewriting, and leaves the text exactly when a call never closes |
| GelCalls.CommonIs | crates/terrustia-codegen/src/drops.rs:133-159 | the text a call becomes: its first three arguments in order, 1 for each there is none of |
| GelCalls.ArgIs | crates/terrustia-codegen/src/drops.rs:138-144 | an argument is taken without the white space around it, and is 1 where it is blank or missing |

## Left out

- TileTwin.RunTogether: the second interpreter is a function on an explicit heap of object addresses, not a class changed in place; which references alias is modelled, the in-place update of a Dafny object is not.
- TileHeap.StepWF: a sub-tile style below zero stops the model's run; the generator, which reads it as an index near 2^64, grows a list until memory is gone, and the checker would count from the end of its list. A tile id outside 32 bits stops it too, where the generator keeps the low 32 bits and the checker the whole number.
- TileMachine.Interpreter.AddTile: fails on a tile id outside 32 bits, as the step does.
- TileMachine.Interpreter.AddSub: fails on a negative style, as the step does.
- TileGeometry.CellRoundTripIff: exact integers; `CellOf` and `MinedCell` carry the 32-bit bounds of `origin_of`.
- TileGeometry.CellToStyle: exact integers; `MinedCell` is the statement in the emitted code's arithmetic.
- TileGeometry.InvertibleIff: exact integers, since in 16 bits a sheet may have too few frames to tell; `StyleRoundTrip` carries the bounds of the direction that matters.
- TileMachine.Interpreter.Run: the interpreter's 64-bit numbers are unbounded.
- TileTwinProgram.TwinUnrollsSpliced: a loop line names one variable in all three places; the checker's statements are evaluated against its locals first and run afterwards, as `ExecIsRun` justifies for the generator.
- ProjectileStats.EvalRead: a condition about something else than the type is out, as the code has it; what C# makes of it is not modelled.
- ProjectileStats.InStepIff: for programs C# accepts, where no type is named by two groups of one switch.
- DropMethods.RunsAsWritten: one direction, because a program that sets the local anew behind a switch that went wrong still ends right; `BreakIff` and `InStepIff` are exact, switch by switch.
- NpcScopes.MeansAsWritten: one direction, because a later assignment can write over a leaked one; `BareIff` and `InStepIff` are exact, statement by statement.
- DropMethods.RunsMeaning: an expression is the local or an affine function of the style; one that does not parse gives up.
- NpcScopes.WalksMeaning: what follows an `if` without braces is a single line, not another `if`.
- SpawnTypes.CompleteIff: helper methods, arrays and lists built with `Add` are a set of ids given with the expression.
- DropRules.ScanExact: targets, mentioned names and items of a line are given; `short` and array locals are resolved before.
- Recipes.DecraftMeaning: the binary search of the standard library is taken as finding the row of an ascending table, and numbers too large for a table's column are a compile error of the emitted file.
- Immunities.Bits: a 64-bit word is a number below 2^64 and `|=` of one bit is addition where the bit is clear.
- ClientFraming.Client.Drain: frames are delivered as they are; the queue of events held back while joining and what a frame's payload means are not modelled.
- ClientFraming.Client.ReadFrame: a read is a non-empty chunk and the clock a parameter; timeouts, a recorder opened in mid-session and errors writing the capture are not modelled.
- Parsing: regular expressions, tokenising and the game's own text; lines and tokens are the models' inputs.
- The decoding of section payloads, packet structs and DEFLATE: sections arrive decoded.
- The text of the emitted files, their documentation and their spot checks.
- Chests, signs, npcs and the nearest chest of the client's world, and the handshake: single map updates and lookups.
- The parts of `resolve` that read parenthesised and cast expressions, and `helper_types`.
- `parse_ours`, the global rules and the report of `check_drops.py`, and the rest of `drops.rs`.
