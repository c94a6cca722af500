# DiamondRushBot core, modelled in Dafny

DiamondRushBot plays the puzzle game Diamond Rush from screenshots. It has three parts:

- **The tile classifier** (`procesamiento_imagen.cpp`). It cuts a screenshot into a grid of cells and compares each cell with a set of tile templates. The score combines a coarse four-bucket colour histogram (black, brown "café", near-white, other) with the mean absolute channel difference over a central window. Each cell is labelled with a level code (0 floor, 1 wall, 2 diamond, 3 key, 4 player, 5 door, 6 stone, 7 spikes, 8 exit, 9 hole, 10 lava, 11 gate, 12 button, 13 statue) through the `tile_to_tipo` table. Rows 0 and 1 are always wall.
- **The template preprocessor** (`preprocesar_plantillas.cpp`). It writes one manifest line per template file that decodes. The line holds a three-bucket histogram, in which white is never counted.
- **Two puzzle solvers** over such a code matrix:
  - `solver.py` parses the matrix into an `Estado` and runs A* with its own successor rules: keys count, doors are consumed, stones fall into holes and lava, and buttons are switched on.
  - `diamond_rush.py` groups a multi-level text file into levels and builds a frozen `GameState`. Its successor rules are written around `es_transitable`. Its A* heuristic is the cost of a Prim minimum spanning tree over the player, the diamonds and the exit.

## Structure of the model

Each module follows the source's structure.

- Pure functions hold the rules.
- Where the source loops or mutates, a method does so. Some methods are proved equal to a function that specifies them, and the lemmas state what the source promises about those functions. The others are proved against the properties the source relies on. Examples are the Prim loop, which keeps its spanning-tree invariant, the heap pop, which returns a least entry, and both searches, whose plans replay to a goal.

| module | file | models |
|---|---|---|
| `Wrappers` | wrappers.dfy | Option / Result |
| `Pixels` | pixels.dfy | bytes, decoded images |
| `ImageFeatures` | image_features.dfy | colour predicates, histograms, `extraer_celda`, the central window |
| `TileClassifier` | tile_classifier.dfy | `comparar_celda_template`, the argmin, `tile_to_tipo`, `clasificar_celdas`, `cargar_plantillas` |
| `TemplatePreprocessor` | template_preprocessor.dfy | the three-bucket histogram, the manifest loop of `main` |
| `GridGeometry` | grid_geometry.dfy | positions, moves, Manhattan distance, minima over sets |
| `Frontier` | frontier.dfy | the heap as a multiset with "pop a least (f, g, tick) entry" |
| `SolverState` | solver_state.dfy | `Estado`, its equality, `es_meta`, `reconstruir_ruta` |
| `SolverParse` | solver_parse.dfy | `parse_level` after tokenisation |
| `SolverMoves` | solver_moves.dfy | `aplicar_mecanismo`, `vecinos` |
| `SolverSearch` | solver_search.dfy | `heuristico`, `a_estrella` |
| `DiamondMoves` | diamond_moves.dfy | `GameState`, `MOVES`, `es_transitable`, `generar_sucesores` |
| `DiamondLevels` | diamond_levels.dfy | `cargar_nivel`: tokens, `int()`, grouping, the scan, the initial state |
| `DiamondHeuristic` | diamond_heuristic.dfy | `heuristica` (Prim) |
| `DiamondSearch` | diamond_search.dfy | `encontrar_camino_optimo` with its predecessor walk |

### Where the model keeps what the code does

- **`extraer_celda` does not clamp** (procesamiento_imagen.cpp:47-60). The code has no clamp and never reads `img_h`. The model follows the code: the cell rectangle lying inside the image is a precondition (`CellInImage`).
- **`cargar_plantillas` compacts the template list** (procesamiento_imagen.cpp:36-40). `best_idx` is therefore a position in the filtered list, and that position is looked up in `tile_to_tipo`. `MissingFileShiftsLabels` exhibits a missing first file shifting a hole template's label from 9 to 2.
- **`es_tile_todo_cafe` tests `cafe > total * 0.85`** (procesamiento_imagen.cpp:76), although its comment says 95%. The model keeps 85%.
- **The level codes** are the 14 values of `tile_to_tipo` (procesamiento_imagen.cpp:144-159).
- **The two Python solvers disagree.** The model keeps both as written:
  - `solver.py` drops a stone pushed into lava and refuses gate cells outright.
  - `diamond_rush.py` refuses lava for the player, and opens gates while a stone stands on a button.
- **`diamond_rush.py` never fills a hole.** Its `es_transitable` rejects an unfilled hole, and a stone is pushed only onto a transitable cell. So `filled_holes` stays empty from the initial state on (`HolesStayEmpty`), and a pushed stone is never lost (`StonesKept`).
- **A stale heap entry.** `a_estrella` skips an entry whose `g` is above the best known cost. `encontrar_camino_optimo` has no such check, and the model does not add one.

## Model

| member | source | states |
|---|---|---|
| ImageFeatures.BucketOf | procesamiento_imagen.cpp:88-101 | the pixel lands in exactly one bucket, tested black, café, near-white, other: each bucket holds iff its test holds and the earlier ones fail |
| ImageFeatures.HistUpToTotal | procesamiento_imagen.cpp:88-101 | the four counters of the first n pixels add up to n |
| ImageFeatures.Histogram | procesamiento_imagen.cpp:88-101 | the counting loop yields the coarse histogram of the buffer, and negros + cafes + blancos + otros == size / 3 |
| ImageFeatures.HistDistanceSymmetric | procesamiento_imagen.cpp:109-111 | `diff_hist` is symmetric in the two histograms |
| ImageFeatures.HistDistanceZero | procesamiento_imagen.cpp:109-111 | `diff_hist` is 0 iff the two histograms are equal |
| ImageFeatures.BrownCountIsBrownBucket | procesamiento_imagen.cpp:68-74 | the café count of `es_tile_todo_cafe` equals the café bucket of the histogram |
| ImageFeatures.IsAllBrown | procesamiento_imagen.cpp:68-77 | the loop answers true iff the café count exceeds 85% of the pixels (20 * cafe > 17 * total) |
| ImageFeatures.AllBrownExtremes | procesamiento_imagen.cpp:68-77 | an all-café non-empty cell is "all café"; a cell with no café pixel is not |
| ImageFeatures.Quarters | procesamiento_imagen.cpp:80-86 | the quarter, half and three-quarter points of a side are ordered and lie inside a non-empty side |
| ImageFeatures.KeyPoints | procesamiento_imagen.cpp:80-86 | `puntos_clave` is the 3x3 lattice of those points, row by row, with the centre at (w/2, h/2) |
| ImageFeatures.CellIndex | procesamiento_imagen.cpp:53 | every destination index lies inside the `bw * bh * 3` cell |
| ImageFeatures.ImageIndex | procesamiento_imagen.cpp:52 | every source index lies inside the `img_w * img_h * 3` image when the cell lies inside the image |
| ImageFeatures.CellRowsAt | procesamiento_imagen.cpp:50-58 | after n copied rows, byte `(y*bw+x)*3+k` of the cell is byte `((i*bh+y)*img_w + j*bw+x)*3+k` of the image |
| ImageFeatures.CellOfAt | procesamiento_imagen.cpp:47-60 | the extracted cell has `bw*bh*3` bytes, each equal to the image byte the index formula names |
| ImageFeatures.CopyCellRow | procesamiento_imagen.cpp:51-57 | one pass of the x/k loops appends the row's run of image bytes and leaves earlier rows unchanged |
| ImageFeatures.ExtractCell | procesamiento_imagen.cpp:47-60 | the nested copy loops produce exactly the cell the index formula describes |
| ImageFeatures.CentralWindow | procesamiento_imagen.cpp:116-121 | the window lies inside the tile, and it is empty iff w <= 1, h <= 1, or the band is requested and h <= 2 |
| ImageFeatures.ChannelDiffFacts | procesamiento_imagen.cpp:125-126 | the per-pixel channel difference is symmetric, 0 against itself, and at most 255 per channel |
| ImageFeatures.RunDiffSymmetricZero | procesamiento_imagen.cpp:123-126 | the difference over one window row is symmetric and 0 for equal buffers |
| ImageFeatures.WindowDiffSymmetricZero | procesamiento_imagen.cpp:122-128 | `diff_central` is symmetric and 0 for equal buffers |
| ImageFeatures.WindowDiffBound | procesamiento_imagen.cpp:122-128 | `diff_central` is at most 765 times the window area |
| ImageFeatures.CentralScan | procesamiento_imagen.cpp:114-128 | the window loops accumulate the summed channel differences, and `cuenta` is the window area (x1 - x0) * (y1 - y0) |
| TileClassifier.Weighted | procesamiento_imagen.cpp:129-135 | the score is a number iff `cuenta > 0` (else 0/0), and then it is not negative |
| TileClassifier.CompareCellTemplate | procesamiento_imagen.cpp:104-136 | the comparison computes the weighted score of histogram distance and central difference, with the window taken from the template's size |
| TileClassifier.ScoreFiniteIff | procesamiento_imagen.cpp:116-129 | the score is NaN exactly for the tile sizes whose window is empty |
| TileClassifier.IdenticalCellScoresZero | procesamiento_imagen.cpp:104-136 | a cell equal to the template's pixels scores 0.0 |
| TileClassifier.ScoreSymmetric | procesamiento_imagen.cpp:104-136 | swapping cell and template pixels leaves the score unchanged |
| TileClassifier.Scan | procesamiento_imagen.cpp:170-181 | `best_idx` stays -1 exactly while `min_diff` is still DBL_MAX, and otherwise names a finite score equal to `min_diff` |
| TileClassifier.ScanIsFirstMinimum | procesamiento_imagen.cpp:170-181 | the strict `<` loop ends on the first position with the least score, or on -1 when no score is a number |
| TileClassifier.FirstMinimumUnique | procesamiento_imagen.cpp:170-181 | the first minimum is unique |
| TileClassifier.Scores | procesamiento_imagen.cpp:173-176 | one score per template, in list order |
| TileClassifier.Nearest | procesamiento_imagen.cpp:170-181 | the chosen index is the first minimum of the scores |
| TileClassifier.NearestTemplate | procesamiento_imagen.cpp:170-181 | the loop over templates returns that first minimum |
| TileClassifier.ExactTemplateWins | procesamiento_imagen.cpp:170-181 | a template equal to the cell (with a non-empty window) wins or is beaten by an earlier template that also scores 0.0 |
| TileClassifier.NearestNone | procesamiento_imagen.cpp:170-181 | the index is -1 iff there are no templates or every score is NaN (cell too small for a window) |
| TileClassifier.TileToTypeShape | procesamiento_imagen.cpp:144-159 | the table has exactly the keys 0..28, and every value is a code 0..13 |
| TileClassifier.TileToTypeOnto | procesamiento_imagen.cpp:144-159 | every code 0..13 is the value of some template id |
| TileClassifier.MapTile | procesamiento_imagen.cpp:182 | a mapped id gives a code 0..13; any other id (including -1) passes through unchanged |
| TileClassifier.CellInGrid | procesamiento_imagen.cpp:139-168 | a cell of a grid that fits the image lies inside the image |
| TileClassifier.LabelRange | procesamiento_imagen.cpp:161-183 | rows 0-1 are wall (1); with at most 29 templates every label is -1..13; a lower cell is -1 iff no template scores a number, with the band window on row 2 |
| TileClassifier.ClassifyCells | procesamiento_imagen.cpp:139-187 | the result is `filas` x `columnas`, and each entry is the label of its cell |
| TileClassifier.LabelAt | procesamiento_imagen.cpp:163-182 | one loop body: wall for rows 0-1, otherwise the extracted cell's nearest template through the table |
| TileClassifier.LoadTemplates | procesamiento_imagen.cpp:30-44 | the loop keeps, in file order, exactly the decoded files of the grid's cell size |
| TileClassifier.LoadedSound | procesamiento_imagen.cpp:36-40 | every kept template comes from an accepted file number and carries that file's pixels with 3 channels |
| TileClassifier.LoadedOrdered | procesamiento_imagen.cpp:32-42 | file numbers increase along the list, and a template's position never exceeds its file number |
| TileClassifier.LoadedComplete | procesamiento_imagen.cpp:36-40 | every accepted file is in the list |
| TileClassifier.LoadedFit | procesamiento_imagen.cpp:36-40 | every kept template has the cell's width, height and byte count |
| TileClassifier.MissingFileShiftsLabels | procesamiento_imagen.cpp:36-40 | with file 0 missing, the template of file 1 sits at position 0, which the table maps to 2 instead of 9 |
| TemplatePreprocessor.SameBrownRanges | preprocesar_plantillas.cpp:12-14 | the preprocessor's café test is the classifier's, inclusive bounds and all |
| TemplatePreprocessor.PreBucket | preprocesar_plantillas.cpp:19-25 | a pixel is never white; it is black iff all channels < 40, café iff brown and not black |
| TemplatePreprocessor.BlackBrownDisjoint | preprocesar_plantillas.cpp:20-22 | no pixel is both black and café |
| TemplatePreprocessor.PreBucketIsFoldedBucket | preprocesar_plantillas.cpp:19-25 | the bucket is the classifier's, with white folded into other |
| TemplatePreprocessor.PreHistUpToShape | preprocesar_plantillas.cpp:16-27 | the white counter stays 0 and the counters add up to the pixels seen |
| TemplatePreprocessor.PreHistFoldsWhite | preprocesar_plantillas.cpp:16-27 | this histogram is the classifier's with `blancos` moved into `otros` |
| TemplatePreprocessor.PreHistEqualsCoarseIff | preprocesar_plantillas.cpp:16-27 | the two histograms are equal iff no pixel is near-white |
| TemplatePreprocessor.WhiteCountZeroIff | procesamiento_imagen.cpp:96-97 | the classifier counts no white iff no pixel is near-white |
| TemplatePreprocessor.Histogram | preprocesar_plantillas.cpp:16-27 | the counting loop yields that histogram: blancos == 0 and negros + cafes + otros == size / 3 |
| TemplatePreprocessor.LineCounts | preprocesar_plantillas.cpp:45-48 | a manifest line has bla == 0 and n + caf + o == w * h |
| TemplatePreprocessor.Preprocess | preprocesar_plantillas.cpp:29-54 | exit code 1 and no lines when the output does not open; otherwise exit code 0 and one line per decoded file, in file order |
| TemplatePreprocessor.ManifestSound | preprocesar_plantillas.cpp:37-48 | as many lines as decoded files, each the line of its own decoded file |
| TemplatePreprocessor.ManifestOrdered | preprocesar_plantillas.cpp:37-50 | lines appear in increasing file number |
| TemplatePreprocessor.ManifestComplete | preprocesar_plantillas.cpp:37-48 | every decoded file has its line; a failed load writes nothing |
| GridGeometry.Delta | diamond_rush.py:85-90 | each of the four moves changes one coordinate by one |
| GridGeometry.NeighborFacts | solver.py:151-159 | a neighbour is at distance 1, and the four moves reach four different cells |
| GridGeometry.ManhattanMetric | solver.py:284-298 | the Manhattan distance is symmetric, 0 iff equal, and obeys the triangle inequality |
| GridGeometry.MinDistance | solver.py:284-285 | `min(... for d in D)` is attained by some element and is below every element's distance |
| GridGeometry.Least | solver.py:26 | the least key in the tuple order `sorted` uses is in the set and below every other key |
| Frontier.PopMin | solver.py:308 | `heappop` returns an entry of the heap with the least (f, g, tick), and the rest is the heap without it |
| Frontier.RestInHeap | diamond_rush.py:220 | what remains after a pop was on the heap |
| SolverState.SortedItems | solver.py:26 | `tuple(sorted(botones.items()))` lists every pair of the dictionary once, by increasing key |
| SolverState.SortedItemsRoundTrip | solver.py:150 | `dict(estado.botones)` gives back the dictionary the state was built with |
| SolverState.SortedItemsInjective | solver.py:26-41 | two button tuples are equal iff the dictionaries are |
| SolverState.EqualityIgnoresHistory | solver.py:30-55 | two states are equal iff their nine compared fields are, whatever their parent and action |
| SolverState.Route | solver.py:60-67 | the route is empty iff the state has no action, and otherwise ends with that action |
| SolverState.Reversed | solver.py:66 | `reverse()` puts element i at position n-1-i |
| SolverState.ReconstructRoute | solver.py:60-67 | appending up the chain and reversing gives the root-first route |
| SolverParse.ParseLevel | solver.py:69-132 | IndexError iff some row is shorter than the first; otherwise the player's cell reads 0, each collection holds exactly its code's cells, the last 4 and the last 8 are the player and exit, keys 0, no spikes or filled holes, every button and statue False |
| SolverParse.ScanRow | solver.py:91-115 | one pass of the inner loop: IndexError iff the row is short, else the row with the player cleared and the collections extended by that row |
| SolverParse.StepSummarises | solver.py:92-115 | the `if`/`elif` chain extends exactly the collection of the cell's code |
| SolverParse.MergeButtons | solver.py:124 | `{**botones, **estatuas}` maps exactly the 12 and 13 cells, each to False |
| SolverParse.ClearRow | solver.py:93-95 | a cleared row has its player cells set to 0 and every other cell as read |
| SolverMoves.ApplyMechanism | solver.py:134-136 | the pressed cell is switched on, and every other button keeps its flag |
| SolverMoves.EnterCell | solver.py:196-275 | the shared part of both branches: diamond, key, door, spikes, exit rule, button |
| SolverMoves.PushStone | solver.py:167-232 | the push branch's checks and the stone's new place |
| SolverMoves.TryMove | solver.py:157-275 | one direction of the loop: bounds, wall/gate, locked door, then push or plain move |
| SolverMoves.Vecinos | solver.py:138-276 | the loop collects the successors in move order |
| SolverMoves.SuccessorsComplete | solver.py:138-276 | at most 4 successors, and (d, t) is one iff move d from the state gives t |
| SolverMoves.MoveTarget | solver.py:157-230 | a successor's player is on the in-bounds neighbour, on neither tile 1 nor 11, with the parent and action set |
| SolverMoves.DoorRule | solver.py:165-253 | a door is entered only with a key; it leaves `puertas` and the key count drops to 0 |
| SolverMoves.KeysStayBinary | solver.py:199-253 | keys stay in {0, 1} |
| SolverMoves.StoneRule | solver.py:167-195 | a push clears the stone's cell; the landing cell is in bounds, not wall or gate, not a stone, not a door; the stone vanishes exactly when that cell is an unfilled 9 or 10, and otherwise lands there; other moves keep the stones, and the stone count never grows |
| SolverMoves.HoleRule | solver.py:190-191 | filled holes only grow; they change only when a stone is pushed into an unfilled 9, and such a push always fills it |
| SolverMoves.DiamondRule | solver.py:197-259 | the diamonds lose at most the entered cell, and no successor stands on the exit while diamonds remain |
| SolverMoves.SpikesOneShot | solver.py:206-257 | a spike cell is entered only once, and entering it activates it |
| SolverMoves.ButtonsOnlySwitchOn | solver.py:216-261 | no button is switched off or added, and a pressed button or statue is on |
| SolverMoves.MoveButtons | solver.py:216-261 | the buttons change by `aplicar_mecanismo` exactly when the entered tile is 12 or 13 |
| SolverSearch.Heuristic | solver.py:279-298 | the estimate is never negative |
| SolverSearch.HeuristicPlain | solver.py:298 | with no diamonds or doors left it is the distance to the exit, so 0 on a goal |
| SolverSearch.HeuristicDiamondBound | solver.py:283-286 | with diamonds left it is at most the detour through any one diamond |
| SolverSearch.GoalWithDoorEstimated100 | solver.py:287-292 | a goal state with a door and no key anywhere is estimated at 100 |
| SolverSearch.ReplayAppend | solver.py:313-321 | playing a + b is playing a, then b |
| SolverSearch.ChainReplays | solver.py:319-320 | the route of a state on the frontier, played from the start, leads back to that state |
| SolverSearch.AStar | solver.py:300-322 | a returned plan, played from the start, ends on the exit with no diamonds left |
| DiamondMoves.PushStone | diamond_rush.py:124-148 | the push branch as written |
| DiamondMoves.WalkInto | diamond_rush.py:150-180 | the plain branch as written |
| DiamondMoves.GenerateSuccessors | diamond_rush.py:92-181 | the loop collects the successors in MOVES order |
| DiamondMoves.TransitableIff | diamond_rush.py:98-118 | transitable iff in bounds, no stone, not 1/10/13, not a gate without a stone on a 12 cell, not a closed door without key, not an unfilled hole, not a used spike |
| DiamondMoves.DoorPassable | diamond_rush.py:110-113 | a door is passable iff it is opened or the player has the key |
| DiamondMoves.SuccessorsComplete | diamond_rush.py:120-181 | at most 4 successors, and (t, d) is one iff step d gives t |
| DiamondMoves.PushRule | diamond_rush.py:124-148 | the landing cell is transitable and not 5 or 8; the player takes the stone's cell; in a 9 the stone fills the hole, otherwise it moves; diamonds, key and doors are unchanged |
| DiamondMoves.WalkRule | diamond_rush.py:150-180 | the cell is transitable; a diamond there is collected; a 3 gives the key; an unopened door with the key is opened and the key spent; stones and holes are unchanged |
| DiamondMoves.HolesStayEmpty | diamond_rush.py:114-131 | from a state with no filled holes, no move fills one |
| DiamondMoves.StonesStayOnBoard | diamond_rush.py:124-133 | stones stay inside the map |
| DiamondMoves.StonesKept | diamond_rush.py:127-133 | with no filled holes, a push keeps the number of stones |
| DiamondMoves.SpikesGrow | diamond_rush.py:134-159 | used spikes only grow, and a spike the player stands on is used |
| DiamondLevels.Token | diamond_rush.py:21 | a token is the longest whitespace-free prefix |
| DiamondLevels.Split | diamond_rush.py:21 | `split()` yields non-empty tokens without whitespace; joined, they are the line's non-whitespace characters in order; a line without whitespace is its only token |
| DiamondLevels.SplitAtSpace | diamond_rush.py:21 | a whitespace character separates tokens: the tokens of `a`, a space and `b` are those of `a` followed by those of `b` |
| DiamondLevels.ShowNat | diamond_rush.py:21 | the decimal writing of a number is a non-empty digit string |
| DiamondLevels.DigitsOfShow | diamond_rush.py:21 | reading the digits back gives the number |
| DiamondLevels.ParseShow | diamond_rush.py:21 | `int(str(n)) == n` for every integer, sign included |
| DiamondLevels.ParseRow | diamond_rush.py:20-24 | a row parses iff every token is an integer, and then holds their values in order |
| DiamondLevels.Classify | diamond_rush.py:12-24 | a line is blank iff it is all whitespace; a line becomes a row iff it has a digit and all its tokens parse, and the row then holds their values |
| DiamondLevels.GroupLevels | diamond_rush.py:9-27 | the grouping loop with its final flush |
| DiamondLevels.GroupRows | diamond_rush.py:11-24 | the finished levels plus the open one hold exactly the kept rows, in order |
| DiamondLevels.GroupNonEmpty | diamond_rush.py:13-16 | every finished level is non-empty, and so is every row in it |
| DiamondLevels.GroupCount | diamond_rush.py:13-16 | the finished levels change only at a blank line, which closes the open level so that they become the levels read so far; there are at most as many as blank lines |
| DiamondLevels.LevelsSplit | diamond_rush.py:9-27 | a blank line separates levels: the levels of `a`, a blank line and `b` are the levels of `a` followed by those of `b` |
| DiamondLevels.LevelsProperties | diamond_rush.py:9-27 | levels and their rows are non-empty, the levels concatenated are the kept rows, there are at most one more levels than blank lines, and without a blank line the kept rows form one level (or none) |
| DiamondLevels.Select | diamond_rush.py:29 | `niveles[indice]` with Python's negative indexing; out of range is an IndexError |
| DiamondLevels.VisitSummarises | diamond_rush.py:42-54 | the `if`/`elif` chain adds the cell to the list of its code |
| DiamondLevels.ScanLevelRow | diamond_rush.py:41-54 | one pass of the inner loop: IndexError iff the row is short, else the row's cells collected |
| DiamondLevels.LoadLevel | diamond_rush.py:5-68 | IndexError iff the level index is out of range or a row is short; ValueError iff the level has no exit; otherwise the matrix with the last player, last exit, all diamonds and stones, and the empty flags |
| DiamondLevels.LoadedIsPlayable | diamond_rush.py:56-67 | a loaded level with a player is a grid with its stones on it, no filled holes, and the exit on a tile 8 |
| DiamondHeuristic.Range | diamond_rush.py:190 | `set(range(n))` holds exactly 0..n-1 |
| DiamondHeuristic.ClosestUnvisited | diamond_rush.py:200 | `min(no_visitados, key=dist_min)` returns an unvisited point of least distance |
| DiamondHeuristic.Relax | diamond_rush.py:204-209 | each unvisited point's distance drops to its distance to the joined point when that is smaller; nothing else changes |
| DiamondHeuristic.PrimStart | diamond_rush.py:189-198 | the Prim invariant holds before the loop: the tree is the player alone, the distances are to the player |
| DiamondHeuristic.PrimStep | diamond_rush.py:199-209 | joining the nearest unvisited point and relaxing keeps the invariant, adding that point's distance to the cost |
| DiamondHeuristic.PrimFinish | diamond_rush.py:199-210 | with no point left, the tree spans all points, the cost is its length, and no point is farther from the player than the cost |
| DiamondHeuristic.JoinNearest | diamond_rush.py:200-209 | one loop round keeps the invariant and shrinks the unvisited set |
| DiamondHeuristic.Prim | diamond_rush.py:188-210 | the result is the cost of a spanning tree of the points, and bounds every point's distance to the first |
| DiamondHeuristic.ListOf | diamond_rush.py:188 | `list(frozenset)` lists each element once |
| DiamondHeuristic.Heuristica | diamond_rush.py:183-210 | never negative; with no diamonds the distance to the exit; otherwise the cost of a spanning tree over player, diamonds and exit, at least the distance to the exit and to every diamond |
| DiamondSearch.WalkBack | diamond_rush.py:221-229 | the walk back along `predecesor` yields actions that, played from the start, reach the state |
| DiamondSearch.Relink | diamond_rush.py:232-234 | recording a cheaper predecessor keeps the tables consistent |
| DiamondSearch.Consider | diamond_rush.py:231-236 | one successor's update keeps the tables consistent |
| DiamondSearch.Expand | diamond_rush.py:230-236 | the loop over the successors keeps the tables consistent |
| DiamondSearch.FindOptimalPath | diamond_rush.py:212-237 | a returned action list, played from the start, ends on the exit with no diamonds left |

## Left out

- File reading, stb_image decoding, `ofstream` writing and console output (`cargar_imagen`, `imprimir_matriz`, the `open` calls, every `print`). Decoded images and read lines are parameters instead.
- `tomar_captura.cpp` (X11 capture and PNG writing) is not part of this model.
- Floating point. The score is a real number with an explicit NaN for 0/0. `DBL_MAX` is a `Top` bound above every finite score.
- IsAllBrown: `cafe > total * 0.85` is restated as `20 * cafe > 17 * total`, which ignores double rounding of `total * 0.85`.
- `round((float)height / filas)` and the constants of `main` (15 x 10 grid, 29 and 45 tiles): the cell size and tile count are parameters.
- `pyautogui` key presses, `time.sleep` and `main` in solver.py.
- solver.py tokenisation of `matriz_clasificacion.txt`: `parse_level` is modelled from the integer rows.
- DiamondLevels.ParseInt: `int()` is modelled for ASCII digits with an optional sign. Underscores between digits and non-ASCII decimal digits are not accepted. `isdigit()` is likewise ASCII only. Whitespace (`IsSpace`) is Python's full `str.isspace` set.
- SolverParse.ParseLevel: a level without a player gives `None` for the initial state. Python builds an `Estado` with `jugador = None`, which then fails in `vecinos`.
- The spike, hole, lava and gate collections that `parse_level` and `cargar_nivel` build and then discard are not kept.
- SolverState: `botones` is held as a dictionary. `SortedItemsInjective` shows that comparing the dictionaries is the same as comparing the sorted tuples Python stores.
- SolverSearch.Heuristic: the +10 and 100 constants are not shown admissible. Only non-negativity and the bounds above are stated.
- SolverSearch.AStar: the exit is a position. For a level without an 8, `parse_level` returns `None` as `coord_salida`, and `heuristico` then raises TypeError when it indexes it (solver.py:285, solver.py:298). The model does not cover that failure. Optimality is not proved, and a returned plan is only shown to be valid. The loop is cut off after `fuel` pops (`OutOfFuel`), because termination over the finite state space is not proved.
- DiamondSearch.FindOptimalPath: optimality is not proved, and the same fuel bound applies.
- The heap is a list with "pop a least (f, g, tick) entry". Its invariants and `heapq` internals are library code.
- DiamondHeuristic.Heuristica: the tree is shown to be a spanning tree with the returned cost, but its minimality is not proved. Python's iteration order of `list(frozenset)` is a parameter (`orden`, any listing of the diamonds). Python's iteration order of small int sets is taken to be ascending, so on a tie `min` returns the smallest index.
- DiamondHeuristic.Prim: the tree it grows is shown to span the points with the returned cost, but its minimality is not proved. Entry 0 of `dist_min` (Python's infinity) is 0 here, and it is never read.
- DiamondLevels.LoadLevel: a level without a player gives no initial state (`inicial` is None). Python builds a `GameState` whose `player` is None. `heuristica` then fails when it unpacks the player (diamond_rush.py:185, diamond_rush.py:194), and the model does not cover that failure.
- `coord_salida` is passed to `vecinos`, and `salida_coord` to `generar_sucesores`, but neither function uses it; the model drops the parameter.
- The occlusion mask, fine histogram and disambiguation passes: no file of the repository implements them.
