# rsbot in Dafny

This project models the logic of rsbot, a set of auto clickers for RuneScape. It proves properties of that model.

- **The register machine** (src/vm.py, src/instructions.py). It loads a script file and drops blank lines and `#` comments. It then dispatches each line on its first space-separated token to a handler object. The handler parses the arguments and then executes. `store`, `sub` and `jne` work on a register file (`R0` only) and a label table. A label line `name:` binds `name` to the line after it. The other handlers sleep, click, move the mouse (to a literal position, to a random point of a click box, or to the centroid of the largest colour cluster of a screenshot) or press a key.
- **The older interpreter** (vm.py, instructions.py). It has four handlers, no registers and no jumps. It moves its pc on by one after each line.
- **The Bezier mouse path** (rsbot/mouse.py). It has the Pascal-row builder, the Bezier evaluation and the path of `__mouse_bez`.
- **The JSON auto clicker** (bot.py). It covers click boxes and their text, click events and their text, the validation of an event file's entries, and the mouse controller's screen-bounds and button checks.

## Model

The modules and where they live:

- `Strings` (strings.dfy) holds the text primitives: `str.split`, `",".join`, `int()`, `str()` of an integer, `float()` of a decimal literal and `str.strip()`.
- `Geometry` (geometry.dfy) holds triangle sampling and the click-box point.
- `Cluster` (cluster.dfy) holds the flood fill and the largest-cluster scan over a screenshot, given as a width, a height and a function from coordinates to pixels.
- `Bezier` (bezier.dfy) holds rsbot/mouse.py.
- `ScriptText` (script.dfy) holds the script loader.
- `Instructions` (instructions.dfy) holds the handler classes and a specification function for each handler.
- `Vm` (vm.dfy) holds the dispatch loop of src/vm.py.
- `LegacyVm` (legacy.dfy) holds vm.py and instructions.py.
- `Bot` (bot.dfy) holds bot.py.

The `Context` object and the handler objects are Dafny classes. The handler methods update the context in place, and each method is proved to agree with a function on the context's value. The loops are methods proved equal to a recursive specification function. The properties are lemmas about those functions.

| member | source | states |
|---|---|---|
| Strings.Join | bot.py:105 | definition: `sep.join(parts)`, the pieces with one separator between neighbours |
| Strings.ParseInt | src/instructions.py:349 | definition: `int()` of a token, an optional sign followed by at least one ASCII digit, or no value |
| Strings.IntToString | bot.py:104 | definition: `str()` of an integer, a minus sign for a negative one followed by the decimal digits |
| Strings.ParseFloat | src/instructions.py:96 | definition: `float()` of a decimal literal with an optional sign, fraction and exponent, or no value |
| Strings.Strip | src/vm.py:56 | definition: `str.strip()`, the line without its leading and trailing whitespace |
| Strings.Split | src/instructions.py:76 | `split(" ")` always yields at least one piece, and no piece contains the separator |
| Strings.JoinSplit | src/instructions.py:76 | joining the pieces of a split with the separator gives back the original text, so the split loses nothing |
| Strings.SplitJoin | bot.py:105 | splitting a separator-join of at least one separator-free piece gives back exactly those pieces |
| Strings.NatToString | bot.py:104 | the decimal text of a natural number is non-empty and made only of digits |
| Strings.DigitsValueOfNatToString | bot.py:104 | the digits of `str(n)` read back as `n` |
| Strings.ParseIntOfIntToString | src/instructions.py:349 | `int(str(n)) == n` for every integer `n`, negative ones included |
| Strings.ParseFloatOfIntToString | src/instructions.py:96 | `float(str(n))` is `n` for every integer `n`, so every integer token is also a valid float token |
| Strings.LeadingSpace | src/vm.py:56 | counts the leading whitespace: every character before the count is whitespace, and the one at the count is not |
| Strings.TrailingSpace | src/vm.py:56 | counts up to the trailing whitespace: every character from the count on is whitespace, and the one before it is not |
| Strings.StripIsTrimmedFactor | src/vm.py:56 | `strip()` returns a contiguous slice of the line that neither starts nor ends with whitespace, and everything cut off on either side is whitespace |
| Strings.StripEnds | src/vm.py:56 | the stripped text is empty or starts and ends with a non-whitespace character |
| Strings.StripSlice | src/vm.py:56 | the stripped text is the slice of the line starting right after the leading whitespace |
| Strings.StripTrailing | src/vm.py:56 | everything after the stripped slice is whitespace |
| Strings.StripIdempotent | src/vm.py:56 | stripping a stripped line changes nothing |
| Geometry.RandomPointInTriangle | src/instructions.py:138-151 | definition: `_random_point_in_triangle` for the draws `s` and `t`, reflected when `s + t > 1` |
| Geometry.GetRandPoint | src/instructions.py:153-159 | definition: `_get_rand_point` for the coin draw and the two triangle draws |
| Geometry.Fold | src/instructions.py:140-146 | after the `s + t > 1` reflection, `1-s-t`, `s` and `t` are convex weights, and a pair with `s + t <= 1` is left as it was |
| Geometry.TriangleSampleIsConvexCombination | src/instructions.py:138-151 | the triangle sample is the convex combination `(1-s-t)·v1 + s·v2 + t·v3` with the reflected weights |
| Geometry.ConvexCombinationBounded | src/instructions.py:148-149 | a convex combination of coordinates in `[lo, hi]` lies in `[lo, hi]` |
| Geometry.TriangleSampleInBox | src/instructions.py:138-151 | a sample from any three corners of a polygon lies in the bounding box of all its corners |
| Geometry.RandPointInClickBox | src/instructions.py:153-159 | a coin below 0.5 samples triangle (c0, c1, c2), otherwise (c0, c2, c3); the weights are convex and the point lies in the click box's bounding box |
| Cluster.Neighbours | src/instructions.py:226-234 | definition: the guarded left, right, up and down neighbours, in that order |
| Cluster.Fill | src/instructions.py:208-236 | definition: the breadth-first flood fill as a recursion on the queue, the visited set and the cluster so far |
| Cluster.Scan | src/instructions.py:254-274 | definition: the column-major scan that fills from every unvisited matching pixel and keeps the first strictly largest cluster |
| Cluster.Centroid | src/instructions.py:279-283 | definition: the floor-divided means of the x and the y coordinates |
| Cluster.Locate | src/instructions.py:276-285 | definition: the centroid of the best cluster, `None` below the minimum size, or the zero division of an empty best cluster |
| Cluster.NeighboursAreAdjacentInBounds | src/instructions.py:226-234 | the coordinates enqueued from a pixel are exactly its in-bounds 4-neighbours |
| Cluster.Enqueue | src/instructions.py:227-234 | the queue after the four guarded appends is the old queue followed by the in-bounds neighbours (left, right, up, down) |
| Cluster.FloodFill | src/instructions.py:208-236 | the breadth-first loop over the deque returns the cluster and the grown visited set that the recursive specification `Fill` computes |
| Cluster.FillSound | src/instructions.py:211-236 | visited only grows; the cluster extends the old one; each coordinate added is newly visited, inside the image and matches the target on all three channels |
| Cluster.FillComplete | src/instructions.py:211-236 | every newly visited pixel that matches the target is in the cluster |
| Cluster.FillDistinct | src/instructions.py:213-224 | no coordinate is added to the cluster twice, and every cluster coordinate is in visited |
| Cluster.FillClosed | src/instructions.py:224-234 | when the queue is exhausted, every in-image neighbour of a cluster pixel has been visited |
| Cluster.FillLinked | src/instructions.py:208-236 | every cluster pixel is joined to the start by a chain of 4-adjacent cluster pixels |
| Cluster.FloodFillComponent | src/instructions.py:181-236 | a fill from an unvisited matching pixel returns a duplicate-free, 4-connected set of new matching pixels that starts at that pixel and holds every matching pixel it visited; any matching neighbour of the set is in it or was visited before |
| Cluster.NewClusterClosed | src/instructions.py:259-270 | during the scan, a fill started at an unvisited matching pixel is a whole connected component of matching pixels |
| Cluster.KeepLargerStep | src/instructions.py:273-274 | replacing the best cluster only by a strictly larger one keeps the first of the largest clusters found |
| Cluster.VisitInv | src/instructions.py:261-274 | one visit of the column-major scan keeps the scan invariant: clusters found are disjoint components; the best is the first largest; visited only grows |
| Cluster.ScanColumnInv | src/instructions.py:260-274 | one column of the scan keeps the invariant, and afterwards every matching pixel of the columns so far is visited |
| Cluster.ScanColumnsInv | src/instructions.py:259-274 | the whole scan keeps the invariant and visits every matching pixel |
| Cluster.ScanFindsComponents | src/instructions.py:259-274 | the clusters found are disjoint connected components that cover every matching pixel; the best is the first largest in scan order; it is empty exactly when no pixel matches |
| Cluster.CentroidInBox | src/instructions.py:279-283 | the floor-divided mean of a non-empty cluster's coordinates lies in any box that holds all of them |
| Cluster.FindLargestColorCluster | src/instructions.py:238-285 | the nested scan loops with their fills return what the specification `Locate` returns |
| Cluster.LocateOutcomes | src/instructions.py:276-285 | `None` exactly when the best cluster is smaller than the minimum size; a zero division exactly when the minimum is at most 0 and nothing matches; a found point comes from a largest cluster, which is a whole component of at least the minimum size, and lies inside the image |
| Bezier.Binomial | rsbot/mouse.py:15-30 | definition: the binomial coefficient by Pascal's rule, the reference the row builder is proved against |
| Bezier.BinomialRow | rsbot/mouse.py:15-30 | definition: `[C(n,0), …, C(n,n)]`, the row `__pascal_row(n)` is proved to return |
| Bezier.Coefficients | rsbot/mouse.py:48-51 | definition: the zip of the combinations with the powers of `t` and the reversed powers of `1-t` |
| Bezier.Curve | rsbot/mouse.py:42-54 | definition: the point of the Bezier curve at `t`, each coordinate the weighted sum of the control points |
| Bezier.SampleParams | rsbot/mouse.py:82 | definition: `[t / (speed·100) for t in range(speed·101)]`, as written |
| Bezier.MouseBez | rsbot/mouse.py:59-89 | definition: the control points from the draws, the curve at the sample parameters, and the destination appended; an empty `randint` range raises |
| Bezier.BinomialStep | rsbot/mouse.py:19-23 | `(k+1)·C(n,k+1) == (n-k)·C(n,k)`, the step of the running product |
| Bezier.BinomialSymmetric | rsbot/mouse.py:25-28 | `C(n,k) == C(n,n-k)` |
| Bezier.PascalRow | rsbot/mouse.py:15-30 | for `n >= 0` the row is `[C(n,0), …, C(n,n)]`: each running quotient is exact, then the half row is mirrored; for negative `n` it is `[1]` or `[1, 1]` by parity; the row is always symmetric |
| Bezier.MirroredRow | rsbot/mouse.py:25-28 | mirroring the half row (without its last entry for even `n`) gives the full binomial row |
| Bezier.BinomialRowSymmetric | rsbot/mouse.py:25-28 | any row `__pascal_row` returns reads the same reversed |
| Bezier.CoefficientForm | rsbot/mouse.py:48-51 | weight `k` of the curve of degree `m` is `C(m,k)·t^k·(1-t)^(m-k)` |
| Bezier.EntryForm | rsbot/mouse.py:48-51 | pairing `t` powers with the reversed `1-t` powers gives entry `k` the weight `row[k]·t^k·u^(n-1-k)` |
| Bezier.MakeBezier | rsbot/mouse.py:45-54 | the loop returns one point per parameter, each the weighted sum of the control points at that parameter |
| Bezier.EndWeights | rsbot/mouse.py:48-51 | at `t = 0` the weights are `1, 0, …, 0`, and at `t = 1` they are `0, …, 0, 1` |
| Bezier.CurveEnds | rsbot/mouse.py:45-54 | the curve starts at the first control point and ends at the last |
| Bezier.WeightsSumToOne | rsbot/mouse.py:48-51 | the weights sum to 1 whenever `t + u == 1` |
| Bezier.CoefficientsNonNegative | rsbot/mouse.py:48-51 | for `t`, `u >= 0` every weight is non-negative |
| Bezier.CurveInBox | rsbot/mouse.py:45-54 | for `t` in `[0, 1]` the curve stays inside any box holding all control points |
| Bezier.ControlCoordOffset | rsbot/mouse.py:74-76 | for every draw `randint(deviation // 2, deviation)` can return (deviation -1 included), a control coordinate differs from the start coordinate by at most `abs(fin - init) · abs(deviation) / 100`, and equals it on an axis where start and destination agree |
| Bezier.MouseBezShape | rsbot/mouse.py:59-89 | as written: an error exactly when `randint`'s range is empty (`deviation < -1`); otherwise the path has `speed·101 + 1` points (one for `speed <= 0`), ends at the destination and, for `speed > 0`, starts at the start |
| Bezier.SampleParamsOvershoot | rsbot/mouse.py:82 | as written, for `speed >= 2` there are `speed·101` parameters and the last exceeds 1 |
| Bezier.PathOvershootsDestination | rsbot/mouse.py:82-87 | as written, a straight move from (0,0) to (100,0) at speed 2 has 203 points, and point 201 lies beyond x = 100 |
| Bezier.IntendedSampleParamsInRange | rsbot/mouse.py:82 | with `speed·100 + 1` parameters they run from exactly 0 to exactly 1 and stay in `[0, 1]` |
| Bezier.IntendedMouseBezShape | rsbot/mouse.py:59-89 | the corrected path has `speed·100 + 2` points; it starts at the start, reaches the destination with its last curve sample and again with the appended point, and never leaves a box holding the start, the destination and both control points |
| ScriptText.KeptLines | src/vm.py:53-60 | definition: the stripped lines of the file that are neither empty nor comments, in order |
| ScriptText.LoadInstructions | src/vm.py:53-60 | the loading loop returns the stripped lines that are neither empty nor comments, in file order |
| ScriptText.KeptLinesSingle | src/vm.py:56-60 | one line contributes its stripped text exactly when that text is non-empty and does not start with `#` |
| ScriptText.KeptLinesAppend | src/vm.py:55-60 | loading two runs of lines one after the other gives the two loads concatenated, so order is kept |
| ScriptText.KeptLinesWellFormed | src/vm.py:56-60 | there are never more instructions than lines; each kept instruction is non-empty, not a comment, and already stripped |
| ScriptText.KeptLinesIdempotent | src/vm.py:53-60 | loading the loaded instructions again changes nothing |
| Instructions.Uniform | src/instructions.py:97 | definition: `uniform(a, b)` as `a + (b-a)·r` for the draw `r` |
| Instructions.DelaySpec | src/instructions.py:94-99 | definition: the `delay` handler: two floats, one draw, a negative length raises, else sleep and pc + 1 |
| Instructions.MouseClickSpec | src/instructions.py:109-116 | definition: the `msclk` handler: left or right clicks and pc + 1, any other button raises |
| Instructions.MouseMoveSpec | src/instructions.py:126-132 | definition: the `msmv` handler: int x, int y, float duration, then the move and pc + 1 |
| Instructions.MouseMoveClickBoxSpec | src/instructions.py:165-175 | definition: the `msmvcb` handler: the corners, then the random point and the duration |
| Instructions.ClickBoxStep | src/instructions.py:171-175 | definition: three draws pick the point, then the duration is parsed, then the move and pc + 1 |
| Instructions.MouseMoveColorSpec | src/instructions.py:291-309 | definition: the `msmvcolor` handler: five ints, the cluster search, the duration, then the move and pc + 1 |
| Instructions.PressKeySpec | src/instructions.py:319-336 | definition: the `pkey` handler: the duration, the key check, `KeyHeld` for a negative duration, else the press and pc + 1 |
| Instructions.SubtractSpec | src/instructions.py:346-355 | definition: the `sub` handler: the immediate, the register check, the subtraction and pc + 1 |
| Instructions.StoreSpec | src/instructions.py:365-374 | definition: the `store` handler: the immediate, the register check, the store and pc + 1 |
| Instructions.JumpNotEqualSpec | src/instructions.py:384-393 | definition: the `jne` handler: fall through on R0 zero, else jump to the label or raise for an unknown one |
| Instructions.ExecuteSpec | src/instructions.py:87-393 | definition: `execute()` of the handler for an opcode |
| Instructions.Context.constructor | src/instructions.py:13-25 | a context holds the given pc, registers and labels |
| Instructions.Rng.Random | src/instructions.py:140-141 | each `random()` call returns the next draw in order and counts it |
| Instructions.ParseArgs | src/instructions.py:66-80 | succeeds exactly when the line has `nargs` tokens after its first; they are the arguments, in order; otherwise the error carries the expected and received counts |
| Instructions.ParseArgsJoin | src/instructions.py:76-80 | a line built from a type and space-free arguments parses back to exactly those arguments, and fails for every other arity |
| Instructions.Instruction.constructor | src/instructions.py:48-59 | a new handler has its opcode, its arity, no arguments and the shared context |
| Instructions.Instruction.Parse | src/instructions.py:66-80 | on success the argument field holds the tokens after the first; on failure it raises with the field unchanged |
| Instructions.Instruction.Execute | src/instructions.py:87-393 | runs the handler for the opcode; a completed handler leaves the context as its specification says, and a raising handler leaves it untouched |
| Instructions.Instruction.ExecuteDelay | src/instructions.py:94-99 | parses both bounds and draws once; a negative length raises; otherwise it sleeps `uniform(min, max)` and moves pc on by one |
| Instructions.Instruction.ExecuteMouseClick | src/instructions.py:109-116 | any button other than left or right raises before pc changes; otherwise it clicks and moves pc on by one |
| Instructions.Instruction.ExecuteMouseMove | src/instructions.py:126-132 | parses x, y and the duration in that order, moves there and moves pc on by one |
| Instructions.Instruction.BuildClickBox | src/instructions.py:167-169 | the pairwise loop over arguments 0 to 7 builds the corners `Corners` specifies, or the first parse error |
| Instructions.Instruction.ExecuteMouseMoveClickBox | src/instructions.py:165-175 | builds the click box, then moves to its random point with the parsed duration and moves pc on by one |
| Instructions.Instruction.MoveInClickBox | src/instructions.py:171-175 | three draws pick the point, then the duration is parsed; a bad duration raises after the draws |
| Instructions.Instruction.DrawPoint | src/instructions.py:153-159 | the coin draw and the two triangle draws, in that order, give `GetRandPoint`'s point |
| Instructions.Instruction.ExecuteMouseMoveColor | src/instructions.py:291-309 | parses five integers, then looks for the cluster in the screenshot; it raises when the largest cluster is too small or when the mean of an empty cluster divides by zero; otherwise it parses the duration, moves to the centroid and moves pc on by one |
| Instructions.Instruction.ExecutePressKey | src/instructions.py:319-336 | agrees with the specification of `pkey` and changes nothing when it raises: the duration is parsed first; an unsupported key raises; a negative duration raises `KeyHeld`, because the key is already down when `sleep` fails; otherwise it presses and moves pc on by one |
| Instructions.Instruction.ExecuteSubtract | src/instructions.py:346-355 | agrees with the specification of `sub` and changes nothing when it raises |
| Instructions.Instruction.ExecuteStore | src/instructions.py:365-374 | agrees with the specification of `store` and changes nothing when it raises |
| Instructions.Instruction.ExecuteJumpNotEqual | src/instructions.py:384-393 | agrees with the specification of `jne` and changes nothing when it raises |
| Instructions.ParseInts | src/instructions.py:297-298 | definition: `int` of each token in order, stopping at the first bad token; a successful conversion has one value per token |
| Instructions.ParseIntsLoop | src/instructions.py:297-298 | converting the tokens in order gives their values, or the first token that is not an integer |
| Instructions.ParseIntsShape | src/instructions.py:297-298 | the conversion succeeds exactly when every token is an integer, and then value `i` is token `i`'s |
| Instructions.Corners | src/instructions.py:167-169 | definition: the pairwise `int` conversion of the corner tokens, stopping at the first bad token; a built click box has half as many corners as tokens |
| Instructions.CornersShape | src/instructions.py:167-169 | the click box is built exactly when all eight tokens are integers; corner `j` is `(args[2j], args[2j+1])` |
| Instructions.StoreOutcome | src/instructions.py:365-374 | succeeds exactly when the register exists and the immediate parses; the register then holds the immediate; pc moves on by one; other registers, the register set and the labels are unchanged |
| Instructions.SubtractOutcome | src/instructions.py:346-355 | succeeds exactly when the register exists and the immediate parses; the register then drops by the immediate; pc moves on by one; nothing else changes |
| Instructions.JumpNotEqualOutcome | src/instructions.py:384-393 | with R0 zero pc moves on by one even for an unknown label; otherwise it raises exactly when the label is unknown, and else jumps to the label's address |
| Instructions.ExecuteOutcome | src/instructions.py:94-393 | every completed effectful handler moves pc on by exactly one and leaves registers and labels alone; the register handlers emit no effect and keep the labels and the set of registers; the draw count never goes back |
| Instructions.MouseClickOutcome | src/instructions.py:111-114 | `msclk` raises exactly for a button other than left or right, and otherwise clicks that button |
| Instructions.PressKeyOutcome | src/instructions.py:325-336 | `pkey` completes exactly for `space` or a one-character key with a non-negative duration, pressing that key for that long; a supported key with a negative duration raises `KeyHeld` for that key |
| Instructions.UniformBetween | src/instructions.py:97 | `uniform(a, b)` lies in `[a, b]` for `a <= b` |
| Instructions.DelayWithinBounds | src/instructions.py:94-99 | with `0 <= min <= max` the delay completes after one draw and sleeps between `min` and `max` seconds |
| Instructions.MouseMoveClickBoxTarget | src/instructions.py:165-175 | completes exactly when all eight corner tokens and the duration parse; a corner error draws nothing; otherwise there are three draws and the move goes to `GetRandPoint` of the four corners, which lies in their bounding box |
| Instructions.MouseMoveColorTarget | src/instructions.py:291-309 | raises when the largest cluster is below the minimum size; a completed move goes to the centroid of a largest matching component, inside the screenshot |
| Vm.Decode | src/vm.py:22-45 | definition: the `if`/`elif` chain on the first token: a handler, `msmvtext`, a label declaration, or unknown |
| Vm.LabelStep | src/vm.py:41-43 | definition: pc + 1, then the label bound to the new pc |
| Vm.DispatchSpec | src/vm.py:14-17 | definition: the nested `execute`: parse, then the handler's `execute()` |
| Vm.StepSpec | src/vm.py:21-45 | definition: one iteration of the loop on the line at pc |
| Vm.Run | src/vm.py:19-45 | definition: the loop while pc indexes a line, stopping at the first raise, with a fuel bound |
| Vm.RunEnds | src/vm.py:20-45 | a run halts exactly when the pc no longer indexes a line; running out of fuel happens only while it still does; effects are only ever appended and the draw count never goes back |
| Vm.DecodeNames | src/vm.py:23-40 | every dispatched handler's name selects that handler; `pkey` selects nothing; a selected handler's name is the token |
| Vm.DecodeLabel | src/vm.py:41-43 | a token is a label declaration exactly when it ends with a colon, and the label is the token without it |
| Vm.StepCases | src/vm.py:21-45 | a label line moves pc on by one and binds the label to the new pc; an unknown token raises; `msmvtext` raises; a wrong argument count raises before the handler runs, leaving the context alone |
| Vm.InitialInv | src/vm.py:19 | the fresh context (pc 0, only R0, no labels) satisfies the run invariant |
| Vm.StepKeepsInv | src/vm.py:20-45 | every completed step keeps the invariant: pc within the script or one past it, R0 the only register, and each label bound to the line after its declaration |
| Vm.HandlerKeepsInv | src/vm.py:14-17 | every completed handler keeps the invariant |
| Vm.LabelKeepsInv | src/vm.py:41-43 | recording a label keeps the invariant |
| Vm.RunKeepsInv | src/vm.py:20-45 | a whole run keeps the invariant |
| Vm.ExecutionEnds | src/vm.py:19-45 | a run from the fresh context halts exactly when pc equals the script length; out of fuel, pc still indexes a line; the invariant holds at the end |
| Vm.ExecuteInstructions | src/vm.py:12-45 | the interpreter's status, effects and final context are those of the specified run from the fresh context |
| Vm.RunLoop | src/vm.py:20-45 | the while loop computes the specified run from the current context |
| Vm.RunLine | src/vm.py:21-45 | one iteration: a handler's result or the label update, agreeing with one specified step |
| Vm.Execute | src/vm.py:14-17 | the nested `execute` builds the handler, parses, then executes, agreeing with the dispatch specification; an error leaves the context untouched |
| Vm.UndeclaredRegisterRaises | src/vm.py:19 | because only R0 exists, `store` or `sub` on any other register raises with nothing changed |
| Vm.FirstStoreToUndeclaredRegister | src/vm.py:19 | a script whose first line stores to a register other than R0 fails at once, with no effect |
| Vm.JumpCases | src/vm.py:41-43 | `jne` never draws; with R0 zero it falls through; a taken jump to an unrecorded label raises; a recorded one resumes right after that label's declaration line |
| LegacyVm.DecodeOpNames | vm.py:19-29 | each of the four handler names selects its handler, and a selected handler's name is the token |
| LegacyVm.RandIntBetween | instructions.py:94 | `randint(low, high)` lies in `[low, high]` |
| LegacyVm.SleepOutcome | instructions.py:91-94 | bad integers raise in argument order; `randint` raises on an empty range; otherwise a whole number of seconds between the bounds is slept after one draw |
| LegacyVm.ClickOutcome | instructions.py:104-113 | raises exactly for a button other than left or right; otherwise it clicks that button |
| LegacyVm.HumanMoveOutcome | instructions.py:123-127 | completes exactly when x, y and both speed bounds parse; it moves to (x, y) with a multiplier between the bounds after one draw; an error draws nothing |
| LegacyVm.ClickBoxMoveOutcome | instructions.py:160-168 | completes exactly when the eight corner tokens and both speed bounds parse; corner `j` is `(args[2j], args[2j+1])`; four draws give the point in the box and the multiplier between the bounds |
| LegacyVm.LineOutcome | vm.py:18-29 | a line completes only when its token names a handler and its effect is that handler's kind; an unknown token raises without drawing |
| LegacyVm.RunShape | vm.py:16-31 | from any line the run moves forward one line per completed instruction, with one effect each; it ends without error exactly at the end of the script, and never passes an unknown line |
| LegacyVm.ExecutionShape | vm.py:16-31 | an error-free run dispatches every line once, in order, with one matching effect each; a script with an unknown line fails at or before it |
| LegacyVm.DecodeOp | vm.py:19-29 | definition: the `if`/`elif` chain on the first token over the four handlers |
| LegacyVm.RandInt | instructions.py:94 | definition: `randint(low, high)` read off one draw |
| LegacyVm.SleepSpec | instructions.py:91-94 | definition: the `delay` handler: two ints, `randint` between them, then the sleep |
| LegacyVm.ClickSpec | instructions.py:104-113 | definition: the `msclk` handler: a left or right click, any other button raises |
| LegacyVm.HumanMoveSpec | instructions.py:123-127 | definition: the `msmv` handler: int x, int y, two float speed bounds and one multiplier draw |
| LegacyVm.ClickBoxMoveSpec | instructions.py:160-168 | definition: the `msmvcb` handler: the corners, three point draws, the speed bounds and the multiplier draw |
| LegacyVm.LineSpec | vm.py:18-29 | definition: one line dispatched on its first token, parsed and executed |
| LegacyVm.Run | vm.py:16-31 | definition: the loop over the lines with `pc += 1` after each, stopping at the first raise |
| LegacyVm.ExecuteInstructions | vm.py:9-31 | the interpreter's result, stopping pc and effects are the specified run's |
| LegacyVm.RunLoop | vm.py:16-31 | the while loop, with `pc += 1` after each dispatched line, computes the specified run |
| LegacyVm.ExecuteLine | vm.py:18-29 | one line dispatched on its first token agrees with the line specification |
| LegacyVm.LegacyInstruction.constructor | instructions.py:45-56 | a new handler has its opcode, its arity and no arguments |
| LegacyVm.LegacyInstruction.Parse | instructions.py:63-77 | on success the argument field holds the tokens after the first; on failure it raises with the field unchanged |
| LegacyVm.LegacyInstruction.Execute | instructions.py:91-168 | runs the handler for the opcode, agreeing with its specification and its draw count |
| LegacyVm.LegacyInstruction.ExecuteDelay | instructions.py:91-94 | agrees with the `delay` specification |
| LegacyVm.LegacyInstruction.ExecuteMouseMove | instructions.py:123-127 | agrees with the `msmv` specification |
| LegacyVm.LegacyInstruction.BuildClickBox | instructions.py:162-164 | the pairwise loop over arguments 0 to 7 builds the specified corners |
| LegacyVm.LegacyInstruction.ExecuteMouseMoveClickBox | instructions.py:160-168 | agrees with the `msmvcb` specification |
| Bot.NewClickBox | bot.py:63-75 | a click box is built exactly from four corners; otherwise it raises, naming the expected count and the count given |
| Bot.RandPointInUnitSquare | tests/test_bot.py:18-24 | every random point of the unit square has x and y in `[0, 1]` |
| Bot.VertexStrings | bot.py:104 | corner text `i` is `(x,y)` of corner `i` |
| Bot.ClickBoxStringHalves | bot.py:102-105 | the text of the corners is the comma-join of the pieces `(x` and `y)` of each corner |
| Bot.ClickBoxStringRoundTrip | bot.py:102-105 | the text of a click box reads back as exactly its corners |
| Bot.UnitSquareString | tests/test_bot.py:26-29 | the unit square's text is `(0,0),(0,1),(1,1),(1,0)` |
| Bot.EventPartsSplit | bot.py:126-134 | the text of an event with comma-free id and button splits at its commas into the five fields, with the click box spread over its pieces |
| Bot.MouseEventStringRoundTrip | bot.py:126-134 | the text of an event with comma-free id and button reads back as exactly that event |
| Bot.ClickBoxString | bot.py:102-105 | definition: `str(click_box)`, the corners as `(x,y)` joined by commas |
| Bot.MouseEventString | bot.py:126-134 | definition: `str(event)`, the five `name=value` fields joined by commas |
| Bot.Validate | bot.py:213-231 | definition: `validate_fields`: the first missing field, then the button, then each delay |
| Bot.MakeEvent | bot.py:235-241 | definition: validate an entry, then build its click box and event |
| Bot.ParseEventsSpec | bot.py:233-242 | definition: each entry made into an event in file order, stopping at the first error |
| Bot.FirstMissing | bot.py:214-219 | reports a field exactly when one is missing, and then the first missing one in order |
| Bot.ValidateFields | bot.py:213-231 | the loop over the required fields and the checks after it give the specified verdict |
| Bot.ValidateOutcome | bot.py:213-231 | an event passes exactly when it has the five fields, a left or right button and two non-negative delays; the delays' order is not checked; a missing field is reported first, naming the first one |
| Bot.ParseEvents | bot.py:233-242 | the loop validates and builds the events in file order and stops at the first error |
| Bot.MakeEachOutcome | bot.py:233-242 | building each entry in order succeeds exactly when every entry does; the results keep the order; an error is the first failing entry's |
| Bot.ParseEventsOutcome | bot.py:233-242 | reading the file's events succeeds exactly when each entry validates and builds; the events keep file order; an error is the first failing entry's |
| Bot.MouseController.Move | bot.py:150-167 | moves exactly when `0 <= x < width` and `0 <= y < height`; a bad row is reported before a bad column |
| Bot.MouseController.Click | bot.py:169-182 | clicks exactly for left or right, with that button; any other button raises, naming it |
| Bot.ClickBoxMoveOnScreen | bot.py:92-100 | when all four corners are on screen, the move to any random point of the click box is accepted |
| Bot.EventClickAccepted | bot.py:223-225 | the button of every event read from the file is accepted by `click` |

## Left out

- Outside effects (sleeping, clicking, moving the mouse, pressing keys, taking a screenshot) are returned as `Effect` values. They are not performed. The screenshot is an input value: a width, a height and a function from coordinates to pixels. The model does not capture reading pixels out of a mutable image buffer.
- Random draws: `random()`, `uniform` and `randint` take their values from a function `draw` read in call order by an `Rng` object, with `randint(a, b)` read off one draw in `[0, 1)`. `choice` and `randint` in rsbot/mouse.py are parameters (`ControlDraws`).
- Floating point is `real`: there is no rounding, no `inf` or `nan`, and no Python float formatting. `float()` accepts decimal literals with an optional sign and exponent. `int()` accepts an optional sign and ASCII digits, with no surrounding whitespace and no underscores.
- `str.strip()` removes the ASCII whitespace characters only.
- Vm.Execute: the `msmvtext` branch of src/vm.py raises `UndefinedHandler`. src/vm.py imports `MouseMoveText`, which is defined nowhere in the source. In Python that import already fails when the module loads. The model keeps the rest of the dispatch and makes only that branch fail.
- Instructions.Instruction.ExecutePressKey: with a negative duration the source presses the key, then `sleep` raises, so the key is never released. The model reports this as the error `KeyHeld(key)`. It emits no key-down effect, because a step that raises emits no effects in this model.
- `pkey`: `PressKey` is modelled, but src/vm.py never dispatches it, so a `pkey` line is an unknown instruction. That a key name must be `space` or a single character comes from the keyboard library, which is not part of this model.
- vm.py builds each handler with no argument, while the handlers in instructions.py take a context. `LegacyVm` models the dispatch and pc logic and gives the handlers no context. The `TypeError` that the mismatch raises is not modelled.
- A script line such as `store R1 5` fails in the code, because only `R0` exists. `Vm.UndeclaredRegisterRaises` states that behaviour.
- Vm.ExecuteInstructions: a script whose jumps loop forever makes the source run forever. The model runs at most `fuel` steps and then reports `OutOfFuel`.
- Vm.ExecuteInstructions: the screenshot is one value for the whole run. The source takes a fresh one for each `msmvcolor`.
- Reading files: opening and reading script files and `json.load` are not modelled. The loader takes the file's lines, and the JSON reader takes the decoded list of events.
- Bot.ValidateOutcome: JSON values are modelled as text, integers, lists of corners, or anything else. Float and boolean delays are not modelled, so delays are whole numbers and event text prints them with `str()` of an integer.
- Bot.ParseEventsOutcome: the model rejects an id that is not text (`NotText`) and a click box that is not a list of corners (`NotPoints`). The source stores any id. It builds a click box from any iterable of length 4, a four-character string included, and raises `TypeError` for a click box that is not iterable. The model reports `NotText` or `NotPoints` for these.
- Bot.MouseController.Move: the screen size comes in as fields. The source reads them from tkinter.
- Bot.ClickBoxMoveOnScreen: `get_rand_point`'s draws are parameters, using the same sampler as `Geometry.GetRandPoint`.
- `move` in rsbot/mouse.py (a shell script and a subprocess) and its rounding of the points are not part of this model. The same goes for the run loops, timers and CLIs (src/rsbot.py, bot.py's `Script.run` and `__main__`), the Rust variant (src/main.rs, src/lib.rs), the recorders (mkscript.py, scripts/mkscript.py), tools/pixel_observer.py and setup.py.
- Bot.ClickBoxStringRoundTrip: requires at least one corner. The text of an empty corner list is empty, and it reads back as no list at all.
- Bot.MouseEventStringRoundTrip: requires at least one corner and an id and button without commas. Otherwise the text cannot be split back unambiguously. Delays are whole numbers (see Bot.ValidateOutcome).
- tests/test_bot.py calls `vertices()` and a three-argument `move`. Those signatures belong to a version of bot.py that is not part of this model.

## Findings

| source | as written | input that shows it | evidently intended | confidence | as-written member | corrected member |
|---|---|---|---|---|---|---|
| rsbot/mouse.py:82 | `ts = [t / (speed * 100.0) for t in range(speed * 101)]` gives parameters above 1 for `speed >= 2`, so the curve overshoots the destination before the final point snaps back to it | `__mouse_bez((0, 0), (100, 0), 0, 2)`: the last curve parameter is 201/200, so point 201 has x > 100 | `speed * 100 + 1` parameters from 0 to 1 inclusive, so the curve ends exactly at the destination and stays in the control points' box | high (proved; not executed) | Bezier.PathOvershootsDestination | Bezier.IntendedMouseBezShape |
