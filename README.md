# LEDscript2 evaluator, modelled in Dafny

LEDscript2 is a small scripting language for driving strips of LEDs. Its
evaluator, `Parser`, walks the syntax tree of a program. It has these parts:

- **Saturating assignment forms** keep every variable in the colour range 1 to 255.
- **Arithmetic, comparison and logical expressions**.
- **A per-node cache** (the `optimised` field) holds a node's resolved variable
  reference, its function definition or a literal's value once the node has
  run.
- **`if` and `for`**.
- **`delay`**, which evaluates a number of seconds and sleeps that long.
- **Function definition, call and invocation**.
- **An LED store** of ten named arrays of up to 1000 lights, in two parallel
  tables: the RGB records in `lights`, and the colour names in `colour`.
  Slot 0 of `colour` holds the array's name. The `lednums` array holds each
  array's size.
- **Statements over the store**: `leds` declares an array, `update` sets one
  light and classifies its RGB value into a colour name, `write` and `info`
  print the array in rows of three, and `save` writes it to a file.

The model has these modules:

- `JavaLong`: Java `long` arithmetic, with wrap-around, truncating `/` and
  `%`, `Long.toString`, `Long.parseLong`, and the `(int)` cast of a `long`
  through `double`.
- `Saturation`: the clamps of each assignment and operator node.
- `Colour`: the first-match colour classifier.
- `Values`: runtime values and the exceptions the model distinguishes.
- `Syntax`: the statement and expression trees.
- `Scope`: the scope display, as an abstract value.
- `Leds`: the LED store as values, and what each store statement does and
  prints.
- `Interp`: the evaluator as functions over a state. The state holds the
  display, the node caches, the store, the console lines and the files
  written.
- `InterpLaws`: properties of the evaluator.
- `Interpreter`: class `Parser`, whose array fields are the store. Its
  methods do in place what `Leds` states, and each is proved against the
  `Leds` function it implements.

The model follows the code where the code's behaviour is surprising:

- An `update` of an unknown name prints a message and then indexes
  `colour[-1]`. That raises an exception; it does not fall back to array 0.
- `write`, `info`, `update` and `save` compare `colour[p][0]` before they
  know it is set. A search that reaches an unnamed position raises a
  NullPointerException, so an unknown name gets past the search only when
  all ten positions are named.
- A declaration resets slots 1 to `lednums[0]`, whatever array it declared.
  When no position is free, it resets array 0.
- The row count uses Java's truncating arithmetic, so sizes -1 and -2 print
  one row.
- The GRAY guard repeats the second SILVER guard, and the GREEN guard implies
  an earlier MAROON guard; neither name is ever produced.

Source paths below are relative to the repository root.

## Model

| member | source | states |
|---|---|---|
| JavaLong.QuotRem | Source/LEDscript2/interpreter/Parser.java:209-212 | Java's `/` and `%` on a nonzero divisor: `a == b * q + r`, the remainder is smaller in magnitude than the divisor and is 0 or has the dividend's sign, and the quotient's magnitude is the quotient of the magnitudes |
| JavaLong.Div | Source/LEDscript2/interpreter/Parser.java:342-349 | `long` division fails exactly when the divisor is 0 |
| JavaLong.SleepMillis | Source/LEDscript2/interpreter/Parser.java:566 | the delay's milliseconds are the `long` product `seconds * 1000`, equal to the product whenever it fits |
| JavaLong.ToInt | Source/LEDscript2/interpreter/Parser.java:625-636 | the `(int)` cast of a `long` through `double` keeps every `int` value and saturates beyond either bound |
| JavaLong.ParseToString | Source/LEDscript2/interpreter/Parser.java:374-377 | `Long.parseLong` gives back every `long` from its `Long.toString` spelling |
| JavaLong.ToStringInjective | Source/LEDscript2/interpreter/Parser.java:675-676 | the decimal rendering of a `long` is injective: distinct values have distinct spellings |
| Saturation.Clamp | Source/LEDscript2/interpreter/Parser.java:427-435 | the two-sided clamp lands in [1, 255] and leaves values already there unchanged |
| Saturation.CapHigh | Source/LEDscript2/interpreter/Parser.java:313-317 | the upper-only cap stays at or below 255 and keeps smaller values |
| Saturation.RaiseLow | Source/LEDscript2/interpreter/Parser.java:323-327 | the lower-only raise stays at or above 1 and keeps larger values |
| Saturation.CompoundStore | Source/LEDscript2/interpreter/Parser.java:412-560 | `+=`, `-=`, `*=`, `/=` store a value in [1, 255], and fail exactly on `/=` by 0 |
| Saturation.FlipStore | Source/LEDscript2/interpreter/Parser.java:483-497 | flip stores a value in [1, 255] |
| Saturation.AssignStore | Source/LEDscript2/interpreter/Parser.java:259-268 | plain assignment stores a value of at least 1 |
| Saturation.Operator | Source/LEDscript2/interpreter/Parser.java:312-349 | the binary `+`, `*` and `/` give at most 255 and `-` at least 1; only `/` by 0 fails |
| Saturation.Literal | Source/LEDscript2/interpreter/Parser.java:379-386 | a literal evaluates to at most 255 |
| Saturation.ClampIsBothBounds | Source/LEDscript2/interpreter/Parser.java:427-435 | the compound clamp is the lower raise followed by the upper cap, in either order |
| Saturation.ClampLaws | Source/LEDscript2/interpreter/Parser.java:427-435 | below 1 becomes 1, above 255 becomes 255; the clamp is idempotent and monotone |
| Saturation.CompoundClampsResult | Source/LEDscript2/interpreter/Parser.java:424-436 | the compound forms clamp the wrapped result, not the operands; 250 `+=` 20 stores 255 |
| Saturation.CompoundNeutral | Source/LEDscript2/interpreter/Parser.java:412-560 | an in-range value is kept by `+= 0`, `-= 0`, `*= 1` and `/= 1` |
| Saturation.FlipLaws | Source/LEDscript2/interpreter/Parser.java:471-498 | flip(255) = 1, flip(1) = 254; flip is 255 - x on [1, 254] and undoes itself there; at or above 255 it gives 1 |
| Saturation.AssignOnlyRaises | Source/LEDscript2/interpreter/Parser.java:259-268 | the store step of `=` has no upper clamp (a right-hand value of 9000 would be stored as is; a literal never yields one, being capped at 255 first, but a computed value can, as `1 - -255` stores 256) and raises -50 to 1 |
| Saturation.OperatorsAreOneSided | Source/LEDscript2/interpreter/Parser.java:312-349 | `-` can exceed 255, and `+`, `*` and `/` can go below 1 |
| Saturation.LiteralLaws | Source/LEDscript2/interpreter/Parser.java:374-387 | a literal above 255 gives 255, any other is unchanged, and evaluating the cached value again changes nothing |
| Saturation.WrapBeforeClamp | Source/LEDscript2/interpreter/Parser.java:514-527 | `long` wrap-around happens before the clamp: MIN `*=` -1 stores 1 |
| Colour.FirstMatchWins | Source/LEDscript2/interpreter/Parser.java:635-673 | the first guard that holds decides the name |
| Colour.UnknownIffNoGuard | Source/LEDscript2/interpreter/Parser.java:635-673 | UNKNOWN exactly when no guard holds |
| Colour.ResultHasItsGuard | Source/LEDscript2/interpreter/Parser.java:635-673 | every name but UNKNOWN comes from a guard that holds, with no earlier guard holding |
| Colour.WhiteIff | Source/LEDscript2/interpreter/Parser.java:635-636 | WHITE exactly when every channel exceeds 180 |
| Colour.BlackIff | Source/LEDscript2/interpreter/Parser.java:637-638 | BLACK exactly when every channel is below 100 |
| Colour.BoundaryIsSilver | Source/LEDscript2/interpreter/Parser.java:635-654 | the strict comparisons send (180, 180, 180) to SILVER, not WHITE |
| Colour.GrayIsUnreachable | Source/LEDscript2/interpreter/Parser.java:653-656 | the GRAY guard equals the second SILVER guard, so GRAY is never produced |
| Colour.GreenIsUnreachable | Source/LEDscript2/interpreter/Parser.java:657-664 | the GREEN guard implies the first MAROON guard, so GREEN is never produced |
| Colour.OtherNamesReachable | Source/LEDscript2/interpreter/Parser.java:635-673 | each of the other names, UNKNOWN included, is produced by some triple in 0..255 |
| Colour.MaroonHasTwoGuards | Source/LEDscript2/interpreter/Parser.java:657-662 | MAROON comes from both a red-dominant and a green-dominant triple |
| Values.Compare | Source/LEDscript2/interpreter/Parser.java:281-309 | a comparison yields a Boolean or fails with a type mismatch; two integers always compare; `==` and `!=` answer whether the values are equal |
| Values.CompareDuals | Source/LEDscript2/interpreter/Parser.java:281-309 | `<` and `>` (and `<=` and `>=`) are mirror images; `!=` negates `==` and `>=` negates `<`, each pair failing together |
| Scope.FindReference | Source/LEDscript2/interpreter/Parser.java:236-241 | the innermost binding of a name: the current level's, or else that of the nearest outer level binding it; none exactly when no level binds it |
| Scope.DefineVariable | Source/LEDscript2/interpreter/Parser.java:252-255 | a fresh reference is bound in the innermost level, and nothing else changes |
| Scope.FindFunction | Source/LEDscript2/interpreter/Parser.java:112-116 | the innermost definition of a function name: the current level's, or else that of the nearest outer level defining it; none exactly when no level defines it |
| Scope.FindFunctionInCurrentLevel | Source/LEDscript2/interpreter/Parser.java:72-73 | found exactly when the innermost level defines the name |
| Scope.AddFunction | Source/LEDscript2/interpreter/Parser.java:74-78 | registers the definition in the innermost level only |
| Scope.SetValue | Source/LEDscript2/interpreter/Parser.java:264-267 | changes one reference's value and nothing else |
| Scope.DefineThenFind | Source/LEDscript2/interpreter/Parser.java:250-255 | a newly defined variable is what its name then resolves to, and it is a new cell |
| Scope.InnermostWins | Source/LEDscript2/interpreter/Parser.java:236-241 | a binding in the innermost level shadows every outer binding |
| Leds.Initial | Source/LEDscript2/interpreter/Parser.java:11-13 | the store starts as ten arrays of 1000 slots and ten sizes |
| Leds.FindFrom | Source/LEDscript2/interpreter/Parser.java:610-616 | the name search returns the first array with the name, or none when all are named otherwise; an unnamed position reached first is a NullPointerException |
| Leds.FirstFreeFrom | Source/LEDscript2/interpreter/Parser.java:725-733 | the lowest position whose size is 0; none exactly when every size is nonzero |
| Leds.Declare | Source/LEDscript2/interpreter/Parser.java:717-743 | a successful declaration keeps the store's shape |
| Leds.Update | Source/LEDscript2/interpreter/Parser.java:607-681 | a successful update keeps the store's shape |
| Leds.Rows | Source/LEDscript2/interpreter/Parser.java:760-771 | the rendering gives one row per loop turn, and fails exactly when the rows reach past slot 999 |
| Leds.Framed | Source/LEDscript2/interpreter/Parser.java:700-705 | every row is followed by the ruling line |
| Leds.DeclareIntoFreePosition | Source/LEDscript2/interpreter/Parser.java:722-741 | with a free position, the lowest one gets the size and the name, other arrays are unchanged, slots 1..max(1, lednums[0]) are reset, and its slot-0 light and later slots keep their values |
| Leds.DeclareWhenFull | Source/LEDscript2/interpreter/Parser.java:722-741 | with every size nonzero, no size or name changes, array 0's slots 1..max(1, lednums[0]) are reset, and its slot-0 light and later slots keep their values |
| Leds.DeclareFailsIff | Source/LEDscript2/interpreter/Parser.java:736-739 | a declaration fails exactly when the reset bound, the size then held by position 0, reaches 1000 |
| Leds.UpdateChangesOneSlot | Source/LEDscript2/interpreter/Parser.java:635-678 | updating a found array at an index in 0..999 changes only that slot of each table, to the classified name and the RGB record; the sizes are unchanged |
| Leds.UpdateFailsIff | Source/LEDscript2/interpreter/Parser.java:610-636 | an update fails exactly when the search fails, finds nothing, or the index lies outside 0..999; an unknown name gives the colour[-1] error |
| Leds.RgbTextInjective | Source/LEDscript2/interpreter/Parser.java:675-678 | the stored "R-G-B" record determines the three channels it was built from |
| Leds.UpdateSlotZeroRenames | Source/LEDscript2/interpreter/Parser.java:635-636 | index 0 is not protected: updating it overwrites the array's name |
| Leds.NumLinesIsCeiling | Source/LEDscript2/interpreter/Parser.java:209-212 | the row count is ceil(n / 3) for n >= 0; it is 1 for -1 and -2, and 0 below |
| Leds.JoinThree | Source/LEDscript2/interpreter/Parser.java:767-768 | a row is the three cells, each preceded by the delimiter |
| Leds.WriteShowsRows | Source/LEDscript2/interpreter/Parser.java:201-231 | write of a found array prints the header, then RowCount rows each followed by the ruling line; row k shows light slots 3k+1..3k+3 |
| Leds.InfoShowsRows | Source/LEDscript2/interpreter/Parser.java:685-714 | info prints the same frame over the colour names, then an empty line |
| Leds.SaveMatchesWrite | Source/LEDscript2/interpreter/Parser.java:760-771 | save writes the rows write prints, with the single delimiter and no ruling lines |
| Leds.SaveUnknownWritesArrayZero | Source/LEDscript2/interpreter/Parser.java:747-754 | save of a name no array has writes array 0, which needs all ten positions named |
| Leds.DumpUnknownPrintsFrame | Source/LEDscript2/interpreter/Parser.java:202-229 | write and info of an unknown name print only the header lines |
| Leds.DeclareNineThenSave | Source/LEDscript2/interpreter/Parser.java:717-771 | nine lights declared on a fresh store and saved give three rows of "0-0-0" |
| Interp.Eval | Source/LEDscript2/interpreter/Parser.java:312-387 | an expression that invokes no function changes nothing but the caches; any evaluation keeps the store's shape |
| Interp.ExecAssign | Source/LEDscript2/interpreter/Parser.java:248-269 | with operands that invoke no function, the assignment forms leave the LED store, the console and the files alone; the store keeps its shape |
| Interp.ExecFnDecl | Source/LEDscript2/interpreter/Parser.java:66-88 | a definition leaves the LED store, the console and the files alone |
| Interp.ExecCall | Source/LEDscript2/interpreter/Parser.java:109-127 | a call statement keeps the store's shape |
| Interp.ExecLeds | Source/LEDscript2/interpreter/Parser.java:607-778 | the store statements keep the store's shape |
| Interp.Exec | Source/LEDscript2/interpreter/Parser.java:161-191 | every statement keeps the store's shape |
| Interp.ExecSeq | Source/LEDscript2/interpreter/Parser.java:39-42 | a sequence of statements keeps the store's shape |
| Interp.Loop | Source/LEDscript2/interpreter/Parser.java:178-189 | the loop keeps the store's shape |
| Interp.Iteration | Source/LEDscript2/interpreter/Parser.java:185-188 | one turn of the body and the increment keeps the store's shape |
| InterpLaws.EvalExtends | Source/LEDscript2/interpreter/Parser.java:366-387 | evaluation only adds cache entries, and a literal's cached value stays at most 255 |
| InterpLaws.EvalStable | Source/LEDscript2/interpreter/Parser.java:312-349 | re-evaluating an expression that invokes no function, from any cache that keeps what the first evaluation cached, gives the same value and changes nothing |
| InterpLaws.EvalIdempotent | Source/LEDscript2/interpreter/Parser.java:312-319 | evaluating an expression that invokes no function twice gives the same value twice, and the second evaluation changes nothing |
| InterpLaws.CachedDerefReadsCurrentValue | Source/LEDscript2/interpreter/Parser.java:242-244 | a cached dereference reads the reference's current value, whatever its name and the bindings now are |
| InterpLaws.FirstDeref | Source/LEDscript2/interpreter/Parser.java:236-241 | a first dereference fails with an undefined-variable error exactly when no level binds the name; otherwise it reads and caches the innermost binding, the current level's or else that of the nearest outer level binding the name |
| InterpLaws.ResolveFunctionOnce | Source/LEDscript2/interpreter/Parser.java:130-150 | a cached definition is used whatever the scope; uncached, an undefined name and an invocation of a function without a return value fail, each exactly in its case |
| InterpLaws.CallRunsBody | Source/LEDscript2/interpreter/Parser.java:109-127 | a call resolves its function and caches it, evaluates the argument expressions in order to the values the body receives, checks their count, and ends in exactly the state the body leaves; with arguments that invoke nothing, the body starts from the call's state changed only in its caches |
| InterpLaws.CallOfEffectFreeBody | Source/LEDscript2/interpreter/Parser.java:109-127 | when function bodies change only caches and the arguments invoke nothing, a call changes only the caches, which it extends with the function it resolved |
| InterpLaws.FnDeclOnce | Source/LEDscript2/interpreter/Parser.java:66-88 | a definition fails exactly when its node is new and the name exists at the current level; running it again changes nothing; the name then finds the definition at level + 1 |
| InterpLaws.TargetResolved | Source/LEDscript2/interpreter/Parser.java:249-257 | a later run keeps the cached reference; a first run takes the name's reference, or defines a fresh one, and caches it, after which the name resolves to it |
| InterpLaws.AssignmentStores | Source/LEDscript2/interpreter/Parser.java:248-269 | after any run of an assignment form, the node caches a reference holding at least 1 (at most 255 except for `=`): the one it had cached, or on a first run the name's or a fresh one; with operands that invoke no function no other reference or output changes, and after a first run the name resolves to it |
| InterpLaws.AssignStores | Source/LEDscript2/interpreter/Parser.java:259-268 | on every run, plain assignment stores a value of at least 1 through the cached or resolved reference |
| InterpLaws.CompoundStores | Source/LEDscript2/interpreter/Parser.java:412-437 | on every run, a compound assignment stores a value in [1, 255] through the cached or resolved reference |
| InterpLaws.FlipStores | Source/LEDscript2/interpreter/Parser.java:471-498 | on every run, flip stores a value in [1, 255] through the cached or resolved reference |
| InterpLaws.ConstantStores | Source/LEDscript2/interpreter/Parser.java:574-605 | on every run, clear stores 1 and fill stores 255 through the cached or resolved reference |
| InterpLaws.CachedTargetIgnoresScope | Source/LEDscript2/interpreter/Parser.java:582-586 | on a later run, clear and fill store through the cached reference whatever the name now resolves to |
| InterpLaws.IfTest | Source/LEDscript2/interpreter/Parser.java:162-172 | a non-Boolean test fails; true runs the then branch and false the else branch, if there is one, from the state the test left |
| InterpLaws.ForTestNotBoolean | Source/LEDscript2/interpreter/Parser.java:178-184 | a non-Boolean loop test fails, on the first turn or any later one |
| InterpLaws.DelayRuns | Source/LEDscript2/interpreter/Parser.java:563-571 | `delay` evaluates its operand; a non-integer fails; a negative duration is the sleep's IllegalArgumentException; otherwise the state is the one the operand left, changed only in the caches when it invokes nothing |
| InterpLaws.HugeDelayFails | Source/LEDscript2/interpreter/Parser.java:564-566 | a delay of 9223372036854776 seconds fails, because its milliseconds wrap to a negative `long` |
| InterpLaws.LoopStopsOnFalse | Source/LEDscript2/interpreter/Parser.java:178-184 | a false test ends the loop in the state the test left, without running the body or the increment |
| InterpLaws.LoopTurn | Source/LEDscript2/interpreter/Parser.java:178-189 | with a true test, the loop runs the body from the state the test left, then the increment, then itself again |
| InterpLaws.AddAssignSaturates | Source/LEDscript2/interpreter/Parser.java:412-437 | `x = 250; x += 20;` from an empty scope leaves 255 in `x` |
| InterpLaws.ForZeroIterations | Source/LEDscript2/interpreter/Parser.java:175-191 | `for (i = 1; i < 1; i += 1)` runs its initialisation once and never its body |
| Interpreter.Parser.constructor | Source/LEDscript2/interpreter/Parser.java:11-13 | fresh arrays hold the initial store |
| Interpreter.Parser.Search | Source/LEDscript2/interpreter/Parser.java:610-616 | the search loop returns what `Leds.Find` states |
| Interpreter.Parser.Claim | Source/LEDscript2/interpreter/Parser.java:722-733 | the claim loop gives the lowest free position its size and name, or changes nothing and picks 0 |
| Interpreter.Parser.Reset | Source/LEDscript2/interpreter/Parser.java:736-741 | the reset loop sets slots 1..lednums[0] and slot 1 of the row to "0-0-0" and "OFF", and fails exactly when the bound reaches 1000 |
| Interpreter.Parser.Declare | Source/LEDscript2/interpreter/Parser.java:717-743 | the arrays end as `Leds.Declare` states, and fail exactly when it does |
| Interpreter.Parser.Update | Source/LEDscript2/interpreter/Parser.java:607-681 | the arrays end as `Leds.Update` states; on an exception nothing was written |
| Interpreter.Parser.RenderRows | Source/LEDscript2/interpreter/Parser.java:760-771 | the row loop with its counter produces `Leds.Rows` |
| Interpreter.Parser.Dump | Source/LEDscript2/interpreter/Parser.java:201-231 | the search and the row loop print `Leds.Dump` |
| Interpreter.Parser.Write | Source/LEDscript2/interpreter/Parser.java:201-231 | prints `Leds.WriteLines` |
| Interpreter.Parser.Info | Source/LEDscript2/interpreter/Parser.java:685-714 | prints `Leds.InfoLines` |
| Interpreter.Parser.Save | Source/LEDscript2/interpreter/Parser.java:746-778 | writes `Leds.SaveLines`, falling back to array 0 |

## Left out

- `delay` takes no time in the model. The sleep itself is not modelled, and neither is its `InterruptedException` handler (Parser.java:567-569), which prints a stack trace. The operand's evaluation, the failed conversion and the `IllegalArgumentException` of a negative duration are modelled.
- Node identities are assumed distinct. Each syntax node's `optimised` field is one entry of the cache map, keyed by the node's `NodeId`, and no well-formedness predicate requires a program's ids to differ. Two nodes given the same id would share one entry, which two source nodes cannot.
- `ASTRational` literals and the value classes' floating point are not modelled. Integer operands are exact `long`s.
- The `doubleValue()` conversions in update and declare are exact for the comparisons the classifier makes. So channels and sizes are integers, and the `(int)` cast is `JavaLong.ToInt`.
- The runtime value classes are not part of the model. An operation on operands it does not support is `TypeMismatch`. A failed cast to `ValueInteger` is `ClassCast`.
- `Display.execute` (running a function body, and the level pushing and argument binding behind it) is not part of the model. A function's effect is the `Executor` parameter. It takes the state at the invocation and yields a value and the state the body leaves, or an exception. The only constraints on it are that the store keeps its shape and the caches are only extended.
- `checkArgumentCount` is not part of the model. It is taken to reject a count different from the parameter count, as `ArityMismatch`.
- A dereference of a reference that has no value yet is a `NullPointer` error at once. The Java null would surface at the first use.
- Output is lost when an exception interrupts the statement that produced it:
  - the header of a `write` or `info`;
  - the "led array not found" message of an `update`;
  - the rows a `write` or `info` has already printed when its row loop runs past slot 999 (Parser.java:215-228, 700-705);
  - the file a `save` has already created or truncated when its row loop runs past slot 999 (Parser.java:758). The model leaves the files unchanged in that case.
- `FileNotFoundException` handling in `save`, `PrintWriter` and `System.out` are not modelled. Printing appends lines to the state's console sequence, and a file is a sequence of lines keyed by name.
- Visitor nodes whose children are evaluated twice (the binary operators, `=`, `update`, and the name in the search loops) are evaluated once. For an operand that invokes no function, `InterpLaws.EvalIdempotent` shows that the second evaluation gives the same value and changes nothing. An invoked function's body runs again on each repeated evaluation, up to ten times in a search loop, and those repeated effects and values are not modelled.
- The store statements' order of effects against their operands is not modelled for operands that invoke functions: `leds` sets the size before it evaluates the name, `update` searches before it evaluates the index and the channels, and `write` and `info` print the header before they evaluate the name.
- The compound forms' operand `doChild(node, 0)` is modelled as a dereference of the target name, because the grammar is not part of the model.
- The `for` loop's `while (true)` runs on fuel. `Interp.Loop` returns `OutOfFuel` when the fuel is spent, which the source cannot do. That more fuel never changes a result is not proved.
- Leds.Declare: its own contract states only that the store keeps its shape; what a declaration does is stated by `Leds.DeclareIntoFreePosition`, `Leds.DeclareWhenFull` and `Leds.DeclareFailsIff`.
- Leds.Update: its own contract states only that the store keeps its shape; what an update does is stated by `Leds.UpdateChangesOneSlot` and `Leds.UpdateFailsIff`.
- Interp.ExecLeds: its own contract states only that the store keeps its shape; the effect of each store statement is the `Leds` function it applies, with the `Leds` lemmas about it.
- Interp.Exec: its own contract states only that the store keeps its shape; the statements' effects are stated by the `InterpLaws` lemmas.
- Interp.ExecSeq: its own contract states only that the store keeps its shape.
- Interp.Loop: its own contract states only that the store keeps its shape; its turns are stated by `InterpLaws.LoopStopsOnFalse` and `InterpLaws.LoopTurn`.
- Interp.Iteration: its own contract states only that the store keeps its shape.
- Interp.ExecCall: its own contract states only that the store keeps its shape; what a call does is stated by `InterpLaws.CallRunsBody`.
- Interp.ExecAssign: the frame is stated only for operands that invoke no function; an invoked body may change anything in the state.
- InterpLaws.AssignmentStores: for operands that invoke a function, it does not state that nothing else changed or that the name then resolves to the reference, because the body may assign or rebind anything.
- InterpLaws.EvalStable: stated only for expressions that invoke no function; re-evaluating an invocation runs the body again.
- Interpreter.Parser.Declare: on an exception the arrays keep the partial reset, which the contract does not state; the exception ends the program.
- `Source/LEDscript2/parser/SiliTreeConstants.java` holds generated node constants with no behaviour; it is not modelled.
- The visitor plumbing (`doChild`, `doChildren`, the default `visit(SimpleNode)`) is not modelled. Statement dispatch is the match in `Interp.Exec`.
