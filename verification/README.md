# A verified model of ztsdb's engines

ztsdb is a database of multidimensional arrays and time series with an R-like language. This project models
its three engines in Dafny and proves what each of them is for.

**The language.** A program is converted in place to A-normal form: operands that are not atomic are hoisted
into generated variables by list surgery (`Anf`). The result runs on a small-step machine of continuations with
shadow frames (`Machine`). A request to a peer leaves a future behind; the run stops when it reads one and goes
on when the response has filled its place (`Futures`). `Eval` is a plain evaluator of the language with fuel for
loops, the reference for all of them:

- conversion preserves meaning (`AnfMeaning`), under a condition on operands that is shown to be sharp;
- a converted program is in the class the machine can run exactly when the source is free of a few forms
  (`AnfRunnable`), and on that class machine and evaluator give the same results, both ways (`MachineRefines`);
- the order in which responses arrive changes nothing (`Futures`), except when a request is the condition of a loop
  (`Conditions`); the machine waits only to read an unanswered future and never to send a request (`Waiting`), and
  all code that it sends is converted with the program, so that the peer's machine can run it (`SentCode`);
- what the machine does with any program at all, loops as arguments included, is given exactly: a loop assigns to
  the target that is pending (`PendingTargets`, `MachineRefines`, `LoopArguments`);
- a `for` loop runs its body once per element (`ForLoop`, and on the machine `ForConverted`), and argument matching
  is exact (`ArgMatch`).

**Arrays.** An array is a vector of columns. `Bind` grows an array in place by swapping columns backwards into a
gap; `Cursor` and `Odometer` are the index cursors that `Subset` and `Subassign` walk; `IntervalIndex` selects
times by intervals; `RollExtremes` and `RollMoments` are the rolling functions with their deque and their ring
buffers, `Median` the median with its two heaps, `Cow` the copy-on-write handles through which the interpreter
holds arrays. Each is proved equal to a direct definition: an element law over multi-indices (`MixedRadix`), the
naive sliding window, the unbiased estimator over the reals, the middle of the sorted elements, unshared values.

**The wire.** Expressions are written with a length announced beforehand (`Wire`, `Code`, `CodeStream`); values
are rebuilt by a resumable stack machine from buffers that arrive one by one (`Values`, `ValueStream`), and a
request is both, in segments cut anywhere the source allows (`Requests`).

Code that changes state is modelled by classes and methods with loops (`Anf.ExprList`, `Machine.Interpreter`,
`Bind.Array`, `CodeStream.Encoder`, `Requests.Reader`, `Requests.ReqState`, `Cow.Memory`, arrays for the rolling
functions and the odometer); their contracts tie the new state to functions of the old one, and lemmas prove
about those functions what the source promises.

Results where the code does not do what one would expect, each with its witness and, where there is one, the
exact condition under which it does:

- an operand assigning a variable that an earlier sibling reads is seen by that sibling (`AnfMeaning.LateRead`,
  exact condition `AnfMeaning.ConditionIsExact`);
- a `<<-` operand is hoisted without being normalised, and stops the machine (`AnfRunnable.StuckWhereSourceRuns`,
  exact condition `AnfRunnable.SpecialOperandIsStuck`);
- a loop as an argument assigns the values of its body to the caller's variable of the argument's name
  (`LoopArguments.CallerVariableAppears`; what the machine does, exactly, is
  `MachineRefines.MachineRunsTold`, exact condition `LoopArguments.LoopArgumentIsExact`);
- a request as a loop's condition fails only when it is asynchronous (`Conditions.RequestAsCondition`, exact
  condition `Conditions.ConditionIsExact`);
- the rolling variance and covariance are right exactly for windows that are powers of two, or columns that
  never fill the window (`RollMoments.RightExactlyWhen`);
- an interval index in any order can leave out times that it covers (`IntervalIndex.LaterFirst`, exact condition
  `IntervalIndex.AnyOrderMisses`), enumerates times twice when intervals overlap (`IntervalIndex.SharedRepeats`,
  exact conditions `IntervalIndex.EnumeratesCovered` and, for any order, `IntervalIndex.AnyOrderExact`), and can
  disagree with its own count (`IntervalIndex.CountNeedsOrder`, exact condition `IntervalIndex.CountIsEnumerated`),
  which in turn can miss covered times (exact condition `IntervalIndex.CountsCovered`);
- what is assigned through listed positions of which one is repeated cannot all be read back
  (`Subassign.RepetitionCollides`, exact condition `Subassign.ReadBackIsExact`);
- the announced length of an expression is exact unless a list takes 2^32 bytes (`Code.LengthExact`), and an
  empty expression can be written and not read (`Code.RoundTrip`);
- a string cut between its header and its bytes is lost unless it is empty (`ValueStream.HeaderCutOff`);
- a copy-on-write handle that shares with nobody can refuse a write when locked (`Cow.LockedAloneRefuses`, exact
  condition `Cow.LockedRefusesWhen`), and constant handles can leave two ordinary ones seeing each other's writes
  (`Cow.ConstAssignmentShares`, exact condition `Cow.ConstSharesWhen`);
- a refused bind along the first dimension leaves the receiver transposed (`Bind.Array.Abind`).

`dafny verify dfyconfig.toml` verifies the whole project.

## Model

| member | source | states |
|---|---|---|
| Anf.Norm | src/anf.cpp:150-286 | never goes back on generated names; the specification of the in-place rewriting below (its meaning is stated by NormSound); for `x <<- f(...)` it stops at the converted call, where the source falls through into the case of unary operators |
| Anf.Gensym.Fresh | src/misc.hpp:214-222 | hands out one generated name after the other |
| Anf.ExprList.AddAfter | src/ast.hpp:176-192 | inserts right after the cursor and moves the cursor onto what was inserted; all else keeps its order |
| Anf.NormInPlace | src/anf.cpp:150-286 | rewriting a statement in place leaves its normal form behind and inserts exactly the hoisted assignments, in order, before it, and touches nothing else in the list |
| Anf.NormNameInPlace | src/anf.cpp:89-121 | the same for an operand: an atom is left behind, what was hoisted stands in order in the list |
| Anf.NormTermInPlace | src/anf.cpp:69-86 | an expression evaluated as a list of its own becomes the list its statements normalise to, one-element lists stripped |
| Anf.NormNodes | src/anf.cpp:58-86 | the loop over the nodes: the following cursor puts what each statement hoists right before that statement |
| Anf.InsertedTwice | src/ast.hpp:176-192 | two runs of insertions through one moving cursor come out as one run, in order |
| Anf.ConvertToAnf | src/anf.cpp:58-66 | the program's own list becomes the normal form of the program |
| AnfMeaning.ConversionPreservesMeaning | src/anf.cpp:58-286 | for programs in which no operand assigns what an earlier sibling still reads in place: the converted program gives the same value and the same variables of the user, diverges when the source does, and (call heads being names) succeeds exactly when the source does; for every operator table, store and fuel |
| AnfMeaning.NormSound | src/anf.cpp:150-286 | a statement: its hoisted part followed by its normal form does what the statement does |
| AnfMeaning.NameSound | src/anf.cpp:89-121 | an operand: after its hoisted part has run, its residue gives its value and changes nothing |
| AnfMeaning.BinopSound | src/anf.cpp:202-208 | both operands hoisted, left part first; the left residue survives what the right operand hoists |
| AnfMeaning.ResidueSurvives | src/anf.cpp:202-208 | what the right operand hoists assigns nothing that the residue of the left one reads, under the independence condition |
| AnfMeaning.CallSound | src/anf.cpp:157-176 | a call: head hoisted, arguments converted each as a list, same value |
| AnfMeaning.TermSound | src/anf.cpp:69-86 | an expression and the list it is turned into have the same meaning |
| AnfMeaning.ListSound | src/anf.cpp:58-86 | the same for expression lists, from stores that differ only on generated names |
| AnfMeaning.PureStable | src/anf.cpp:30-50 | a residue gives the same value in any store that agrees on what it reads |
| AnfMeaning.NormWrites | src/anf.cpp:150-286 | normalisation writes no name that the source does not write, generated names aside |
| AnfMeaning.ConditionIsExact | src/anf.cpp:89-121 | `l op (x <- v)` keeps its meaning under all operators and stores if and only if `l` does not read `x` |
| AnfMeaning.LateRead | src/anf.cpp:89-121 | the failing family: a variable of the left operand assigned in the right one is read late; a store and operators that show it |
| Eval.EvAgree | src/env.hpp:133-169 | evaluation depends only on the names that occur: two stores that agree on them give the same value and go on agreeing |
| Eval.EvKept | src/env.hpp:179-219 | evaluation changes only names the expression may write |
| AnfRunnable.NormRunnable | src/anf.cpp:150-286 | the normal form of a statement and all it hoists can be run by the machine if and only if the statement is convertible: no jump or `...` as an operand, no `<<-` operand that would itself need normalising, no loop as the last thing of an argument |
| AnfRunnable.NameRunnable | src/anf.cpp:89-121 | what an operand hoists can be run and what it leaves behind is an atom of the interpreter, if and only if it is convertible as an operand |
| AnfRunnable.TermRunnable | src/anf.cpp:69-86 | the same for an expression turned into a list |
| AnfRunnable.ListRunnable | src/anf.cpp:58-66 | a converted program is in the class the machine runs if and only if the source is convertible |
| AnfRunnable.BracesGo | src/anf.cpp:69-98 | an operand in braces is converted as the operand itself, and a statement that hoists nothing is left without braces |
| AnfRunnable.SpecialOperandIsStuck | src/anf.cpp:105-108 | `v op (x <<- a)` with an operator `a`: some operators and some store let the machine halt on what it is converted to if and only if `a` is an atom |
| AnfRunnable.SpecialOperandStops | src/anf.cpp:105-108 | the operand is inserted without being normalised: when it is no atom the machine stops at the second step, whatever the operators and the store |
| AnfRunnable.StuckWhereSourceRuns | src/anf.cpp:105-108 | `1 + (x <<- f(2) + 1)` has a value in the evaluator, and the machine fails on what it is converted to |
| AnfRunnable.ProgramRunsAsWritten | src/anf.cpp:58-286 | end to end: the machine halts on the converted program with a value and variables if and only if the evaluator gives them on the source |
| SentCode.NormSends | src/anf.cpp:258-263 | all code sent by what a statement is converted to, and by what it hoists, can be run by a machine, nested requests included, if and only if the code of the source's requests is convertible |
| SentCode.ListSends | src/anf.cpp:58-66 | the same for a program |
| SentCode.SentRunsAsWritten | src/anf.cpp:258-263 | what a converted request sends, run by the peer's machine, halts with a value and variables if and only if the evaluator gives them there for the request's code as written |
| SentCode.StepSends | src/interp.cpp:721-818 | every step, waiting or not, keeps all code still to be sent runnable |
| SentCode.EveryRequestIsRunnable | src/interp.cpp:751-772 | whatever request a converted program comes to after any number of steps: its peer's machine can run what it is sent |
| Machine.Interpreter.constructor | src/interp.cpp:721-740 | a program starts in a shadow frame on top of the working frame, with the end as continuation |
| Machine.Interpreter.Add | src/env.hpp:179-219 | assignment: generated names into the innermost shadow frame, others into the working frame; nothing else changes |
| Machine.Interpreter.ApplyKont | src/interp.cpp:572-718 | delivering a value: exactly the target's frame changes, a loop goes on to its body, restarts or ends with its frame cleared, as Deliver says |
| Machine.Interpreter.InsertWhile | src/interp.cpp:519-561 | the three continuations of a loop and its fresh frame |
| Machine.Interpreter.SendRequest | src/interp.cpp:751-772 | the next request number, with its future or its answer delivered |
| Machine.Interpreter.ApplyBuiltin | src/interp.cpp:373-448 | pushes the frame of the call and chains its arguments in order |
| Machine.Interpreter.StepOnce | src/interp.cpp:721-818 | one step; a step that meets an unanswered future changes nothing |
| Machine.Interpreter.StepControl | src/interp.cpp:721-818 | a compound expression is taken apart into frames and continuations as the step function says, and waiting leaves the state alone |
| Machine.Interpreter.Interpret | src/interp_ctx.cpp:549-573 | the loop of the context is that many steps in a row, up to the end, a failure or a wait |
| Machine.IterateAdd | src/interp_ctx.cpp:549-573 | n+m steps are m steps after n steps, unless the first n already end the run |
| PendingTargets.ToldAgree | src/interp.cpp:519-561 | when every loop with a pending target assigns to a generated name that it does not mention, or ends in assigning to the target itself, the program that the machine runs and the program as written evaluate alike, from stores that agree |
| MachineRefines.SimExpr | src/interp.cpp:721-818 | any expression, from any configuration that shows the store: the machine delivers to the continuation the value of the expression in which loops assign to the pending target, with that store's frames; it gets stuck when there is none, or runs past the fuel |
| MachineRefines.SimList | src/interp.cpp:451-516 | the same for a chain of expressions: the last one alone has the target of the pending assignment |
| MachineRefines.SimIf | src/interp.cpp:721-818 | a condition is an atom, and the branch it chooses is simulated in its place |
| MachineRefines.SimLoop | src/interp.cpp:519-561 | the same for a loop, across restarts: the value of every iteration goes to the pending target |
| MachineRefines.SimIteration | src/interp.cpp:690-707 | one iteration: the body, the assignment of its value to the pending target, and the restart |
| MachineRefines.SimWhile | src/interp.cpp:519-561 | the same for the loop as a whole: its frame is fresh on entry and gone at the end |
| MachineRefines.SimArgs | src/interp.cpp:373-448 | arguments arrive in order in the frame of the call, evaluated in the caller's, each with the name of its formal as pending target |
| MachineRefines.SimCall | src/interp.cpp:373-448 | the same for calls of builtins |
| MachineRefines.SimProgram | src/interp.cpp:721-818 | the whole program, from the evaluator's side |
| MachineRefines.MachineRunsTold | src/interp.cpp:451-818 | the exact law, for every program, runnable or not: the machine halts with a value and variables if and only if the evaluator gives them for the program in which every loop assigns the value of its body to the pending target, and operands that are no atoms stop it |
| MachineRefines.SettledRefines | src/interp.cpp:451-818 | on programs in which those assignments are harmless the machine halts with a value and variables if and only if the evaluator gives them |
| MachineRefines.HaltIsIdle | src/interp.cpp:721-740 | once at the end the machine neither moves nor fails |
| MachineRefines.MachineRefinesEvaluator | src/interp.cpp:451-818 | in particular on the programs that the conversion makes |
| MachineRefines.WhereAssignmentsGo | src/env.hpp:179-219 | on the machine `<-` binds in the working frame alone, and `<<-` rebinds there only what is bound there and otherwise binds globally and leaves the working frame alone |
| MachineRefines.ArgumentRebindsCallee | src/interp.cpp:145-160 | a builtin's name is looked up again once its arguments are there: `f(x = f <- g)` calls `g` |
| LoopArguments.LoopArgumentsKept | src/interp.cpp:519-561 | when the loops at the end of each argument, however deep, have bodies that end in assigning to its name, the machine agrees with the evaluator under all operators and from all stores |
| LoopArguments.CallerVariableAppears | src/interp.cpp:519-561 | `f(x = while (y) { y <- w; ... })` with a body that never assigns to `x`: in some run the machine leaves the caller with a variable `x` that the evaluator does not have |
| LoopArguments.LoopArgumentIsExact | src/interp.cpp:519-561 | for that family, with a body that either ends in assigning to `x` or never assigns to it: agreement under all operators and from all stores if and only if it ends in assigning to `x` |
| Futures.StepRelated | src/interp.cpp:81-88 | a step of the run that waits for answers either waits or is the step of the run that has them at once |
| Futures.AtomRelated | src/interp.cpp:67-161 | an atom has the same value in both runs, or cannot be evaluated yet |
| Futures.DeliverSlots | src/interp.cpp:564-569 | a delivered future stands in one place and remembers which |
| Futures.StepSlots | src/interp.cpp:564-818 | every step keeps each future in at most the one place it remembers |
| Futures.RespondExactly | src/interp_ctx.cpp:130-184 | a response replaces its future and nothing else: a variable assigned again in the meantime keeps its new value |
| Futures.RespondKeeps | src/valuevar.cpp:82-95 | a response keeps the place of every other future right and leaves its own held nowhere |
| Futures.ReadResponse | src/interp_ctx.cpp:130-184 | following the remembered place does exactly that to the state |
| Futures.FuturesAreTransparent | src/interp_ctx.cpp:130-184 | for every order of responses and retries: the run has made some steps of the run that has its answers at once, every variable has its value there or is still the future of that value, and it fails only where that run fails |
| Futures.BlockingRunEvaluates | src/interp_ctx.cpp:549-573 | a run that ended with all its responses in gives what the plain evaluator gives |
| Futures.OrderIsIrrelevant | src/interp_ctx.cpp:130-184 | two orders of responses end in the same variables and frames |
| Futures.AnswersUnblock | src/interp_ctx.cpp:517-573 | with all outstanding responses in, a run never waits |
| Waiting.WaitsForFuture | src/interp.cpp:721-818 | a step that waits is about to read an unanswered future: a name in its atom, condition, connection or head holds one, or an argument of the builtin is one |
| Waiting.AvailablePeerNeverWaits | src/interp.cpp:751-772 | a request whose connection is available never waits, whatever other futures are outstanding |
| Waiting.AtomWaitsExactly | src/interp.cpp:721-740 | with operators that are always defined and bound variables an atom waits if and only if a name in it holds a future |
| Waiting.Pipelined | src/interp.cpp:751-772 | any number of requests in a row go out in as many steps, without a single answer having come |
| Waiting.AllRequestsGoOut | src/interp.cpp:751-772 | the same for a program from its start |
| Conditions.RequestAsCondition | src/interp.cpp:690-707 | a loop whose condition, evaluated in the store at hand, comes to a request through lists, assignments and decisions: the run that waits is handed the future as a truth value and fails, where the run that has its answers goes on |
| Conditions.ConditionIsExact | src/interp.cpp:690-707 | `while (c) b`, where a request at the end of `c`, if there is one, can be reached: transparent for all operators, stores and orders of events if and only if no request is the value of the condition |
| Conditions.RequestConditionIsExact | src/interp.cpp:690-707 | `while (con ? q) b`, for every connection: transparent if and only if the connection can never be a peer |
| Conditions.ReachableAsks | src/interp.cpp:690-707 | a request that can be reached is reached, with operators and a store that are given |
| ForLoop.BuildFor | src/ast.cpp:67-102 | the constructor's list surgery builds the two hidden assignments followed by the while loop |
| ForLoop.LoopIsForEach | src/interp.cpp:519-561 | from any element on, the while loop does what running the body for each remaining element does |
| ForLoop.ForRunsOncePerElement | src/ast.cpp:67-102 | the sequence is evaluated once, the body runs once per element, in order, the variable bound to it; the counter the program started stands where it was set, the loop counts in its own frame |
| ForLoop.ForEndsWithItsBody | src/ast.cpp:67-102 | the loop ends when its body does |
| ForConverted.ForRunsOnTheMachine | src/ast.cpp:67-102 | the statement, converted and run on the machine: it halts with a value and variables if and only if the body can be run for each element of the sequence in turn and leaves those variables |
| ForConverted.ForFailsOnTheMachine | src/ast.cpp:67-102 | when the body fails for an element the machine does not halt |
| ArgMatch.ProcessFormlist | src/ast.hpp:461-490 | succeeds exactly when no name and no ellipsis is repeated, and then indexes every formal |
| ArgMatch.GetUnused | src/interp.cpp:164-183 | finds the next unused position, or none |
| ArgMatch.ExtractNamed | src/interp.cpp:219-246 | succeeds exactly when no formal is named twice; then each named formal holds its argument, and the used flags say which |
| ArgMatch.PlaceActual | src/interp.cpp:254-282 | one actual: to the open formal at hand, into the ellipsis, or refused |
| ArgMatch.PlaceAll | src/interp.cpp:248-282 | goes through the rest until it or the open formals are exhausted |
| ArgMatch.MatchPositions | src/interp.cpp:248-287 | succeeds exactly when no actual is left over |
| ArgMatch.FillDefaults | src/interp.cpp:288-312 | succeeds exactly when no open formal without a default is missing; then each holds its default |
| ArgMatch.AllFilled | src/interp.cpp:288-316 | every place is filled once all open formals are |
| ArgMatch.ProcessArgs | src/interp.cpp:200-316 | fails with each error under exactly its condition, in that order; otherwise every formal is bound once in formal order by tag, else by position, else by default, and the ellipsis follows in call order |
| ArgMatch.EachFormalBound | src/interp.cpp:200-316 | every formal but the ellipsis is bound, in formal order and under its own name, to the expression and reference mark of an actual tagged with it, else of a plain one, else to its default marked as such |
| ArgMatch.EllipsisBound | src/interp.cpp:200-316 | what the ellipsis takes comes behind, marked, with its own expression, reference mark and tag |
| ArgMatch.EachActualOnce | src/interp.cpp:200-316 | the actuals of a matching call are exactly those given by tag, by position and in the ellipsis, as multisets; no formal gets two by tag |
| MixedRadix.FlatBound | src/array.hpp:713-730 | a multi-index in range has a position in range |
| MixedRadix.FlatUnflat | src/array.hpp:713-730 | the multi-index found at a position has that position |
| MixedRadix.UnflatFlat | src/array.hpp:713-730 | and the position of a multi-index leads back to it |
| MixedRadix.FlatSplit | src/array.hpp:957-1072 | digits below and above a dimension contribute separately |
| Bind.Array.Get | src/array.hpp:713-730 | element read: the element at the multi-index, refused exactly when out of range |
| Bind.CheckDims | src/array.hpp:883-906 | true exactly when one side is null or all extents but one agree, missing dimensions counting as one; written out on the extents |
| Bind.Array.PrepareDims | src/array.hpp:984-1006 | the receiver's extents once it has the dimension bound along |
| Bind.Array.AppendRows | src/array.hpp:1008-1017 | every column lengthened by the operand's |
| Bind.Array.CopySlice | src/array.hpp:1020-1050 | the operand's slice fills the end of the gap of empty columns, and only that |
| Bind.Array.MoveSlice | src/array.hpp:1020-1050 | the swaps move the slice before the gap past it, in order, and leave the gap empty |
| Bind.Array.SpreadBlock | src/array.hpp:1020-1050 | one block of the backward loop: the operand's slice behind, the receiver's slice before it, the rest of the gap still before both |
| Bind.Array.SpreadColumns | src/array.hpp:1020-1050 | the backward loop as a whole interleaves the operands' columns |
| Bind.InterleaveAt | src/array.hpp:1020-1050 | which column of which operand stands at each place |
| Bind.InterleaveConserves | src/array.hpp:1020-1050 | no column lost or duplicated |
| Bind.BoundValid | src/array.hpp:957-1072 | the bound array is well formed |
| Bind.Array.BindValue | src/array.hpp:957-1072 | either the array is the bound one, or extents disagree and nothing changed |
| Bind.Array.Abind | src/array.hpp:957-1072 | refused for itself; a refused bind along the first dimension can leave the receiver transposed; otherwise the bound array |
| Bind.AsRow | src/array.hpp:1334-1338 | a vector seen as a row is a well-formed array |
| Bind.AsRowAt | src/array.hpp:1334-1338 | the row is one by n, with the vector's elements in order |
| Bind.BoundShape | src/array.hpp:957-1072 | for every dimension: the extent bound along is the receiver's plus the operand's, all others are as they were |
| Bind.ElementLaw | src/array.hpp:957-1072 | for every dimension and multi-index: below the old extent the receiver's element at the same place, from there on the operand's with the receiver's extent taken off |
| Bind.ReceiverKept | src/array.hpp:957-1072 | every multi-index of the receiver reads in the bound array what it read before |
| Bind.OperandPlaced | src/array.hpp:957-1072 | every multi-index of the operand reads in the bound array, moved by the receiver's extent, what it reads in the operand |
| Cursor.NegativeIsComplement | src/index.hpp:240-289 | a negative index enumerates the ascending complement, all of it and nothing else |
| Cursor.RemainingIs | src/index.hpp:240-289 | the same from any point of the walk |
| Cursor.NegativeStandsAt | src/index.hpp:240-268 | where a negative cursor stands follows from how many exclusions it has passed |
| Cursor.TrueSize | src/index.hpp:54-72 | the size is the number of positions enumerated |
| Cursor.GetFirst | src/index.hpp:240-253 | stands at the first position; fails exactly when there is none |
| Cursor.GetNext | src/index.hpp:255-268 | moves to the next position; at the end goes back to the first and says so |
| Cursor.IsOrdered | src/index.hpp:110-114 | true exactly for strictly increasing positions, which decides whether an index is reordered |
| Cursor.MakeInt | src/index.hpp:109-122 | the index with its positions, reordered by the permutation of a sort when not in order |
| Cursor.SortUnique | src/index.hpp:228-236 | sorted, each position once |
| Cursor.MakeNeg | src/index.hpp:228-236 | refused exactly when a position lies outside; otherwise the exclusion of those positions |
| Odometer.ColumnOf | src/index.hpp:967-1020 | the column of the cursors' values, or none exactly when a value is outside |
| Odometer.GetFirstCol | src/index.hpp:967-993 | stands at the first column of the selection, the end exactly when it is empty |
| Odometer.GetNextCol | src/index.hpp:995-1020 | from the p-th column to the next in column-major order, and past the last |
| Odometer.Advance | src/index.hpp:995-1020 | the first cursor not at its end moves on, those before it go back to their first position |
| Odometer.AdvancedIsNext | src/index.hpp:995-1020 | that advance is counting by one in the mixed radix of the index sizes |
| Odometer.LastColumn | src/index.hpp:995-1020 | all cursors at their ends means the last column |
| Odometer.Carry | src/index.hpp:995-1020 | the carry of the mixed-radix count |
| Subset.ElementLaw | src/array.hpp:532-618 | the selection holds at k what the array holds where the indices send k |
| Subset.SubsetListed | src/index.hpp:172-179 | a column through listed positions, refused exactly when one is outside |
| Subset.SubsetExcluding | src/index.hpp:286-297 | a column without the excluded positions |
| Subset.SubsetColumn | src/index.hpp:81-83 | a column through any index, refused exactly when a position is outside |
| Subset.SubsetColumns | src/array.hpp:598-618 | the walk cuts every selected column; refused exactly when a position is outside |
| Subset.RefillWalk | src/array.hpp:570-593 | with the first dimension dropped, one element per selected column refills the new columns in order |
| Subset.SubsetRow | src/array.hpp:570-593 | the same, with the position in the first dimension looked up and refused when outside |
| Subset.Subset | src/array.hpp:532-618 | fails under exactly these conditions; otherwise shape and flat contents of the selection, dimensions of extent one dropped |
| Subset.DropKeepsContents | src/array.hpp:532-618 | with or without dropping, position c holds the element the indices send position c to |
| Subset.DroppedProd | src/array.hpp:540-553 | dropping keeps the number of elements |
| Subset.DroppedShape | src/array.hpp:540-553 | no extent of one is left from `dropfirst` on, save in the shape of a single element; the others are left, as often as they were there and in their order |
| Subset.ContentsAt | src/array.hpp:713-730 | flat contents are the elements in column-major order |
| Subset.OutsideIsReached | src/index.hpp:967-1020 | a position outside an outer dimension of a non-empty selection is always met |
| Subassign.AssignListed | src/index.hpp:187-199 | written in sorted order, each position still gets the value meant for it |
| Subassign.AssignByCursor | src/index.hpp:1026-1049 | written as the cursor goes, one value per position, the last one after the loop |
| Subassign.AssignColumn | src/index.hpp:313-318 | one column through any index: each position holds a value meant for it, all others are as before |
| Subassign.AssignWalk | src/array.hpp:652-682 | the walk accounts for every cell: meant for it, or as before |
| Subassign.Subassign | src/array.hpp:652-682 | refused under exactly these conditions with nothing changed; a position outside an outer dimension stops it with the columns before assigned |
| Subassign.WrittenStep | src/array.hpp:652-682 | one more column keeps every cell accounted for |
| Subassign.WalkInjective | src/index.hpp:967-1020 | without repetition, no column is visited twice |
| Subassign.ReadBack | src/array.hpp:652-682 | assign then subset by the same duplicate-free indices gives what was assigned, in column-major order |
| Subassign.Untouched | src/array.hpp:652-682 | an element some index does not select keeps its value, however far the walk got |
| Subassign.RepetitionCollides | src/array.hpp:652-682 | a repeated position reads one value at both its places, whatever the array holds |
| Subassign.ReadBackIsExact | src/array.hpp:652-682 | for elements of which there are two, whatever is assigned is read back if and only if no list of positions repeats one or nothing is selected |
| IntervalIndex.GetFirst | src/index.hpp:592-606 | the first time of the first interval that holds any |
| IntervalIndex.GetNext | src/index.hpp:608-625 | the next time of the interval, or the first one of a later interval |
| IntervalIndex.FirstStarted | src/index.hpp:592-600 | the binary search splits the times at the start of the interval, open or closed |
| IntervalIndex.Subset | src/index.hpp:650-664 | the elements at the positions enumerated, in order; refused exactly when sizes differ |
| IntervalIndex.EnumeratesCovered | src/index.hpp:586-625 | intervals in start order: the cursor enumerates exactly the covered positions, in order and once each, if and only if no two intervals it visits share a time |
| IntervalIndex.FromIs | src/index.hpp:592-625 | intervals in any order: the positions enumerated are those of the intervals up to the first that holds the last time |
| IntervalIndex.EnumeratedIs | src/index.hpp:592-625 | written out on the ends: a position is enumerated if and only if its time lies between the ends of an interval, open ends left out, before which no interval holds the last time |
| IntervalIndex.CoveredMeans | src/index.hpp:586-625 | written out on the ends: a position is covered if and only if its time lies between the ends of some interval |
| IntervalIndex.AnyOrderMisses | src/index.hpp:586-625 | intervals in any order: everything covered is enumerated if and only if every time in an interval behind one with the last time also lies in that one or in one before it |
| IntervalIndex.AscendingWhen | src/index.hpp:592-625 | intervals in any order: the positions come in order and once each if and only if the times of each interval visited come before those of the later ones |
| IntervalIndex.AnyOrderExact | src/index.hpp:586-625 | intervals in any order: exactly the covered positions, in order and once each, if and only if both conditions hold |
| IntervalIndex.SharedRepeats | src/index.hpp:592-625 | a time that two intervals visited share is enumerated twice |
| IntervalIndex.LaterFirst | src/index.hpp:590 | two closed intervals, the later one first: the other is never looked at, against the comment that order does not matter |
| IntervalIndex.TrueSize | src/index.hpp:627-642 | intervals in any order: the number enumerated, and the number of covered positions, each under its exact condition; the latter holds for intervals in start order |
| IntervalIndex.CountsCovered | src/index.hpp:627-642 | intervals in any order, from any point of the pass over both: it counts covered times alone, and all of them if and only if none comes before the first interval that is not over by then |
| IntervalIndex.CountIsEnumerated | src/index.hpp:592-642 | intervals in any order: never more are counted than enumerated, and as many if and only if the times of each interval, as far as it is reached, are past all the intervals before it |
| IntervalIndex.CountInOrder | src/index.hpp:592-642 | intervals in start order: that is, if and only if no two intervals visited share a time |
| IntervalIndex.CountNeedsOrder | src/index.hpp:627-642 | an interval without times in front of any other: count and enumeration agree if and only if no time of the other one is before the first |
| RollExtremes.PopBack | src/array_ops.hpp:75-150 | drops exactly what the new input wins against; never reads below the front |
| RollExtremes.Push | src/array_ops.hpp:75-150 | the new input joins the deque, which stays ordered |
| RollExtremes.PopFront | src/array_ops.hpp:75-150 | drops what left the window; the deque is never emptied |
| RollExtremes.FrontIsExtreme | src/array_ops.hpp:75-150 | the front of the deque is the extreme of the window |
| RollExtremes.ExtremeIs | src/array_ops.hpp:75-150 | the naive scan is an element of the window that wins against all of it |
| RollExtremes.RollRow | src/array_ops.hpp:75-150 | one row: missing or the window's extreme, although the validity counter reads rows already overwritten |
| RollExtremes.RollColumn | src/array_ops.hpp:75-150 | the column equals the naive sliding window, whatever the scratch space held: missing exactly in the rows before `nbvalid`, else an input of the window that is `<=` (for the maximum `>=`) every input of it |
| RollExtremes.RolledIs | src/array_ops.hpp:75-150 | the naive window is that input, written out with `<=` and `>=` over the rows |
| RollExtremes.RollInPlace | src/array_ops.hpp:75-150 | the same for every column, with the same scratch space |
| RollMoments.RingSize | src/array_ops.hpp:161-198 | the least power of two that holds the window; the window itself exactly when that is a power of two |
| RollMoments.Roll | src/array_ops.hpp:161-198 | the input joins the sum and takes its slot; what the slot held leaves the sum once the window is full |
| RollMoments.VarRow | src/array_ops.hpp:161-198 | row r becomes the variance formula of the running sums over the rows in the window, missing when too few, never below zero; sums and rings are those after r+1 rows, no other row changes |
| RollMoments.VarColumn | src/array_ops.hpp:161-198 | every row of the column as above, in terms of the inputs and of whatever the rings held before |
| RollMoments.CovRow | src/array_ops.hpp:315-378 | the covariance formula of the running sums over the rows in the window, missing when too few; the three sums and rings are those after r+1 rows |
| RollMoments.CovColumn | src/array_ops.hpp:315-378 | every row of a pair of columns as above, in terms of the inputs and of whatever the rings held before |
| RollMoments.RunSumIsWindow | src/array_ops.hpp:161-198 | the running sum is the window's sum while the ring gives back the input that leaves |
| RollMoments.FormulaIsCovariance | src/array_ops.hpp:161-198 | the formula on the sums is the sum of centred products over n-1 |
| RollMoments.CovarianceIsPairMean | src/array_ops.hpp:161-198 | why the estimator is unbiased: it is the mean, over all pairs of different rows, of half the product of their distances |
| RollMoments.VarianceNotNegative | src/array_ops.hpp:161-198 | a variance is never negative |
| RollMoments.ComputedIsExpected | src/array_ops.hpp:161-198 | each row is the unbiased estimator over its window |
| RollMoments.SpikeStays | src/array_ops.hpp:161-198 | for any other window, a one right before the window still counts |
| RollMoments.RightExactlyWhen | src/array_ops.hpp:161-198 | right on every input, whatever the rings held, if and only if the window is a power of two or no shorter than the column |
| RollMoments.RollVarInPlace | src/array_ops.hpp:161-198 | every column in place is the rolling variance under that condition |
| RollMoments.RollCov | src/array_ops.hpp:315-378 | every pair of columns is the rolling covariance under that condition; refused exactly when row numbers differ |
| Median.Add | src/align_funcs.hpp:73-102 | one more element: the heaps stay parted, with all elements, within one of each other in size |
| Median.MoveLeft | src/align_funcs.hpp:83-91 | the top that moves stays the top |
| Median.MoveRight | src/align_funcs.hpp:92-101 | the top that moves stays the top |
| Median.OneOrder | src/align_funcs.hpp:62-108 | a multiset has one ascending order |
| Median.MiddleOfHalves | src/align_funcs.hpp:104-107 | the middle element, or the mean of the two in the middle, is read off the tops |
| Median.MedianElement | src/align_funcs.hpp:62-108 | the middle of the sorted elements, twice which is the sum of the two in the middle; missing exactly when there are none |
| Cow.Memory.Create | src/cow_ptr.hpp:44-45 | an object and a count of its own |
| Cow.Memory.Copy | src/cow_ptr.hpp:111-112 | shares object and count, the count one higher |
| Cow.Memory.Assign | src/cow_ptr.hpp:101-109 | shares object and count; the count it shared before is not lowered |
| Cow.Memory.Write | src/cow_ptr.hpp:61-92 | in place when the count allows, else on a copy with a count of its own; refused exactly for constant handles and for locked ones that would have to copy |
| Cow.Memory.Destroy | src/cow_ptr.hpp:136-140 | lowers the count unless temporary or last |
| Cow.Memory.SetFlag | src/cow_ptr.hpp:120-129 | only the flag of that handle changes; temporary and last lower the count as well |
| Cow.Memory.Run | src/cow_ptr.hpp:44-140 | the state and the refusals after a run are those of its operations one by one |
| Cow.Alone | src/cow_ptr.hpp:77-92 | when the count allows writing in place, no other handle shares the object |
| Cow.StepIsolates | src/cow_ptr.hpp:44-140 | every plain operation keeps each count at or above the number of sharers, does to what is seen what it does to unshared values, and adds one to the excess of a count exactly when it assigns over a handle that has it |
| Cow.RunIsolates | src/cow_ptr.hpp:44-140 | every run: each handle shows the value it would have if handles shared nothing |
| Cow.UnlockedGoesThrough | src/cow_ptr.hpp:61-92 | without locks no write is refused |
| Cow.FlagLaw | src/cow_ptr.hpp:61-127 | a lock refuses exactly while the count is above one, taking it off lets through what is not constant, and flags change nothing else |
| Cow.CopiesTakeFlags | src/cow_ptr.hpp:101-112 | a copy is locked, constant or temporary when the original is, and never the last one |
| Cow.LockedAloneRefuses | src/cow_ptr.hpp:61-109 | two handles share an object, one is assigned another object, the first is locked: it shares with nobody and refuses every write; from every sound state |
| Cow.StepAccount | src/cow_ptr.hpp:44-140 | every operation, flags included: by how much it changes the excess of a count over its sharers, exactly |
| Cow.RunAccount | src/cow_ptr.hpp:44-140 | over a run without temporary and last handles the excess grows by the assignments over handles that had the count, less those from constant handles that had it |
| Cow.LockedRefusesWhen | src/cow_ptr.hpp:61-109 | after any plain run from the start a locked handle refuses a write if and only if another one shares its object or an assignment was made over a handle that had its count; a handle that shares with nobody refuses for no other reason |
| Cow.SeenWhen | src/cow_ptr.hpp:61-92 | a write through one handle is seen through another that shares its object if and only if the count lets it in place |
| Cow.ConstSharesWhen | src/cow_ptr.hpp:101-140 | after any run from the start without temporary and last handles that happens if and only if the assignments from constant handles make up for the other sharers and for the assignments over handles |
| Cow.ConstAssignmentShares | src/cow_ptr.hpp:101-140 | a constant handle, assigned from and dropped, leaves two ordinary handles that see each other's writes |
| Wire.UnLEofLE | src/encode.cpp:28-50 | a number that fits its bytes comes back |
| Wire.LastWeighsMost | src/encode.cpp:28-50 | little-endian: the first byte weighs one, each further one 256 times as much |
| Wire.TakeWord | src/encode.cpp:28-50 | a word is taken off the front, and what follows is left |
| Wire.TakeTextBack | src/encode.cpp:83-112 | a padded string is taken off the front, padding included |
| Wire.TextBackExactly | src/encode.cpp:83-112 | the length is cut to 32 bits: a string comes back if and only if its length fits them |
| Code.RoundTrip | src/encode.cpp:401-566 | reading what was written, followed by anything, gives the expression and leaves what follows; it fails exactly for an expression that holds an empty one |
| Code.BodyBack | src/encode.cpp:401-566 | the same for what follows the number of a kind |
| Code.LengthExact | src/encode.cpp:1082-1168 | the announced length is never above the number of bytes, and equal if and only if no list inside takes 2^32 bytes or more |
| CodeStream.Encoder.WriteCode | src/encode.cpp:248-398 | appends the bytes of the expression; refused exactly for kinds that cannot be sent |
| CodeStream.Encoder.WriteBody | src/encode.cpp:248-386 | the same for what follows the number of a kind |
| CodeStream.Encoder.WriteCounted | src/encode.cpp:248-386 | lists: the count, then each expression |
| CodeStream.ReadCode | src/encode.cpp:401-566 | reading at an offset is parsing what stands there; the offset moves past it |
| CodeStream.ReadBody | src/encode.cpp:401-551 | the same for what follows the number of a kind |
| CodeStream.ReadAll | src/encode.cpp:401-551 | the same for counted lists |
| Values.PiecesBuild | src/encode.cpp:868-1078 | fed with its pieces, the decoder ends up holding the value as one finished part, whatever lies below on its stack |
| Values.ShapeBack | src/encode.cpp:619-645 | the array announced by the list of an array's shape is that array without its elements |
| Values.FeedRun | src/encode.cpp:735-752 | a stretch of elements is the elements one by one |
| Values.Settle | src/encode.cpp:868-900 | finished parts are handed over until only input can help |
| ValueStream.ReadFeeds | src/encode.cpp:868-1078 | one call on a buffer of whole pieces does what the pieces say |
| ValueStream.ReceiveFeeds | src/encode.cpp:868-1078 | so do successive calls on successive buffers |
| ValueStream.AtomTurn | src/encode.cpp:868-1078 | null, string, error and integers: header and contents in one turn |
| ValueStream.RunRead | src/encode.cpp:816-866 | array elements up to the end of the array or of the buffer |
| ValueStream.AnySplitRebuilds | src/encode.cpp:816-1078 | however the pieces of a value are spread over buffers, successive calls rebuild exactly that value and leave it as the one finished entry |
| ValueStream.HeaderCutOff | src/encode.cpp:927-946 | a string cut between its header and its bytes is rebuilt if and only if it is empty |
| ValueStream.ReadStrands | src/encode.cpp:868-1078 | an entry at the bottom of the stack that takes no parts, with another one above it, is never left alone again |
| Requests.TakeInts | src/encode.cpp:735-752 | integers up to the number wanted, refused exactly when the last is cut |
| Requests.TakeElements | src/encode.cpp:735-752 | elements up to the number wanted, column by column; refused exactly when a cut element is left over |
| Requests.Reader.ReadInts | src/encode.cpp:916-926 | integers into the value on top |
| Requests.Reader.ReadElements | src/encode.cpp:816-866 | elements into the array below the top |
| Requests.Reader.ReadText | src/encode.cpp:927-965 | a string or error text into the value on top, cut to what the buffer holds, with its padding passed over |
| Requests.Reader.ReadSwitch | src/encode.cpp:900-1078 | the value under construction takes what is its own from the buffer, as the specification's switch says, for every kind |
| Requests.Reader.TakePart | src/encode.cpp:868-1078 | a finished part handed to the list, pair or array below it |
| Requests.Reader.ReadTurn | src/encode.cpp:868-1078 | one turn of the loop: a header when one is due, the early return at the end of the buffer, then the switch, as the specification's turn says |
| Requests.Reader.ReadValue | src/encode.cpp:868-1078 | the loop reads the buffer to its end, as Read says, or fails where Read does |
| Requests.ReqState.ReadData | src/interp_ctx.cpp:43-91 | a segment: the length word when none came, code up to that length, then values; the state is that of the specification, or the call fails where it does |
| Requests.FeedAllBottomed | src/interp_ctx.cpp:43-91 | the request is complete exactly when the decoder is done |
| Requests.AnySegmentationRebuilds | src/interp_ctx.cpp:43-91 | the same expression and values for every segmentation whose first segment holds the length word and whose code-completing segment also carries value pieces |

## Left out

- Closures: function values, their frames and the evaluation of default arguments in the callee's frame. Calls in the machine are calls of builtins, pure functions of their evaluated arguments; `ArgMatch` models the matching of arguments for both.
- Escapes `++(e)`, bound variables of requests and the second insertion cursor of the conversion, which serves only them; bound variables are taken to be resolved.
- AnfMeaning.ConversionPreservesMeaning: assumes that a peer gives the same answer to a request and to its normal form, which is this very property on the peer's side, and states equality of failures only for call heads that are names.
- AnfMeaning.ConditionIsExact: the condition is shown to be sharp for operands built from literals, variables and operators and an assignment of a literal; for other operands independence is sufficient.
- MachineRefines.MachineRefinesEvaluator: an argument does not end in a loop, where machine and evaluator can differ; MachineRefines.MachineRunsTold has no such condition.
- LoopArguments.LoopArgumentIsExact: the condition is exact for loops on a variable that their body assigns first, and for bodies without requests, jumps and `<<-` that do not assign to the argument's name before their end; MachineRefines.MachineRunsTold says what happens in all others.
- Machine.Interpreter.ApplyBuiltin: the arguments of a builtin are all evaluated, in the order in which they stand; matching them to formals is modelled apart, in ArgMatch.
- Machine.Interpreter.ApplyKont: frames stay in place when they end, they are cleared and not popped.
- Anf.Norm: after converting the call of `x <<- f(...)` the source falls through into the case of unary operators (src/anf.cpp:187-199), reading one kind of node as another; the model stops at the converted call.
- Futures.FuturesAreTransparent: no loop has a request as its condition, see Conditions.ConditionIsExact; answers are never functions, since functions cannot be sent.
- Conditions.ConditionIsExact: a request at the end of the condition can be reached when its connection can be a peer, the decisions before it are variables that nothing later reads, and what precedes it are atoms and operators assigned to variables; a condition whose request nothing can reach is transparent, as Conditions.RequestConditionIsExact shows.
- Error responses, tryCatch and escape continuations, interrupts, collection of finished states, statistics, `SILENT` flags and depth limits.
- Values flagged constant, temporary or locked in frames, and the attributes of operators; empty expression lists, which the parser does not make.
- ArgMatch.ProcessArgs: the formals are a list that ProcessFormlist accepts; the shortcuts of its caller for closures without formals or with only an ellipsis are not modelled.
- Dimension names and ordered flags of arrays, conversion between element types, 64-bit overflow of column counts.
- Bind.Array.Abind: the operand has a shape; binding a null array is undefined in the source.
- Subset.Subset: one index for an array of several dimensions, which selects from the flat contents (src/array.hpp:513-528), is not modelled; indices by name, by truth value and by time point are not either.
- Subassign.Subassign: positions of the first index lie inside the array; what happens outside depends on vector.hpp, which is not part of this model. Assigning a scalar is not modelled.
- IntervalIndex.TrueSize: the times never decrease, which the binary search takes for granted; assigning through an interval index is not modelled.
- RollExtremes.RollInPlace: columns without missing values, on which the source is uniform. The minimum and the maximum, two copies of one text in the source, are one method with the direction as a parameter.
- RollMoments.RightExactlyWhen: over the reals, without rounding, and for columns without missing values.
- The other rolling functions and alignment elements.
- Median.MedianElement: over the reals without missing values; a priority queue of the standard library is modelled by its elements in order.
- Cow.RunIsolates: constant, temporary and last flags are excluded, since they are meant to share; handles built from a pointer that is already shared are excluded as well. A write is one dereference followed by one assignment, and memory is a sequence of objects and one of counts that handles refer to by position.
- Code.RoundTrip: locations and the attribute of binary operators are ignored; formal and argument lists are present; parts are read from left to right, where C++ leaves the order of arguments open.
- ValueStream.AnySplitRebuilds: buffers end between pieces, that is between values or between array elements; strings and integers are not cut inside, and reading past a buffer is a failure. Arrays hold elements of eight bytes, their columns in one sequence; arrays of other kinds and the flushing of the encoder's buffer are not modelled.
- Requests.AnySegmentationRebuilds: the first segment holds the length word, and the segment that completes the code carries value data as well, which the source needs to go on.
- Sockets, event loops, timers, files and memory maps, display, configuration, the parser, operator tables by type, time zones.
