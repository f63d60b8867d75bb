# A verified model of the rule engine

This project models a rule-evaluation library written in C and C++: a language of rules with
conditions, metrics and actions, two engines that execute it, the type checker in front of them,
rule sets, and the indexes, caches and text formats around them. It states what those parts are
for and proves it with Dafny 4.11. `dafny verify dfyconfig.toml` checks everything.

## What is modelled

**Two engines for one language.** `TreeWalk` and `Reports` are the tree walk: expressions, case
selection, scoring and the verdict of a rule. `Compiler` and `RuleCompiler` are the code the
bytecode compiler emits, `Machine` the stack machine that runs it. `Bytecode` is the compiler as
it works (a chunk that grows, constants stored once, placeholder jumps patched later) and `Vm` the
loop as it works (a fixed array of slots and a stack pointer); both are tied to the former. The
main results:

- `Compiler.CodeRuns`: the code of an expression, anywhere in any program and from any machine
  state, does what the expression says and goes on after it. It has no conditions.
- `Agreement.CompiledExpressionIsTreeWalk` and `ReportAgreement.ReportsAgree`: under the conditions
  the engines really need, running the compiled program gives the tree walk's value or error, and
  the same report and actions for whole rules.
- `CompiledRules.RawMetricRuleRuns` and `ReportAgreement.SimpleExecutionsAgreeExactly`: what compiled
  rules do whatever the types of their values, and exactly when a simple one agrees.
- `Values`: what every operator gives for every kind of operands; `Types.RefusedOperatorsFail` and
  `Types.TypingTable`: what the checker refuses never works.
- `Types.TypeSoundness` and `VerifiedRules.AcceptedRulesAgree`: for checked rules almost all of
  those conditions disappear. Of the world they ask that variables and the functions a rule really
  calls keep to their declared types; actions need not be functions at all.
- `StackSafety.RulesAreSafe` and `StackSafety.PlainRulesAreSafe`: at every state a run reaches, the
  stack neither overflows nor underflows, stays within the compiler's bound and is empty between
  metrics, in every world and whatever the types.
- `Folding.FoldedAndUnfoldedAgree`: the folded code of a constant expression runs like the code
  without folding.
- `Reports.MetricReportExactly` and `CompiledRules.CompiledReportExactly`: what a report says of its
  metrics on either engine, in terms of the metrics alone.
- `Quota`, `StackBound`: forward jumps, bounded runs, the instruction limit, and how far the
  compiler's stack bound is from the slots a run really needs.

**Rule sets.** `Ruleset` and `Dependencies` are the stable priority insertion, the three-colour
validation of dependencies and the topological sort. `Parallel` is the parallel executor as a
protocol: every interleaving of the caller and its threads, with any threads failing to start.

**Indexes, caches, text.** `HashMap` refines a finite map; `Context` keeps a list and that map in
agreement and loads JSON; `CompileCache` is the double-checked cache as a protocol over its lock;
`JsonText`, `JsonParser`, `JsonRoundTrip`, `JsonReport` and `JsonWriter` are the report writer and
the parser and the round trip between them; `Styles` is the memoised style resolver of the
document reader.

## Where the code does less than it says

Each of these is proved, with an input on which the code fails and, where one is known, the exact
condition under which it meets the property:

- A call of an unregistered function is VOID to both engines, but compiled code leaves the argument
  count in it, so left of an AND or OR it counts as true
  (`Agreement.StaleOperandsAgreeExactly`, `Differences.UnregisteredCallWitness`). The verifier
  reports nothing when the name belongs to an action declared VOID.
- An AND or OR that does not sit at the stack bottom loses the value below it
  (`Agreement.MisplacedLogicalExactly`, `Agreement.MisplacedLogicalWitness`).
- AND and OR leave a non-BOOL operand raw in compiled code (`Agreement.LogicalValuesAgreeExactly`,
  `Differences.NonBoolOperandWitness`).
- A simple rule whose WHEN is not a BOOL is an error for one engine only
  (`ReportAgreement.SimpleRulesAgreeExactly`, `Differences.NonBoolWhenWitness`); the verifier lets
  such rules through (`VerifiedRules.VerifiedWhenAgreesExactly`).
- A CASE whose condition is not a BOOL but has a bit set is taken by compiled code only
  (`ReportAgreement.CasesAgreeExactly`, `VerifiedRules.VerifiedCasesAgreeExactly`,
  `Differences.TruthyCaseWitness`).
- A VOID argument reaches a function as the INT 0 from compiled code
  (`Agreement.FunctionsAgreeExactly`, `Differences.VoidArgumentWitness`).
- Compiled code evaluates the arguments of every action it takes, so an error in one that nobody
  reads ends the rule there only (`ReportAgreement.SimpleRulesAgreeExactly`,
  `Differences.ActionArgumentWitness`).
- A threshold of zero or less is replaced by a default in compiled code only
  (`ReportAgreement.ThresholdsAgreeExactly`, `Differences.ThresholdWitness`).
- The nesting limit exists in the tree walk only (`Differences.NestingLimitWitness`).
- The compiler's stack bound counts an array literal's elements as one slot, and forgets the
  arguments below a nested call, so accepted programs overflow (`StackBound.ArrayBoundIsWrong`,
  `StackBound.NestedCallBoundIsWrong`).
- The checker accepts comparisons of two arrays, which the evaluator rejects
  (`Types.ArrayComparisonsExactly`, `Differences.ArrayComparisonWitness`).
- A CASE on a bare INT literal is reported as always true, but the tree walk matches only a BOOL
  (`Analyzer.ConstTrueHoldsExactly`, `Analyzer.UnreachableWitness`).

## How values are modelled

INT, LONG and DATE are mathematical integers confined to their C ranges; arithmetic that leaves
them is an overflow, written out. FLOAT is a 64-bit pattern, and its operations are parameters
(`Fpu`), so every theorem holds for any floating point. BOOL is its truth value, VOID its data word,
which only tests for truth read. Strings are
sequences; where the source works on C strings they are `Bytes.CString`, NUL-free bytes. A
registered function is a function of its argument values. An execution's result is a report and
the registered action names it triggered, in order; of an ERROR report only the status is kept.
Chains and linked lists are sequences, from head to tail.

A rule's dependencies are the list its `depends_on` text splits into. The recursive walks of
src/vm/ruleset.c split with strtok, whose one static cursor a nested walk disturbs; the theorems
are about the split each call means to make.

## Model

| member | source | states |
|---|---|---|
| Values.TruncDivCharacterised | src/vm/value_ops.c:296-304 | Integer division truncates toward zero: the quotient is the one integer whose remainder is smaller than the divisor and has the dividend's sign |
| Values.PortableAddExact | src/vm/value_ops.c:13-25 | The portable addition test passes exactly when the sum is a 64-bit integer |
| Values.PortableSubExact | src/vm/value_ops.c:27-39 | The portable subtraction test passes exactly when the difference is a 64-bit integer |
| Values.PortableMulExact | src/vm/value_ops.c:41-66 | The portable multiplication test, with its truncating divisions and its -1 case, passes exactly when the product is a 64-bit integer |
| Values.IntegerOperatorsAreExact | src/vm/value_ops.c:246-311 | The overflow tests before each LONG operation and the 64-bit intermediate of each INT operation never err: the result is the one integer the operation means, OVERFLOW exactly when that does not fit the wider operand type, DIV_ZERO exactly on a zero divisor |
| Values.IntegerComparisonsAreExact | src/vm/value_ops.c:163-311 | Comparing INTs, LONGs or DATEs is comparing the numbers they stand for |
| Values.NegationIsExact | src/vm/value_ops.c:353-375 | NEG of an INT or LONG is the number of its type that adds up to zero with it, OVERFLOW exactly when there is none |
| Values.UnaryOperatorsExactly | src/vm/value_ops.c:331-385 | NOT is true exactly of the BOOL false, the INT 0 and VOID and a type error of other types; NEG of anything but numbers is VOID for VOID and a type error otherwise |
| Values.BoolComparisonsAreExact | src/vm/value_ops.c:196-207 | BOOLs compare with false before true and take no arithmetic |
| Values.StringComparisonsAreExact | src/vm/value_ops.c:148-161 | Strings are equal or not by their characters and take no other operator |
| Values.VoidOperandsGive | src/vm/value_ops.c:135-146 | With VOID every comparison is false and every other operation VOID, but a zero divisor is still a division by zero |
| Values.FloatOperators | src/vm/value_ops.c:214-244 | With a FLOAT the other number is converted, the operands keep their order, and only a zero divisor is refused |
| Values.OtherPairsAreTypeErrors | src/vm/value_ops.c:125-320 | The table of operand types each operator takes; every other pair is a type error |
| Values.TruthExactly | src/vm/eval.c:440-464 | What a test reads: an INT by being zero, a LONG, DATE or FLOAT by its low 32 bits, so false at every multiple of 2^32 |
| Values.DateShiftExactly | src/vm/value_ops.c:89-123 | The tested multiplication and addition shift a date by exactly n days, or overflow exactly when the seconds or the date leave 64 bits |
| Values.FloatShiftExactly | src/vm/value_ops.c:89-123 | A FLOAT shift takes the whole seconds of a finite number of days up to 2^62 either way, and overflows otherwise or when the date leaves 64 bits |
| Values.DateArithmeticExactly | src/vm/value_ops.c:163-194 | The difference of any two dates is the whole days between them, truncated toward zero, or an overflow when an INT does not hold it; days may stand on either side of a plus |
| Values.DateShiftRoundTrip | src/vm/value_ops.c:89-123 | A date plus n days minus n days is the date, for INT and LONG n, whenever the addition succeeds |
| Values.DateDistanceRoundTrip | src/vm/value_ops.c:163-189 | The distance from a date to its shift by n days is n if n fits an INT and an overflow otherwise |
| Compiler.FoldingIsEvaluation | src/vm/bytecode.c:335-430 | A constant expression folds exactly when the tree walk raises no error on it, in every context, and then to the tree walk's value |
| Folding.FoldedAndUnfoldedAgree | src/vm/bytecode.c:444-475 | In front of any code and on any stack with room, the folded code of a constant expression runs exactly like the code without folding, errors left to run time included |
| Compiler.CodeRuns | src/vm/bytecode.c:432-624 | Code emitted for an expression, at any place in any program and from any state, has the expression's effect and continues behind it: no jump leaves its own code |
| Compiler.BranchAndPop | src/vm/bytecode.c:1294-1316 | Running the conditional jump and the POP behind it either keeps the left value and jumps, or drops the left value and, unless the stack is empty by then, one more, before the right operand runs |
| Agreement.StackDiscipline | src/vm/bytecode.c:921-1383 | Code whose ANDs and ORs sit at the bottom, given its slots, leaves everything below untouched and adds exactly one value or stops with the first error |
| Agreement.StackEffect | src/vm/bytecode.c:543-593 | The same on any stack for an expression whose own ANDs and ORs are placed: exactly how many of the values below are lost, and the value added or the error it stops with |
| Agreement.RawIsTreeWalk | src/vm/eval.c:231-594 | The value such code computes is the tree walk's value when the deciding operands are BOOLs, functions get no VOID, no VOID left by an unregistered call decides and the nesting limit holds; only the data word of such a VOID can differ |
| Agreement.CompiledExpressionIsTreeWalk | src/vm/bytecode.c:432-624 | Running an expression's code from a given stack appends the tree walk's value, to the bit unless it is or holds the VOID of an unregistered call, or ends the run with the tree walk's error, whatever code surrounds it |
| Agreement.LogicalValuesAgreeExactly | src/vm/eval.c:440-464 | At an AND or OR whose left operand tests alike the engines agree exactly when it errs, or decides and is a BOOL, or does not decide and the right operand errs or is a BOOL; where it tests differently, exactly when the tree walk stops at it and the right operand is the BOOL it stops with |
| Agreement.StaleOperandsAgreeExactly | src/vm/bytecode.c:1164-1214 | Left of an OR a call of an unregistered function makes no difference exactly when it has no arguments and the right operand errs or is a BOOL, left of an AND exactly when it has some and the right operand is false |
| Differences.UnregisteredCallWitness | src/vm/bytecode.c:1193-1212 | WHEN block("x") OR a with a false and block an action declared VOID: no error is reported, the rule passes on the tree walk and fails on the compiled engine |
| Agreement.FunctionsAgreeExactly | src/vm/bytecode.c:669-727 | Every function gives the same result for arguments handed over by compiled code exactly when no VOID is among them at any level |
| Differences.VoidArgumentWitness | src/vm/bytecode.c:721-724 | A function that asks for the INT 0 says false to the tree walk's VOID and true to compiled code's |
| Agreement.MisplacedLogicalExactly | src/vm/bytecode.c:543-593 | With something below it on the stack, an expression of placed ANDs and ORs, nested ones included, keeps the stack discipline exactly when it errs or none of them reaches its right operand; otherwise exactly one value below is lost for each that does, as long as there are any |
| Agreement.MisplacedLogicalWitness | src/vm/bytecode.c:543-593 | On a == (a AND a) the tree walk says true and the compiled program runs out of operands |
| Differences.NestingLimitWitness | src/vm/eval.c:239-245 | Past the nesting limit a simple rule fails on the tree walk, which sees VOID, and passes on the compiled engine |
| Differences.NonBoolOperandWitness | src/vm/eval.c:440-464 | WHEN a AND a with the INT 0 passes on the tree walk and is an ERROR on the compiled engine |
| Differences.NonBoolWhenWitness | src/vm/eval.c:861-991 | WHEN a with the INT 1 passes on the tree walk and fails on the compiled engine |
| Types.TypeSoundness | src/schema/schema.c:164-404 | A checked expression, in a context whose variables and whose functions called in it conform, evaluates to a value of its type or fails only with overflow or division by zero, and both engines compute that |
| Types.SilentIsTyped | src/schema/schema.c:164-404 | What resolves to a type has no error reported, and if no variable and no function called is declared VOID, what has no error reported resolves to a type |
| Types.RefusedOperatorsFail | src/schema/schema.c:250-352 | The checker refuses an operator for its operand types only where no operands of those types give a result, so every comparison and calculation that works is accepted |
| Types.TypingTable | src/schema/schema.c:217-352 | The type of every operator for every pair of operand types |
| Types.AcceptedExactly | src/schema/schema.c:380-398 | Arguments are accepted exactly when each has the declared type or is an INT for a FLOAT |
| Types.ArrayComparisonsExactly | src/schema/schema.c:250-352 | Among well-typed operator applications exactly the comparisons of arrays are type errors at run time |
| Differences.ArrayComparisonWitness | src/schema/schema.c:250-352 | The comparison of two one-element arrays checks as BOOL and is a type error on both engines |
| Types.CheckedExpressionsAgree | src/schema/schema.c:164-404 | For a checked expression whose ANDs and ORs are placed, the code computes the tree walk's typed result or stops with the same overflow or division by zero |
| Reports.SelectIsFirst | src/vm/eval.c:692-754 | A case is selected exactly when its condition is the BOOL true and every earlier one yields something else |
| Reports.TreeExecutor.Act | src/vm/eval.c:709-796 | An action triggers its callback and gives its metric the score its kind prescribes, or sets the error state |
| Reports.TreeExecutor.RunMetric | src/vm/eval.c:692-796 | One metric takes the action of its first matching case, else its default |
| Reports.TreeExecutor.RunMetricRule | src/vm/eval.c:617-859 | The loop with its running totals and critical flag gives the rule's report: totals that are the sums of the metrics, FAILED if a critical metric has not passed, else the two thresholds decide |
| Reports.MetricReportExactly | src/vm/eval.c:665-859 | On the tree walk a metric rule is ERROR exactly when a selection or score errs; else its metrics are listed in order, a failed critical one makes it FAILED, and otherwise it is PASSED, PARTIALLY PASSED or FAILED exactly as the sum of the scores reaches the thresholds |
| Reports.ScoresExactly | src/vm/eval.c:709-796 | The score each kind of action gives its metric, and when it errs |
| Reports.SimpleReportExactly | src/vm/eval.c:861-991 | The whole report and actions of a simple rule on the tree walk |
| Reports.TreeExecutor.RunSimpleRule | src/vm/eval.c:861-991 | A simple rule fails when WHEN is the BOOL true, passes otherwise, is an error when WHEN errs |
| CompiledRules.RawSimpleRuleRuns | src/vm/bytecode.c:1513-1610 | Executing a compiled simple rule, whatever the types: any bit set in WHEN's value fails it once its arguments evaluate, a BOOL without one passes it, anything else is ERROR |
| ReportAgreement.SimpleExecutionsAgreeExactly | src/vm/bytecode.c:1513-1610 | In every world the two engines agree on a simple rule if and only if the tree walk's and the compiled result of WHEN and the evaluation of the arguments go together as stated; nothing is asked of types, functions or the nesting limit |
| ReportAgreement.SimpleRulesAgreeExactly | src/vm/bytecode.c:1513-1610 | If WHEN means the same to both engines they give the same report and actions if and only if it errs or is a BOOL and, when it is true, the action's arguments evaluate |
| Differences.ActionArgumentWitness | src/vm/bytecode.c:628-666 | A true rule with the action note(1 / 0) fails on the tree walk and is an ERROR on the compiled engine |
| ReportAgreement.ReportsAgree | src/vm/bytecode.c:1445-1662 | On every rule and context meeting the conditions both engines give the same status, scores, flags, totals and actions; a condition that errs makes both ERROR |
| ReportAgreement.MetricReportsAgree | src/vm/bytecode.c:1445-1510 | The same for metric rules: the metric opcodes rebuild the tree walk's results metric by metric |
| CompiledRules.RawMetricRuleRuns | src/vm/bytecode.c:1513-1662 | Executing a compiled metric rule, whatever the types of its conditions and scores and whatever its thresholds: each metric takes the first case with a bit set in its condition, scores the INT its action leaves and 0 for any other value |
| CompiledRules.CompiledReportExactly | src/vm/bytecode.c:1590-1622 | On the compiled engine too a failed critical metric makes a metric rule FAILED and otherwise the sum of the scores decides, under the given thresholds if positive, else 80 and 60 |
| CompiledRules.CompiledSimpleReportExactly | src/vm/bytecode.c:1417-1443 | The whole report and actions of a compiled simple rule |
| ReportAgreement.CasesAgreeExactly | src/vm/bytecode.c:776-833 | For conditions of any type both engines choose the same case exactly when the condition of the one compiled code chooses is a BOOL |
| Differences.TruthyCaseWitness | src/vm/bytecode.c:776-833 | CASE a with the INT 1: compiled code takes the case and the rule passes, the tree walk takes the default and it fails |
| ReportAgreement.MetricRuleRuns | src/vm/bytecode.c:1513-1662 | Executing a compiled metric rule with any thresholds gives the tree walk's metrics and actions, concluded under the thresholds the compiled engine puts in the place of those not positive |
| ReportAgreement.ThresholdsAgreeExactly | src/vm/bytecode.c:1610-1640 | Whole executions: all metric rules with two given thresholds, whose metrics mean the same to both engines, execute alike exactly when both thresholds are positive |
| Differences.ThresholdWitness | src/vm/bytecode.c:1610-1640 | A metric rule with pass threshold 0 and score 0 passes on the tree walk and fails on the compiled engine |
| StackBound.DepthWithinUse | src/vm/bytecode.c:432-624 | The stack use the compiler reports covers the real depth of expressions without arrays and calls |
| StackBound.OverflowsExactly | src/vm/bytecode.c:934-950 | The depth counted for an expression without AND and OR is exact: its run on fewer slots ends in the overflow, and in no fault otherwise |
| StackBound.ChainsAccepted | src/vm/bytecode.c:880-902 | For n chained operators and an action of k arguments the bound is the larger of n and k plus one, and the compiler takes the rule exactly when neither reaches 256 |
| StackBound.BoundSuffices | src/vm/bytecode.c:776-902 | The bound max_stack covers the counted depth of every condition and action of a rule without arrays and calls; what runs do with that room is stated in StackSafety |
| StackBound.ArrayBoundIsWrong | src/vm/bytecode.c:502-523 | The bound of an array literal of any length is at most two, while its run overflows exactly when it has more than 256 elements |
| StackBound.NestedCallBoundIsWrong | src/vm/bytecode.c:596-615 | For f(x, g(x, x, x)) the bound is 4 and the depth 5, and the run on as many slots as the bound says overflows |
| StackSafety.RulesAreSafe | src/vm/bytecode.c:776-902 | On a rule whose ANDs and ORs are placed, with room for its parts, no state the run reaches holds more values than that room, pops an empty stack, pushes on a full one, or starts a metric on a stack that is not empty |
| StackSafety.PlainRulesAreSafe | src/vm/bytecode.c:776-902 | For rules without arrays and calls that room is the compiler's bound max_stack, in every world and on every stack at least that large |
| StackSafety.AcceptedRulesNeverOverflow | src/vm/bytecode.c:934-950 | So an accepted rule of that kind never overflows or underflows the 256 slots: the state after any number of instructions has at most max_stack values |
| VerifiedRules.VerifiedRulesAgree | src/schema/schema.c:482-527 | A rule without a reported error that meets the static conditions gives the same report on both engines in every world that conforms on the variables and on the functions the rule calls and where its actions' arguments evaluate; arguments may be VOID, and one that both engines read either has a type or means the same to both |
| VerifiedRules.VerifiedExactly | src/schema/schema.c:405-527 | Where nothing used is declared VOID, a rule is accepted exactly when its conditions have a type, no CASE is an array, and every action is declared and called with arguments of the declared types |
| VerifiedRules.AcceptedRulesAgree | src/vm/bytecode.c:880-902 | For verified rules without arrays and calls the compiler's acceptance is enough for the same report and actions on both engines, on 256 slots and even on max_stack slots |
| VerifiedRules.VerifiedWhenAgreesExactly | src/schema/schema.c:482-527 | On a verified simple rule with a typed WHEN the engines agree exactly when that type is BOOL or WHEN errs; with a WHEN that resolves to VOID, exactly when its two results test alike |
| VerifiedRules.VerifiedCasesAgreeExactly | src/schema/schema.c:492-516 | On a verified metric with typed conditions both engines choose the same case exactly when the one compiled code chooses has type BOOL |
| Bytecode.Chunk.AddConstant | src/vm/bytecode.c:89-123 | A name is stored once and earlier indices keep their meaning |
| Bytecode.Chunk.Patch | src/vm/bytecode.c:322-328 | Patching retargets one jump and changes nothing else |
| Bytecode.Chunk.CompileExpr | src/vm/bytecode.c:432-624 | The emitter with its placeholder jumps appends exactly the expression's code, reports its stack use and raises max_stack to its peak |
| Bytecode.Chunk.CompileLogical | src/vm/bytecode.c:543-593 | The same for AND and OR, whose jump is patched once the right operand's code is there |
| Bytecode.Chunk.CompileAction | src/vm/bytecode.c:628-666 | An action's arguments, then the call |
| Bytecode.Chunk.CompileRule | src/vm/bytecode.c:729-905 | Compiling a rule yields exactly its code and metric table, the bound max_stack, and success exactly when that is at most 256 |
| Quota.RuleIsForward | src/vm/bytecode.c:282-328 | Every jump of a compiled rule goes strictly forward and lands inside the program |
| Quota.StepsBounded | src/vm/bytecode.c:956-967 | A run of a forward program executes at most as many instructions as the program has |
| Quota.QuotaTransparency | src/vm/bytecode.c:956-967 | An instruction limit at or above the steps taken changes nothing, a smaller one always ends in an error |
| Quota.QuotaDecidesReports | src/vm/bytecode.c:921-967 | The same for reports of call-free rules: unchanged or ERROR |
| Vm.Vm.PushValue | src/vm/bytecode.c:934-950 | A push stores above the pointer, or fails without touching the array when it is full |
| Vm.Vm.PopMany | src/vm/bytecode.c:1164-1265 | Popping n values gives them in argument order |
| Vm.Vm.Dispatch | src/vm/bytecode.c:968-1380 | One turn of the switch over the slot array is one step of the machine |
| Vm.Vm.RunInstructions | src/vm/bytecode.c:921-1391 | The loop over ip and the slot array runs the chunk's program, with or without an instruction limit |
| Vm.ExecuteCompiled | src/vm/bytecode.c:1513-1662 | Executing a compiled chunk gives the report and actions of the rule's compiled execution |
| Vm.CompileAndExecute | src/vm/bytecode.c:729-905 | Nothing comes back exactly for a rule whose bound exceeds the stack; otherwise the compiled execution |
| Analyzer.AnalyzeMetric | src/schema/schema.c:591-691 | The loop reports exactly the warnings that are due: the case behind an always-true one, always-true, always-false and shadowed cases |
| Analyzer.WarningsExactly | src/schema/schema.c:609-691 | Only the first always-true case is reported so, only the one behind it unreachable, and always-false and shadowed ones in front of it |
| Analyzer.LiteralComparisonsReported | src/schema/schema.c:528-590 | A comparison of two INT literals is reported always true, or always false, exactly when it evaluates so |
| Analyzer.ShadowedExactly | src/schema/schema.c:640-690 | A case is reported shadowed exactly when it compares the variable of an earlier case by the same operator with the same INT or an equal FLOAT |
| Analyzer.ConstTrueHoldsExactly | src/schema/schema.c:528-557 | An always-true condition holds on the tree walk exactly when it is not a bare INT literal |
| Analyzer.ConstTrueHoldsInCode | src/schema/schema.c:528-557 | In compiled code an always-true condition always holds |
| Analyzer.AlwaysFalseIsNeverSelected | src/schema/schema.c:558-590 | A case reported always false is never selected, in any context |
| Analyzer.ShadowedIsNeverSelected | src/schema/schema.c:640-690 | A case reported shadowed is never selected, in any context |
| Analyzer.UnreachableIsNeverSelected | src/schema/schema.c:613-623 | Behind an always-true BOOL or comparison, the case reported unreachable and every later one is never selected |
| Analyzer.UnreachableWitness | src/schema/schema.c:613-623 | Behind an INT literal the case reported unreachable can be the one selected |
| Dependencies.FindEntry | src/vm/ruleset.c:111-123 | The first entry of a name, or none |
| Dependencies.ValidateFrom | src/vm/ruleset.c:595-661 | The three-colour walk either settles everything it reaches behind its dependencies or exhibits a missing dependency or a cycle; it terminates by the white entries |
| Dependencies.ValidateDeps | src/vm/ruleset.c:663-704 | Validation accepts exactly the sets whose named dependencies all exist and form no cycle |
| Dependencies.SortFrom | src/vm/ruleset.c:706-752 | The walk appends an entry behind all its dependencies, below it only entries that dependencies name, and only itself when they are out already |
| Dependencies.SortAll | src/vm/ruleset.c:779-786 | The sort's output is a permutation with every dependency before its dependents, and the identity on a list already in that order |
| Dependencies.SettledIsOrdered | src/vm/ruleset.c:788-797 | Rebuilding the list in such an order puts every dependency before its dependents, under the list's own lookup by first name |
| Ruleset.AddedIsStableSort | src/vm/ruleset.c:55-83 | Adding entries one by one gives the stable sort by priority of the additions |
| Ruleset.StableSortIsUnique | src/vm/ruleset.c:55-83 | There is only one such list |
| Ruleset.RuleSet.Add | src/vm/ruleset.c:55-83 | The insertion loop, on any list, puts the entry before the first of greater priority and counts it |
| Ruleset.RuleSet.Remove | src/vm/ruleset.c:85-109 | Removal takes out the first entry of the name and nothing else |
| Ruleset.RuleSet.TopoSort | src/vm/ruleset.c:754-802 | Sorting succeeds exactly on existing, acyclic dependencies, leaves an ordered permutation on which sorting again succeeds and changes nothing, and leaves the list alone on failure |
| Parallel.AddReport | src/vm/ruleset.c:144-163 | One report added to the running totals: its status's tally grows by one, the sums by its scores, and nothing else |
| Parallel.TalliesAddUp | src/vm/ruleset.c:144-163 | The four tallies account for every rule |
| Parallel.ExecuteSequentially | src/vm/ruleset.c:125-164 | The sequential run leaves every rule's report in order and counts each rule once; each tally is the number of rules that ended with its status, each sum that of its own field |
| Parallel.Aggregate | src/vm/ruleset.c:429-451 | The final loop over the slots computes the same tallies and sums, each the number of reports of its status |
| Parallel.EveryRunKeepsInv | src/vm/ruleset.c:217-258 | In every interleaving each claimed rule has its report or is being run by its one claimant, and the counters add up |
| Parallel.ParallelIsSequential | src/vm/ruleset.c:260-451 | When a parallel run ends, each index was claimed once and each rule ran once, every slot holds its rule's report, the totals are the sequential run's, each tally the number of rules of its status, and total_rules_executed has grown by exactly the rule count |
| Parallel.ThreadsAreCapped | src/vm/ruleset.c:270-356 | The parallel path needs two threads and two rules, and makes no more threads than asked for or than there are rules |
| Parallel.RunsAreBounded | src/vm/ruleset.c:240-250 | No interleaving has more than a fixed number of events |
| Parallel.NoDeadlock | src/vm/ruleset.c:395-410 | A parallel run that is not over can always go on |
| HashMap.HashString | src/util/hashmap.c:62-70 | The wrapping loop computes the djb2 polynomial modulo 2^32, then the bucket |
| HashMap.HomeExactly | src/util/hashmap.c:62-70 | The hash is the key in base 33 behind 5381, modulo 2^32 |
| HashMap.RepresentsOne | src/util/hashmap.c:145-160 | A table with every entry in its own bucket under a key of its own stands for one finite map |
| HashMap.HashMap.Get | src/util/hashmap.c:145-160 | The map's value, or none |
| HashMap.HashMap.Put | src/util/hashmap.c:110-143 | Binds the key and nothing else; entries stay homed and unique, the size exact, and the buckets double exactly when a new key makes the load pass three quarters and that stays within 2^20 |
| HashMap.HashMap.Remove | src/util/hashmap.c:162-185 | Unbinds the key and nothing else |
| HashMap.HashMap.Rehash | src/util/hashmap.c:27-55 | Twice the buckets and the same map; nothing at all when that would pass 2^20 |
| HashMap.MoveOne | src/util/hashmap.c:40-50 | While entries move, the next one's key is never in the new table yet |
| CompileCache.FoundIsFinished | src/vm/cache.c:90-117 | Whatever a lookup under either lock finds has its bytecode built |
| CompileCache.EveryRunKeepsInv | src/vm/cache.c:90-149 | In every interleaving the lock is held by readers or one writer, the table finds every entry ever inserted, and an entry without code has its builder inside the write lock |
| CompileCache.OneEntryPerSource | src/vm/cache.c:90-149 | At most one entry per source is ever inserted, all calls on a source return it, it is an accepted rule with its code built, and only a call whose source does not parse or whose rule is not verified returns none |
| CompileCache.FinishedIsFinal | src/vm/cache.c:118-149 | A finished entry never changes |
| CompileCache.NoDeadlock | src/vm/cache.c:90-149 | While a call is under way some call can move |
| CompileCache.RunsAreBounded | src/vm/cache.c:90-149 | No interleaving has more than eight steps a call |
| Context.ReadOnlyKeepsValue | src/vm/context.c:113-121 | Through any operations but its removal a bound read-only variable keeps its value |
| Context.LastSetWins | src/vm/context.c:229-438 | Any other variable has the value it was last set to |
| Context.OperationsExactly | src/vm/context.c:229-549 | An unbound name can be set even if read-only, removal unbinds, and no operation touches another name |
| Context.LeavesHaveDottedNames | src/vm/context.c:551-664 | A leaf is bound under the names of the objects around it joined by dots: an INT if it is a 32-bit integer, else a FLOAT, a BOOL, a string or an array of such |
| Context.Store.Put | src/vm/context.c:229-438 | A setter rebinds in place or adds to list and index, unless a bound variable is read-only; list and index keep holding the same entries |
| Context.Store.Delete | src/vm/context.c:527-549 | Removal takes the name from list and index alike |
| Context.Store.Load | src/vm/context.c:551-664 | Loading an object sets its leaves, under their dotted paths, in document order |
| JsonText.EscapeConcat | src/vm/eval.c:127-208 | Escaping works byte by byte |
| JsonText.EscapedExactly | src/vm/eval.c:154-208 | The seven short escapes, four lower-case digits for the other control bytes, and everything else as it is |
| JsonText.DecimalLength | src/vm/eval.c:1196-1203 | A 32-bit integer prints in at most eleven bytes |
| JsonParser.Parser.ParseString | src/util/json.c:33-152 | The string reader and its escapes, against the reading function, with the position it stops at on failure too |
| JsonParser.Parser.ParseObject | src/util/json.c:156-232 | The object loop, including what it makes of a malformed entry before a closing brace |
| JsonParser.Parser.ParseArray | src/util/json.c:234-293 | The array loop |
| JsonParser.Parser.ParseValue | src/util/json.c:295-379 | One value with its nesting limit; the depth is restored |
| JsonParser.Parse | src/util/json.c:381-389 | Parsing from the start |
| JsonParser.SpacesExactly | src/util/json.c:25-31 | White space is the six bytes of isspace |
| JsonParser.SpacesAreIrrelevant | src/util/json.c:156-379 | White space in front of a value, a member or a comma makes no difference |
| JsonParser.SpacedMember | src/util/json.c:156-232 | A member may have white space on both sides of its colon |
| JsonParser.SimpleEscapesExactly | src/util/json.c:55-144 | The byte each simple escape stands for |
| JsonParser.UnicodeEscapeReads | src/util/json.c:100-130 | Four hexadecimal digits of either case are a code point, stored in UTF-8 |
| JsonParser.Utf8Exactly | src/util/json.c:117-130 | The stored bytes are the shortest UTF-8 form and read as the code point again |
| JsonRoundTrip.ByteReadsBack | src/util/json.c:55-144 | An escaped byte, control bytes as four hexadecimal digits included, reads back as itself |
| JsonRoundTrip.QuotedReadsBack | src/util/json.c:33-152 | A quoted string reads back byte for byte wherever it stands |
| JsonRoundTrip.NumberReadsBack | src/util/json.c:367-377 | A printed 32-bit integer reads back exactly before a comma, a closing bracket or the end |
| JsonRoundTrip.ValueReadsBack | src/util/json.c:295-379 | The text of any value parses back to it exactly when its nesting fits the limit; otherwise the parser fails at a byte that closes nothing |
| JsonRoundTrip.PrintedTextParses | src/util/json.c:381-389 | The same for a whole text |
| JsonReport.ReportIsRendered | src/vm/eval.c:1121-1218 | The text the writer's formats spell out is the compact JSON of the report |
| JsonReport.MetricIsRendered | src/vm/eval.c:1189-1209 | The same for one metric, with and without a violation reason |
| JsonReport.ReportRoundTrip | src/vm/eval.c:1121-1218 | Parsing a report's text gives back every string byte for byte, every integer and the metrics in order |
| JsonReport.ReportTextSays | src/vm/eval.c:1121-1218 | The object read from a report's text has under each name, spelled out, what the report says: status word, both totals, texts, and in every metric its own seven members |
| JsonReport.ReportTextIsFaithful | src/vm/eval.c:1121-1218 | Two reports with the same text have the same strings, integers and metrics |
| JsonWriter.EscapeLen | src/vm/eval.c:127-152 | The length estimate is the exact escaped length |
| JsonWriter.Buffer.Format | src/vm/eval.c:1165-1176 | A formatted write appends its whole text or reports that it was cut, moving the offset either way |
| JsonWriter.Buffer.EscapeInto | src/vm/eval.c:154-208 | Escaping into the buffer stops only between escapes, and not at all when seven bytes are left over |
| JsonWriter.Buffer.EnsureRoom | src/vm/eval.c:1152-1163 | Enlarging makes the room asked for and keeps what was written |
| JsonWriter.MetricInto | src/vm/eval.c:1187-1209 | The reserved 256 bytes and escapes always suffice for a metric |
| JsonWriter.ReportToJson | src/vm/eval.c:1121-1218 | No part of a report is ever cut: the buffer holds exactly the report's text |
| Styles.MergedInherits | src/doc/doc_parse.cpp:366-484 | Merging with what the parent inherits gives, for each attribute, the first value set along the chain of ancestors |
| Styles.FirstSetIsUnique | src/doc/doc_parse.cpp:366-484 | That value is unique |
| Styles.UnsetExactly | src/doc/doc_parse.cpp:366-484 | A value counts as not given exactly when it is empty, zero or false, a border by its style |
| Styles.ParentExactly | src/doc/doc_parse.cpp:342-364 | The parent is the first style of the given name, else the family's default style, which default styles themselves do not have |
| Styles.WalkedInCircle | src/doc/doc_parse.cpp:537-546 | A walk that comes back to its own chain is on a cycle |
| Styles.StyleTable.Find | src/doc/doc_parse.cpp:342-354 | The first style of a name |
| Styles.StyleTable.Walk | src/doc/doc_parse.cpp:535-547 | The walk up ends at a resolved style, at the end or on a cycle, having passed distinct unresolved styles |
| Styles.StyleTable.ResolveAll | src/doc/doc_parse.cpp:527-555 | The in-place memoised resolver ends on every table, and each style whose ancestors end has every attribute set to the first value along its chain; a second call changes nothing |
| Styles.StyleTable.ResolveFresh | src/doc/doc_parse.cpp:527-555 | On a freshly read table, where nothing is resolved, every style is resolved and inherits along its chain |
| Styles.OrderIsIrrelevant | src/doc/doc_parse.cpp:527-555 | What a style inherits does not depend on the order of the table |

## Left out

- Linked lists, hash chains and JSON nodes are sequences in fields that the methods reassign: relinking nodes in place and sharing between them are not captured.
- Allocation failure, freeing, ownership of strings, wall-clock timeouts, memory limits, tracing and statistics other than total_rules_executed: they double the branches of every function.
- Report texts beyond name, status, scores and flags in the engine models: descriptions, summaries and violation_reason, which the two engines fill differently.
- Contents of ERROR reports other than the status, and error texts.
- The tree walk's own instruction quota and the charges of registered functions; a function is taken to depend on its argument values only.
- Nodes the parser leaves behind when it recovers from an error: a missing condition, action or operand.
- An array literal with several failing elements: the first error is kept, where the tree walk may overwrite its message with a later one.
- The raw int a BOOL holds, the truth bits of strings and arrays (taken as set) and overflow of the int totals of a report.
- Floating point, date and locale functions: parameters. A date difference is exact integer seconds.
- The text of depends_on and strtok: dependencies are lists. The interference of nested strtok calls is not modelled.
- Machine.Invoke: takes the word left in a VOID from the popped argument count; in every compiled program the push of that count stands right in front of the call, where the source leaves it.
- Machine.Tidy: a function or callback evaluates the temporary literals it is handed under the nesting limit again, so an array nested as deep as that limit arrives with VOIDs in it from compiled code only; values are taken to be nested less deep.
- Agreement.MisplacedLogicalExactly: says what one expression of placed ANDs and ORs loses below it; what an operator around it then computes from the remaining values is only shown on an input.
- Parallel.ParallelIsSequential: executing a rule is a function of the rule, so callbacks that change shared state are not covered; the snapshot of callbacks and functions is not modelled.
- CompileCache.OneEntryPerSource: does not cover concurrent removals, and calls are not required to pass the same schema, so an entry is only known to be accepted under its inserter's.
- HashMap.HashMap.Put: int overflow of four times the size, possible only in a table of more than 2^19 and fewer than 2^20 buckets that has grown past 2^29 entries, is not modelled; iteration and key listing are left out.
- JsonParser.Parser.ParseValue: numbers other than plain integers are what a parameter says, which must consume at least one byte; a lone minus sign consumes none.
- JsonParser.Parser.ParseString: growth of the string buffer is a sequence that grows; a decoded NUL ends the C string only for later readers.
- Styles.StyleTable.ResolveAll: says of a style on or above a cycle only that it is resolved; styles added after a first call are not covered.
- Context: array variables in expressions, the typed getters and the schema's own registration.
- C code and DOT generation, the grammar, templates, the language server, the AI bridge, document reading other than styles, the Python bindings.
