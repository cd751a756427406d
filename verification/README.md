# An expression calculator and its compiler, in Dafny

The modelled program is a series of course assignments that together make
a small calculator language for integer expressions:

- **Homework 4** splits an input line into tokens (numbers, one-character
  operators, names). It converts the infix token list to postfix with a
  recursive-descent converter (`assignmentToPostfix`, `sumToPostfix`,
  `prodToPostfix`, `factorToPostfix`). It then evaluates the postfix list
  with a stack of tokens, reading and assigning names in a variable store.
- **Homework 6's `VarTree`** is that store: an unbalanced binary search tree
  keyed by name. A lookup of a missing name inserts it with value 0.
- **Homework 5 and Homework 6** replace the postfix list with expression
  trees: values, variables, operations (arithmetic, relational, `=`, unary
  `~`) and conditionals, and in Homework 6 calls of user functions. Each
  tree can print itself (`toString`) and translate itself into a program
  for the Unix `dc` calculator (`makedc`). Homework 6 evaluates a call in a
  fresh store that holds only the parameters.
- **Homework 7's `compile`** parses a line into a tree. It handles
  conditionals `? :`, relational operators, a leading `-`, calls of the
  functions in the table, and `deffn name(params) = body` definitions. The
  resulting tree is lowered into a register machine program.
- **Homework 7's machine** executes that program. Its instructions are
  `Print`, `Val`, `VarAssign`, `VarLoad` and the five arithmetic `Compute`
  instructions over an array of registers and a stack of variable slots.

The Dafny modules follow that structure:

| module | file | what it holds |
|---|---|---|
| `Outcomes` | outcomes.dfy | `Option`, `Result` and the faults the C++ code runs into (trap, null pointer, array overrun, ...) |
| `IntMath` | int_math.dfy | C++ truncating `/` and `%`, decimal text of integers |
| `Tokens` | tokens.dfy | the token, the token list used as queue and stack, the token iterator |
| `Lexer` | lexer.dfy | the `TokenList(const char[])` scanner, as a function and as the source's loop |
| `VarTree` | var_tree.dfy | the binary-search-tree store, `lookup`, `assign`, the output operator |
| `Postfix` | postfix.dfy | Homework 4's infix-to-postfix converter and postfix evaluator |
| `PostfixExamples` | postfix_examples.dfy | precedence and grouping of the converter, and the driver's `Age=2+3*Five` |
| `ExprTree` | expr_tree.dfy | the tree datatype, operator meanings, Homework 6 `toString` |
| `NegationTree` | negation_tree.dfy | Homework 5: `toString`, `evaluate`, `makedc` with the `~` operator |
| `DcCalc` | dc_calc.dfy | the part of `dc` that `makedc` output uses, as the meaning of that output |
| `Evaluate` | evaluate.dfy | Homework 6 `evaluate`, including user function calls |
| `CallExamples` | call_examples.dfy | the Homework 6 driver's `sqr`, `abs`, `fact` |
| `Compile` | compile.dfy | Homework 7 parser, `makeFunction`, `compile` |
| `CompileExamples` | compile_examples.dfy | the driver's `deffn sqr` and `deffn fact` lines through the parser |
| `Machine` | machine.dfy | Homework 7 instructions, `execute`, `toString` and a reader of the listing |

A C++ null pointer is the `Nil` tree, and a trap, a dereference of null or
an out-of-range array index is an `Err` outcome. Integers are unbounded.

## Model

| member | source | states |
|---|---|---|
| IntMath.TDiv | Homework4/evaluate.cpp:125-127 | C++ `/` truncates toward zero: the quotient's sign is the product of the operands' signs, and `\|q\|*\|b\| <= \|a\| < (\|q\|+1)*\|b\|` |
| IntMath.TMod | Homework4/evaluate.cpp:128-130 | C++ `%` is the remainder that goes with truncating division: `a == q*b + m`, `\|m\| < \|b\|`, and `m` is zero or has the sign of `a` |
| IntMath.DigitsValueOfNatToString | Homework4/tokenlist.cpp:37-43 | the decimal digits printed for a number are read back by the digit loop as that number |
| IntMath.IntToStringInjective | Homework5/exprtree.cpp:21-26 | different integers print as different texts |
| Tokens.TokenList.PushBack | Homework4/tokenlist.cpp:109-126 | the token becomes the tail, and the head only when the list was empty; the old tokens stay in front, in order |
| Tokens.TokenList.PushFront | Homework4/tokenlist.cpp:131-143 | the token becomes the head, and the tail only when the list was empty; the old tokens follow it |
| Tokens.TokenList.PopFront | Homework4/tokenlist.cpp:146-163 | returns the head and leaves the rest; popping the last token leaves head and tail both null |
| Tokens.PopUndoesPushFront | Homework4/tokenlist.cpp:131-163 | used as a stack, the list gives back what was pushed and is then exactly as before |
| Tokens.PushBackKeepsFront | Homework4/tokenlist.cpp:109-163 | used as a queue, pushing at the back does not change which token is popped next |
| Tokens.Render | Homework4/tokenlist.cpp:84-91 | the output operator prints nothing exactly for the empty list |
| Lexer.DropSpaces | Homework4/tokenlist.cpp:31-32 | leading spaces are skipped: the result is a suffix of the input that does not start with a space, and everything dropped before it is a space |
| Lexer.DigitRun | Homework4/tokenlist.cpp:37-43 | the digit loop reads a run of digits and stops at the first non-digit |
| Lexer.WordRun | Homework4/tokenlist.cpp:50-62 | the name loop reads up to the first space, operator or end of string |
| Lexer.Tokenize | Homework4/tokenlist.cpp:22-68 | the constructor's loop appends exactly the tokens the scanner function gives, in order |
| Lexer.ScanWellFormed | Homework4/tokenlist.cpp:22-80 | every token built is a non-negative integer, a one-character operator, or a non-empty name that starts with a non-digit and holds no space or operator |
| Lexer.ScanRender | Homework4/tokenlist.cpp:22-91 | scanning the printed form of a list of well-formed tokens gives the same list back |
| Lexer.ScanDigitsFront | Homework4/tokenlist.cpp:37-43 | a maximal run of digits, leading zeros included, becomes one integer token holding the run's decimal value, whatever non-digit follows it |
| Lexer.ScanIntFront | Homework4/tokenlist.cpp:37-43 | the decimal text of a number scans back to one integer token with that number |
| Lexer.ScanOperFront | Homework4/tokenlist.cpp:44-49 | an operator character becomes one token on its own, whatever follows it |
| Lexer.ScanIdentFront | Homework4/tokenlist.cpp:50-62 | a name runs up to the next space or operator and becomes one token |
| Lexer.OperatorsStaySingle | Homework4/tokenlist.cpp:44-49 | adjacent operator characters are never merged: `==` scans as two `=` tokens |
| VarTree.LessIrreflexive | Homework6/vartree.cpp:30-37 | no name precedes itself under `std::string` `<` |
| VarTree.LessTransitive | Homework6/vartree.cpp:30-37 | the name order used by the tree is transitive |
| VarTree.LessTotal | Homework6/vartree.cpp:30-37 | two names neither of which precedes the other are equal, so the search finds the node of an equal name |
| VarTree.Access | Homework6/vartree.cpp:19-42 | the search keeps the tree ordered, reads the stored value or 0 for a missing name, inserts a missing name, and changes only that name |
| VarTree.Lookup | Homework6/vartree.cpp:50-54 | a stored name reads its value and leaves the tree as it was; a missing name reads 0 and is inserted with value 0 |
| VarTree.Assign | Homework6/vartree.cpp:62-66 | afterwards the name holds the value and every other name keeps its value |
| VarTree.LookupAfterAssign | Homework6/vartree.cpp:50-66 | a lookup after an assignment reads the assigned value |
| VarTree.OthersUntouched | Homework6/vartree.cpp:50-66 | neither lookup nor assign adds, removes or changes any other name |
| VarTree.InOrderIsContents | Homework6/vartree.cpp:87-98 | the in-order walk lists exactly the stored name/value pairs |
| VarTree.InOrderSorted | Homework6/vartree.cpp:87-98 | the in-order walk is strictly increasing by name |
| VarTree.SortedUnique | Homework6/vartree.cpp:87-98 | two strictly sorted listings of the same pairs are equal |
| VarTree.RenderDependsOnContentsOnly | Homework6/vartree.cpp:69-98 | the printed store depends only on what is stored, not on the order the names were inserted in |
| VarTree.RenderIsSortedEntries | Homework6/vartree.cpp:69-98 | the printed store is `{ `, each stored `name=value ` in increasing name order, then `}` |
| Postfix.IntIsOperand | Homework4/evaluate.cpp:254-258 | a number token is never taken for an operator |
| Postfix.AssignmentBalanced | Homework4/evaluate.cpp:154-244 | every successful conversion emits a postfix list that pushes exactly one value and uses only operands and the operators the evaluator knows |
| Postfix.ConvertedRunsClean | Homework4/evaluate.cpp:42-146 | on what the converter produces, the evaluator never pops an empty stack and never reaches its `default:` case; the only possible failure is a division by zero |
| Postfix.RunAppend | Homework4/evaluate.cpp:66-135 | evaluating two postfix lists one after the other is evaluating their concatenation |
| Postfix.EvaluatePostfix | Homework4/evaluate.cpp:59-146 | the loop over the token list, the final pop and lookup compute the functional evaluation |
| Postfix.OperandValue | Homework4/evaluate.cpp:75-78 | an integer operand is its value; a name is looked up, and a missing one is created with 0 |
| Postfix.StepAssign | Homework4/evaluate.cpp:82-96 | `=` assigns the top value to the name below it and leaves the value on the stack |
| Postfix.StepArith | Homework4/evaluate.cpp:97-134 | a binary operator pops two values, looks up the lower one first, and pushes the result of applying it in that order |
| Postfix.LoopsStop | Homework4/evaluate.cpp:154-222 | each operator loop of the converter ends at a token that does not continue it |
| Postfix.ChainedAssignConverts | Homework4/evaluate.cpp:154-174 | `C=D=A` converts to `C D A = =`: `=` groups to the right |
| Postfix.ChainedAssignEvaluates | Homework4/driver.cpp:19-20 | `C=D=A` with `A` holding 5 gives 5 and leaves `C` and `D` holding 5 |
| Postfix.ParenAssignConverts | Homework4/evaluate.cpp:182-244 | `x=l+(y=k)` converts to `x l y k = + =`: a parenthesised assignment is one factor |
| Postfix.ParenAssignRuns | Homework4/evaluate.cpp:82-134 | in `x l y k = + =` the inner assignment runs before the left operand of `+` is read |
| Postfix.ParenthesisedAssignEvaluates | Homework4/driver.cpp:15-16 | `A=3+(B=2)` gives 5 and leaves `B` holding 2 and `A` holding 5 |
| Postfix.ReadAfterAssignEvaluates | Homework4/driver.cpp:21-22 | `E=F+(F=1)` gives 2 whatever the store held: `F` is read only after `F=1` ran; `F` then holds 1 and `E` holds 2 |
| PostfixExamples.ProductInsideSum | Homework4/evaluate.cpp:182-222 | `a + b * c` converts to `a b c * +`: products bind tighter than sums |
| PostfixExamples.ProductBeforeSum | Homework4/evaluate.cpp:182-222 | `a * b + c` converts to `a b * c +` |
| PostfixExamples.SumsGroupLeft | Homework4/evaluate.cpp:182-202 | `a - b + c` converts to `a b - c +`: `+` and `-` group to the left |
| PostfixExamples.ProductsGroupLeft | Homework4/evaluate.cpp:210-222 | `a / b * c` converts to `a b / c *`: `*`, `/` and `%` group to the left |
| PostfixExamples.LeadingMinusNegatesSum | Homework4/evaluate.cpp:154-174 | a `-` at the start of a line negates the whole sum after it: `-a+b` converts to `a b + ~` |
| PostfixExamples.SecondMinusNegatesProduct | Homework4/evaluate.cpp:182-202 | `--a+b` converts to `a ~ b + ~`: a second leading `-` negates only the first product |
| PostfixExamples.LeadingMinusEvaluates | Homework4/evaluate.cpp:42-81 | `-a+b` evaluates to `-(a+b)` and leaves the store alone |
| PostfixExamples.AgeLineScans | Homework4/driver.cpp:13 | the driver's text `Age = 2+3*Five` scans to the seven tokens the conversion examples start from |
| PostfixExamples.AssignSumProductScans | Homework4/tokenlist.cpp:22-68 | any line `n = a+b*k`, for names `n` and `k` and digit runs `a` and `b`, scans to its seven tokens |
| PostfixExamples.AgeLineConverts | Homework4/driver.cpp:13 | `Age=2+3*Five` converts to `Age 2 3 Five * + =` |
| PostfixExamples.AgeLineEvaluates | Homework4/driver.cpp:13-14 | with `Five` holding 5, `Age=2+3*Five` gives 17 and only `Age` changes, to 17 |
| ExprTree.Apply | Homework6/exprtree.cpp:76-118 | arithmetic fails exactly for `/` or `%` by zero, with a divide trap; a comparison always gives 0 or 1 |
| ExprTree.ApplyCharIsApply | Homework4/evaluate.cpp:115-131 | the postfix evaluator's character switch computes the same as the tree's string operators |
| ExprTree.RelationalMeaning | Homework6/exprtree.cpp:96-118 | a comparison yields 1 exactly when it holds, and 0 otherwise |
| ExprTree.Filled | Homework6/exprtree.cpp:197 | the arguments a call prints are its slots up to the first null one, at most ten |
| ExprTree.ArgsTextIsJoin | Homework6/exprtree.cpp:197-202 | the corrected argument list prints each argument in parentheses, with a comma between neighbours |
| ExprTree.FullCallOverruns | Homework6/exprtree.cpp:197-201 | with all ten argument slots filled, the loop as written reads slot ten, past the array |
| ExprTree.TenArgumentsOverrun | Homework6/exprtree.cpp:197-201 | `f(1,1,1,1,1,1,1,1,1,1)` reaches the overrun |
| ExprTree.AsWrittenAgreesBelowTen | Homework6/exprtree.cpp:197-202 | with fewer than ten arguments the loop as written prints what the corrected one prints |
| NegationTree.NegationMeaning | Homework5/exprtree.cpp:74-76 | `~` negates its left operand and never looks at the right one |
| NegationTree.ToStringOmitsNullRight | Homework5/exprtree.cpp:58-70 | an operation with a null right operand prints its left operand and operator only |
| NegationTree.ToStringVersionsAgree | Homework5/exprtree.cpp:21-70 | Homework 5 and Homework 6 print every tree both can print the same way |
| NegationTree.EvalVersionsAgree | Homework5/exprtree.cpp:28-192 | on trees without null operands, calls or `~`, Homework 5 evaluates exactly as Homework 6 does |
| NegationTree.MakedcMatchesEval | Homework5/exprtree.cpp:33-181 | running the `dc` program `makedc` writes for a tree of arithmetic, `=`, variables, non-negative numbers and `~` pushes the tree's value and leaves registers that agree with the store the evaluation leaves, provided no two names share a first letter; `~` of anything but a number is translated as `0`, the operand and `-` |
| NegationTree.NegatedNumberAsWritten | Homework5/exprtree.cpp:141-148 | for a negated number the translation is the source's `_` text |
| NegationTree.NegatedVariableMisreads | Homework5/exprtree.cpp:141-148 | `-x` evaluates to minus the value of `x`, but `dc` reads the source's `_lx` as the number 0 followed by a load of `x`, leaving `x`'s own value on top |
| NegationTree.NegatedSumMisreads | Homework5/exprtree.cpp:141-148 | the source's code for `-(a+b)` leaves `b - a` instead of `-(a+b)` |
| NegationTree.SharedRegisterMisreads | Homework5/exprtree.cpp:50-55 | names with one first letter share a register, so `(x=v)+y` with `y` undefined evaluates to `v` but its code leaves `2v` |
| NegationTree.AgreeAfterAssign | Homework5/exprtree.cpp:135-181 | assigning a name and its one-letter `dc` register together keeps store and registers in agreement |
| NegationTree.TrueTestIgnoresFalseBranch | Homework5/exprtree.cpp:189-192 | a conditional with a non-zero test is its true branch; the false branch is never evaluated |
| NegationTree.FalseTestIgnoresTrueBranch | Homework5/exprtree.cpp:189-192 | a conditional with a zero test is its false branch; the true branch is never evaluated |
| NegationTree.ReadBeforeAssign | Homework5/driver.cpp:22-23 | `E=F+(F=1)` with `F` undefined gives 1: the left `F` is read, as 0, before `F=1` runs |
| NegationTree.AssignInsideSum | Homework5/driver.cpp:24-25 | `E=(F=1)+1` gives 2 and leaves `F` holding 1 and `E` holding 2 |
| NegationTree.ChainedAssign | Homework5/driver.cpp:20-21 | `C=D=A` with `A` holding 5 gives 5 and leaves `C` and `D` holding 5 |
| DcCalc.RunNumber | Homework5/exprtree.cpp:33-36 | the text `makedc` writes for a number pushes that number |
| DcCalc.RunNegativeNumber | Homework5/exprtree.cpp:135-181 | `_` and a number push the negated number |
| DcCalc.RunLoad | Homework5/exprtree.cpp:50-55 | `l` and a register letter push the register |
| DcCalc.RunStore | Homework5/exprtree.cpp:135-181 | `s` and a register letter pop the top into the register |
| DcCalc.RunOperator | Homework5/exprtree.cpp:135-181 | an operator character replaces the two topmost values by its result |
| Evaluate.Arity | Homework6/exprtree.cpp:215 | the parameter loop runs over the slots up to the first empty name, at most ten |
| Evaluate.EvalArgs | Homework6/exprtree.cpp:215-216 | evaluating the arguments of a call gives one value per parameter |
| Evaluate.BindParamsNames | Homework6/exprtree.cpp:212-216 | the local store of a call holds the parameter names and nothing else |
| Evaluate.BindArgsSplits | Homework6/exprtree.cpp:215-216 | the parameter loop is argument evaluation in the caller's store followed by binding in the local store; the two stores never meet |
| Evaluate.CallScope | Homework6/exprtree.cpp:209-224 | a call evaluates its arguments in the caller's store, runs the body in a store holding only the parameters, and the body cannot change the caller's store |
| Evaluate.CallSeesOnlyArguments | Homework6/exprtree.cpp:209-224 | two callers whose arguments have the same values get the same result, whatever else their stores hold |
| Evaluate.GlobalReadsZero | Homework6/exprtree.cpp:212-218 | a name the body reads that is not a parameter reads as 0, even when the caller's store defines it |
| Evaluate.LeafMeaning | Homework6/exprtree.cpp:28-48 | a value is its constant; a variable reads its name, creating it with 0 when missing |
| Evaluate.AssignMeaning | Homework6/exprtree.cpp:69-74 | `=` stores its right side's value under the text of its left side, whatever node that is, and yields the value |
| Evaluate.AssignToNumber | Homework6/exprtree.cpp:69-74 | `3 = 4` stores 4 under the name `3` |
| Evaluate.RelationalIsBoolean | Homework6/exprtree.cpp:96-118 | a comparison evaluates both operands, left first, and yields 1 exactly when the comparison of their values holds, else 0 |
| Evaluate.UnknownOperatorIsZero | Homework6/exprtree.cpp:120-123 | an operator the evaluator does not know yields 0 without evaluating either operand |
| Evaluate.TrueTestIgnoresFalseBranch | Homework6/exprtree.cpp:180-183 | a conditional with a non-zero test is its true branch, whatever the false branch is |
| Evaluate.FalseTestIgnoresTrueBranch | Homework6/exprtree.cpp:180-183 | a conditional with a zero test is its false branch, whatever the true branch is |
| Evaluate.FuelOnlyBoundsDepth | Homework6/exprtree.cpp:209-224 | the bound on nested calls only cuts evaluations off: one that finished gives the same outcome with any larger bound |
| CallExamples.OneArgCall | Homework6/exprtree.cpp:209-224 | a one-parameter call runs its body in a store holding just that parameter and returns to the caller's store as the argument left it |
| CallExamples.FactComputes | Homework6/driver.cpp:41 | `fact` computes the factorial of its argument's value |
| CallExamples.FactOfFive | Homework6/driver.cpp:59 | `fact(5)` gives 120 and leaves the store alone |
| CallExamples.SqrOfFive | Homework6/driver.cpp:50 | `sqr(5)` gives 25 |
| CallExamples.AbsComputes | Homework6/driver.cpp:38 | `abs` gives the absolute value of its argument's value |
| CallExamples.ThreeIsAbsOfMinusThree | Homework6/driver.cpp:53 | `Three = abs(-3)` gives 3 and leaves `Three` holding 3 |
| Compile.TokenText | Homework7/compile.cpp:406-412 | past the end of the input the text is empty, a non-empty text comes from a token inside the list, and an operator token's text is its symbol |
| Compile.FactorToTree | Homework7/compile.cpp:332-387 | a factor at the end of the input is null and consumes nothing; elsewhere it consumes at least one token |
| Compile.CallArgs | Homework7/compile.cpp:344-365 | a call always has ten argument slots |
| Compile.ParamList | Homework7/compile.cpp:95-106 | the parameter loop reads names up to `)` and fails only by writing past the ten-slot array |
| ExprTree.PadParams | Homework7/compile.cpp:109-110 | the unused parameter slots hold the empty name |
| Compile.MakeFunction | Homework7/compile.cpp:79-124 | a definition enters its name in the table, replacing any earlier entry, with ten parameter slots, and leaves every other entry alone (what the slots and the body hold is stated by `Compile.MakeFunctionDefines`) |
| Compile.Compile | Homework7/compile.cpp:47-77 | a `deffn` line changes only the function table; any other line fails exactly when it parses to a null tree, and otherwise appends the lowered code and one `Print` of the answer register, and the program then starts at 0 |
| Compile.BlankLineFails | Homework7/compile.cpp:61-69 | a blank line parses to a null tree, and compiling it fails where the source lowers through the null root |
| Compile.CompiledLinePrintsAnswer | Homework7/compile.cpp:61-73 | a compiled line runs the earlier program and the lowered code, then appends the answer register's value to the console |
| Compile.ProductInsideSum | Homework7/compile.cpp:257-323 | `a + b * c` parses as `a + (b * c)` |
| Compile.ProductBeforeSum | Homework7/compile.cpp:257-323 | `a * b + c` parses as `(a * b) + c` |
| Compile.SumsGroupLeft | Homework7/compile.cpp:257-289 | `a - b + c` parses as `(a - b) + c` |
| Compile.ProductsGroupLeft | Homework7/compile.cpp:297-323 | `a / b * c` parses as `(a / b) * c` |
| Compile.TestsGroupLeft | Homework7/compile.cpp:216-248 | `a < b == c` parses as `(a < b) == c` |
| Compile.AssignmentsGroupRight | Homework7/compile.cpp:132-164 | `a = b = c` parses as `a = (b = c)` |
| Compile.ConditionalsChain | Homework7/compile.cpp:172-208 | in `t ? a : b ? c : d` the first conditional is the test of the second |
| Compile.BranchesAreTests | Homework7/compile.cpp:172-208 | branches are tests, so in `t ? a : b = c` the `=` assigns to the whole conditional |
| Compile.LeadingMinusNegatesAll | Homework7/compile.cpp:132-164 | a `-` at the start of a line negates everything after it: `-a+b` is `-(a+b)` |
| Compile.MinusAfterOperator | Homework7/compile.cpp:372-376 | after a binary operator, `-` negates the next factor only |
| Compile.MinusStartsSum | Homework7/compile.cpp:257-289 | after a relational operator, `-` negates only the first product of the sum |
| Compile.ParenthesisedFactor | Homework7/compile.cpp:377-382 | an operator other than `-` in factor position opens a nested assignment, and the token after it is skipped as `)` |
| Compile.AssumedParensAtEnd | Homework7/compile.cpp:377-385 | neither parenthesis is checked: an operator before an assignment that reaches the end of input makes it the whole factor |
| Compile.CallArgsClosed | Homework7/compile.cpp:344-365 | once `)` is reached every remaining argument slot is null |
| Compile.TwoArgumentCall | Homework7/compile.cpp:344-365 | a name in the function table followed by `(a, b)` is a call with those two arguments and eight null slots |
| Compile.NameOutsideTableIsVariable | Homework7/compile.cpp:366-369 | a name not in the function table is a variable |
| Compile.ParamListReads | Homework7/compile.cpp:95-106 | the parameter loop reads the names of the list in order, and fails exactly when there are more than ten |
| Compile.MakeFunctionDefines | Homework7/compile.cpp:79-124 | `deffn name(params) body` defines `name` with those parameters and the body parsed with `name` already in the table |
| CompileExamples.SqrLineDefinesSqr | Homework6/driver.cpp:35 | `deffn sqr(x)=x*x` defines `sqr` as `x * x` of its parameter |
| CompileExamples.SqrLineCompiles | Homework7/compile.cpp:47-60 | the `deffn sqr` line emits no code and only adds `sqr` to the function table |
| CompileExamples.FactLineDefinesFact | Homework6/driver.cpp:41 | `deffn fact(n)=n<=1?1:n*fact(n-1)` defines `fact` with its recursive call parsed as a call |
| Machine.Symbol | Homework7/machine.h:96-134 | each arithmetic instruction uses one of the tree's arithmetic operators |
| Machine.SymbolInjective | Homework7/machine.h:96-134 | the five arithmetic instructions have five different symbols |
| Machine.Execute | Homework7/machine.cpp:34-105 | an instruction fails exactly when it indexes outside the register or slot arrays or divides by zero; `Print` only appends to the console (what each instruction writes, and that it writes nothing else, is stated by `Machine.ValSets`, `Machine.VarLoadSets`, `Machine.VarAssignSets`, `Machine.ComputeSets` and `Machine.PrintChangesNothing`) |
| Machine.ValSets | Homework7/machine.cpp:46-49 | `Val` sets its register to the constant and changes nothing else |
| Machine.VarLoadSets | Homework7/machine.cpp:70-73 | `VarLoad` copies a slot into a register and changes nothing else |
| Machine.VarAssignSets | Homework7/machine.cpp:58-61 | `VarAssign` copies a register into a slot and changes nothing else |
| Machine.ComputeSets | Homework7/machine.cpp:82-105 | an arithmetic instruction sets its target register to the result of its operator on its two source registers |
| Machine.PrintChangesNothing | Homework7/machine.cpp:34-37 | `Print` appends its register's value to the console and changes nothing else |
| Machine.StoreLoadRoundTrip | Homework7/machine.cpp:58-73 | storing a register into a slot and loading that slot into another register copies the first register into the second |
| Machine.LoadStoreKeepsStack | Homework7/machine.cpp:58-73 | loading a slot and storing it back leaves the stack as it was |
| Machine.RunAppend | Homework7/machine.h:21-34 | running two programs one after the other is running their concatenation |
| Machine.RunFrame | Homework7/machine.cpp:34-105 | no instruction moves the stack pointer or program counter, and a program without `Print` leaves the console alone |
| Machine.RunProgram | Homework7/machine.h:21-34 | the execute loop from `pBegin` to `pEnd` computes the functional run of that slice |
| Machine.DecodeToString | Homework7/machine.cpp:27-80 | every listing line reads back as the instruction that printed it, so different instructions print different lines |

## Left out

- Console and file I/O, the drivers' `main` and `cout`, and the interactive input lines are left out; the driver lines appear only as the examples above.
- Pointers, heap allocation and deletion, and the linked-list and tree node links are left out. Lists are sequences and trees are datatypes, so a leaked or shared node cannot be expressed.
- The token header `tokenlist.h`, `vartree.h`, `evaluate.h`, `compile.h` and `funmap.h` are not part of this model. The token, the iterator and the function table are modelled from how the `.cpp` files use them.
- Homework 7's `toInstruction` (the lowering of a tree to machine code) is not part of this model. `Compile.Compile` takes it as a parameter.
- Homework 5's and Homework 6's own parsers are not part of this model. Trees are built directly, or by the Homework 7 parser.
- `int` is unbounded. 32-bit overflow of `+`, `-`, `*`, of `atoi` on long digit runs, and of `INT_MIN / -1` is not modelled.
- Operand evaluation order is left to right, as the source's statements order it. Where C++ leaves the order of `a->evaluate(v) + b->evaluate(v)` unspecified, the left operand is taken first.
- Evaluate.Eval: user function calls carry a fuel bound. A call with no fuel left gives `OutOfFuel`, so an unbounded recursion is cut off instead of looping; `FuelOnlyBoundsDepth` shows the bound changes no finished result.
- Function definitions that are never given a body (`funs[name]` default-constructed by a call of an unknown name) give `UnknownFunction` instead of dereferencing a null body.
- Homework 6 `Function::makedc` returns a fixed "Functions not supported" text; that text is left out, and `makedc` is not defined on call nodes. The comparison and conditional "not supported" texts are reproduced word for word, but they are given no `dc` meaning.
- NegationTree.MakedcMatchesEval: proved only for arithmetic, `=`, variables, non-negative numbers and `~`. The comparison and conditional texts `makedc` writes are not given a `dc` meaning. Negative number values are left out because `makedc` writes them with `-`, which `dc` reads as subtraction. The lemma requires that no two names share a first letter: `makedc` names a variable's register by that letter alone, so such names share one register and their code misreads (`NegationTree.SharedRegisterMisreads`). `~` follows the corrected translation (see Findings).
- DcCalc: models only the `dc` commands `makedc` emits (numbers, `_`, `l`, `s`, `+ - * / %`, spaces); `dc` is an external program.
- Tokens: reading the text past the end of the token list gives the empty text, as `tokenText` does at `end()` (Homework7/compile.cpp:406-412). That the character there is NUL and that advancing there stays put are assumptions of the model: the iterator's code is not part of this model.
- Postfix.Step: the evaluator's `default:` case prints a message and pushes an uninitialised value. The model gives `Err(UnknownOperator)` there instead, and `ConvertedRunsClean` shows converted input never reaches it.
- Postfix.Step: `pop_front` on an empty list dereferences null in the source. The model gives `Err(StackUnderflow)`.
- Tokens.TokenList.PopFront requires a non-empty list, because the source dereferences `head` unchecked; the evaluator's uses go through a checked pop.
- An out-of-range register, slot or parameter index, undefined behaviour in the source, is `Err(ArrayOverrun)` or `Err(TooManyParameters)`.
- NegationTree.Makedc models both Homework 5 and Homework 6 `makedc`, which are the same code, except for the corrected `~` (see Findings).
- DcCalc.Run: loading a register that was never stored gives `Err(NoRegister)`, where `dc` reads 0. The model's proofs only load registers the program stored or the store agrees on, so they never depend on that case.
- Evaluate.Eval: `=` files the value under the corrected `ToString`. For a call with all ten argument slots filled on its left, the source's `toString` reads past the argument array instead (see Findings).
- Postfix.Factor: reading past the last token gives `Err(EndOfInput)`. The source calls `token()` on the end iterator unchecked, so input that ends mid-expression is undefined behaviour there.
- `FunDef` local variables beyond the parameters, and the machine's use of `stackPointer` and `programCounter`, which no instruction changes, are not modelled further.

## Findings

| source | as written | input that shows it | evidently intended | confidence | as-written member | corrected member |
|---|---|---|---|---|---|---|
| Homework6/exprtree.cpp:197-201 | after printing argument `i`, `Function::toString` tests `params[i+1]` to decide on a comma; for `i == 9` that is `params[10]`, one past the ten-slot array | a call with ten arguments, `f(1,1,1,1,1,1,1,1,1,1)` | a comma between neighbouring arguments, and no read past the array | not executed | ExprTree.FullCallOverruns | ExprTree.ArgsTextIsJoin |
| Homework5/exprtree.cpp:141-148 | `makedc` writes `~` as `_` before the operand's code; `dc` reads `_` only as the sign of a number literal, so the result is right only for a negated number | `-A` gives `_lA`, which `dc` reads as 0 and then A, leaving A instead of -A on top; `-(1+2)` gives `_1 2 +`, which leaves 1 instead of -3 | `dc` code that pushes the operand's negation, for instance `0`, the operand and `-` | not executed | NegationTree.NegatedVariableMisreads | NegationTree.MakedcMatchesEval |
