# Propositional-logic engine of the truth-table and circuit pages

A Dafny model of the logic core behind two browser scripts. They are two
independent implementations of the same idea.

- `script.js` turns an expression over declared variables into a truth table.
  1. It checks its inputs.
  2. It tokenizes the expression.
  3. A shunting-yard pass converts the tokens to postfix.
  4. A stack evaluator computes the postfix.
  5. Separately, it collects the innermost parenthesised groups as display
     columns and enumerates the 2^n assignments, first variable slowest.
- `script2.js` works differently.
  1. It rewrites operator aliases (`~`, `&&`, `->`, …) to canonical symbols.
  2. Its recursive evaluator strips enclosing parentheses and splits at the
     loosest top-level connective.
  3. It enumerates rows from the bits of the row index.
  4. It classifies the result column as tautology, contradiction or
     contingency.
  5. It builds a gate tree (gates, connections and per-type counts) for the
     circuit diagram.

The model is functional throughout:
- The data are datatypes: `Token`, `Expr`, `Gate`, `Conn` and `Circuit`.
- Every operation is a pure function.
- Where the original throws, the model returns a `Result`.
- Where the original goes on computing with `undefined`, the model returns
  an `Option`.

The modules follow the program's structure:
- `Operators`: the operator table.
- `Tokenizer`, `ShuntingYard`, `StackEvaluator`, `Parens`, `Combinations`,
  `SubExpressions` and `TruthTable`: `script.js`.
- `Aliases`, `SplitEvaluator`, `BitTable` and `GateBuilder`: `script2.js`.

The rest hold the proofs:
- `ShuntingCorrect` and `TableCorrect`: end-to-end correctness of the
  `script.js` pipeline on fully parenthesised input.
- `ShuntingMin`: the same pipeline on text written with the fewest
  parentheses the operator table allows, where precedence and grouping
  decide every pop. `TableCorrect` carries that form to the table too.
- `Printer`: a minimal-parenthesis printer. It is used to prove that the
  `script2.js` evaluator reads precedence and grouping correctly.
- `GateFacts`: structural invariants of the gate builder.
- `GateValue`: what the circuit computes, including the finding below.

## Model

| member | source | states |
|---|---|---|
| Operators.Prec | script.js:3-10 | The `prec` column of the operator table. No contract of its own; specified by ShuntingMin.ShuntMin and ShuntingMin.TwoConnectives, which show it deciding every pop. |
| Operators.LeftAssoc | script.js:3-10 | The `assoc` column of the operator table. No contract of its own; specified by ShuntingMin.ShuntMin and ShuntingMin.TwoConnectives, which show it deciding how chains group. |
| Operators.Apply | script.js:3-10 | The `fn` column of the operator table. No contract of its own; specified by ShuntingCorrect.RunPostfix, ShuntingMin.EvaluatesMin and GateValue.GateMapApply. |
| Operators.SymbolOp | script.js:3-10 | A character is a key of the operator table exactly when it is the symbol of one operator, and then it maps to that operator alone. |
| Tokenizer.Tokenize | script.js:134 | The global regex match of one operator or parenthesis symbol, or a run of ASCII letters. No contract of its own; specified by Tokenizer.TokenizeSpec, Tokenizer.MaximalRuns, Tokenizer.TokenizeAppend, Tokenizer.DroppedSeparates and Tokenizer.TokenizeTexts. |
| Tokenizer.LetterRun | script.js:134 | The `[A-Za-z]+` alternative matches a maximal run of letters: every character before the returned length is a letter, and the next one is not. |
| Tokenizer.TokenizeSpec | script.js:134 | Concatenating the token texts gives the input with every character outside `∧∨¬→△↔()` and the letters dropped. Every variable token is a non-empty run of letters. |
| Tokenizer.MaximalRuns | script.js:134 | On input that has no dropped characters, no two variable tokens are adjacent, so every letter run is one token. |
| Tokenizer.TokenizeAppend | script.js:134 | Text that is empty or starts with a non-letter is tokenized apart from the text before it: the tokens of the join are the tokens of the two parts. |
| Tokenizer.DroppedSeparates | script.js:134 | A dropped character is a token boundary: no token spans it, so `p q` and `p1q` give two variables. |
| Tokenizer.TokenizeTexts | script.js:134 | A token list with no two adjacent variables is recovered from the concatenation of its texts, so the tokenization of such text is unique. |
| ShuntingYard.PopWhile | script.js:138-144 | The operator-pop loop. No contract of its own; specified by ShuntingYard.PopWhileSpec and ShuntingMin.PopPending. |
| ShuntingYard.PopToParen | script.js:149-151 | The pop loop on `)`. No contract of its own; specified by ShuntingYard.PopToParenSpec and ShuntingMin.PopPendingToOpen. |
| ShuntingYard.Step | script.js:136-156 | One iteration of the main loop. No contract of its own; specified by ShuntingYard.StepSpec, StepOpen, StepVar, StepOperator and StepClose. |
| ShuntingYard.Scan | script.js:136-156 | The main loop over the tokens. No contract of its own; specified by ShuntingYard.ScanKeepsTokens, ScanClosesParens, BalancedEmptiesStack, ShuntingCorrect.ScanRendered and ShuntingMin.ScanMin. |
| ShuntingYard.Flush | script.js:158-160 | The final flush of the stack. No contract of its own; specified by ShuntingYard.FlushSpec and ShuntingMin.FlushPending. |
| ShuntingYard.Shunt | script.js:130-163 | The postfix output never contains `)`. On balanced input it contains no `(`. Variable tokens keep their input order, and the output holds exactly the input's operator tokens as a multiset. |
| ShuntingYard.PopWhileSpec | script.js:138-144 | The operator-pop loop keeps the stack made of operators and `(`. It moves operators from stack to output without losing or adding any, and adds no variables. |
| ShuntingYard.PopToParenSpec | script.js:149-151 | Popping to `(` stops at a `(` when one is on the stack. It keeps variables and operators, and leaves the count of open parentheses alone. |
| ShuntingYard.StepOpen | script.js:146-147 | A `(` is pushed: one more open parenthesis, and output and operators are unchanged. |
| ShuntingYard.StepVar | script.js:153-154 | A variable is appended to the output and nothing else changes. |
| ShuntingYard.StepOperator | script.js:137-145 | An operator token adds exactly that operator to the operators held in output and stack, and moves no variable. |
| ShuntingYard.StepClose | script.js:148-152 | A `)` discards one `(` when one is open, and keeps variables and operators. |
| ShuntingYard.StepSpec | script.js:136-156 | One loop iteration keeps the stack invariant, appends the token's variables to the output, and adds its operators to those held in output and stack. |
| ShuntingYard.DropParen | script.js:152 | Discarding the `(` found on top lowers the open count by one and loses no operator. |
| ShuntingYard.ScanKeepsTokens | script.js:136-156 | After the main loop, the output's variables are those of the input in order. The output and stack together hold the input's operators. |
| ShuntingYard.ScanClosesParens | script.js:136-156 | If no prefix closes more parentheses than it opens, then open parentheses left on the stack equal opens minus closes. |
| ShuntingYard.BalancedEmptiesStack | script.js:136-156 | On balanced tokens the loop leaves no `(` on the stack. |
| ShuntingYard.FlushSpec | script.js:158-160 | The final flush moves the whole stack to the output, adds no `)` and keeps variables and operators. When no `(` is left, it adds no `(`. |
| StackEvaluator.Run | script.js:110-124 | The evaluation loop over the postfix tokens. No contract of its own; specified by StackEvaluator.RunHeight and ShuntingCorrect.RunPostfix. |
| StackEvaluator.EvaluateParsedExpression | script.js:106-127 | `evaluateParsedExpression`. No contract of its own; specified by StackEvaluator.EvalPostfix, ShuntingCorrect.EvaluatesRendered and ShuntingMin.EvaluatesMin. |
| StackEvaluator.RunHeight | script.js:110-124 | The evaluation loop yields a stack iff every pop finds enough values, no parenthesis token appears and every variable has a value. The stack then has the predicted height. |
| StackEvaluator.EvalPostfix | script.js:106-127 | On well-formed postfix over bound variables, exactly one value remains, and `stack[0]` is returned. |
| ShuntingCorrect.TokenizeRendered | script.js:134 | The tokens of a fully parenthesised rendering of a tree, followed by text not starting with a letter, are the tree's tokens followed by the text's tokens. |
| ShuntingCorrect.ScanRendered | script.js:136-156 | Scanning a tree's tokens appends the tree's postfix to the output and leaves the stack as it was. |
| ShuntingCorrect.ShuntRendered | script.js:130-163 | `shuntingYard` on a tree's tokens yields operands first and operator last, recursively. |
| ShuntingCorrect.RunPostfix | script.js:110-124 | Evaluating a tree's postfix pushes the tree's value and leaves the stack below it untouched. |
| ShuntingCorrect.EvaluatesRendered | script.js:106-163 | `evaluateParsedExpression` of a fully parenthesised rendering returns the tree's value. |
| ShuntingMin.TokenizeMin | script.js:134 | The text of a tree with the fewest parentheses tokenizes to that text's tokens. |
| ShuntingMin.PopPending | script.js:138-144 | An incoming operator pops, top first, every pending operator that binds more tightly (or as tightly, when it groups to the left), and stops at the first that does not. |
| ShuntingMin.PopPendingToOpen | script.js:149-151 | A `)` pops the operators above its `(`, top first, and stops at the `(`. |
| ShuntingMin.FlushPending | script.js:158-160 | The final flush appends the stack top first. |
| ShuntingMin.ScanMin | script.js:136-156 | Reading the minimal text of a subtree outputs its postfix up to the operators still pending on the stack, and never pops the operator it was read under. |
| ShuntingMin.ShuntMin | script.js:130-163 | `shuntingYard` on the minimal tokens of a tree yields the tree's postfix: ¬ binds tightest, then ∧, then ∨ and △, then → and ↔, with → grouping to the right and the others to the left. |
| ShuntingMin.ShuntText | script.js:130-163 | The same from the text itself. |
| ShuntingMin.EvaluatesMin | script.js:106-163 | `evaluateParsedExpression` of the minimal text of a tree returns the tree's value. |
| ShuntingMin.TwoConnectives | script.js:138-144 | With two connectives between three names, the first is applied first iff it binds more tightly, or as tightly while the second groups to the left: `p∧q∨r` is `(p∧q)∨r`, `p→q→r` is `p→(q→r)`, `p↔q↔r` is `(p↔q)↔r`, `p→q↔r` is `(p→q)↔r` and `p↔q→r` is `p↔(q→r)`. |
| Parens.AreParenthesesBalanced | script.js:229-237 | `areParenthesesBalanced`, with braces counting as parentheses. No contract of its own; specified by Parens.BalanceLoopSpec, Parens.ParenthesesBalancedIff and Parens.BalanceReplaceBraces. |
| Parens.ReplaceBraces | script.js:39 | The brace replacement keeps the length; its full meaning is given by Parens.ReplaceBracesSpec and Parens.DepthReplaceBraces. |
| Parens.BalanceLoopSpec | script.js:229-237 | The loop from index i returns true iff no later prefix has negative depth and the total depth is 0. |
| Parens.ParenthesesBalancedIff | script.js:229-237 | `areParenthesesBalanced` holds iff no prefix closes more than it opens and the whole string is balanced. `{`/`}` count as `(`/`)`. |
| Parens.ReplaceBracesSpec | script.js:39 | After the rewrite no `{` or `}` is left and every other character is unchanged. The rewrite is idempotent. |
| Parens.DepthReplaceBraces | script.js:39 | Replacing braces by parentheses keeps the depth. |
| Parens.BalanceReplaceBraces | script.js:39-41 | The balance check gives the same answer before and after brace replacement. |
| Combinations.OrderedRow | script.js:212-215 | Each combination has one entry per variable. |
| Combinations.OrderedCombinations | script.js:204-221 | There are 2^n rows, each of length n. |
| Combinations.RowSplit | script.js:213-214 | A row over n+1 variables is the row of ⌊r/2⌋ over n variables followed by whether r is even. |
| Combinations.RowNumberOfRow | script.js:209-218 | Reading a row back as a number gives r mod 2^n. |
| Combinations.RowOfRowNumber | script.js:209-218 | Every boolean row is the row of its own number, the inverse of the above. |
| Combinations.RowsDistinct | script.js:209-218 | Distinct row indices below 2^n give distinct rows. |
| Combinations.RowsComplete | script.js:204-221 | Every assignment of n booleans occurs in the table, at its row number. |
| Combinations.FirstRowAllTrue | script.js:213-214 | Row 0 is all true. |
| Combinations.LastRowAllFalse | script.js:213-214 | The last row is all false. |
| Combinations.AllFalseIsLast | script.js:213-214 | A row is the last one iff all its entries are false. |
| Combinations.FirstVariableSlowest | script.js:213-214 | The first variable is true exactly in the first half of the rows. |
| Combinations.LastVariableFastest | script.js:213-214 | The last variable alternates and is true on even rows. |
| Combinations.Context | script.js:66-67 | The context has exactly the declared variables as keys. |
| Combinations.ContextValue | script.js:66-67 | A variable's value is the row entry at its last occurrence, since a later duplicate overwrites. |
| SubExpressions.InnerGroups | script.js:181-185 | The `exec` loop of the group regex. No contract of its own; specified by SubExpressions.InnerGroupsSound and SubExpressions.InnerGroupsComplete. |
| SubExpressions.Columns | script.js:168-195 | The `subExpressions` list of `parseExpression`. No contract of its own; specified by SubExpressions.ColumnsSpec. |
| SubExpressions.InnerGroupsSound | script.js:181-185 | Every collected group is a `(`, a non-empty run without parentheses and a `)`, and it occurs in the text. |
| SubExpressions.InnerGroupsComplete | script.js:181-185 | Every occurrence of such a group in the text is collected. |
| SubExpressions.Atomics | script.js:188-191 | The atomic columns are exactly each declared `v` and `¬v`. |
| SubExpressions.Dedup | script.js:168 | Adding to a `Set` yields distinct elements and exactly the elements added. |
| SubExpressions.Insert | script.js:195 | Insertion adds exactly one element and keeps sortedness by length. |
| SubExpressions.SortByLength | script.js:195 | The sort returns a permutation of its input, ordered by non-decreasing length. |
| SubExpressions.SortStable | script.js:195 | Elements of equal length keep their input order. |
| SubExpressions.ColumnsSpec | script.js:168-195 | `subExpressions` are distinct and sorted by length. They are exactly the innermost groups plus every `v` and `¬v`, and equal lengths stay in insertion order. |
| TruthTable.CheckInputs | script.js:26-43 | The guards fail in order: no variables, more than 6, empty expression, unbalanced after brace replacement. Each error is raised exactly when the earlier guards pass and its own fails. On success the brace-replaced text is returned, and it is balanced. |
| TruthTable.FirstUndeclared | script.js:172-178 | No name is reported iff every variable token is declared. A reported name is undeclared and is the first undeclared token. |
| TruthTable.FirstUndeclaredVars | script.js:169-178 | Checking the shunting-yard output finds the same first undeclared name as checking the tokens in order. |
| TruthTable.ParseExpression | script.js:166-201 | `valid: false` happens iff some variable token is undeclared, and it carries the first such name. Otherwise the result holds the display columns and the expression itself. |
| TruthTable.GenerateTruthTable | script.js:26-76 | Errors are exactly those of the guards, or an invalid expression when some token is undeclared. On success there are 2^n rows. Row k holds the k-th ordered combination. Its step j is `evaluateParsedExpression` of column j, and its result that of the whole expression, both under row k's context, as script.js:66-75 computes them. |
| TableCorrect.RenderedParses | script.js:26-52 | A fully parenthesised rendering over declared names passes every guard unchanged and parses as valid. |
| TableCorrect.TableOfRendered | script.js:26-76 | For such a rendering the table exists, has 2^n rows, and row k's result is the tree's value under row k's assignment. |
| TableCorrect.MinParses | script.js:26-52 | The minimal text of a tree over declared names passes every guard unchanged and parses as valid. |
| TableCorrect.TableOfMin | script.js:26-76 | For that text the table exists, has 2^n rows, and row k's result is the tree's value under row k's assignment. |
| Aliases.ReplaceAll | script2.js:81-82 | One global `replace` of a literal pattern. No contract of its own; specified by Aliases.ReplaceAllUnchanged, Aliases.ReplaceAllNoMatch and Aliases.ReplaceAllRemoves. |
| Aliases.Rewrite | script2.js:79-83 | The alias loop over `Object.entries(operatorMap)` in entry order. No contract of its own; specified by Aliases.RewriteCanonical, SingleAliasRemoved, ArrowsReplaced, IffEntryDead and ArrowBeforeIff. |
| Aliases.ReplaceAllUnchanged | script2.js:81-82 | A global replace changes nothing when the pattern equals its replacement or its first character never occurs. |
| Aliases.ReplaceAllNoMatch | script2.js:81-82 | A global replace with no match anywhere returns the string unchanged. |
| Aliases.ReplaceAllRemoves | script2.js:81-82 | Replacing a one-character alias by text without it leaves none of that character. |
| Aliases.RewriteCanonical | script2.js:12-18 | A string with no alias character (only canonical symbols, letters, parentheses and the like) is left unchanged. |
| Aliases.SingleAliasRemoved | script2.js:12-18 | After the rewrite none of `~ · * × +` remains. |
| Aliases.ArrowsReplaced | script2.js:16 | After replacing `->`, no `->` remains. |
| Aliases.IffEntryDead | script2.js:16-17 | The whole rewrite equals the first nine entries, then `->`, then the identity `↔` entry: the `<->` entry never matches. |
| Aliases.ArrowBeforeIff | script2.js:12-18 | Because `->` is processed before `<->`, `p<->q` becomes `p<→q`. |
| SplitEvaluator.EvalString | script2.js:130-185 | The inner `evaluate`. No contract of its own; specified by SplitEvaluator.EvalStringShape. |
| SplitEvaluator.EvaluateLogicalExpression | script2.js:127-188 | `evaluateLogicalExpression`. No contract of its own; specified by Printer.EvaluatesPrinted and GateValue.FusedAgreesWithEvaluator. |
| SplitEvaluator.RemoveSpaces | script2.js:128 | The result has no whitespace, and whitespace-free text is unchanged. |
| SplitEvaluator.EnclosedLoopSpec | script2.js:134-141 | The inner `for` loop keeps `valid` from index i iff no later proper prefix has depth 0. |
| SplitEvaluator.EnclosedIff | script2.js:132-141 | `valid` holds iff the depth first returns to 0 only at the last character. |
| SplitEvaluator.StripOuter | script2.js:131-144 | The stripping loop never lengthens the text and stops only when its outer parentheses no longer enclose the whole string. |
| SplitEvaluator.Scan | script2.js:150-158 | A found position lies in range and holds the operator symbol. |
| SplitEvaluator.ScanSpec | script2.js:150-158 | With a carried-in depth, one scan finds the first position at depth 0 holding the symbol. When it finds none, it passes on the depth at the end of the string. |
| SplitEvaluator.FindOpMiss | script2.js:149-160 | A connective that is not found hands its final depth to the next scan, since `depth` is not reset. |
| SplitEvaluator.FindOp | script2.js:149-161 | A reported split is a position holding one of the listed connectives. |
| SplitEvaluator.MainOp | script2.js:146-161 | A reported main connective is one of ↔ → ∨ ∧, at a position that holds its symbol. |
| SplitEvaluator.FindOpBalanced | script2.js:146-161 | On balanced text the shared depth does no harm: the scan returns the first top-level occurrence of the first connective present. |
| SplitEvaluator.LoosestChain | script2.js:147-160 | The split is at ↔ if any is at top level, else →, else ∨, else ∧, each at its first top-level occurrence. |
| SplitEvaluator.MainOpBalanced | script2.js:146-161 | On balanced text the split is the first top-level occurrence of its connective, and no looser connective occurs at top level. With no split, no connective is at top level. |
| SplitEvaluator.FirstUnbound | script2.js:180-184 | The reported unknown variable is not in the context. |
| SplitEvaluator.EvalStringShape | script2.js:130-185 | `evaluate` of a string returns the value of the tree the splitter reads. It throws "Variable desconocida" with the first unbound atom exactly when some atom is not a key of the context. |
| Printer.PrintNotStrippable | script2.js:131-144 | A minimally parenthesised print is never stripped further. |
| Printer.StripPrintAt | script2.js:131-144 | Stripping a print parenthesised for a context gives the plain print back. |
| Printer.PrintMainOp | script2.js:146-161 | The splitter finds the root connective of a printed tree right after the printed left operand, and no connective when the root is ¬ or an atom. |
| Printer.ShapeOfPrint | script2.js:130-178 | Reading a printed tree gives the same tree back: precedence ↔ < → < ∨ < ∧ < ¬, with chains grouping to the right. |
| Printer.ShapeOfPrintAt | script2.js:130-178 | The same round trip for prints parenthesised for any context. |
| Printer.EvaluatesPrinted | script2.js:127-188 | `evaluateLogicalExpression` of a printed tree returns the tree's value. It throws with the first atom missing from the context exactly when one is missing. |
| Printer.GroupsRight | script2.js:146-161 | `p→q→r` is read as `p→(q→r)`. |
| Printer.BindsTighter | script2.js:146-178 | `¬p∧q∨r↔s` is read as `((¬p∧q)∨r)↔s`. |
| BitTable.GenerateTruthTable | script2.js:110-125 | The script2.js `generateTruthTable`. No contract of its own; specified by BitTable.Rows, BitTable.TableOfPrinted, BitTable.TautologyOfPrinted and BitTable.AssignmentIsRow. |
| BitTable.BitRow | script2.js:116-119 | One value per variable. Its entries are given by BitTable.BitRowNegates, for up to 32 variables. |
| BitTable.BitRowNegates | script2.js:118 | For up to 32 variables, the bit-read row is the entry-wise negation of the row of the same index in script.js:214. |
| BitTable.OrderedRowMirror | script.js:213-214 | The script.js row at 2^n-1-i is the negation of row i. |
| BitTable.BitRowMirrors | script2.js:114-119 | For up to 32 variables, the script2.js table is the script.js table upside down. |
| BitTable.BitRowEnds | script2.js:114-119 | For up to 32 variables, row 0 is all false and the last row all true. |
| BitTable.BitRowsComplete | script2.js:114-119 | Every assignment of up to 32 variables occurs as a row. |
| BitTable.RowContext | script2.js:115-119 | A row's context has exactly the declared variables as keys. |
| BitTable.Rows | script2.js:114-122 | On success row i holds the i-th bit context and the evaluator's value there. On failure the error is one some row's evaluation throws. |
| BitTable.RowsOfPrinted | script2.js:114-122 | For a printed tree, the rows succeed iff every atom is declared. With an undeclared atom the first row already throws. |
| BitTable.RowOfPrinted | script2.js:120 | Each RESULT is the tree's value under that row's context. |
| BitTable.TableOfPrinted | script2.js:110-125 | For a printed tree over declared atoms, the table has 2^n rows whose RESULT is the tree's value. Otherwise it throws with an undeclared name. |
| BitTable.CheckLogicType | script2.js:747-752 | Exactly one label: tautology iff all results are true (so an empty table is a tautology), contradiction iff some is false and all are false, contingency iff some are true and some false. |
| BitTable.TautologyOfPrinted | script2.js:110-125 | For up to 32 variables, the classifier says tautology iff the tree is true under every assignment of the declared variables. |
| BitTable.AssignmentIsRow | script2.js:114-120 | For up to 32 variables, every assignment's value appears as some row's RESULT. |
| GateBuilder.GenerateCircuit | script2.js:350-352 | The outermost `processSubExpression(expression)` call. No contract of its own; specified by GateFacts.GenerateWellFormed and GateValue.GenerateOfPrint. |
| GateBuilder.BuilderShape | script2.js:229-337 | The tree `processSubExpression` walks. No contract of its own; specified by GateBuilder.ProcessIsEmit and GateBuilder.BuilderShapeOfPrint. |
| GateBuilder.Inc | script2.js:285 | `gateCounts[type]++` adds one to that type and leaves the others. |
| GateBuilder.FindGate | script2.js:271 | `gates.find` returns a gate with that id that is in the list, or nothing when no gate has it. |
| GateBuilder.SetInputs | script2.js:289 | Setting a gate's inputs changes no id or type and keeps the length. |
| GateBuilder.GateMap | script2.js:20-26 | ∧ is AND, ∨ and → are OR, and ↔ is XNOR. It never gives NOT, NAND or NOR. |
| GateBuilder.GateKind | script2.js:268-275 | The type is NAND iff ∧ under a NOT gate, NOR iff ∨ under a NOT gate, and `gateMap` otherwise. |
| GateBuilder.BalancedFromSpec | script2.js:340-348 | The loop from index i returns true iff the text is balanced, given that no earlier prefix went negative. |
| GateBuilder.IsBalancedIff | script2.js:340-348 | `isBalanced` holds iff no prefix closes more than it opens and the whole is balanced. |
| GateBuilder.BuilderStrip | script2.js:233-239 | The stripping loop stops at a text whose inner part is not balanced or that is not wrapped. |
| GateBuilder.StripAgree | script2.js:233-239 | On balanced text the builder strips exactly what the evaluator strips. |
| GateBuilder.Process | script2.js:229-337 | A thrown error names a text that is not a declared variable. A variable result leaves the circuit unchanged. A gate result is numbered `gateCount+1`. |
| GateBuilder.Emit | script2.js:299-333 | An atom returns its name and adds nothing. Any other node returns the next gate id. |
| GateBuilder.EmitChecked | script2.js:329-336 | The build succeeds iff every atom of the tree is a declared variable. |
| GateBuilder.ProcessIsEmit | script2.js:229-337 | `processSubExpression` on text is the tree builder on the tree its splitter reads, including which atom it throws on. |
| GateBuilder.BuilderShapeOfPrint | script2.js:229-337 | The builder reads a printed tree as that tree. |
| GateFacts.GateSize | script2.js:331-334 | A node opens no gate iff it is a bare variable. |
| GateFacts.EmitGrows | script2.js:265-318 | Building only appends gates and connections. Gate k is `gate<k+1>` (pre-order), and one gate is added per connective or ¬. |
| GateFacts.EmitNotGrows | script2.js:302-328 | The same for a ¬ node. |
| GateFacts.EmitGateGrows | script2.js:262-299 | The same for a binary node. |
| GateFacts.EmitArity | script2.js:289 | Every gate added gets as many inputs as its type takes: 1 for NOT, 2 otherwise. |
| GateFacts.EmitNotArity | script2.js:318 | The same for a ¬ node. |
| GateFacts.EmitGateArity | script2.js:289 | The same for a binary node. |
| GateFacts.EmitLinks | script2.js:291-326 | Each gate added below the root adds exactly one connection, from a distinct added gate, so there are gates−1 connections. Every connection but the node's own one to its still-open parent lands: it goes to a gate added here, on the side `left`, `right` or `single` (single exactly when that gate is a NOT), and that input of the gate holds the source gate's output. |
| GateFacts.EmitNotLinks | script2.js:320-326 | The same for a ¬ node. |
| GateFacts.EmitGateLinks | script2.js:291-297 | The same for a binary node. |
| GateFacts.EmitLands | script2.js:289-326 | Where connections point: all connections added by a node land on gates added by it, except its own link to the parent, which is the last one added. |
| GateFacts.EmitNotLands | script2.js:318-326 | The same for a ¬ node. |
| GateFacts.EmitGateLands | script2.js:287-297 | The same for a binary node. |
| GateFacts.EmitTallied | script2.js:285 | `gateCounts` keeps matching the number of gates of each type. |
| GateFacts.EmitNotTallied | script2.js:315 | The same for a ¬ node. |
| GateFacts.EmitGateTallied | script2.js:285 | The same for a binary node. |
| GateFacts.TallySumIsCount | script2.js:227 | The seven counters add up to `gateCount`. |
| GateFacts.EmitUpgraded | script2.js:271-275 | Every NAND or NOR gate sits directly below a NOT gate that is kept. |
| GateFacts.EmitNotUpgraded | script2.js:302-328 | The same for a ¬ node, whose own gate is a NOT. |
| GateFacts.EmitGateUpgraded | script2.js:262-299 | The same for a binary node. |
| GateFacts.EmitWellFormed | script2.js:229-337 | A built tree is numbered and tallied, with right arities and gates−1 distinct connections. Every connection goes to its parent gate on the input that holds the child's output, `single` exactly when the parent is a NOT. Its output is `gate1`, or the variable itself when there are no gates. |
| GateFacts.OneLinkPerGate | script2.js:291-297 | In a well-formed circuit every gate but `gate1` has exactly one outgoing connection, and `gate1` has none. |
| GateFacts.GenerateWellFormed | script2.js:350-352 | The outermost call succeeds iff every atom is declared. On success the circuit is well formed (connections included), and every NAND/NOR is under a NOT. |
| GateValue.GateMapApply | script2.js:20-26 | An AND/OR/XNOR gate computes the connective it stands for. The OR standing for → computes a∨b, not ¬a∨b. |
| GateValue.AsWrittenNotAnd | script2.js:271-318 | As written, `¬(p∧q)` gives NOT(`gate2`) over NAND(`p`, `q`) with one connection. At p=true, q=false that circuit outputs false. |
| GateValue.EvaluatesNotAnd | script2.js:168-177 | The evaluator gives true for `¬(p∧q)` at p=true, q=false. |
| GateValue.NotOverNand | script2.js:271-318 | A NOT over a NAND computes p∧q. |
| GateValue.FusedComputes | script2.js:262-328 | With a negated ∧/∨ built as one NAND/NOR gate, the output carries the tree's value under every context that binds its atoms, for →-free trees. |
| GateValue.NotComputes | script2.js:302-328 | The same for a ¬ node over anything but ∧/∨. |
| GateValue.GateComputes | script2.js:262-299 | A binary gate outputs its truth function applied to its operands' values. |
| GateValue.FusedCircuit | script2.js:350-352 | The corrected builder succeeds iff every atom is declared, and otherwise reports an undeclared name. |
| GateValue.FusedCircuitComputes | script2.js:229-352 | For →-free trees, the corrected circuit is well formed and computes the expression under every context that binds its atoms. |
| GateValue.FusedAgreesWithEvaluator | script2.js:127-188 | For a printed →-free tree over declared atoms, the corrected circuit's output equals what `evaluateLogicalExpression` returns. |
| GateValue.FusedNotAnd | script2.js:271-318 | Corrected, `¬(p∧q)` is one NAND gate over `p`, `q`, and it outputs true at p=true, q=false. |
| GateValue.GenerateOfPrint | script2.js:350-352 | The builder on a printed tree is the tree builder on that tree. |
| GateValue.FusedOfPrint | script2.js:350-352 | The same for the corrected builder. |

## Left out

- The page is not modelled: DOM reads, event wiring, cursor insertion, `alert` and `console.error`. That is UI plumbing, and the model takes the inputs as parameters.
- HTML table building (script.js:55-97, script2.js:190-205) and `formatValue` are presentation only.
- SVG layout and drawing (script2.js:384-744) is geometry.
- `normalizeExpression` (script2.js:99-104) is not modelled; the model takes the evaluator's and builder's input as given. Its regular expressions use lazy quantifiers and lookahead.
- The invalid-character check of script2.js:73-77 is not modelled. It builds a character class from the variable names.
- The raw-input guards of script2.js:61-71, and the `split(',')`/`trim` of both scripts, are not modelled. The variable list arrives already split and trimmed.
- Operator lookup with `in` on a plain object is not modelled. Variable names such as `toString` that an object inherits are treated as ordinary names.
- `showSteps` only decides whether the step columns are shown. The model always computes them.
- StackEvaluator.EvalPostfix: it returns `None` where script.js goes on with `undefined` (a pop from an empty stack, a parenthesis token or an unbound variable). The JavaScript truthiness of those runs is not modelled.
- BitTable.BitRowNegates: it is stated only for at most 32 variables. Beyond that JavaScript's shift wraps, and the two orders no longer mirror. The same bound is on BitTable.BitRowMirrors, BitTable.BitRowEnds, BitTable.BitRowsComplete, BitTable.TautologyOfPrinted and BitTable.AssignmentIsRow: past 32 variables `1 << k` wraps, rows repeat, and neither the mirror, the end rows, every assignment nor the tautology verdict is promised.
- The `output` field of a gate is never set by the builder, so `Gate` does not carry it.
- Gate ids are numbers, not the strings `gate<k>`. In script2.js:289 a gate's `inputs` holds plain strings, so a variable named `gate1` reads like gate 1 there; the model's `Ref` keeps the two apart.
- GateValue.FusedComputes: it requires a →-free tree, because `gateMap` draws → as an OR gate, which computes a∨b and not ¬a∨b (GateValue.GateMapApply). `normalizeExpression` does not remove every → first: its lazy pattern at script2.js:100 turns `a→b→c` into `(¬(a) ∨ (b→c))`, and the → left inside reaches the builder.
- XOR: `gateMap` has no △ entry, and the script2.js splitter never splits at △. So the `XOR` counter exists but no XOR gate is built.
- The comment at script2.js:270 ("Detectar compuertas compuestas (NOR, NAND, etc.)") names the upgrade as building one compound gate. The code still pushes the NOT gate above it, and the model follows the code; see Findings.
- SubExpressions.SortByLength: it orders by the number of characters (Unicode scalar values). `a.length` at script.js:195 counts UTF-16 code units, so a group holding a character outside the Basic Multilingual Plane can sort differently.
- ShuntingCorrect.ShuntRendered: it covers fully parenthesised text only. ShuntingMin.ShuntMin covers text with the fewest parentheses. Text with redundant parentheses elsewhere, such as `((p))∧q`, is covered by neither.
- ShuntingCorrect.EvaluatesRendered: the same restriction; ShuntingMin.EvaluatesMin is its minimal-parenthesis counterpart.
- TableCorrect.TableOfRendered: the same restriction; TableCorrect.TableOfMin is its minimal-parenthesis counterpart.

## Findings

| source | as written | input that shows it | evidently intended | confidence | as-written member | corrected member |
|---|---|---|---|---|---|---|
| script2.js:271-318 | A ∧/∨ directly under a NOT gate becomes NAND/NOR, and the NOT gate is still emitted over it. The circuit then computes the un-negated value. | `¬(p∧q)` with p=true, q=false: the circuit outputs false, but the evaluator gives true | One NAND/NOR gate in place of NOT over AND/OR, so the circuit computes the expression | not executed | GateValue.AsWrittenNotAnd | GateValue.FusedCircuitComputes |
