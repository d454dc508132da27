# jlox in Dafny

This project models the core of a TypeScript implementation of Lox, the
scripting language of the book *Crafting Interpreters*. The model covers:

- the scanner;
- the recursive-descent parser, with the repository's comma and ternary
  operators and its `'tag'` literal;
- the static resolver;
- the environment chain and the runtime objects (functions, classes and
  instances);
- the tree-walking interpreter;
- the two tree printers, the parenthesised Lisp-like one and the postfix
  (reverse Polish) one.

The repository also keeps an older, expression-only snapshot of the same
pipeline under `src/pages/jlox`: its own expression type, parser,
interpreter and printers. The model defines each snapshot component
directly. Agreement lemmas then prove it behaves as the main component does
on the trees and tokens both accept.

Modules, in pipeline order:

- `Tokens`: the token kinds and the token record.
- `Ast`: the expression and statement trees of the main pipeline.
- `SnapshotAst`: the snapshot's expression tree, and its embedding `ToMain`
  into the main tree.
- `Scanner`: source text to tokens.
- `Parser`: tokens to statements, with the error log.
- `SnapshotParser`: the snapshot's parser.
- `Resolver`: the scope stack and the side table of binding depths.
- `Environment`: the environment chain.
- `Values`: runtime values and the value helpers of the interpreter
  (truthiness, equality, stringification).
- `Instances`: the instance heap.
- `Interpreter`: expression evaluation and statement execution.
- `TopLevel`: `interpret`, run after run on the page's one interpreter.
- `Calls`: `LoxFunction.call` and `LoxClass.call`.
- `SnapshotInterpreter`: the snapshot's interpreter.
- `Trees`: the parenthesised notation and a reader for it.
- `AstPrinter` and `SnapshotPrinter`: the two parenthesised printers.
- `RpnGenerator` and `SnapshotRpn`: the two postfix printers, plus a stack
  machine that reads the postfix form back.

Representation choices:

- **Environments** are frames in an arena (`seq<Frame>`). Each frame's
  `enclosing` link points to an earlier index, and the current environment
  is an index.
- **Instances** are heap ids. Their fields live in a heap of maps, and an
  instance's class is carried by the reference itself, so it cannot change
  after construction.
- **Node ids.** `Variable`, `Assign` and `This` nodes carry an integer id:
  a token index that is unique within one parse. For `Variable` and `This`
  it is the index of the name token. For `Assign` it is the index of the
  `=` token. The resolver's side table is keyed by these ids.
- **Numbers** are exact reals.

Where the code differs from the usual description of Lox, the model
follows the code:

- **Truthiness** is JavaScript's `!!`. Besides `nil` and `false`, the
  values `0`, `""` and `undefined` are falsy too (`Values.IsTruthy`).
- **Comma.** `visitCommaExpr` evaluates the `right` field first, for effect,
  and yields the `value` field. The parser stores the leftmost operand in
  `value`, so `(a, b)` is worth `a` (`Interpreter.CommaYieldsLeftmost`).
  The snapshot parser keeps only the last operand instead
  (`SnapshotParser.CommaKeepsLast`).
- **Methods.** `findMethod` looks only at the class's own methods; there is
  no superclass search.
- **Variable lookup.** The interpreter never reads the resolver's side
  table. `visitVariableExpr` and `visitAssignExpr` walk the environment
  chain at run time.
- **Scanner errors.** An unterminated string or tag literal throws and ends
  the scan. An unrecognised character is reported and scanning continues.
  The report goes through `Logger.error` of src/jlox/logger.ts, which is
  not part of this model; the model assumes that report returns normally.
- **Parse errors.** A failed declaration stays in the statement list as the
  source's `null` (`NullStmt`).
- **Main parser grammar.** It parses only `var`, `print`, blocks and
  expression statements. Within expressions, identifiers and assignment go
  beyond the snapshot grammar, but there is no call, get,
  `this`, `super` or function-expression syntax.
- **Missing visitor methods.** Reaching a node kind whose visitor method is
  absent raises JavaScript's `TypeError`, and the model treats it as an
  error. This covers the interpreter's call, get, set, `this`, `super`,
  function, `return` and class nodes, the resolver's `super` node, and the
  main postfix printer's get, set, `this` and `super` nodes.
- **Numeric operand check.** `checkNumberOperands` only rejects `NaN`, so
  `-`, `*`, `/` and comparisons on non-numbers never raise its error. What
  JavaScript computes for them instead is left out; see below.
- **`interpret` and `break`.** The main `interpret` ignores each
  statement's result, so a `break` at the top level does not stop the
  program.
- **One interpreter per page.** The page keeps a single `Interpreter`, and
  its `environment` field is never reset, so each run starts from the state
  the previous one left. `TopLevel.Interpret` therefore takes the
  starting state and returns the final one; `TopLevel.Global` is the
  state of a new interpreter.
- **Snapshot `synchronize`.** The snapshot parser's `synchronize` is never
  called; the first thrown parse error makes `parse()` return `null`.

## Model

| member | source | states |
|---|---|---|
| Scanner.LookupKeyword | src/jlox/scanner.ts:4-21 | a keyword lookup that succeeds yields a reserved-word kind, never IDENTIFIER or EOF |
| Scanner.KeywordTableShape | src/jlox/scanner.ts:4-21 | the reserved-word table has 17 entries with distinct words and distinct kinds, none of them IDENTIFIER or EOF |
| Scanner.IdentifierKindSpec | src/jlox/scanner.ts:186-193 | an identifier-shaped lexeme gets the kind of the table entry spelled exactly like it, and IDENTIFIER when no entry is |
| Scanner.LookupFinds | src/jlox/scanner.ts:4-21 | scanning the table from entry `i` finds the entry that matches, or reports none when no later entry matches |
| Scanner.Match | src/jlox/scanner.ts:114-120 | `match` consumes the next character exactly when it is the expected one, and otherwise leaves the state alone |
| Scanner.AddToken | src/jlox/scanner.ts:109-112 | the new token is appended with the given kind and literal; its lexeme is the source slice since the token's start; earlier tokens and their spans are kept |
| Scanner.CommentEnd | src/jlox/scanner.ts:66-73 | a line comment runs to the next newline, which it does not consume, or to the end of the source |
| Scanner.DigitsEnd | src/jlox/scanner.ts:170-179 | the digit run is maximal: all digits, followed by a non-digit or the end |
| Scanner.AlnumEnd | src/jlox/scanner.ts:186-201 | the identifier run is maximal: all alphanumeric, followed by a non-alphanumeric character or the end |
| Scanner.NumberEnd | src/jlox/scanner.ts:170-184 | a number lexeme holds digits and at most one `.`, never at either end, and is never followed by a digit; a dot-free lexeme is never followed by `.` and a digit |
| Scanner.NewlinesSplit | src/jlox/scanner.ts:127-145 | the newline count of a slice is its first character's contribution plus the count of the rest |
| Scanner.QuotedBody | src/jlox/scanner.ts:127-135 | the string body loop stops at the first closing delimiter or at the end, and the line counter grows by the number of newlines it crossed |
| Scanner.ScanNumber | src/jlox/scanner.ts:170-179 | a NUMBER token is appended whose lexeme is the maximal number run from the start |
| Scanner.ScanIdentifier | src/jlox/scanner.ts:186-193 | one token is appended for the maximal alphanumeric run, with the keyword table's classification of its text |
| Scanner.ScanQuoted | src/jlox/scanner.ts:127-164 | string and tag literals fail exactly when no closing delimiter follows, with the matching message; otherwise the token's literal is the raw text between the delimiters, and the line counter advances by its newlines |
| Scanner.ScanOperator | src/jlox/scanner.ts:62-73 | each punctuation character gives its one-character token; `!`, `=`, `<` and `>` take a following `=` as a two-character token; `//` skips to the end of the line without a token, and a lone `/` is SLASH |
| Scanner.ScanToken | src/jlox/scanner.ts:47-97 | each step consumes at least one character, appends at most one token and never EOF, and aborts only at a quote |
| Scanner.LayoutEmitsNothing | src/jlox/scanner.ts:74-83 | spaces, tabs and carriage returns emit nothing; a newline emits nothing, increments the line and resets both columns |
| Scanner.UnrecognisedIsReported | src/jlox/scanner.ts:93 | a character no rule accepts is logged at its own position, skipped, and adds no token |
| Scanner.ScanFrom | src/jlox/scanner.ts:36-45 | the scan loop reaches the end of the source and keeps every token already produced |
| Scanner.EofAppended | src/jlox/scanner.ts:42-44 | appending EOF after a complete scan keeps every lexed token and span in place |
| Scanner.ScanTokens | src/jlox/scanner.ts:36-45 | the output ends with exactly one EOF token; every other token's lexeme is the source slice at its span, and the spans run left to right without overlap |
| Parser.Advance | src/jlox/parser.ts:223-230 | `advance` moves one token forward except at EOF, where it stays |
| Parser.Report | src/jlox/parser.ts:240-243 | `error` appends exactly one entry, naming the token and message, to the log |
| Parser.Consume | src/jlox/parser.ts:212-216 | `consume` succeeds exactly when the current token has the expected kind; otherwise it logs the message at that token and throws |
| Parser.LevelOpsMatch | src/jlox/parser.ts:118-164 | the operator tables of the four binary levels agree with each operator's binding power |
| Parser.AtLevelMatchesTable | src/jlox/parser.ts:201-210 | `match` over one level's operator list succeeds exactly on that level's operators |
| Parser.ParseComma | src/jlox/parser.ts:77-82 | a parsed comma expression consumes input and has the shape the grammar produces, with no comma left behind it |
| Parser.CommaRest | src/jlox/parser.ts:77-82 | the comma loop returns its left operand untouched when no comma follows, and otherwise stops in front of a non-comma |
| Parser.ParseExpression | src/jlox/parser.ts:84-99 | `expression()` consumes input and yields a well-shaped tree that binds at least as tightly as a ternary, with no `?` left behind it; a failure logs an error |
| Parser.ExpressionRest | src/jlox/parser.ts:88-98 | the ternary loop returns its condition untouched when no `?` follows, and builds right-nested ternaries otherwise |
| Parser.TernaryElse | src/jlox/parser.ts:90-96 | a missing `:` is reported as "Expect a colon." at the current token and throws |
| Parser.ParseAssignment | src/jlox/parser.ts:101-116 | assignment yields a well-shaped tree binding at least as tightly as an assignment, or logs an error |
| Parser.AssignValue | src/jlox/parser.ts:104-113 | after `=`, a variable target becomes an `Assign` node on the same name; any other target is logged as "Invalid assignment target." and kept as the result, without a throw |
| Parser.ParseBinary | src/jlox/parser.ts:118-174 | each binary level yields a left-associative chain of its own operators over operands of the next level, stopping in front of a token that is not one of its operators |
| Parser.BinaryRest | src/jlox/parser.ts:118-164 | the loop of a level returns its left operand unchanged when no operator of the level follows, and the result binds at least as tightly as the level |
| Parser.ParseUnary | src/jlox/parser.ts:166-174 | `unary()` yields a tree binding at least as tightly as a unary operator, or logs an error |
| Parser.ParsePrimary | src/jlox/parser.ts:177-199 | each primary token kind gives its node, variables carry their token index as id, and any other token is "Expect expression." |
| Parser.ParseGroup | src/jlox/parser.ts:192-196 | a parenthesised expression yields a `Grouping` node, or logs the missing `)` |
| Parser.Synchronize | src/jlox/parser.ts:245-265 | recovery skips at least one token unless at EOF, and stops at the first position after a `;` or in front of a statement keyword |
| Parser.SyncLoop | src/jlox/parser.ts:248-264 | the recovery loop stops at the first synchronisation point |
| Parser.ParseDeclaration | src/jlox/parser.ts:23-32 | a declaration consumes at least one token before EOF; it is the `null` entry exactly when its body threw, and in that case an error was logged and the cursor is synchronised |
| Parser.TryDeclaration | src/jlox/parser.ts:23-32 | the `try` body of a declaration yields a well-shaped statement or logs an error |
| Parser.ParseStatement | src/jlox/parser.ts:34-39 | a statement consumes input and is well shaped, or logs an error |
| Parser.SemicolonAfter | src/jlox/parser.ts:41-51 | a print or expression statement needs its `;`; it wraps the parsed expression, and an earlier failure passes through unchanged |
| Parser.BlockItems | src/jlox/parser.ts:53-62 | a block collects declarations until its closing brace, keeping those already parsed |
| Parser.ParseVarDeclaration | src/jlox/parser.ts:64-74 | a `var` declaration names the token after `var` and has an initializer that is no top-level comma |
| Parser.OperandIsVariable | src/jlox/parser.ts:154-164 | an identifier that no `*` or `/` follows is a complete multiplicative operand |
| Parser.SubtractionChain | src/jlox/parser.ts:142-152 | at the additive level, `a - b - c` folds to `(a - b) - c` |
| Parser.SubtractionGroupsLeft | src/jlox/parser.ts:77-152 | the full expression grammar parses `a - b - c` as `(a - b) - c` |
| Parser.Parse | src/jlox/parser.ts:14-21 | `parse()` terminates with fewer statements than tokens, and every statement is well shaped |
| Parser.ParseFrom | src/jlox/parser.ts:16-18 | the declaration loop runs to EOF, adding at most one statement per consumed token |
| SnapshotParser.SnapParse | src/pages/jlox/parser.ts:13-19 | `parse()` yields the expression that starts right after the last comma of the list (or at the first token when there is none) and stops in front of a non-comma, or the error once anything throws |
| SnapshotParser.SnapComma | src/pages/jlox/parser.ts:22-27 | a parsed comma list stops in front of a non-comma, and its value is the one expression parsed after its last comma, or its first operand when it has no comma |
| SnapshotParser.SnapCommaRest | src/pages/jlox/parser.ts:22-27 | with no comma ahead the operand so far is the result; after a comma, the result is the one expression parsed after the last comma, which spans no comma itself |
| SnapshotParser.EarlierOperandDiscarded | src/pages/jlox/parser.ts:22-27 | once a comma follows, the operand parsed so far does not affect the result |
| SnapshotParser.ExpressionCommaFree | src/pages/jlox/parser.ts:30-114 | no expression below the comma level consumes a comma token |
| SnapshotParser.SnapExpression | src/pages/jlox/parser.ts:29-44 | an expression consumes input and stops in front of a non-`?` |
| SnapshotParser.SnapExpressionRest | src/pages/jlox/parser.ts:31-43 | the ternary loop returns its condition untouched when no `?` follows |
| SnapshotParser.SnapTernaryElse | src/pages/jlox/parser.ts:34-38 | a missing `:` throws "Expect a colon." at the current token |
| SnapshotParser.SnapBinary | src/pages/jlox/parser.ts:46-102 | each binary level consumes input and stops in front of a non-operator of the level |
| SnapshotParser.SnapBinaryRest | src/pages/jlox/parser.ts:46-92 | a level's loop returns its left operand when no operator of the level follows |
| SnapshotParser.SnapUnary | src/pages/jlox/parser.ts:94-102 | `unary()` consumes input |
| SnapshotParser.SnapPrimary | src/pages/jlox/parser.ts:105-125 | false, true, nil, number, string and tag tokens give their literal and a parenthesis starts a group; any other token throws "Expect expression." |
| SnapshotParser.SnapGroup | src/pages/jlox/parser.ts:118-122 | a parenthesised expression yields a grouping node |
| SnapshotParser.AssignmentIsEquality | src/jlox/parser.ts:101-116 | without identifiers and `=`, the main parser's `assignment()` is exactly `equality()` |
| SnapshotParser.ExpressionAgrees | src/pages/jlox/parser.ts:29-44 | on token lists without identifiers or `=`, the snapshot's `expression()` and the main one give the same tree and stop at the same token, or both throw, the main one logging the snapshot's error |
| SnapshotParser.ExpressionRestAgrees | src/pages/jlox/parser.ts:31-43 | the two ternary loops agree |
| SnapshotParser.QuestionStep | src/pages/jlox/parser.ts:31-43 | one `?` round agrees once its parts agree |
| SnapshotParser.TernaryElseAgrees | src/pages/jlox/parser.ts:34-38 | the two parsers agree from the `:` of a ternary, including on a missing `:` |
| SnapshotParser.ColonAgrees | src/pages/jlox/parser.ts:36-38 | the two parsers agree on the else-branch after a `:` |
| SnapshotParser.ColonStep | src/pages/jlox/parser.ts:36-38 | the `:` step agrees once its parts agree |
| SnapshotParser.BinaryAgrees | src/pages/jlox/parser.ts:46-102 | every binary level and `unary()` agree with the main parser's |
| SnapshotParser.FirstOperand | src/pages/jlox/parser.ts:46-92 | the first operand of a level binds at least as tightly as the level |
| SnapshotParser.OperandStep | src/pages/jlox/parser.ts:46-92 | a level agrees once its first operand and its loop agree |
| SnapshotParser.BinaryRestAgrees | src/pages/jlox/parser.ts:46-92 | the two loops of a binary level agree |
| SnapshotParser.OperatorAgrees | src/pages/jlox/parser.ts:46-92 | the two loops agree on a round that matched an operator |
| SnapshotParser.NextLeft | src/pages/jlox/parser.ts:46-92 | the node built by one operator still binds at least as tightly as the level |
| SnapshotParser.OperatorStep | src/pages/jlox/parser.ts:46-92 | one operator round agrees once its right operand and the rest of the loop agree |
| SnapshotParser.UnaryAgrees | src/pages/jlox/parser.ts:94-102 | the two `unary()` agree |
| SnapshotParser.PrimaryAgrees | src/pages/jlox/parser.ts:105-125 | the two `primary()` agree |
| SnapshotParser.GroupAgrees | src/pages/jlox/parser.ts:118-122 | the two parenthesised branches agree |
| SnapshotParser.GroupStep | src/pages/jlox/parser.ts:118-122 | the parenthesised branch agrees once the inner expression does |
| SnapshotParser.CommaKeepsLast | src/pages/jlox/parser.ts:22-27 | `1, 2, 3` parses to the last number alone |
| SnapshotParser.OperandAlone | src/pages/jlox/parser.ts:29-125 | a number followed by a comma, EOF or another number parses to that number alone, stopping right after it |
| SnapshotParser.TrailingTokensIgnored | src/pages/jlox/parser.ts:13-19 | `1 2` parses to `1` without error, and the `2` is never looked at |
| Resolver.BeginScope | src/jlox/resolver.ts:249-251 | entering a scope pushes one empty scope and changes nothing else |
| Resolver.EndScope | src/jlox/resolver.ts:253-255 | leaving a scope pops the innermost one and changes nothing else |
| Resolver.SetInnermost | src/jlox/resolver.ts:257-271 | only the innermost scope's entry for the name changes |
| Resolver.Declare | src/jlox/resolver.ts:257-266 | with no scope nothing happens; otherwise the name is marked declared-not-defined in the innermost scope, and a second declaration there is reported |
| Resolver.Define | src/jlox/resolver.ts:268-271 | with no scope nothing happens; otherwise the name is marked defined in the innermost scope |
| Resolver.InnermostIndex | src/jlox/resolver.ts:225-234 | the search finds the innermost scope binding the name, or nothing exactly when no scope binds it |
| Resolver.ResolveLocal | src/jlox/resolver.ts:225-234 | a name bound in some scope is recorded for its node at the distance to the innermost scope binding it; a global records nothing |
| Resolver.ResolveVariable | src/jlox/resolver.ts:196-205 | reading a name declared but not yet defined in the innermost scope is reported as reading a local in its own initializer; the name is resolved in any case, and a global name leaves the side table unchanged |
| Resolver.ResolveThis | src/jlox/resolver.ts:180-189 | `this` outside a class is reported and nothing is recorded; inside a class it resolves like a variable |
| Resolver.ResolveExpr | src/jlox/resolver.ts:119-209 | the side table gains exactly one entry per reached reference to a locally bound name, holding how many scopes out that name's innermost binding lies; no other entry is added or changed, the scope stack stays, and resolution fails only on a `super` node, which has no visitor |
| Resolver.ResolveLeaf | src/jlox/resolver.ts:160-209 | the same for leaf nodes |
| Resolver.ResolveInner | src/jlox/resolver.ts:125-158 | the same for grouping, unary and get nodes |
| Resolver.ResolvePair | src/jlox/resolver.ts:130-178 | the same for binary, logical and set nodes |
| Resolver.ResolveCall | src/jlox/resolver.ts:140-148 | the same for calls, over the callee and every argument |
| Resolver.ResolveAssign | src/jlox/resolver.ts:119-123 | the same for assignments, value first and then the target |
| Resolver.ResolveExprs | src/jlox/resolver.ts:140-148 | the same for an argument list |
| Resolver.ResolveReturn | src/jlox/resolver.ts:104-116 | a top-level `return` and a valued `return` in an initializer are reported; a bare `return` inside a function changes nothing |
| Resolver.ResolveVar | src/jlox/resolver.ts:77-84 | the name is declared first, with a redeclaration in the same scope reported and kept among the errors; the initializer is resolved while the name is declared but not defined, and the side table gains exactly its local references at their depths (nothing without an initializer); afterwards the name is defined in the innermost scope |
| Resolver.StmtStepTrans | src/jlox/resolver.ts:217-219 | what a statement may change composes over a sequence |
| Resolver.ResolveStmt | src/jlox/resolver.ts:31-116 | every statement leaves the stack as deep as it found it, with every scope but the innermost unchanged, and restores the function and class kinds |
| Resolver.ResolveBlock | src/jlox/resolver.ts:31-36 | a block leaves the scope stack exactly as it found it |
| Resolver.ResolveIf | src/jlox/resolver.ts:65-70 | an `if` keeps the stack discipline |
| Resolver.ResolveWhile | src/jlox/resolver.ts:86-90 | a `while` keeps the stack discipline |
| Resolver.ResolveStmts | src/jlox/resolver.ts:211-215 | a statement list keeps the stack discipline |
| Resolver.ResolveFunction | src/jlox/resolver.ts:236-247 | a function leaves the stack and the enclosing function and class kinds as they were |
| Resolver.DeclareParams | src/jlox/resolver.ts:239-242 | afterwards the innermost scope binds exactly its old names plus the parameters, all of them defined |
| Resolver.ResolveClass | src/jlox/resolver.ts:38-58 | a class keeps the stack discipline and restores the enclosing class kind |
| Resolver.ResolveMethods | src/jlox/resolver.ts:50-55 | resolving the methods leaves the stack and the kinds as they were |
| Resolver.InnermostUnique | src/jlox/resolver.ts:225-234 | the innermost binding scope of a name is unique, so its recorded depth is well defined |
| Resolver.StmtsUnfold | src/jlox/resolver.ts:211-215 | a statement list resolves its head, then the rest from the state the head left |
| Resolver.LoneLeafStmt | src/jlox/resolver.ts:60-63 | an expression statement that reads a variable or `this` resolves exactly that leaf |
| Resolver.LoneMethod | src/jlox/resolver.ts:50-55 | a method is resolved as an initializer exactly when it is named `init` |
| Resolver.ClassScope | src/jlox/resolver.ts:44-49 | a class's methods are resolved inside a class, in a new scope that binds `this` as defined |
| Resolver.ClassUnfold | src/jlox/resolver.ts:38-58 | a class statement is its methods resolved in the class scope, followed by popping that scope and restoring the class kind |
| Resolver.BlockLocalIsDepthZero | src/jlox/resolver.ts:31-36 | in `{ var x; x; }` the read resolves to the block's own scope, at depth 0, with no error |
| Resolver.OwnInitializerIsReported | src/jlox/resolver.ts:77-84 | `var x = x;` in a scope reports the read in its own initializer and still records depth 0 |
| Resolver.ThisInFunctionBody | src/jlox/resolver.ts:236-247 | `this` in a function body inside a class resolves one scope out, past the function's own scope |
| Resolver.ThisInMethodIsDepthOne | src/jlox/resolver.ts:38-58 | `this` in a method resolves to the class scope that pre-binds it, at depth 1 |
| Resolver.InitializerReturnIsReported | src/jlox/resolver.ts:104-116 | a valued `return` in a method named `init` is reported |
| Resolver.Resolve | src/jlox/resolver.ts:211-215 | resolving a whole program ends with an empty stack, outside any function or class |
| Environment.Chain | src/jlox/environment.ts:12-18 | the frames visited from an environment follow the `enclosing` links, innermost first, and end at the global frame |
| Environment.Get | src/jlox/environment.ts:12-18 | `get` returns the binding of the first frame on the chain that holds the name, or the undefined-variable error naming the token and quoting the name |
| Environment.HoldsPastFirst | src/jlox/environment.ts:16 | beyond its first frame, a chain is the parent's chain |
| Environment.PastFirstFrame | src/jlox/environment.ts:13-16 | when the first frame lacks the name, the innermost holder is the parent's, one position later |
| Environment.GetFindsInnermost | src/jlox/environment.ts:12-18 | `get` succeeds exactly when some frame of the chain binds the name, and returns the innermost such binding |
| Environment.Define | src/jlox/environment.ts:20-22 | `define` binds or rebinds in the one frame given and changes no other frame or link |
| Environment.ChainKeepsLinks | src/jlox/environment.ts:20-34 | a store whose links are unchanged has the same chains |
| Environment.GetAfterDefine | src/jlox/environment.ts:12-22 | after `define(n, v)`, `get(n)` in the same environment yields `v` |
| Environment.Assign | src/jlox/environment.ts:24-34 | `assign` rewrites an existing binding along the chain and never creates one |
| Environment.AssignUpdatesInnermost | src/jlox/environment.ts:24-34 | `assign` fails exactly when `get` does, and otherwise rewrites the innermost holder of the name and nothing else |
| Environment.NewChild | src/jlox/environment.ts:8-10 | a new environment is an empty frame linked to its parent, appended to the store |
| Environment.ChainGrows | src/jlox/environment.ts:8-10 | appending frames changes no existing chain |
| Environment.ChildChain | src/jlox/environment.ts:8-10 | a child's chain is the child followed by its parent's chain |
| Environment.GetThroughChild | src/jlox/environment.ts:12-18 | lookups through an empty child see exactly the parent's bindings |
| Environment.GetGrows | src/jlox/environment.ts:12-18 | appending frames changes no lookup from an existing environment |
| Values.DisplayName | src/jlox/lox-function.ts:38-40 | the shown name is never empty, and is the declared name whenever there is one |
| Values.FunctionToString | src/jlox/lox-function.ts:38-40 | a function prints as `<fn NAME>` around its display name |
| Values.FindMethod | src/jlox/lox-class.ts:25-31 | `findMethod` finds a method exactly when the class itself declares that name |
| Values.ClassArity | src/jlox/lox-class.ts:33-37 | a class's arity is its initializer's arity, or 0 without one |
| Values.InstanceTextExtendsClassText | src/jlox/lox-class.ts:39-41 | a class prints as its bare name, and an instance of it prints as that text followed by " instance" |
| Values.InstanceToString | src/jlox/lox-instance.ts:30-32 | an instance prints as its class name followed by " instance" |
| Values.IsTruthy | src/jlox/visitors/interpreter.ts:210-212 | a value is truthy exactly when JavaScript's `!!` makes it true: all values except nil, undefined, false, 0 and "" |
| Values.IsEqual | src/jlox/visitors/interpreter.ts:214-216 | instances are equal exactly when they are the same heap object |
| Values.EqualityIsStrict | src/jlox/visitors/interpreter.ts:214-216 | `isEqual` never converts: values of different kinds are unequal even when both are falsy, and equal values agree on truthiness and printed text |
| Values.IsEqualIsSameValue | src/jlox/visitors/interpreter.ts:214-216 | `isEqual` (`Object.is`) holds exactly when JavaScript's SameValue comparison, written out kind by kind, accepts the pair: same type, then same value, same code units or same object |
| Values.ToText | src/jlox/visitors/interpreter.ts:223-226 | `toString()` exists for every value except null and undefined, and gives a string's own text, a number's text and "true" or "false" |
| Values.Stringify | src/jlox/visitors/interpreter.ts:223-226 | null and undefined print as "nil"; every other value prints as its `toString()` |
| Instances.NewInstanceHasOnlyMethods | src/jlox/lox-instance.ts:10-12 | every property read on a new instance finds the class's method of that name, bound to it, or fails as undefined |
| Instances.NewInstanceKeepsOthers | src/jlox/lox-instance.ts:10-12 | making an instance changes no property of any existing instance |
| Instances.InstanceGet | src/jlox/lox-instance.ts:14-24 | a field shadows a method; otherwise the class's own method comes back bound to the instance; otherwise it is the undefined-property error |
| Instances.InstanceSet | src/jlox/lox-instance.ts:26-28 | `set` writes one field of one instance, and every other instance stays as it was |
| Instances.GetAfterSet | src/jlox/lox-instance.ts:14-28 | after `set(n, v)`, `get(n)` yields `v`, even when the class has a method named `n` |
| Instances.SetKeepsOtherProperties | src/jlox/lox-instance.ts:14-28 | setting a field changes no other property of any instance |
| Interpreter.LitToValue | src/jlox/visitors/interpreter.ts:155-157 | a literal evaluates to its own value, and only the nil literal to nil |
| Interpreter.Plus | src/jlox/visitors/interpreter.ts:123-131 | `+` adds two numbers; with a string operand it concatenates both `toString()`s, failing on null or undefined; otherwise it is the two-numbers-or-two-strings error |
| Interpreter.BinaryOp | src/jlox/visitors/interpreter.ts:94-144 | `==` and `!=` are `Object.is` and its negation; on two numbers, comparisons and `-`, `*`, `/` (by a nonzero number) are the exact operations |
| Interpreter.At | src/jlox/visitors/interpreter.ts:94-144 | an operator's outcome is the expression's outcome, in the state its operands left |
| Interpreter.UnaryOp | src/jlox/visitors/interpreter.ts:80-92 | `!` negates truthiness, `-` negates a number, and an operator the parser never produces gives null |
| Interpreter.NoVisitor | src/jlox/visitors/interpreter.ts:202-208 | a node kind without a visitor raises a TypeError |
| Interpreter.Eval | src/jlox/visitors/interpreter.ts:74-183 | evaluation may overwrite bindings but adds no frame and changes no link, key, heap, output or current environment |
| Interpreter.EvalBinary | src/jlox/visitors/interpreter.ts:94-144 | a binary expression evaluates left before right and keeps the frame discipline |
| Interpreter.EvalAssign | src/jlox/visitors/interpreter.ts:74-78 | a successful assignment leaves the name bound, in the current environment, to the assigned value |
| Interpreter.GetAfterAssign | src/jlox/environment.ts:12-34 | after a successful `assign`, `get` of the same name yields the assigned value |
| Interpreter.PureKeepsState | src/jlox/visitors/interpreter.ts:74-183 | an expression without assignments leaves the state exactly as it was |
| Interpreter.CommaYieldsLeftmost | src/jlox/visitors/interpreter.ts:176-179 | a comma whose right part has no effect is worth its `value` part, which is the leftmost operand |
| Interpreter.LogicalShortCircuits | src/jlox/visitors/interpreter.ts:163-173 | `or` yields a truthy left value and `and` a falsy one, unchanged, without evaluating the right operand |
| Interpreter.LogicalYieldsRight | src/jlox/visitors/interpreter.ts:163-173 | otherwise the result is the right operand's, evaluated after the left one's effects, not a coerced boolean |
| Interpreter.NotEqualNegatesEqual | src/jlox/visitors/interpreter.ts:94-144 | `!=` has the same effects and errors as `==` and the opposite answer |
| Interpreter.Exec | src/jlox/visitors/interpreter.ts:27-71 | a statement returns to its starting environment, keeps every existing link, only grows the store and heap, and only appends output; a `while` never passes a break up |
| Interpreter.ExecVar | src/jlox/visitors/interpreter.ts:51-59 | `var` defines the initializer's value, or nil, in the current environment, so the name is bound afterwards |
| Interpreter.ExecIf | src/jlox/visitors/interpreter.ts:36-43 | `if` keeps the statement discipline |
| Interpreter.Loop | src/jlox/visitors/interpreter.ts:61-67 | `while` keeps the statement discipline, and a break in the body ends the loop normally |
| Interpreter.ExecBlock | src/jlox/visitors/interpreter.ts:185-200 | a block runs its statements in the given environment and restores the caller's environment on every exit, including an error |
| Interpreter.Restore | src/jlox/visitors/interpreter.ts:197-199 | the `finally` puts back the previous environment and keeps the outcome |
| Interpreter.ExecStmts | src/jlox/visitors/interpreter.ts:189-196 | the statement loop of a block keeps the statement discipline |
| Interpreter.ExecStmtsAppend | src/jlox/visitors/interpreter.ts:189-196 | running two statement lists in a row is running their concatenation; the second runs only when the first completes normally |
| Interpreter.BreakSkipsRest | src/jlox/visitors/interpreter.ts:69-71 | `break` stops a statement list on the spot, so nothing after it runs |
| Interpreter.BlockVarDoesNotLeak | src/jlox/visitors/interpreter.ts:27-29 | a `var` in a block binds in the block's own frame, so lookups from the enclosing environment are unchanged afterwards |
| Interpreter.IfPassesBreakUp | src/jlox/visitors/interpreter.ts:36-43 | a break in the chosen branch of an `if` reaches the `if`'s caller |
| Interpreter.WhileAbsorbsBreak | src/jlox/visitors/interpreter.ts:61-67 | a `while` whose body breaks runs the body once and completes normally |
| TopLevel.RunAll | src/jlox/visitors/interpreter.ts:16-24 | the top-level loop ignores statement results, and the first error ends it |
| TopLevel.BreakIsIgnored | src/jlox/visitors/interpreter.ts:16-24 | a top-level `break` does not stop the program |
| TopLevel.Interpret | src/jlox/visitors/interpreter.ts:14-24 | `interpret` continues from the interpreter's current state, keeps its environment handle, and returns the lines it printed and the error that ended the run, exactly when there was one |
| TopLevel.RunAllAppend | src/jlox/visitors/interpreter.ts:16-24 | running two statement lists in sequence is running their concatenation, the second skipped after an error in the first |
| TopLevel.InterpretInSequence | src/pages/jlox.tsx:13-46 | two runs on the page's one interpreter act as one run of the joined programs when the first run has no error: the state carries over and the printed lines are concatenated |
| Calls.ArgAt | src/jlox/lox-function.ts:24 | reading past the end of the arguments gives undefined |
| Calls.Lexemes | src/jlox/lox-function.ts:23-25 | the parameter names include every parameter's lexeme and are no more numerous than the parameters |
| Calls.LexemeHasIndex | src/jlox/lox-function.ts:23-25 | every parameter name comes from some parameter |
| Calls.BindParams | src/jlox/lox-function.ts:23-25 | the call frame binds exactly the parameter names, and each parameter not shadowed by a later one of the same name gets its argument |
| Calls.BindLast | src/jlox/lox-function.ts:23-25 | defining the last parameter keeps every other parameter's surviving binding |
| Calls.CallFrame | src/jlox/lox-function.ts:22-25 | the body runs in one new frame linked to the closure, holding the parameters, with heap and output untouched |
| Calls.Returned | src/jlox/lox-function.ts:27-35 | a `Return` signal yields its value; any other error propagates unchanged; a body that finishes yields nil |
| Calls.CallFunction | src/jlox/lox-function.ts:21-36 | a call runs the body in its call frame; a `Return` yields its value, another error propagates unchanged, and a completed body yields nil |
| Calls.CallRestoresEnvironment | src/jlox/lox-function.ts:21-36 | when the body runs through the interpreter's `executeBlock`, the caller gets its own environment handle back on every outcome and existing frames keep their links |
| Calls.ParameterIsBound | src/jlox/lox-function.ts:21-36 | inside the body, each parameter not shadowed by a later one of the same name is bound to its argument |
| Calls.NonParameterComesFromClosure | src/jlox/lox-function.ts:21-36 | inside the body, a name that is not a parameter is looked up in the closure |
| Calls.DistinctLexemes | src/jlox/lox-function.ts:17-19 | distinct parameter names give as many names as parameters |
| Calls.CallFrameHoldsArity | src/jlox/lox-function.ts:17-25 | with distinct parameter names, the call frame holds exactly `arity` bindings |
| Calls.CallClass | src/jlox/lox-class.ts:16-23 | calling a class makes a new instance, runs `init` on it when the class has one, and yields the instance whatever `init` returns, unless `init` throws |
| Calls.CallWithoutInitHasNoFields | src/jlox/lox-class.ts:16-23 | an instance made by a class without `init` has no fields: each property read finds a bound method or fails as undefined |
| Trees.Parenthesize | src/jlox/visitors/ast-printer.ts:86-97 | `parenthesize` renders as a node of the notation |
| Trees.ParenthesizeOne | src/jlox/visitors/ast-printer.ts:86-97 | with one operand the result is `(name x)` |
| Trees.ParenthesizeTwo | src/jlox/visitors/ast-printer.ts:86-97 | with two operands the result is `(name x y)` |
| Trees.ParenthesizeThree | src/jlox/visitors/ast-printer.ts:86-97 | with three operands the result is `(name x y z)` |
| Trees.ReadRender | src/jlox/visitors/ast-printer.ts:86-97 | reading a rendered item back yields the item and what followed it |
| Trees.ReadRenderAll | src/jlox/visitors/ast-printer.ts:86-97 | reading rendered operands back yields the operand list |
| Trees.ReadsBack | src/jlox/visitors/ast-printer.ts:86-97 | the notation reads back as the tree it rendered, when labels contain no blanks or parentheses |
| Trees.RenderInjective | src/jlox/visitors/ast-printer.ts:86-97 | two trees with the same rendering are the same tree |
| AstPrinter.LiteralText | src/jlox/visitors/ast-printer.ts:22-25 | nil prints as "nil", and every other literal as its `toString()` |
| AstPrinter.Print | src/jlox/visitors/ast-printer.ts:9-84 | operator and grouping nodes print in parentheses; literals and tags print as their text; every stub visitor prints nothing |
| AstPrinter.PrintBinary | src/jlox/visitors/ast-printer.ts:9-11 | a binary node prints as `(op left right)` |
| AstPrinter.PrintTernary | src/jlox/visitors/ast-printer.ts:14-16 | a ternary prints as `(? cond then else)` |
| AstPrinter.PrintGrouping | src/jlox/visitors/ast-printer.ts:18-20 | a grouping prints as `(group inner)` |
| AstPrinter.PrintUnary | src/jlox/visitors/ast-printer.ts:31-33 | a unary node prints as `(op operand)` |
| AstPrinter.PrintIsRender | src/jlox/visitors/ast-printer.ts:9-97 | printing is rendering the tree the visitors describe |
| AstPrinter.PrintReadsBack | src/jlox/visitors/ast-printer.ts:9-97 | the printed form determines the tree: reading it back gives the tree the visitors built |
| AstPrinter.BookExample | src/jlox/visitors/ast-printer.ts:9-33 | `-123 * (45.67)` prints as `(* (- 123) (group 45.67))` |
| AstPrinter.NegatedExample | src/jlox/visitors/ast-printer.ts:31-33 | `-123` prints as `(- 123)` |
| AstPrinter.GroupedExample | src/jlox/visitors/ast-printer.ts:18-20 | `(45.67)` prints as `(group 45.67)` |
| SnapshotPrinter.Print | src/pages/jlox/visitors/ast-printer.ts:8-41 | operator and grouping nodes print in parentheses, and literals print as the main printer prints them |
| SnapshotPrinter.PrintAgrees | src/pages/jlox/visitors/ast-printer.ts:8-41 | on every snapshot tree the snapshot printer prints what the main printer prints for the embedded tree |
| SnapshotPrinter.PrintReadsBack | src/pages/jlox/visitors/ast-printer.ts:8-41 | the snapshot's output reads back as the main printer's tree |
| RpnGenerator.LiteralText | src/jlox/visitors/rpn-generator.ts:21-23 | nil gives "null", and every other literal its `toString()` |
| RpnGenerator.ComputeValue | src/jlox/visitors/rpn-generator.ts:64-72 | `computeValue` fails exactly when an operand's output failed, and otherwise appends the value after the operands |
| RpnGenerator.Rpn | src/jlox/visitors/rpn-generator.ts:4-72 | `getRPN` throws exactly on trees that reach a node kind without a visitor |
| RpnGenerator.ComputeOne | src/jlox/visitors/rpn-generator.ts:64-72 | one operand, then the value |
| RpnGenerator.ComputeTwo | src/jlox/visitors/rpn-generator.ts:64-72 | two operands in order, then the value |
| RpnGenerator.ComputeThree | src/jlox/visitors/rpn-generator.ts:64-72 | three operands in order, then the value |
| RpnGenerator.RpnBinary | src/jlox/visitors/rpn-generator.ts:8-10 | a binary node gives left, right, operator |
| RpnGenerator.RpnTernary | src/jlox/visitors/rpn-generator.ts:13-15 | a ternary gives condition, then-branch, else-branch, `?` |
| RpnGenerator.RpnUnary | src/jlox/visitors/rpn-generator.ts:30-32 | a unary node gives operand, operator |
| RpnGenerator.RpnGrouping | src/jlox/visitors/rpn-generator.ts:17-19 | parentheses leave no trace in postfix |
| RpnGenerator.RpnIsItemsText | src/jlox/visitors/rpn-generator.ts:4-72 | the output is the concatenation of the postfix items of the tree |
| RpnGenerator.ItemsRebuildShape | src/jlox/visitors/rpn-generator.ts:4-72 | a stack machine run over a tree's postfix items pushes exactly that tree's shape |
| RpnGenerator.PostfixDecodes | src/jlox/visitors/rpn-generator.ts:4-72 | on trees the generator accepts, the postfix item list (whose texts concatenate to the output) decodes to the expression's shape; the output string alone does not |
| SnapshotRpn.ComputeValue | src/pages/jlox/visitors/rpn-generator.ts:28-36 | `computeValue` with no operands is the value itself, and it never drops the value |
| SnapshotRpn.Rpn | src/pages/jlox/visitors/rpn-generator.ts:8-26 | a literal gives the main generator's text |
| SnapshotRpn.ComputeOne | src/pages/jlox/visitors/rpn-generator.ts:28-36 | one operand, then the value |
| SnapshotRpn.ComputeTwo | src/pages/jlox/visitors/rpn-generator.ts:28-36 | two operands in order, then the value |
| SnapshotRpn.ComputeThree | src/pages/jlox/visitors/rpn-generator.ts:28-36 | three operands in order, then the value |
| SnapshotRpn.RpnBinary | src/pages/jlox/visitors/rpn-generator.ts:8-10 | left, right, operator |
| SnapshotRpn.RpnTernary | src/pages/jlox/visitors/rpn-generator.ts:12-14 | condition, then-branch, else-branch, `?` |
| SnapshotRpn.RpnUnary | src/pages/jlox/visitors/rpn-generator.ts:24-26 | operand, operator |
| SnapshotRpn.RpnGrouping | src/pages/jlox/visitors/rpn-generator.ts:16-18 | parentheses leave no trace |
| SnapshotRpn.RpnAgrees | src/pages/jlox/visitors/rpn-generator.ts:8-36 | on every snapshot tree the main generator does not throw and produces the snapshot's output |
| SnapshotRpn.PostfixDecodes | src/pages/jlox/visitors/rpn-generator.ts:8-36 | the snapshot's postfix item list (whose texts concatenate to the output) decodes to the expression's shape; the output string alone does not |
| SnapshotAst.ToMain | src/pages/jlox/expr.ts:19-101 | the embedding maps each snapshot node to the main node of the same kind |
| SnapshotAst.ToMainInjective | src/pages/jlox/expr.ts:19-101 | distinct snapshot trees embed as distinct main trees |
| SnapshotInterpreter.Eval | src/pages/jlox/visitors/interpreter.ts:17-94 | a snapshot expression evaluates to nil, a boolean, a number or a string, or throws an ordinary error |
| SnapshotInterpreter.EvalAgrees | src/pages/jlox/visitors/interpreter.ts:17-112 | on every snapshot tree, the main interpreter computes the same value or throws the same error, in any state, and changes nothing |
| SnapshotInterpreter.BinaryAgrees | src/pages/jlox/visitors/interpreter.ts:39-89 | the binary step agrees once both operands agree |
| SnapshotInterpreter.TernaryPicksBranch | src/pages/jlox/visitors/interpreter.ts:92-94 | a ternary evaluates only the branch that the condition's truthiness selects |
| SnapshotInterpreter.Interpret | src/pages/jlox/visitors/interpreter.ts:7-15 | `interpret` logs the stringified value exactly when evaluation does not throw, and nil logs as "nil" |
| SnapshotInterpreter.InterpretAgrees | src/pages/jlox/visitors/interpreter.ts:7-15 | the snapshot logs exactly what the main interpreter, in any state, prints for `print` of the embedded tree, and is silent exactly when the main run ends in an error |

## Left out

- RpnGenerator.PostfixDecodes: decodes the item list, not the string
  `getRPN` returns. `computeValue` joins the pieces with no separator, so
  `12 + 3` and `1 + 23` both give `123+`, and the stub visitors' operands
  (tags, variables, assignments, calls, logical and comma nodes, function
  expressions) print as nothing. The string alone does not determine the
  tree, and no decoding of it is claimed.
- SnapshotRpn.PostfixDecodes: the same gap for the snapshot's generator,
  whose output is just as ambiguous (`123+`).
- Console and UI: `Logger`, `console.log`, the React pages and the
  diagnostics display. Logged errors become values: the parser's error
  list, the resolver's error list and the scanner's diagnostics.
  `interpret` hands the error that ends a run to `Logger.runtimeError` of
  src/jlox/logger.ts, which is not part of this model; the model assumes
  it returns normally. If that logger reads `error.token.loc.line` as the
  snapshot's `runtimeError` in src/pages/jlox/logger.ts does, a token-less
  failure (the `TypeError` of a missing visitor, say) would make the
  report itself throw, and the error would reach the `catch` of
  src/pages/jlox.tsx instead; the model does not follow that path.
- Floating point. Numbers are exact reals. The JavaScript number-to-string
  conversion is the host parameter `numText`. Anything that depends on IEEE
  or on JavaScript coercion is the error kind `Unmodelled`: `-`, `*`, `/`
  and comparisons on non-numbers, division by zero, and unary minus on a
  non-number. `NaN` does not exist in the model. Exact reals also lose three
  things that doubles have:
  - rounding: `+`, `-`, `*` and `/` on numbers are exact, so `0.1 + 0.2 ==
    0.3` holds in the model and not in JavaScript;
  - signed zero: there is one zero, so `Values.IsEqual` equates what would
    be `-0` and `0`, which `Object.is` tells apart;
  - literal rounding: a number literal's value is its exact decimal, not
    the nearest double.
- UTF-16. The scanner reads the source by JavaScript string index
  (`charAt`, `substring`, `length`), that is, by UTF-16 code unit. The
  model's source text is a sequence of Unicode characters. A character
  outside the Basic Multilingual Plane is one unrecognised character in
  the model and two (its surrogate halves) in the source, and its columns
  count one unit instead of two.
- Scanner.ScanNumber: states the token's kind and lexeme, not its numeric
  value. The value is computed by `DecimalValue`, and no contract relates
  it to the lexeme.
- The tag data source `TagDataSource` is the host parameter `tagValue` for
  the interpreter and `tagText` for the printers.
- `LoxFunction.bind` is not part of this model. `get` returns the method
  paired with its receiver, and `LoxClass.call` takes the call of the bound
  initializer as a parameter.
- Calls.CallFunction: the body's execution (`executeBlock`) is a parameter,
  so its own contract says nothing about the environment afterwards;
  `Calls.CallRestoresEnvironment` states that for the interpreter's own
  `ExecBlock`. The main interpreter has no call visitor, so nothing in the
  repository calls a function.
- `Interpreter.resolve` is not part of this model. The resolver's side
  table is its result map `locals`, and the interpreter never reads it.
- Scanner columns: `colS` and `colE` are carried in the state, but no
  contract states them except the newline reset.
- Interpreter.Loop: `while` is bounded by a fuel argument. A loop that runs
  out of fuel ends in the `OutOfFuel` error, which the source does not
  have.
- Interpreter.BinaryOp: on non-numbers and on division by zero, the model
  states only that the result is `Unmodelled`, not JavaScript's value.
- The `for`, `if`, `while`, `fun`, `class` and `return` syntax, call
  arguments and the 255-argument cap are not parsed by the main parser.
  Their tree nodes exist and are modelled in the resolver and the
  interpreter.
- The snapshot parser's `synchronize` and the main parser's `check`/`peek`
  helpers are folded into the functions that use them; `synchronize` in the
  snapshot is never called.
- Identity of function and class objects. `Object.is` on two function or
  class values compares them structurally in the model, where JavaScript
  compares references.
