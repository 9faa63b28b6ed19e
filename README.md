# Honyac compiler core in Dafny

This project models the core of Honyac, a small C compiler written in C#
that reads a C subset and emits x86-64 assembly in Intel syntax. The
pipeline has three stages, and each one is modelled.

- **Lexer** (`Honyac/TokenList.cs`). `TokenList` scans a source string into
  tokens and then serves as the parser's cursor. The scan is specified by
  the pure function `Lexer.Lex` and its one-step function `Lexer.StepAt`.
  Class `Lexer.TokenList` is the imperative scanner: its loop is proved to
  produce exactly `Lex`. The lemmas in `LexerFacts` state what each kind of
  character becomes. They also prove a round trip: printing the tokens and
  scanning the text again gives the same tokens.
- **Parser** (`Honyac/NodeMap.cs`). `NodeMap` is a recursive-descent parser.
  For each function it builds a local-variable table (`CreateLVars`) and a
  syntax tree of `Node`s. The grammar is written twice:
  - `Parser` holds pure functions over a token sequence and a position.
    Each one fails exactly where the source throws.
  - Class `NodeMaps.NodeMap` is the imperative parser. It moves a cursor
    (`SynTokens.TokenCursor`) and is proved method by method to agree with
    those functions.

  `Symbols` models `CreateLVars` and the brace-counting loop that cuts out a
  function body. `SymbolsFacts` proves the frame layout: parameter slots,
  increasing offsets and unique names. `ParserFacts` proves the shapes of
  the trees: associativity, operand swapping for `>`/`>=`, `a[i]` as
  `*(a + i)`, and `sizeof` folding. `ParserTidy` proves that every tree
  the parser builds is well formed over its own table.
- **Code generator** (`Honyac/Generator.cs`). `CodeGen.Gen` states, as a
  function, which assembly lines `Generate` appends and how far it advances
  the label counter. Class `Generators.Generator` appends to a
  `Generators.Buffer`, which stands for the StringBuilder. It is proved to
  do exactly what `Gen` says. `CodeGenFacts` proves the following:
  - generation only appends;
  - the counter advances once per `if`/`while`/`for`;
  - no label is defined twice;
  - an expression's code pushes one more value than it pops;
  - the order in which operands are evaluated.
- **Type table** (`Honyac/Type.cs`): module `Types`.

The parser refers to `TokenList` members that `TokenList.cs` does not
define: `Consume()`, `Consume(TokenKind)`, `Expect(TokenKind)`,
`ExpectIdent`, `ConsumeIdent`, token kinds for keywords and types, and the
`TypeKind` of a type token. Those members get the contract their use in
`NodeMap.cs` implies, in module `SynTokens`. So the parser runs on
`SynToken`s, and the lexer's `Token`s are not converted into them.

## Model

| member | source | states |
|---|---|---|
| Types.LookupType | Honyac/Type.cs:30-34 | indexing `TypeDic` succeeds exactly for `Int`, giving the descriptor named "int" of size 8; any other kind is an error |
| Types.TypeDicShape | Honyac/Type.cs:30-34 | the table has the single key `Int`, each entry is filed under its own kind, and `None` is not registered |
| Decimal.DigitValue | Honyac/TokenList.cs:66 | `int.Parse` of one digit character is a value from 0 to 9 |
| Decimal.DigitChar | Honyac/TokenList.cs:68 | the digit character of a value from 0 to 9 is a digit whose value is that number |
| Decimal.ValueOfSnoc | Honyac/TokenList.cs:64-67 | appending a digit multiplies the value by ten and adds the digit, which is the step `value * 10 + digit` |
| Decimal.RunValueIsValueOf | Honyac/TokenList.cs:63-67 | the value the loop accumulates over a run of digits is the decimal value of that digit string |
| Decimal.RunValuePrefix | Honyac/TokenList.cs:63-67 | accumulating fewer digits of a run never gives a larger value |
| Decimal.NatToString | Honyac/TokenList.cs:68 | `value.ToString()` of a natural number is a non-empty digit string with no leading zero whose decimal value is the number |
| Decimal.IntToString | Honyac/Generator.cs:29 | the text of an integer starts with `-` exactly when the integer is negative; a negative integer prints as `-` followed by the digits of its magnitude, any other as `NatToString` |
| Decimal.NatToStringInjective | Honyac/Generator.cs:54-57 | different numbers print differently, so label numbers name labels uniquely |
| Lexer.DigitRunEnd | Honyac/TokenList.cs:64 | the inner loop stops at the end of the maximal run of digits: every character before it is a digit, and the character at the stop is not |
| Lexer.StepAt | Honyac/TokenList.cs:26-73 | one step of the scan that emits a token always moves forward and stays within the text |
| Lexer.LargestLiteralBound | Honyac/TokenList.cs:61-70 | every run of digits at or after a position is bounded by the largest literal from there |
| Lexer.RunPrefixFits | Honyac/TokenList.cs:64-67 | in a text whose literals fit an `int`, every partial value the loop builds fits as well, so the C# `int` does not wrap |
| Lexer.ReadNumber | Honyac/TokenList.cs:61-67 | the digit loop stops at the end of the run and returns the value of the whole run, at most `int.MaxValue` |
| Lexer.NumberStep | Honyac/TokenList.cs:61-69 | at a digit the scan emits one `Num` token holding the run's value, spelled `value.ToString()`, and resumes after the run |
| Lexer.FailStep | Honyac/TokenList.cs:72 | a character the scan cannot read makes the whole tokenization fail |
| Lexer.ScanAdvance | Honyac/TokenList.cs:26-73 | one turn of the scanning loop keeps its invariant: the tokens so far followed by the scan of the rest are the scan of the whole text |
| Lexer.TokenList.constructor | Honyac/TokenList.cs:11 | a new list is empty, with the cursor at 0 |
| Lexer.TokenList.Current | Honyac/TokenList.cs:9 | the token under the cursor, or none once the cursor has passed the last token |
| Lexer.TokenList.AddToken | Honyac/TokenList.cs:13-21 | appends one token with the given kind, value and text, and returns it |
| Lexer.TokenList.ScanAt | Honyac/TokenList.cs:28-72 | one turn of the loop: skips white space, appends the token `StepAt` gives, or reports failure, exactly as `StepAt` says |
| Lexer.TokenList.TokenizeInternal | Honyac/TokenList.cs:23-74 | resets the cursor; succeeds exactly when `Lex` does, and then appends exactly `Lex(str)` to the list |
| Lexer.TokenList.Tokenize | Honyac/TokenList.cs:76-81 | a fresh list holding exactly `Lex(str)` with the cursor at 0, or an error exactly when the scan fails |
| Lexer.TokenList.Consume | Honyac/TokenList.cs:87-97 | steps over the current token and answers true exactly when it is the one-character `Reserved` token `op`; otherwise the cursor stays |
| Lexer.TokenList.ConsumeStr | Honyac/TokenList.cs:103-113 | the same for a `Reserved` token spelled `op` |
| Lexer.TokenList.Expect | Honyac/TokenList.cs:120-130 | steps over the one-character `Reserved` token `op`; anything else, or the end, is an error |
| Lexer.TokenList.ExpectNumber | Honyac/TokenList.cs:137-147 | returns the value of the current `Num` token and steps over it; anything else, or the end, is an error |
| Lexer.TokenList.IsEof | Honyac/TokenList.cs:152-155 | true exactly when the cursor equals the number of tokens |
| LexerFacts.Render | Honyac/TokenList.cs:23-81 | the reference printer that the scan inverts (see `LexRoundTrip`): the printed form of a token list is empty only for no tokens, and otherwise ends in white space |
| LexerFacts.DigitClass | Honyac/TokenList.cs:28-61 | a digit is neither white space, nor one of `+-*/()`, nor one of `!><=`, so the digit branch is the only one that sees it |
| LexerFacts.WhiteSpaceSkipped | Honyac/TokenList.cs:28-32 | a white-space character produces no token, and the scan goes on after it |
| LexerFacts.PunctuatorToken | Honyac/TokenList.cs:33-38 | each of `+ - * / ( )` is a one-character `Reserved` token with value 0 |
| LexerFacts.SingleComparison | Honyac/TokenList.cs:54-59 | a `<` or `>` not followed by `=` is a one-character `Reserved` token |
| LexerFacts.NumberToken | Honyac/TokenList.cs:61-70 | a run of digits becomes one `Num` token: the run is maximal, and the token's value is the run's decimal value and its text is that value printed |
| LexerFacts.TwoCharOperatorFirst | Honyac/TokenList.cs:39-53 | a character among `!><=` followed by `=` is read as one two-character token, before any one-character reading |
| LexerFacts.LexFromShift | Honyac/TokenList.cs:26-73 | scanning is unaffected by any text in front of the scanned part |
| LexerFacts.LexAppend | Honyac/TokenList.cs:26-73 | white space only separates tokens: scanning a text that ends in white space, followed by another text, gives the concatenation of the two scans |
| LexerFacts.LexSingle | Honyac/TokenList.cs:33-70 | every well-formed token, printed and followed by a space, scans back to exactly that token |
| LexerFacts.LexRender | Honyac/TokenList.cs:26-73 | scanning the printed form of any list of well-formed tokens gives back the same list |
| LexerFacts.LexFromWellFormed | Honyac/TokenList.cs:33-70 | every token the scan produces is well formed: an operator the scan can spell, or a number printed in canonical decimal |
| LexerFacts.LexRoundTrip | Honyac/TokenList.cs:23-81 | printing the tokens of a text and scanning the result gives the same tokens |
| LexerFacts.LexPassesBoundary | Honyac/TokenList.cs:26-73 | a scan that succeeds from one position also succeeds from every later token boundary |
| LexerFacts.LexRejectsUnknown | Honyac/TokenList.cs:72 | any character outside white space, `+-*/()`, `!><=` and the digits makes tokenization fail |
| LexerFacts.LexRejectsLoneBang | Honyac/TokenList.cs:39-60 | a `!` not followed by `=` fails: it matches no two-character operator and is not `<` or `>` |
| LexerFacts.LexRejectsLoneEquals | Honyac/TokenList.cs:39-60 | a lone `=`, one that neither completes nor starts `==`/`!=`/`<=`/`>=`, fails, so the lexer cannot read an assignment |
| LexerFacts.LexRejectsTrailingComparison | Honyac/TokenList.cs:43-44 | a text that ends in `!`, `<` or `>` fails, because the lookahead reads past the end of the string |
| SynTokens.Expect | Honyac/NodeMap.cs:222 | `Expect(char)` succeeds exactly at the `Reserved` token `op`, and steps over it |
| SynTokens.ExpectKind | Honyac/NodeMap.cs:217 | `Expect(TokenKind)` succeeds exactly at a token of that kind, and steps over it |
| SynTokens.ExpectIdent | Honyac/NodeMap.cs:221 | succeeds exactly at an identifier, giving its name and the position after it |
| SynTokens.ExpectNumber | Honyac/NodeMap.cs:585 | succeeds exactly at a number, giving its value and the position after it |
| SynTokens.ConsumeAny | Honyac/NodeMap.cs:233 | `Consume()` gives the token under the cursor and steps over it; at the end it is an error |
| SynTokens.SkipStars | Honyac/NodeMap.cs:218-219 | `while (Consume('*'))` stops at the first token that is not `*`, and every token it skipped is `*` |
| SynTokens.TokenCursor.constructor | Honyac/NodeMap.cs:58-61 | a cursor over the given tokens, at position 0 |
| SynTokens.TokenCursor.Consume | Honyac/TokenList.cs:87-113 | steps over the `Reserved` token `op` and answers true exactly when it is there; otherwise the cursor stays |
| SynTokens.TokenCursor.ConsumeKind | Honyac/NodeMap.cs:285 | `Consume(TokenKind)`: the same, for a token of kind `k` |
| SynTokens.TokenCursor.Expect | Honyac/TokenList.cs:120-130 | succeeds exactly at `op` and steps over it; otherwise the cursor stays and the result is an error |
| SynTokens.TokenCursor.ExpectKind | Honyac/NodeMap.cs:217 | succeeds exactly at a token of kind `k` and steps over it |
| SynTokens.TokenCursor.ConsumeIdent | Honyac/NodeMap.cs:536-537 | the identifier under the cursor, stepped over, or none, with the cursor left in place |
| SynTokens.TokenCursor.ExpectIdent | Honyac/NodeMap.cs:221 | the identifier under the cursor, stepped over; anything else is an error |
| SynTokens.TokenCursor.ExpectNumber | Honyac/TokenList.cs:137-147 | the value of the number under the cursor, stepped over; anything else is an error |
| SynTokens.TokenCursor.ConsumeAny | Honyac/NodeMap.cs:233-234 | the token under the cursor, whatever its kind, stepped over; past the end it is an error |
| SynTokens.TokenCursor.IsEof | Honyac/TokenList.cs:152-155 | true exactly when the cursor has passed every token |
| Ast.NewNode | Honyac/NodeMap.cs:181-187 | the node has the given kind and children, and sets no value, no offset and no variable |
| Ast.NewNodeNum | Honyac/NodeMap.cs:189-195 | a childless `Num` node holding the value |
| Ast.NewNodeIdent | Honyac/NodeMap.cs:197-204 | a childless `Lvar` node that refers to the variable and copies its offset |
| Ast.NewNodeTidy | Honyac/NodeMap.cs:181-187 | `NewNode` over well-formed children is well formed |
| Ast.NewNodeNumTidy | Honyac/NodeMap.cs:189-195 | a number node is well formed |
| Ast.NewNodeIdentTidy | Honyac/NodeMap.cs:197-204 | a reference to a variable of the table is well formed |
| Ast.CallTidy | Honyac/NodeMap.cs:542-556 | a call over well-formed arguments is well formed |
| Ast.IfTidy | Honyac/NodeMap.cs:287-298 | an `if` over a well-formed condition and branches is well formed |
| Ast.AllTidyCons | Honyac/NodeMap.cs:280-283 | a well-formed statement in front of well-formed statements keeps the list well formed |
| Ast.BlockNodeTidy | Honyac/NodeMap.cs:275-283 | a block of well-formed statements is well formed |
| Symbols.WindowEnd | Honyac/NodeMap.cs:242-252 | the copy loop stops at the first token after which the brace depth is back to 0, or at the end of the tokens |
| Symbols.CutWindow | Honyac/NodeMap.cs:239-252 | the loop copies exactly the body window: the tokens from the cursor through the `}` that balances the first `{` |
| Symbols.StarRunEnd | Honyac/NodeMap.cs:87-88 | the `*`-counting loop stops at the first token not spelled `*`, and every token it counted is `*` |
| Symbols.CreateLVars | Honyac/NodeMap.cs:71-179 | builds exactly `LocalTable`: the parameters, then the body's declarations, with offsets computed as a C# `int`, or the error the source throws |
| Symbols.CreateParams | Honyac/NodeMap.cs:76-116 | the parameter loop builds exactly `ParamsFrom`: an error for a non-type token or a missing comma |
| Symbols.CreateDecls | Honyac/NodeMap.cs:118-178 | the declaration loop builds exactly `BodyFrom`, skipping function heads; an array adds a pointer level and reserves its slots; the offset's two unchecked `int` additions wrap; a duplicate name or a missing `]` is an error |
| Symbols.ParamStep | Honyac/NodeMap.cs:80-115 | one parameter, read at offset + 8 (as a C# `int`) with its star count and argument index, then a comma or the end |
| Symbols.DeclStep | Honyac/NodeMap.cs:120-177 | one declaration: an error if its name is already in the table, else its entry with its name, pointer count, array size and the offset 8(size + 1) further on as a C# `int` |
| Symbols.OffsetStep | Honyac/NodeMap.cs:164-166 | the two unchecked additions `offset += 8 * arraySize; offset += 8;` give the exact sum wrapped once |
| Int32.Wrap | Honyac/NodeMap.cs:164-166 | the result of an unchecked `int` operation is in the `int` range, and equals the exact result whenever that is in range |
| Int32.WrapMod | Honyac/NodeMap.cs:164-166 | that result is the exact result modulo 2^32, moved into the signed range |
| Int32.WrapAdd | Honyac/NodeMap.cs:164-166 | wrapping an intermediate sum does not change the final wrapped sum |
| SymbolsFacts.ParamsFromLayout | Honyac/NodeMap.cs:76-116 | the k-th parameter (from 0) gets offset 8(k+1) as a C# `int`, argument index k and array size 0 |
| SymbolsFacts.BodyFromLayout | Honyac/NodeMap.cs:118-178 | each body declaration lies 8(size + 1) bytes after the entry before it as a C# `int`, and has a name no earlier entry has |
| SymbolsFacts.LocalTableLayout | Honyac/NodeMap.cs:71-179 | the table is the parameters in slot order followed by the body declarations, the first of them after the last parameter |
| SymbolsFacts.OffsetsIncrease | Honyac/NodeMap.cs:164-166 | when array sizes are non-negative and the frame is smaller than 2^31 bytes, frame offsets are positive and strictly increase in table order, so no two variables share a slot |
| SymbolsFacts.LocalTableChained | Honyac/NodeMap.cs:71-179 | every entry of the table, parameter or declaration, lies its own size past the one before it, as a C# `int` |
| SymbolsFacts.ChainedOffsets | Honyac/NodeMap.cs:164-166 | while the frame fits an `int`, no offset wraps: each entry's offset is the frame size up to and including it |
| SymbolsFacts.ChainedIncrease | Honyac/NodeMap.cs:164-166 | in such a chain whose frame fits an `int`, offsets are positive and strictly increase |
| SymbolsFacts.FrameWraps | Honyac/NodeMap.cs:164-166 | in the body `int x; int a[536870911];` the offsets wrap and both variables get offset 8 |
| SymbolsFacts.Increasing | Honyac/NodeMap.cs:164-166 | offsets that increase step by step increase between any two entries |
| SymbolsFacts.ParamAt | Honyac/NodeMap.cs:80-93 | a parameter written as a type, some `*`s and a name is read with that type, that many pointer levels and that name |
| SymbolsFacts.ParamsFromList | Honyac/NodeMap.cs:76-116 | a comma-separated list of written parameters is read one entry per parameter, laid out in order |
| SymbolsFacts.ParamsOfList | Honyac/NodeMap.cs:76-116 | for any written parameter list, the k-th entry has the k-th name and type, offset 8(k+1), its pointer count, array size 0 and argument index k |
| SymbolsFacts.ParamsRead | Honyac/NodeMap.cs:76-116 | a written parameter list is read to exactly its entries, leaving the offset 8 bytes per parameter |
| SymbolsFacts.DeclAt | Honyac/NodeMap.cs:118-177 | a written declaration `T *…* x ;` or `T *…* x [ N ] ;` is an error when `x` is already in the table, parameters included; otherwise it appends the entry with its name, type, pointer levels (one more for an array), size and offset, and the scan resumes after it |
| SymbolsFacts.DuplicateRejected | Honyac/NodeMap.cs:159-161 | a declaration of a name the table already holds makes the whole table an error |
| SymbolsFacts.DeclsRead | Honyac/NodeMap.cs:118-178 | a run of written declarations with fresh names appends one entry per declaration and moves the offset past all of them |
| SymbolsFacts.DeclVarsAt | Honyac/NodeMap.cs:163-175 | the k-th entry of a run lies the bytes of the first k + 1 declarations past the starting offset, as a C# `int` |
| SymbolsFacts.DeclTable | Honyac/NodeMap.cs:71-179 | the table of a function with written parameters and fresh declarations is the parameter entries followed by the declaration entries |
| SymbolsFacts.DeclsOfList | Honyac/NodeMap.cs:71-179 | for any written parameters and body declarations with distinct names, the table has one entry per parameter and then one per declaration, each with its own name, type, pointer levels, array size, argument index and offset |
| Parser.FindVar | Honyac/NodeMap.cs:576-578 | `LVars.FirstOrDefault` finds a variable exactly when the name is declared, and returns the first entry with that name |
| Parser.SizeOf | Honyac/NodeMap.cs:497-518 | `sizeof` succeeds exactly on a variable that is a pointer or an `int`, or on a number, and its size is 8 |
| Parser.Primary | Honyac/NodeMap.cs:526-588 | on success the parser has consumed at least one token and stays within the tokens |
| Parser.Unary | Honyac/NodeMap.cs:477-524 | on success the parser has consumed at least one token and stays within the tokens |
| Parser.Mul | Honyac/NodeMap.cs:457-475 | on success the parser has consumed at least one token and stays within the tokens |
| Parser.Add | Honyac/NodeMap.cs:437-455 | on success the parser has consumed at least one token and stays within the tokens |
| Parser.Relational | Honyac/NodeMap.cs:409-435 | on success the parser has consumed at least one token and stays within the tokens |
| Parser.Equality | Honyac/NodeMap.cs:389-407 | on success the parser has consumed at least one token and stays within the tokens |
| Parser.Assign | Honyac/NodeMap.cs:379-387 | on success the parser has consumed at least one token and stays within the tokens |
| Parser.Stmt | Honyac/NodeMap.cs:269-372 | on success the parser has consumed at least one token and stays within the tokens |
| Parser.Block | Honyac/NodeMap.cs:280-283 | the statements up to and including the closing `}`, ending within the tokens |
| Parser.Function | Honyac/NodeMap.cs:214-267 | on success the parser has consumed at least one token and stays within the tokens |
| ParserFacts.ParamTokensSpan | Honyac/NodeMap.cs:228-235 | the parameter tokens are exactly the tokens before the first `)`, and the cursor ends after it |
| ParserFacts.ParamTokensNeedClose | Honyac/NodeMap.cs:228-235 | running out of tokens before the `)` of a parameter list is an error |
| ParserFacts.UnaryPlus | Honyac/NodeMap.cs:479-482 | `+p` is read as the primary `p` |
| ParserFacts.UnaryMinus | Honyac/NodeMap.cs:483-486 | `-p` is read as `0 - p` |
| ParserFacts.UnaryPrefix | Honyac/NodeMap.cs:487-494 | `&u` and `*u` wrap the unary after them in an `Addr` or `DeRef` node |
| ParserFacts.UnarySizeof | Honyac/NodeMap.cs:495-519 | `sizeof u` is read as the folded size of `u` |
| ParserFacts.UnaryPrimary | Honyac/NodeMap.cs:520-523 | any other unary expression is a primary |
| ParserFacts.StmtForms | Honyac/NodeMap.cs:269-372 | the first token chooses the statement form: `{`, `if`, `while`, `for`, `return`, a type, or an expression followed by `;`, tried in that order |
| ParserFacts.CallForm | Honyac/NodeMap.cs:540-557 | an identifier followed by `(` is a call named by it, over its arguments |
| ParserFacts.ElementForm | Honyac/NodeMap.cs:558-573 | an identifier followed by `[` is an element of a declared variable, and an undeclared one is an error |
| ParserFacts.VariableForm | Honyac/NodeMap.cs:574-581 | any other identifier is a reference to a declared variable, and an undeclared one is an error |
| ParserFacts.MulAssociatesLeft | Honyac/NodeMap.cs:457-475 | `a * b / c` is read as `(a * b) / c` |
| ParserFacts.AddAssociatesLeft | Honyac/NodeMap.cs:437-455 | `a + b - c` is read as `(a + b) - c` |
| ParserFacts.EqualityAssociatesLeft | Honyac/NodeMap.cs:389-407 | `a == b != c` is read as `(a == b) != c` |
| ParserFacts.RelationalAssociatesLeft | Honyac/NodeMap.cs:409-435 | a chain `a op1 b op2 c` of any two of `<`, `<=`, `>`, `>=` is read as `(a op1 b) op2 c`, with the operands of `>` and `>=` swapped |
| ParserFacts.ComparisonOperands | Honyac/NodeMap.cs:414-429 | `a > b` is read as `b < a` and `a >= b` as `b <= a`, while `<` and `<=` keep their operands in order |
| ParserFacts.AssignMore | Honyac/NodeMap.cs:379-387 | an equality followed by `=` is an assignment whose right side is again an `assign` |
| ParserFacts.AssignLast | Honyac/NodeMap.cs:379-387 | an equality not followed by `=` is the whole `assign` |
| ParserFacts.AssignAssociatesRight | Honyac/NodeMap.cs:379-387 | `a = b = c` is read as `a = (b = c)` |
| ParserFacts.IndexIsDeref | Honyac/NodeMap.cs:558-573 | `a[e]` is read as `*(a + e)`, with `a` the table's entry for the name |
| ParserFacts.UnknownNameRejected | Honyac/NodeMap.cs:357-359 | a name not in the table is an error as a variable, as an element or in a declaration; only a called function is exempt |
| ParserFacts.SizeofFolds | Honyac/NodeMap.cs:495-519 | `sizeof u` becomes the number node 8 when `u` is a pointer or `int` variable or a number, and is an error otherwise |
| ParserTidy.PrimaryTidy | Honyac/NodeMap.cs:526-588 | a primary's tree is well formed over the table |
| ParserTidy.UnaryTidy | Honyac/NodeMap.cs:477-524 | a unary expression's tree is well formed over the table |
| ParserTidy.MulTidy | Honyac/NodeMap.cs:457-475 | a product's tree is well formed over the table |
| ParserTidy.AddTidy | Honyac/NodeMap.cs:437-455 | a sum's tree is well formed over the table |
| ParserTidy.RelationalTidy | Honyac/NodeMap.cs:409-435 | a comparison's tree is well formed over the table |
| ParserTidy.EqualityTidy | Honyac/NodeMap.cs:389-407 | an equality's tree is well formed over the table |
| ParserTidy.AssignTidy | Honyac/NodeMap.cs:379-387 | an assignment's tree is well formed over the table |
| ParserTidy.StmtTidy | Honyac/NodeMap.cs:269-372 | every statement tree is well formed: only numbers carry values, only variable references carry offsets, and those equal their variable's, and every variable referred to is in the table |
| ParserTidy.DeclarationTidy | Honyac/NodeMap.cs:343-365 | a declaration node refers to the table's entry for its name |
| ParserTidy.FunctionTidy | Honyac/NodeMap.cs:214-267 | a function node carries its name, its body and its own table, and its body is well formed over that table |
| ParserTidy.ProgramTidy | Honyac/NodeMap.cs:206-212 | every node of the program is such a function node |
| NodeMaps.NodeMap.constructor | Honyac/NodeMap.cs:56-61 | a parser over the given cursor, with no nodes read and an empty local table |
| NodeMaps.NodeMap.Create | Honyac/NodeMap.cs:58-64 | runs `Program`: success exactly when `Parser.Program` succeeds, and then its nodes are `Parser.Program`'s |
| NodeMaps.NodeMap.Program | Honyac/NodeMap.cs:206-212 | reads functions until the last token, appending one node per function; the outcome and the nodes appended are exactly `Parser.Program`'s |
| NodeMaps.NodeMap.FunctionHeader | Honyac/NodeMap.cs:217-222 | the function's name and the cursor after its `(`, as `Parser.FunctionHeader` says |
| NodeMaps.NodeMap.ConsumeStars | Honyac/NodeMap.cs:218-219 | skips exactly the run of `*` tokens, as `SkipStars` says |
| NodeMaps.NodeMap.ParamTokens | Honyac/NodeMap.cs:225-235 | collects the parameter tokens up to the `)`, as `Parser.ParamTokensFrom` says |
| NodeMaps.NodeMap.Function | Honyac/NodeMap.cs:214-267 | builds the table with `CreateLVars`, installs it, and reads the body: exactly `Parser.Function` |
| NodeMaps.NodeMap.Stmt | Honyac/NodeMap.cs:269-372 | the statement and the cursor after it, or the error, exactly as `Parser.Stmt` |
| NodeMaps.NodeMap.ExprStmt | Honyac/NodeMap.cs:366-370 | an expression and its `;`, exactly as `Parser.ExprStmt` |
| NodeMaps.NodeMap.Block | Honyac/NodeMap.cs:273-284 | statements until the `}`, exactly as `Parser.Block` |
| NodeMaps.NodeMap.Condition | Honyac/NodeMap.cs:289-291 | the parenthesised condition, exactly as `Parser.Condition` |
| NodeMaps.NodeMap.IfStmt | Honyac/NodeMap.cs:285-299 | an `if` with its optional `else`, exactly as `Parser.IfStmt` |
| NodeMaps.NodeMap.IfArms | Honyac/NodeMap.cs:292-298 | the branches after the condition, exactly as `Parser.IfArms` |
| NodeMaps.NodeMap.WhileStmt | Honyac/NodeMap.cs:300-308 | a `while` loop, exactly as `Parser.WhileStmt` |
| NodeMaps.NodeMap.ForClause | Honyac/NodeMap.cs:314-319 | one optional clause of a `for` header and its terminator, exactly as `Parser.ForClause` |
| NodeMaps.NodeMap.ForClauses | Honyac/NodeMap.cs:313-333 | the three clauses of a `for` header, exactly as `Parser.ForClauses` |
| NodeMaps.NodeMap.ForStmt | Honyac/NodeMap.cs:309-335 | a `for` loop, exactly as `Parser.ForStmt` |
| NodeMaps.NodeMap.ReturnStmt | Honyac/NodeMap.cs:336-342 | a `return`, exactly as `Parser.ReturnStmt` |
| NodeMaps.NodeMap.Declaration | Honyac/NodeMap.cs:343-365 | a declaration that refers to the table's entry, or an error for an unknown name, exactly as `Parser.Declaration` |
| NodeMaps.NodeMap.Expr | Honyac/NodeMap.cs:374-377 | exactly `Parser.Expr` |
| NodeMaps.NodeMap.Assign | Honyac/NodeMap.cs:379-387 | exactly `Parser.Assign`, right-associative |
| NodeMaps.NodeMap.Equality | Honyac/NodeMap.cs:389-407 | the loop builds exactly `Parser.Equality`; its invariant is that the tree so far and the rest of the chain give the whole result |
| NodeMaps.NodeMap.EqualityStep | Honyac/NodeMap.cs:394-405 | one turn of the loop: `==`/`!=` and an operand extend the chain, anything else ends it |
| NodeMaps.NodeMap.Relational | Honyac/NodeMap.cs:409-435 | the loop builds exactly `Parser.Relational` |
| NodeMaps.NodeMap.RelationalStep | Honyac/NodeMap.cs:414-433 | one turn of the loop, with the operands swapped for `>` and `>=` |
| NodeMaps.NodeMap.ComparisonOperator | Honyac/NodeMap.cs:414-429 | tries `<`, `>`, `<=`, `>=` in that order: the node kind and swap for the operator found, or none with the cursor in place |
| NodeMaps.NodeMap.Add | Honyac/NodeMap.cs:437-455 | the loop builds exactly `Parser.Add` |
| NodeMaps.NodeMap.AddStep | Honyac/NodeMap.cs:442-453 | one turn of the loop: `+`/`-` and an operand extend the chain, anything else ends it |
| NodeMaps.NodeMap.Mul | Honyac/NodeMap.cs:457-475 | the loop builds exactly `Parser.Mul` |
| NodeMaps.NodeMap.MulStep | Honyac/NodeMap.cs:462-473 | one turn of the loop: `*`/`/` and an operand extend the chain, anything else ends it |
| NodeMaps.NodeMap.Unary | Honyac/NodeMap.cs:477-524 | exactly `Parser.Unary` |
| NodeMaps.NodeMap.Negated | Honyac/NodeMap.cs:483-486 | after `-`, the primary `p` becomes `0 - p`, and an error in `p` is an error |
| NodeMaps.NodeMap.PrefixOperand | Honyac/NodeMap.cs:487-494 | after `&` or `*`, the unary operand wrapped in an `Addr` or `DeRef` node |
| NodeMaps.NodeMap.SizeofOperand | Honyac/NodeMap.cs:495-519 | after `sizeof`, the folded size of the operand, exactly as `Parser.SizeofOperand` |
| NodeMaps.NodeMap.Primary | Honyac/NodeMap.cs:526-588 | exactly `Parser.Primary` |
| NodeMaps.NodeMap.Identifier | Honyac/NodeMap.cs:536-582 | a call, an element or a variable, exactly as `Parser.Identifier` |
| NodeMaps.NodeMap.Element | Honyac/NodeMap.cs:567-572 | `*(v + e)` after `v[`, exactly as `Parser.Element` |
| NodeMaps.NodeMap.Call | Honyac/NodeMap.cs:542-556 | the arguments up to the `)`, each optionally followed by `,`, exactly as `Parser.Args` |
| CodeGen.GenLval | Honyac/Generator.cs:12-22 | succeeds exactly on a variable node, appending the three lines that push its address |
| Generators.Buffer.constructor | Honyac/Program.cs:18 | an empty buffer |
| Generators.Buffer.AppendLine | Honyac/Generator.cs:19-21 | appends one line and changes nothing else |
| Generators.Generator.constructor | Honyac/Generator.cs:9 | the label counter starts at 1 |
| Generators.Generator.Count | Honyac/Generator.cs:10 | returns the counter and then increments it |
| Generators.Generator.GenerateLval | Honyac/Generator.cs:12-22 | appends exactly `GenLval`'s lines, and fails exactly when `GenLval` does |
| Generators.Generator.Generate | Honyac/Generator.cs:24-166 | appends exactly the lines `Gen` gives and leaves the counter where `Gen` says, or fails exactly when `Gen` does |
| Generators.Generator.GenerateAssign | Honyac/Generator.cs:39-47 | the address, then the value, then the store, exactly as `GenAssign` |
| Generators.Generator.GenerateIf | Honyac/Generator.cs:49-63 | takes one label number, then the condition, the branches and the else/end labels, exactly as `GenIf` |
| Generators.Generator.GenerateWhile | Honyac/Generator.cs:65-75 | exactly `GenWhile` |
| Generators.Generator.GenerateFor | Honyac/Generator.cs:77-95 | exactly `GenFor`, skipping an absent initializer or step |
| Generators.Generator.GenerateBlock | Honyac/Generator.cs:106-116 | each statement followed by `pop rax`, exactly as `GenBodies` |
| Generators.Generator.GenerateBinary | Honyac/Generator.cs:122-165 | both operands, two pops, the operator's instructions and a push, exactly as `GenBinary` |
| CodeGenFacts.GenShift | Honyac/Generator.cs:24-166 | generating after any buffer contents gives the same lines after them: output does not depend on what the buffer already holds |
| CodeGenFacts.AppendOnly | Honyac/Generator.cs:24-166 | generation only appends: the old buffer is a prefix of the new one, followed by the node's own code |
| CodeGenFacts.GenCounter | Honyac/Generator.cs:9-10 | generation fails exactly when an assignment's target is not a variable; otherwise the counter advances by the number of `if`, `while` and `for` statements |
| CodeGenFacts.ExprBalanced | Honyac/Generator.cs:28-47 | the code of an expression pushes exactly one more value than it pops |
| CodeGenFacts.OperatorBalanced | Honyac/Generator.cs:128-163 | the instructions of an operator neither push nor pop |
| CodeGenFacts.BlockBalanced | Honyac/Generator.cs:106-116 | a block of expression statements leaves the stack as it found it |
| CodeGenFacts.BlockStep | Honyac/Generator.cs:108-115 | a block is its first statement's code, then `pop rax`, then the rest of the block |
| CodeGenFacts.BinaryOrder | Honyac/Generator.cs:122-165 | a binary operator evaluates its left operand, then its right, pops them into rdi (right) and rax (left), combines them and pushes the result |
| CodeGenFacts.IfWithoutElse | Honyac/Generator.cs:57-62 | an `if` without `else` ends with its else label right before its end label |
| CodeGenFacts.ReturnEpilogue | Honyac/Generator.cs:97-104 | `return` is its expression's code, then `pop rax` and the function epilogue |
| CodeGenFacts.DefsGen | Honyac/Generator.cs:49-95 | the label definitions the generator appends are exactly `Labels`, in order |
| CodeGenFacts.LabelsFresh | Honyac/Generator.cs:49-95 | numbering a tree from counter `c` adds only labels numbered from `c` to `c` plus its `if`/`while`/`for` count, none of them twice |
| CodeGenFacts.LabelLineInjective | Honyac/Generator.cs:54-94 | two label lines are equal only for the same family and number |
| CodeGenFacts.RenderDistinct | Honyac/Generator.cs:54-94 | distinct labels have distinct definition lines |
| CodeGenFacts.NoLabelTwice | Honyac/Generator.cs:9-10 | in the code for any tree, no label is defined twice, and every label defined is numbered below the counter's value afterwards |

## Left out

- `Honyac/Program.cs` is not part of this model. It is the driver: command-line arguments, the assembly prologue and console output.
- Exceptions are one error outcome (`Err` or `false`). Their types and messages are not modelled.
- The parser-side `TokenList` members that `TokenList.cs` does not define are given the contract their use implies (module `SynTokens`). Keyword and type tokens, and a type token's `TypeKind`, are inputs of the parser; the lexer shown produces none of them.
- SynTokens.ConsumeAny: `Consume()` at the end of the tokens is modelled as an error. Its body is not in the source.
- Lexer.TokenList.TokenizeInternal: requires every run of digits to fit a C# `int` (`LiteralsFit`). The 32-bit wrap-around of a longer literal is not modelled.
- Lexer.TokenList.Tokenize: the same `LiteralsFit` precondition.
- `char.IsDigit` also accepts non-ASCII decimal digits, but `int.Parse` then throws. The model reads only ASCII digits, and the scan fails in both cases.
- The lexer's one-character lookahead past the end of the text (`str[strIndex + 1]`) throws in the source. It is the same error outcome here.
- Generators.Generator.Generate: requires `Generable`. That excludes the node kinds `Generate` has no case for (`Function`, `FuncCall`, `Addr`, `DeRef`, `Type`) and nodes missing a child the generator reads. For those, the source falls into the binary-operator path and dereferences an absent child.
- SymbolsFacts.OffsetsIncrease: holds only while the frame is smaller than 2^31 bytes. Beyond that the offsets wrap as the C# `int` does, and `FrameWraps` shows two entries sharing a slot.
- SymbolsFacts.DeclsOfList: covers bodies made only of written declarations. Statements and function heads between them are stepped over by `BodyFrom`, but this lemma does not describe such bodies.
- Generators.Generator.Count: the `int` counter's wrap-around after 2^31 - 1 labels is not modelled.
- Call arguments are kept in reading order. The source pushes them onto a `Stack<Node>`, whose enumeration is reversed. Nothing in the core reads them.
- Object identity is not modelled. Nodes and variables are values, so a node's `LVar` is a copy of the table entry rather than a shared reference.
- `Node.ToString` and `LVar.IsArgment` are left out. Nothing in the core reads them.
- The unit tests compare whole snapshots of assembly text. They are used only as a guide to the intended behaviour.
