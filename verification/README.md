# oracall, modelled and verified

oracall compiles Oracle argument metadata into a PL/SQL wrapper block, Go marshalling code and a
protobuf schema. This project models its hardest parts in Dafny and proves what they promise:
that the emitted block does what the direct call would do, that the rebuilt argument trees are the
trees of the dictionary, that encoding a type graph can be undone, that the lexer loses nothing,
and so on. Where the code departs from what it promises, the code is modelled as it is, and a
lemma says exactly when it does keep the promise.

To verify the project with Dafny 4.11, run `dafny verify dfyconfig.toml` in this directory.

## Parts

* **The call compiler** (`Plsql`, `Marshal`, `MarshalRun`, `MarshalProof`, `MarshalTheorem`).
  `Plsql` is a small PL/SQL: assignment, associative arrays with `FIRST`, `NEXT` and `DELETE`,
  `WHILE`, and an evaluator with fuel (collection methods as in *Oracle Database PL/SQL Language
  Reference*, "PL/SQL Collections and Records"). `Marshal.PrepareCall` generates the block from the
  arguments with the source's loops. `MarshalTheorem.BlockIsDirectCall` says that running the block
  on column binds equals calling the procedure on the records and tables, for every function, every
  procedure and every bind content. `MarshalNames` shows that the names the compiler allocates meet
  the hypothesis of that theorem, and `GoRows` adds the transposition on the Go side, from Go rows
  to Go rows.
* **Names, binds, streaming** (`Names`, `NamesTheorem`, `Demap`, `Cursors`). `Cursors.Plan` is the
  schedule of the streaming loop, computed from the result sets alone: which batch of which cursor
  is the m-th send. The class `Stream` follows it, so what a run delivers is decided by the result
  sets and the network.
* **Trees from flat rows** (`Expand`, `ParseArgs`, `ParseTheorem`, `Pipeline`). `Expand` turns
  dictionary rows into level tagged rows, `ParseArgs` rebuilds the trees, and `ParseTheorem` says
  for which forests, and for which dictionary rows, that gives the trees back.
* **Type graph serialiser** (`TypeGraph`). Types are objects; sharing is kept.
* **Lexer** (`Lexer`, `LexerTheorem`, `LexerMeaning`).
* **Schema** (`Schema`, `SchemaTheorem`, `SchemaLost`, `SchemaMeaning`), **directives**
  (`Annotations`), **objects and messages** (`Objects`, `ObjectsTheorem`, `ObjectsMeaning`).

`Basics` holds what several modules share. Functions with names such as `BlockOf`, `Register`,
`RunItems` or `Write` are specifications: each has a method with the source's loops and updates that
is proved equal to it, and lemmas about what it means.

## What the code does that its intent does not suggest

| where | what happens | exactly when it is harmless |
|---|---|---|
| lib/plsql.go:671-675 | columns of an IN/OUT table of records are not cleared, so rows that the procedure removed come back | `MarshalTheorem.ShrinkingLeavesStaleRows`, `GoRows.GoSeesTheRows` |
| lib/plsql.go:748-749 | a composite result is assigned to the bind `ret` and never reaches its fields | `MarshalTheorem.CompositeResultIsLost`, `MarshalTheorem.CompositeResultNeedsCompositeBind` |
| lib/plsql.go:467-471, 753-760 | a hidden composite argument is registered under one name and looked up under another | `MarshalTheorem.CompositeIsPassed`; what the block does then: `MarshalTheorem.HiddenCompositeIsNotPassed` |
| lib/plsql.go:254-267 | a failed send is not noticed when the same batch met the end of its result set | `Cursors.StreamAll`; a run that loses its row: `Cursors.LostRow` |
| lib/plsql.go:1139-1144 | a child registered together with its parent, and with any number of further ancestors, can get the parent's name, or that of one of these | `NamesTheorem.SharedInOneCall` |
| lib/plsql.go:318-326 | a key used as often as it occurs has its last position returned and remapped; one used more often has it returned twice | `Demap.SetOnceCondition`, `Demap.UsesApart` |
| lib/readcsv.go:110 | rows of the all-zero program join the group that follows | `Pipeline.GroupsOfFile` |
| lib/readcsv.go:339, 363, 380-383 | a composite row at level 255 takes the root's place, and the arguments are copied from it, so those up to it are lost | `ParseTheorem.ParsingRestoresForest`; forests that fail: `ParseTheorem.DeepLastLosesAll`, `ParseTheorem.Level255LosesArguments` |
| main.go:598 | an argument that is an index table is neither expanded nor renamed, so it is read as a simple argument | `ParseTheorem.ReadArgumentsAreRestored` |
| lib/readcsv.go:355-375 | a part that a row file gives below an index table has no parent, or goes to an earlier composite of that level | `ParseTheorem.ParsingRestoresForest`; inputs that fail: `ParseTheorem.IndexTableLosesPart` |
| lib/objects/objects.go:153, 203 | a name without a type, or a percent sign in an argument name, is written but not read | `TypeGraph.DecoderAccepts` |
| source/lex.go:99-118, 152-154 | even runs of quotes end a literal, and two bytes after a block comment are passed over; one byte after it panics | `LexerMeaning.LexerReadsWellShaped`, `LexerMeaning.PanicsAfterComment` |
| lib/proto.go:71-78 | a skipped function keeps the names it has seen, so later messages can refer to types that nobody writes; a missing table element panics before `SkipMissingTableOf` is asked | `SchemaLost.NameIsLost`, `SchemaLost.ReferenceIsDefined`; a run with an undefined reference: `SchemaTheorem.SkippedFunctionTakesName` |
| lib/readcsv.go:487-496 | replacing a function with itself makes `RealName` loop; replacing a renamed one returns it twice | `Annotations.Replace`, `Annotations.RenamedThenReplaced` |
| lib/objects/type.go:261-262, 281 | values of collections without an element type are dropped, and a nil list element comes back as an empty message | `ObjectsTheorem.ScanRestoresMessage` |

## Model

| member | source | states |
|---|---|---|
| Plsql.RunsOnce | lib/plsql.go:602-617 | a PL/SQL fragment that ends does so in one state, however much fuel it is given |
| Plsql.AscendingCovers | lib/plsql.go:602-617 | the indexes that FIRST and NEXT walk are all indexes of the array, each at some place of the ascending order |
| Marshal.PrepareCall | lib/plsql.go:466-764 | the generator's loops build the block BlockOf: index variables, declarations, gather, call, scatter |
| Marshal.EmitArg | lib/plsql.go:500-743 | one pass of the loop over the arguments appends that argument's declarations, pre and post statements and changes nothing else |
| Marshal.EmitGather | lib/plsql.go:653-726 | for a table of records, clears or loads the columns, then gathers them along the first column's indexes |
| Marshal.EmitScatter | lib/plsql.go:693-736 | for an output table of records, scatters the rows with a counter and returns every column |
| Marshal.EmitActuals | lib/plsql.go:753-763 | each argument is passed through its registered variable, or through a bind of its own name |
| Marshal.DeclareColumns | lib/plsql.go:656-668 | one array variable for each field, in order |
| MarshalRun.RunsGatherLoop | lib/plsql.go:679-726 | the gather loop over the first column's indexes leaves exactly the rows that the columns hold |
| MarshalRun.RunsScatterLoop | lib/plsql.go:693-732 | the scatter loop writes the rows in index order to 1..n of every column, over what the columns held before |
| MarshalRun.RunsCopyLoop | lib/plsql.go:602-617 | the copy loop of an associative array of simple values copies every element to its own index |
| MarshalRun.SpreadAt | lib/plsql.go:693-732 | a scattered column has exactly the indexes 1..n, and element t is the field of the t-th row |
| MarshalProof.RunsPreAll | lib/plsql.go:500-726 | after all gather fragments every composite variable holds the value its columns describe, for any number of arguments, and no bind changed |
| MarshalProof.RunsPostAll | lib/plsql.go:500-736 | the scatter fragments of all arguments deliver each output to its own binds and touch no other bind |
| MarshalProof.DeclareAll | lib/plsql.go:485-668 | the declarations succeed and initialise every local of every argument |
| MarshalProof.RunsUpToCall | lib/plsql.go:485-763 | declarations and gather code always reach the call, with the inputs of the direct call as actual parameters |
| MarshalProof.CallHolds | lib/plsql.go:746-763 | the call writes each output to the variable or bind that was passed for it |
| MarshalTheorem.BlockIsDirectCall | lib/plsql.go:466-764 | the block ends if and only if the procedure returns or raises an exception that the block handles, and the binds of hidden composite inputs exist; then all outputs are those of the direct call on records and tables, whatever the procedure does and whatever arguments it has |
| MarshalTheorem.BlockByDirection | lib/plsql.go:466-764 | the procedure gets the IN and IN OUT arguments, what it leaves in OUT and IN OUT arguments is delivered, and binds of IN arguments are not touched |
| MarshalTheorem.BlockRunsOnce | lib/plsql.go:466-764 | the binds after the block are determined |
| MarshalTheorem.NoEnd | lib/plsql.go:746-763 | with an exception that is not handled the block has no normal end |
| MarshalTheorem.ColumnIsCompact | lib/plsql.go:693-736 | every row of an output table arrives: the t-th smallest index becomes element t of each column |
| MarshalTheorem.ShrinkingLeavesStaleRows | lib/plsql.go:671-675 | the columns are the compacted rows if and only if every index sent in lies within the number of rows that came out |
| MarshalTheorem.CompositeResultIsLost | lib/plsql.go:748-749 | where the block ends, the fields of a composite result get it if and only if it is empty or all NULL |
| MarshalTheorem.CompositeResultNeedsCompositeBind | lib/plsql.go:748-749 | with a record or a table of records as the result, a block that ends after the function returned leaves that value in the bind `ret`, which no scalar or array bind can hold |
| MarshalTheorem.CompositeIsPassed | lib/plsql.go:467-760 | a composite argument is passed through its variable if and only if its name has no trailing hash mark, and through a bind of its own name otherwise |
| MarshalTheorem.HiddenCompositeIsNotPassed | lib/plsql.go:467-471 | a hidden composite input whose bind does not exist keeps the block from a normal end; a hidden output stays in that bind, and the columns get back what was sent |
| MarshalNames.Allocate | lib/plsql.go:500-736 | the name allocations of all arguments in order, in the function's own table; tables of other functions stay |
| MarshalNames.AllocateArg | lib/plsql.go:508-668 | one argument's variable, through the record's name for a table of records, and then its parameters |
| MarshalNames.AllocateFields | lib/plsql.go:555-565 | one parameter for each field, below the allocated variable name |
| MarshalNames.ArgsKeepInv | lib/plsql.go:1130-1148 | allocation keeps the name invariant, keeps earlier entries, and every argument carries the names of its paths in the final table |
| MarshalNames.NamesAreGenerated | lib/plsql.go:1136-1144 | every allocated name starts with a letter v or p and a padded number, has no dot, and goes on only after a hash mark |
| MarshalNames.PathsApart | lib/plsql.go:1136-1144 | paths over different stems get different names even when parents are registered on the way |
| MarshalNames.AllocationMeetsBlock | lib/plsql.go:466-764 | after any earlier allocations, well formed arguments, hidden ones among them, get names that satisfy the hypothesis of BlockIsDirectCall |
| GoRows.BuildColumn | lib/plsql.go:1069-1087 | a column is built from the rows without loss, and panics if and only if there are more rows than the table size |
| GoRows.SetField | lib/plsql.go:1110-1115 | sets one field of every row, creating missing rows, and keeps the other fields |
| GoRows.TakeRows | lib/plsql.go:1096-1123 | columns are transposed back to rows; while the row count stays within the table size no reslice passes the capacity, whatever append allocates |
| GoRows.GoSeesTheRows | lib/plsql.go:671-736 | what comes back for an IN/OUT table of records that is not hidden are the procedure's rows in index order if and only if the table did not shrink |
| GoRows.GatheredRows | lib/plsql.go:679-726 | rows sent as columns are gathered into the table 1..n of the same rows |
| GoRows.RowsInOrder | lib/plsql.go:693-732 | the rows of the table 1..n in index order are the rows |
| GoRows.UntouchedRowsComeBack | lib/plsql.go:642-736 | columns of rows that are sent through the block to a procedure that leaves the table alone are afterwards the columns of the same rows |
| GoRows.SendRows | lib/plsql.go:1069-1087 | one bind for every field, holding that field's column; panics if and only if there are columns and more rows than the table size |
| GoRows.ReceiveRows | lib/plsql.go:1096-1123 | binds that hold the columns of some rows are turned back into exactly those rows |
| GoRows.ColumnsHoldRows | lib/plsql.go:1110-1115 | setting every field from columns of the rows gives the rows |
| GoRows.CallWithRows | lib/plsql.go:1069-1123 | end to end, Go rows go through columns, block and transposition and come back equal if they fit into the table size, and the call panics if they do not |
| Names.VarNames.GetVarName | lib/plsql.go:1130-1148 | the recursive allocation in the global table of tables is Register on the function's own table |
| Names.VarNames.LastIndexOfDot | lib/plsql.go:1139 | finds the last dot of a path, or -1 |
| Names.Pad3Shape | lib/plsql.go:1143 | a number is formatted in decimal, with zeros in front up to three places |
| Names.Pad3Injective | lib/plsql.go:1143 | different numbers are formatted differently |
| Names.JoinInjective | lib/plsql.go:1140 | a parent's name and a component can be recovered from the joined name |
| NamesTheorem.RegisterKeepsInv | lib/plsql.go:1130-1148 | a call keeps the invariant that each name is numbered by its moment of birth or built from its parent's name |
| NamesTheorem.ClashesAreExplained | lib/plsql.go:1130-1148 | over any sequence of calls two paths share a name only if one is an ancestor of the other first registered in the same call, or both are built from such a clash |
| NamesTheorem.NamesAreDistinct | lib/plsql.go:1130-1148 | when parents are registered before their children, distinct paths get distinct names |
| NamesTheorem.SharedInOneCall | lib/plsql.go:1130-1148 | two paths that one call registers, whatever was registered before, get the same name if and only if both get the call's number, or both are built with one component from two such paths |
| NamesTheorem.ChildTakesParentsName | lib/plsql.go:1138-1144 | in any table, a path registered together with its parent gets the parent's name if and only if both get the call's number, because there is no parent or the joined name would be longer than 30 bytes |
| NamesTheorem.NamesAreShort | lib/plsql.go:1142 | no generated name is longer than 30 bytes |
| Demap.ParamsMap.constructor | lib/plsql.go:288-300 | collects for every key all its positions and the first one |
| Demap.ParamsMap.ParamsIdx | lib/plsql.go:314-328 | returns and consumes a key's next position, but keeps the last |
| Demap.ParamsMap.PlusIdxs | lib/plsql.go:356-363 | lists exactly the left over positions that are not their key's first |
| Demap.Renumber | lib/plsql.go:287-363 | a whole run: which position each use gets and which positions are remapped |
| Demap.PositionsCarryTheirKey | lib/plsql.go:314-363 | every use gets a position of its own key, every remap goes from its key's first position to a later one of that key |
| Demap.EveryPositionIsSet | lib/plsql.go:314-363 | when every key is used, returned and remapped positions cover all binds, and each remap's source was returned |
| Demap.HiddenRoundTrip | lib/plsql.go:315-317 | the key made from an argument's replaced name is the argument's name again, if and only if that name does not itself end in the suffix |
| Demap.UsesServed | lib/plsql.go:314-328 | a use with the hidden suffix is served a position of the name with a hash mark, any other a position of its own name |
| Demap.SetOnceCondition | lib/plsql.go:322-325 | remapped and returned positions are disjoint if and only if every key occurs once or is used less often than it occurs |
| Demap.SharedPosition | lib/plsql.go:314-328 | two uses get one position if and only if they are of one key and all its positions but the last were given away before the first of them |
| Demap.UsesApart | lib/plsql.go:314-328 | all uses get positions of their own if and only if no key is used more often than it occurs |
| Cursors.Stream.Iterate | lib/plsql.go:907-919 | reads at most 1024 rows into the cursor's field and reports the end or an error in the same call |
| Cursors.Stream.Iterators | lib/plsql.go:899-905 | the open result sets, in order |
| Cursors.Stream.TakeTurn | lib/plsql.go:252-267 | one iteration: read, send, reset; the message is the one planned for this turn, with the network's answer; a send error counts only if reading went well |
| Cursors.Stream.Step | lib/plsql.go:252-275 | a turn that goes on leaves the run at the next turn of the plan; one that does not is the turn that stops the run |
| Cursors.Stream.Pass | lib/plsql.go:252-267 | one pass follows the plan, keeps exactly the cursors that have a next turn, and conserves all rows |
| Cursors.Stream.Run | lib/plsql.go:244-276 | the loop ends; it commits once if and only if it returns no error, and then its messages are those of the whole plan, each with the network's answer; every row is in the messages or still unread throughout |
| Cursors.Stream.SendAlone | lib/plsql.go:244-249 | without result sets one message is sent, and committed if that went well |
| Cursors.DeliveredIsSent | lib/plsql.go:252-258 | delivered rows are the sent rows if and only if no failed message carried rows of the cursor |
| Cursors.PlannedOnce | lib/plsql.go:250-270 | no cursor has the same batch sent twice |
| Cursors.LastIsPlanned | lib/plsql.go:250-270 | the number of the send that carries the end of a cursor is determined by the result sets |
| Cursors.CommittedDelivery | lib/plsql.go:250-276 | after the whole plan a cursor is delivered completely, each row once and in order, if and only if its row count is a multiple of 1024 or the send of its last batch succeeds |
| Cursors.StreamAll | lib/plsql.go:244-276 | for all result sets and every network: the run commits if and only if no result set fails and the network takes each batch that is not its result set's last, and then each cursor is complete if and only if its row count is a multiple of 1024 or its last send succeeds |
| Cursors.StreamOverGoodNetwork | lib/plsql.go:244-276 | when no send and no result set fails there is one commit, and every cursor is delivered completely and in order |
| Cursors.LostRow | lib/plsql.go:254-267 | one cursor with one row and a network that takes nothing: the run commits and delivers nothing |
| Expand.ExpandArgs | main.go:1118-1140 | inserting into the list being walked equals recursive preorder expansion, for every acyclic resolver; it ends because the unexpanded subtrees shrink; a resolver error stops it |
| Expand.AddLevels | main.go:1129-1135 | raises levels by the parent's and renames index tables |
| Expand.StepExpands | main.go:1120-1136 | one step keeps the expansion of the whole list and lowers the total size |
| Expand.RowsOfParts | main.go:1118-1140 | the expansion of a list of items is the level tagged preorder of their type trees |
| Expand.ItemExpands | main.go:598-604 | the row of an argument and the expansion of its type are the preorder of its tree, an index table's being the row alone |
| Expand.ReadArguments | main.go:579-619 | all arguments are read as the level tagged preorder of their trees, and reading fails if and only if a type that is looked up does not resolve |
| ParseArgs.FlavorsAgree | lib/struct.go:324-334 | NewArgument treats as composite exactly the types that expandArgs expands, but for index tables |
| ParseArgs.Parser.ParseRow | lib/readcsv.go:339-378 | one row: int8 level, last composite of its level, return value, parent, or the nil parent panic |
| ParseArgs.Parser.Parse | lib/readcsv.go:330-379 | all rows of one function |
| ParseArgs.Parser.Arguments | lib/readcsv.go:380-383 | the function's arguments are copies of the parts of the argument that holds level -1 when the rows end |
| ParseTheorem.IndexlessForest | lib/readcsv.go:329-383 | without parts below index tables no parent is missing, although entries of deeper levels are never removed, and the arguments read are exactly those after the last one with a composite at level 255 |
| ParseTheorem.ParsingRestoresForest | lib/readcsv.go:329-383 | parsing the preorder rows of any forest restores it and the return value, with the element of a table in its table place and the fields of a record in its record place, if and only if no index table has a part, and there are no arguments or no composite at level 255 |
| ParseTheorem.ReadArgumentsAreRestored | main.go:579-619 | reading arguments and parsing the rows rebuilds the type trees of the dictionary if and only if no argument is an index table, and there are no arguments or no composite at level 255 |
| ParseTheorem.IndexTableLosesPart | lib/readcsv.go:355-375 | a part below an index table panics, or becomes the element of an earlier table in place of its own |
| ParseTheorem.DeepLastLosesAll | lib/readcsv.go:339-383 | when the last argument has a composite at level 255 the function is read without any arguments |
| ParseTheorem.Level255LosesArguments | lib/readcsv.go:339-383 | records nested to level 255 after a scalar: no argument is read; before it: the scalar alone |
| Pipeline.FilterAndGroup | lib/readcsv.go:84-144 | the filter and the grouping loop, run in sequence: the groups are the kept rows in order, none is empty, a group goes on while the program stays the same or is empty, and ends where another program follows |
| Pipeline.FilterPicks | lib/readcsv.go:84-96 | the rows that the filter accepts are kept, each once and in order |
| Pipeline.GroupsAreWellCut | lib/readcsv.go:98-127 | groups are maximal: neighbouring groups are of different programs |
| Pipeline.GroupsPartition | lib/readcsv.go:98-127 | groups are not empty and concatenate to the rows |
| Pipeline.GroupsAreUniform | lib/readcsv.go:98-127 | each group is of one program if and only if no row of the zero program precedes one of another program |
| Pipeline.GroupsOfFile | lib/readcsv.go:98-127 | the same for a whole file |
| Pipeline.NextKeepsInv | lib/readcsv.go:74-82 | every step of reader, grouper or parser keeps what is still to come equal to the sequential result |
| Pipeline.NoDeadlock | lib/readcsv.go:74-82 | in every reachable state that is not final some process can step, with both channels of capacity 16 |
| Pipeline.NextDecreases | lib/readcsv.go:74-144 | every step uses something up, so every interleaving ends |
| Pipeline.EveryRunIsSequential | lib/readcsv.go:74-82 | every complete interleaving yields the functions of read, filter, group, parse in sequence |
| TypeGraph.Encoder.Serialize | lib/objects/objects.go:46-77 | the memoised depth first search ends on acyclic graphs, keeps the numbering invariant and numbers only what is reachable |
| TypeGraph.Encoder.SerializeArguments | lib/objects/objects.go:62-70 | arguments are numbered in order, each below the record that holds them |
| TypeGraph.ReachableIsNumbered | lib/objects/objects.go:46-82 | every reachable type is numbered |
| TypeGraph.Types.Marshal | lib/objects/objects.go:38-100 | each reachable type is numbered exactly once, its number is its position, its children's are smaller, and every name gets its type's number |
| TypeGraph.Types.Unmarshal | lib/objects/objects.go:102-216 | accepts exactly the documents without nil names and percent signs and with the right numbers, and builds the names from them |
| TypeGraph.Types.DecodeTypes | lib/objects/objects.go:126-169 | builds one new object for each record, linked to earlier ones |
| TypeGraph.Types.DecodeType | lib/objects/objects.go:142-163 | one record: its element and arguments are the objects their numbers stand for |
| TypeGraph.DecodingRestoresGraph | lib/objects/objects.go:43-169 | decoding an encoded graph gives an isomorphic graph, sharing included |
| TypeGraph.DecoderAccepts | lib/objects/objects.go:150-208 | the decoder accepts an encoded graph if and only if no name lacks a type and no reachable argument name has a percent sign |
| TypeGraph.FilledNames | lib/objects/objects.go:91-97 | decoded names are the encoded names |
| TypeGraph.RoundTrip | lib/objects/objects.go:38-216 | encode then decode restores names and graph whenever the decoder accepts |
| Lexer.FindFirst | source/lex.go:274-283 | the shrinking window still finds the first of the three markers, and which one it is |
| Lexer.NoOverlap | source/lex.go:277-281 | a marker cut off by the window would overlap the one found, which only two dashes could |
| Lexer.TurnAdvances | source/lex.go:63-159 | no call of a state function sends more than three items; unless the run ends, it advances the position |
| Lexer.Lexer.EmitItem | source/lex.go:213-231 | sends the pending text and, at the end of the input, the end item once; sends nothing after closing |
| Lexer.Lexer.Text | source/lex.go:63-97 | the text state up to the next marker |
| Lexer.Lexer.Str | source/lex.go:99-118 | the literal state up to the last quote of the first run of quotes |
| Lexer.Lexer.SeekQuote | source/lex.go:100-112 | the quote search loop |
| Lexer.Lexer.LineComment | source/lex.go:120-138 | the line comment state |
| Lexer.Lexer.BlockComment | source/lex.go:140-159 | the block comment state with its second jump of two bytes |
| Lexer.Lexer.RunState | source/lex.go:251 | a state call does what TurnOf says or panics exactly when it does |
| Lexer.Lexer.Refill | source/lex.go:245-251 | the default branch: runs the state on an empty open channel and stores its result |
| Lexer.Lexer.Iter | source/lex.go:234-254 | the loop yields all items of the run and then one end item, ends for every input, and panics exactly when a state does |
| Lexer.Lex | source/lex.go:260-272 | trailing blanks are trimmed and a missing newline is appended |
| LexerTheorem.TextStep | source/lex.go:63-97 | the bytes of a text turn: text up to the first marker, the marker, and the rest of the run |
| LexerTheorem.StringStep | source/lex.go:99-118 | the bytes of a literal turn |
| LexerTheorem.LineStep | source/lex.go:120-138 | the bytes of a line comment turn, with the newline put back |
| LexerTheorem.BlockStep | source/lex.go:140-159 | the bytes of a block comment turn |
| LexerMeaning.ValuesSpellTheInput | source/lex.go:63-254 | in every run the values, with the newline put back after line comments, concatenate to the input or to its part up to an unclosed block comment; a run panics only if the input ends with a block comment and one more byte |
| LexerMeaning.PanicsAfterComment | source/lex.go:63-254 | a run panics if and only if, going from marker to marker, it meets a block comment after which exactly one byte is left |
| LexerMeaning.ClosingCommentPanics | source/lex.go:152-154 | such an input exists: a block comment and a newline |
| LexerMeaning.ReadingQuotes | source/lex.go:99-118 | pairs of quotes belong to a literal |
| LexerMeaning.LexerReadsWellShaped | source/lex.go:63-159 | the lexer classifies every byte as a byte by byte reading of PL/SQL does if and only if literals are closed by an odd first run of quotes, block comments are closed and at least three bytes follow them, with no marker starting in the first two |
| Schema.Writer.WriteMessage | lib/proto.go:166-246 | the recursive writer with its buffer and shared set of names, including both error cases |
| Schema.Writer.DirArgs | lib/proto.go:143-153 | the arguments of one direction, collected in a loop, and the return value behind them |
| Schema.Writer.WriteFunctionMessages | lib/proto.go:128-162 | input message, then output message with the return value; nothing is written if either fails |
| Schema.Writer.Save | lib/proto.go:68-103 | the loop over functions, which skips those with unknown simple types |
| SchemaTheorem.WriteDefines | lib/proto.go:166-246 | a message is written first, then each name that became seen exactly once; fields are numbered from 1 and refer to seen names only; every message describes a type that occurs below |
| SchemaTheorem.RunDefines | lib/proto.go:68-103 | all message names of a run, counted: the surviving functions' own and each newly seen name once, without the lost ones |
| SchemaTheorem.ReferencesAreDefinedOnce | lib/proto.go:68-103 | in a run with distinct names every message is defined once and every type that a field refers to exactly once, or never if a skipped function took its name |
| SchemaLost.WriteEnters | lib/proto.go:166-246 | which names the writer sees and whether it fails is decided by a walk of the argument trees that enters no type of an earlier function and ends at the first unknown type or missing element |
| SchemaLost.NameIsLost | lib/proto.go:68-103 | with one type per name, a name is lost if and only if the first function that reaches the type also reaches an unknown simple type or a table without an element |
| SchemaLost.ReferenceIsDefined | lib/proto.go:68-103 | whether the type that a field refers to is defined is decided by the argument trees in the same way |
| SchemaTheorem.NothingIsLost | lib/proto.go:71-78 | with known types and no missing table element nothing is skipped and no name is lost |
| SchemaTheorem.SchemaMirrorsTypes | lib/proto.go:128-246 | with one type per name, each record and table in any argument has exactly one message, with the fields of its parts |
| SchemaTheorem.SkippedFunctionTakesName | lib/proto.go:71-78 | two functions for which a reference stays undefined |
| SchemaMeaning.FunctionMessages | lib/proto.go:128-162 | the fields of a written function's two messages are those of exactly the parameters in that direction, in order, and the return value is the last field of the output message; fields are repeated exactly for tables |
| SchemaMeaning.UntypedIsError | lib/proto.go:166-204 | a message with an argument of unknown simple type, a table of one or a table without an element is not written |
| SchemaMeaning.SchemaIsMirror | lib/proto.go:128-246 | with known types and one type per name: for every record below a parameter there is a message with its fields, for a table of records one with the fields of the record, for a table of tables one with a field for the inner table |
| Annotations.SubjectFindsFunction | lib/readcsv.go:429-434 | a directive that names package and function finds the function in any letter case |
| Annotations.ObjectFindsFunction | lib/readcsv.go:435-440 | its second name, taken in the same package, finds a function in the same way |
| Annotations.UnoCapLetters | lib/struct.go:365-371 | capitals up to the first underscore and small letters after it; without one only the first letter is a capital |
| Annotations.LowerUnoCap | lib/struct.go:365-371 | capitalising a package name does not change its lower case form, so keys agree |
| Annotations.Replace | lib/readcsv.go:487-497 | the replace directive; from a good table each function stays once and does not replace itself if and only if the directive names neither a renamed function nor the function itself |
| Annotations.Rename | lib/readcsv.go:479-486 | the rename directive, which keeps a good table good |
| Annotations.Handle | lib/readcsv.go:500-506 | the handler goes to every function of the package once |
| Annotations.Mark | lib/readcsv.go:508-521 | table size limits only grow, tags are appended |
| Annotations.Step | lib/readcsv.go:463-522 | one directive: the new table and what happens to every field of every function; and by names: a directive that calls f removes it, renames it within the package, or replaces it by the function that its second name calls, which leaves the table; one that lacks a part it needs does nothing |
| Annotations.Run | lib/readcsv.go:463-522 | all directives in order |
| Annotations.Register | lib/readcsv.go:458-462 | the first table: of two functions of the same name the last |
| Annotations.Collect | lib/readcsv.go:524-527 | the result has one entry per name left, in any order |
| Annotations.ApplyAnnotations | lib/readcsv.go:454-536 | without unsound directives each survivor is returned once, no replaced target is returned, and every chain of replacements goes through ever earlier removed functions |
| Annotations.LeftUnlessRemoved | lib/readcsv.go:463-527 | without unsound directives a function is returned if and only if no directive makes it private, replaces it or gives its name away |
| Annotations.RealName | lib/struct.go:88-97 | RealName ends for each of them at the last function of its chain |
| Annotations.RenamedThenReplaced | lib/readcsv.go:487-497 | a rename and a replace after which one function is in the table twice |
| Objects.WriteObject | lib/objects/type.go:255-311 | the generated WriteObject, attribute by attribute, with its error cases |
| Objects.WriteCollection | lib/objects/type.go:271-284 | the loop over list items |
| Objects.Scan | lib/objects/type.go:313-343 | the generated Scan, with the error for an attribute that the object lacks |
| Objects.ScanCollection | lib/objects/type.go:321-334 | the loop over collection items, which passes over NULL objects |
| ObjectsTheorem.WriteAttrsAt | lib/objects/type.go:255-311 | every attribute holds what its own code put there |
| ObjectsTheorem.ScanAttrsAt | lib/objects/type.go:313-343 | scanning goes well if and only if each attribute can be read, and then every field is set from its own attribute |
| ObjectsTheorem.ObjectIsWritten | lib/objects/type.go:255-311 | writing does not fail on a database type that has the attributes of the message's type |
| ObjectsTheorem.ScanRestoresMessage | lib/objects/type.go:251-345 | over every type tree the written object is scanned without error, and gives the message back if and only if each scalar survives its own set and get, no list has a nil element and collections of unknown elements are empty |
| ObjectsMeaning.WrittenByKind | lib/objects/type.go:255-311 | lists of every kind of collection are written item by item, other attributes as a scalar or an object by their type; empty lists, lists of unknown elements and nil messages are left out |
| ObjectsMeaning.ReadByKind | lib/objects/type.go:313-343 | a NULL attribute leaves a list or a message as it was and reads as the empty value of a scalar |
| ObjectsMeaning.SimpleTypes | lib/objects/type.go:179-221 | the types treated as scalars are exactly those with a protobuf type of their own, and each of these has a getter |
| ObjectsMeaning.FieldName | lib/objects/type.go:243-250 | the protobuf field is the attribute's name in small letters, with a trailing hash mark spelled out |
| ObjectsMeaning.GoFieldLetters | lib/objects/type.go:225-241 | the Go field has the letters of the protobuf field in order, capitals exactly where a part starts, and its trailing underscores |

## Left out

* Database access (`parseDB`, `getSource`, `resolveType` queries, `Types.get`): a resolver function with a rank stands for it.
* Text: the exact PL/SQL, Go and protobuf strings, comments, options, `text/template`, `go/format`; the generators build syntax trees. `CamelCase`, `goType` and `protoType` become given names, so the panic of `protoType` on a type name without an underscore is not modelled.
* JSON and CSV tokens, protobuf wire format, `godror.MapToSlice`, godror objects: simple specifications (a list of placeholders, a document record, a map of attributes) stand for them.
* Nested (non associative) tables with `extend`, tables of tables and REF CURSOR inputs in the call compiler; the CLOB branch for functions with a replacement (lib/plsql.go:403-441); the conversion of single values (`ToOra`, `FromOra`).
* `CHAR` widths and table type declarations (`getTableType`) in the block: values are untyped scalars.
* Records without fields in `BlockIsDirectCall`, for which the emitted code is not valid PL/SQL, and two arguments with one replaced name.
* The content of binds on the Go side for hidden arguments: `Demap.HiddenRoundTrip` says that the key in the Go code leads to the bind that the call reads. For a hidden table of simple values the declaration reads the bind of the replaced name instead, which the Go code does not set; `BlockIsDirectCall` assumes that both binds are set.
* PL/SQL identifiers are compared as written; letter case folding by the database is not modelled.
* Concurrent use of the global name table.
* Early stop of a consumer in `Iter` and `groupArgs`, and the context checks and logging in the streaming loop.
* The return value of `ReadCsv`; the pipeline model has a reader that delivers all rows.
* Hidden tables of records in the Go side theorems of `GoRows`; `MarshalTheorem.HiddenCompositeIsNotPassed` says what the block does with them.
* Sorting of names and the iteration order of Go maps: names are any enumeration, results any order.
* Argument objects in `ParseArgs` live in an arena of indices instead of Go pointers.
* `ApplyAnnotations` returns references where the source copies the structs; letters are folded in ASCII only.
* The `service` section, the Timestamp import and `Gogo` options of the schema.
* `WriteProtobufMessageType`, `OraType`, `IsZero`, `Valid`: text and per branch claims.
* `model.go`, `procedure.go`, `protoc-gen-oracall`, `orasrv`, `custom`: text generators, interceptors and conversions.
- Demap.Renumber: requires that every used key occurs among the placeholders; the source panics otherwise.
- NamesTheorem.NamesAreShort: holds for tables of fewer than 10^29 names, after which the number itself is too long.
- LexerMeaning.ValuesSpellTheInput: for inputs that end with a newline, which Lex makes of every input.
- MarshalTheorem.CompositeResultIsLost: binds of the model may hold a record or a table. OCI cannot bind one, and the Go side sets no parameter `ret` for it; `MarshalTheorem.CompositeResultNeedsCompositeBind` says that the block then has no normal end after a function that returns.
- ParseTheorem.ParsingRestoresForest: for rows of levels 0 to 255; a deeper level wraps when it is stored in an unsigned byte (main.go:804) before the parser sees it.
- Expand.ReadArguments: dictionary rows are at level 0, as the query gives them when types are resolved. Without a resolver (main.go:595) nested rows go to the parser as they are, which `ParseTheorem.ParsingRestoresForest` covers.
