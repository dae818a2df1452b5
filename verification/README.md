# MeowSQL: verified models of the database layer

MeowSQL is a Qt port of HeidiSQL. Most of it is user interface and client library
plumbing; this project models the algorithms of its `db/` layer (and one of `helpers/`)
in Dafny and proves what they are for.

| part | files | main results |
|---|---|---|
| SQL scanner | `QtStrings`, `SentenceTokenizer`, `SentenceLexer`, `SentenceResumption`, `SentenceRegions`, `SentenceSplitter`, `SentencePieces` | the flag-driven tokenizer reports the tokens of a token-at-a-time reference, and the first characters decide the kind of each; they partition the text; the splitter tells code from comments and strings as a reference does that reads one of them at a time; scanning any number of lines one by one gives the tokens of the whole if and only if no blank line follows a line comment; splitting a script loses nothing but white space and delimiters, and gives exactly the statements between the delimiters if and only if empty statements come in even runs |
| Schema diff to ALTER | `Schema`, `TableEntityComparator`, `MySQLTableEditor`, `AlterServer`, `ServerLaws`, `AlterColumns`, `AlterIndexes`, `AlterKeys`, `AlterReplay`, `KeyIds` | running the statements of an edit on the old table gives the new table, in every field that is printed, and fails exactly when a foreign key takes the name of a removed one; with shared ids, exactly when no shared id is in both versions, too; the order of columns comes out right exactly when the unmodified columns keep their relative order |
| Structures edited in place | `TableStructure`, `StructureRuns`, `EditedColumns` | a deep copy shares no object; over any run of edits no column id is handed out twice, and pairing two versions by id pairs each column with the one it was copied from; without moves the statements of an edit give exactly the edited list |
| Column printer and parser | `Patterns`, `ColumnSql`, `TableStructureParser`, `QuotedTexts`, `OnUpdatePattern`, `ColumnRoundTrip`, `CommentCuts`, `ColumnDefaults`, `ColumnOptions`, `ColumnLines`, `DefinitionReading` | a server reads every printed definition as it is meant, whatever texts it holds; parsing a statement that defines printed columns gives exactly those columns if and only if all of them hold no line break, have a name without the quote and meet `IsRecoverable`, a condition on the kind of default, the texts and the flags; with the character set and the collation that a server shows, they are read, too, and nothing else changes |
| Literals and identifiers | `Escaping`, `LikePatterns`, `Identifiers`, `RoutineParser`, `RoutineParams` | when `unescapeString` undoes `escapeString`, when `dequoteIdentifier` undoes `quoteIdentifier`, that the server reads back every escaped literal and every quoted name, for which values the condition of a filter asks for the texts that hold the value, and when the comment and the parameter list of a printed routine are found again |
| Cursor and grid | `ResultPages`, `MySQLQueryResult`, `PGQueryResult`, `GridSpec`, `GridRuns`, `QueryData` | seeking agrees with indexing even where the native seek is skipped; grid and table stay in step over a run of edits exactly when every row deleted is the pending one, if there is one; the user sees what was typed exactly as long as no edits are given up |
| Privileges | `UserManager`, `MySQLUserManager`, `MySQLUserEditor` | which privileges a server of a version supports on which object; the REVOKE and GRANT statements of an edit turn the old privileges into the new ones, for servers of every version, and nothing is sent exactly when nothing differs |
| Batch execution | `BatchExecutor` | in every interleaving with aborts and getters the counters fit the results, and at most one query is executed after an abort; executions end as the sequential loop does, and each of its ends is reached |
| Line breaks | `LineBreaks` | conversion between the four kinds keeps the number of breaks and can be undone |

The scan loops, the comparator, the editors, the parsers, the cursors, the grid and the
line break scanner are methods with the loops and fields of the originals. Each is proved
equal to a function of its inputs or of the old state, and the results are about those
functions.

What the environment decides is a parameter: whether the server accepts a statement, the
outcome of a query, the type of a new column, the moment of an abort.

## Where the code does not do what one would expect

Each of these is kept as it is in the code, and stated:

- The tokenizer scanned line by line differs from the tokenizer on the whole text exactly
  when a line comment is followed by a blank line (`LinesScanIff`, `BlankLineExample`).
- The splitter keeps the delimiter behind an empty statement, which then sticks to the next
  statement, wherever in the script that is; behind a second empty statement both are dropped.
  So it gives the statements of a script exactly when every run of empty ones in front of a
  statement is even (`PiecesRoundTripIff`, `DelimiterSticks`, `DelimitersCancel`).
- A delimiter of several characters is seen too early at the start of a script, and what follows it is reported
  again and again (`EndsWithDelimIff`, `LongDelimiterExample`).
- A default without quotes is read as a word only if no time stamp follows anywhere in the definition, nor NULL
  begins it (`WordDefaultIff`).
- A moved column is not noticed by the comparator, so the new order is only reached when the
  unmodified columns keep theirs (`ColumnReplay`, `OrderKeptIff`, `MovedIsMissed`).
- The statements of an edit fail when a new or modified foreign key takes the name of a removed
  one, because only modified keys are dropped ahead (`EditReplay`, `ReplacedKeyExample`).
- Parsed foreign keys never get an id, so all of them have id 0 and cannot be told apart: an edit of a
  table with two of them only works out when it removes them all (`AnyIdsReplayIff`, `ParsedKeysIff`).
- `unescapeString` of MySQL and PostgreSQL takes an escaped backslash before n, r, 0 or t for
  a control character (`MySQLRoundTrip`, `PGRoundTrip`, `ControlExample`), while the server reads
  the same literal correctly (`MySQLLiteralIsRead`, `PGLiteralIsRead`).
- A backslash in the value of a filter is not escaped for the pattern in MySQL, and a quote ends the literal of a
  filter in PostgreSQL (`MySQLFilterIff`, `PGFilterIff`).
- `dequoteIdentifier` with glue loses quotes of names like `` a.`.``.` `` (`GluedRoundTrip`,
  `EntangledExample`).
- A line break in a name, a length, a default text or a comment is printed as it is, and the
  pattern for a column ends at it; a name with the quote in it is read up to the quote. So such
  columns are never read back (`TableRoundTrips`).
- The ON UPDATE CURRENT_TIMESTAMP clause behind a default text is searched for in trimmed text
  and not found there, while a clause inside the comment is found, and as many characters are
  cut off in front. So such a column comes back exactly when its comment holds a clause of the
  same length (`TextUpdateIff`, `ClauseExample`), and other columns with such a comment do not
  (`DefinitionRoundTrips`).
- Appending rows while the cursor stands behind the last one leaves it on a stale row
  (`MySQLQueryResult.Cursor.AppendResultData`); seeking anywhere else repairs it.
- `whereForCurRow` names the pending row, whatever row is to be deleted (`DeleteKeepsStepIff`,
  `RunKeepsStepIff`, `DeletedOtherExample`).
- Editing another row gives up the pending one (`RunShowsIff`, `GivenUpExample`), and an edit
  taken back by hand stays pending (`UnchangedStaysPending`).
- Ids of privileges are shared by several objects exactly when a part of the name that a colon follows or precedes in the id
  holds one itself (`IdIdentifiesIff`, `ColonsConfuse`).
- Parentheses in the values of a parameter's type are counted, so the list of a routine with a type
  like ENUM('a)') is cut off early (`OneParamIsFoundIff`, `TypeExample`).
- A user copied from itself has no privileges left (`UserManager.User.CopyDataFrom`).

## Model

| member | source | states |
|---|---|---|
| SentenceTokenizer.ScanChar | db/user_query/sentences_parser.cpp:166-270 | One turn of the scanning loop, with its flags, lookahead and index skips, is one step of the mode machine, and at most one of string, line comment and block comment is open after it. |
| SentenceTokenizer.EnterScan | db/user_query/sentences_parser.cpp:141-165 | A scan entered with an open type starts in the region of that type, with a token open to the left. |
| SentenceTokenizer.ParseToTokens | db/user_query/sentences_parser.cpp:124-283 | The loop reports the tokens of the mode machine, in order, including the token left open at the end. |
| SentenceLexer.ScannerReadsLexemes | db/user_query/sentences_parser.cpp:166-282 | On every text and every way to enter it, the character-level scanner reports the tokens of a reference that reads one comment, string, identifier or stretch of text at a time. |
| SentenceLexer.TokenKinds | db/user_query/sentences_parser.cpp:166-235 | In a text scanned from its start, every token has the kind its first characters say: a line comment begins with # or two dashes, a block comment with a slash and a star, a string or identifier with its quote, and plain text with none of them. |
| SentenceLexer.TokenPartition | db/user_query/sentences_parser.cpp:166-282 | Tokens are non-empty, ordered and disjoint, and an index lies in a token exactly when it is not the LF a line comment stops at. |
| SentenceResumption.ResumedScan | db/user_query/sentences_parser.cpp:141-282 | For a text that ends in LF and any next one, scanning the next with the type left open and joining what meets at the boundary gives the tokens of the whole if and only if it is not the case that a line comment is followed by a blank line. |
| SentenceResumption.LinesScanIff | db/user_query/sentences_parser.cpp:141-282 | For any number of lines, blank ones included, each resumed from the last: they give the tokens of the whole text if and only if no line that ends in a line comment is followed by a blank line. |
| SentenceResumption.LinesScanAsWhole | db/user_query/sentences_parser.cpp:141-282 | In particular, a text without blank lines can be scanned line by line. |
| SentenceResumption.BlankLineExample | db/user_query/sentences_parser.cpp:248-256 | A comment and a blank line: the tokens of the whole text and those of its lines. |
| SentenceSplitter.ScanFlags | db/user_query/sentences_parser.cpp:33-80 | The flag updates of one turn move between code, comments and strings as the region machine does. |
| SentenceSplitter.RegionsAreRead | db/user_query/sentences_parser.cpp:33-80 | On every script, the flag machine is at each index where a reference is that reads one comment or string at a time, from its mark to its end: # and -- to the line break, slash and star to star and slash, with the overlap of the two, and the three quotes with backslash escapes. |
| SentenceSplitter.TakeStatement | db/user_query/sentences_parser.cpp:92-120 | The pending text is reported trimmed, at the position of its first character that is not white space, unless it is blank or the delimiter alone. |
| SentenceSplitter.CheckDelim | db/user_query/sentences_parser.cpp:82-120 | A delimiter counts outside of strings and comments only; blank pending text is not left behind. |
| SentenceSplitter.EndsWithDelimIff | db/user_query/sentences_parser.cpp:86-90 | A delimiter of any length is seen at its last character, and at the start of a script already at every character before. |
| SentenceSplitter.LongDelimiterExample | db/user_query/sentences_parser.cpp:86-98 | A script that begins with a delimiter of two characters: its one statement is reported three times. |
| SentenceSplitter.ParseByDelimiter | db/user_query/sentences_parser.cpp:8-122 | The loop reports the statements of the turn-by-turn specification for every script and delimiter. |
| SentenceSplitter.SentencesAreIn | db/user_query/sentences_parser.cpp:8-122 | The statements reported are those of a split that is given the regions of that reference and looks at nothing else to tell code from comments and strings. |
| SentenceSplitter.StatementConservation | db/user_query/sentences_parser.cpp:93-118 | For every delimiter that does not overlap itself in the script and, if it has several characters, does not begin it: every statement is the trimmed slice of the script at its position, slices are ordered and disjoint, and every character outside of them is white space or part of a delimiter. |
| SentencePieces.JoinReported | db/user_query/sentences_parser.cpp:8-122 | For pieces put together with the delimiter, none of which has one outside of strings and comments and all but the last of which end outside of them, exactly what is reported: each statement trimmed, at its position, with the delimiter in front that was kept if an odd number of empty pieces precedes it. |
| SentencePieces.PiecesRoundTripIff | db/user_query/sentences_parser.cpp:101-116 | Splitting such pieces gives exactly the statements in them, trimmed and with their positions, if and only if every run of blank pieces in front of a statement has even length. |
| SentencePieces.ScriptIsPieces | db/user_query/sentences_parser.cpp:8-122 | Every script is put together from such pieces, also one that ends in a comment or a string. |
| SentencePieces.StatementRoundTrip | db/user_query/sentences_parser.cpp:8-122 | Splitting statements joined by the delimiter gives back exactly those statements with their positions, when each is trimmed and has no delimiter in code, and all but the last end outside of strings and comments. |
| SentencePieces.DelimiterSticks | db/user_query/sentences_parser.cpp:101-116 | One delimiter in front of a statement becomes part of it. |
| SentencePieces.DelimitersCancel | db/user_query/sentences_parser.cpp:101-116 | Two delimiters in front of a statement do not. |
| Schema.IsNotSubset | db/foreign_key.cpp:173-190 | The nested loops find exactly whether an element of the first list is missing in the second. |
| Schema.IndexDataDiffers | db/table_index.cpp:210-241 | Two indexes differ in name, class, type or the set of their columns, whatever the order of columns. |
| TableEntityComparator.FindColumnById | db/table_structure.cpp:324-332 | The first column with the id, or nothing. |
| TableEntityComparator.CurrColumnsWithStatus | db/entity/table_entity_comparator.cpp:129-161 | Each new column is listed in order with the old column of its id, as modified when they differ and as added when there is none. |
| TableEntityComparator.ModifiedColumns | db/entity/table_entity_comparator.cpp:89-108 | Exactly the pairs of one id whose data differ, in the order of the new table. |
| TableEntityComparator.RemovedColumns | db/entity/table_entity_comparator.cpp:110-127 | Exactly the old columns whose id the new table does not have. |
| TableEntityComparator.RemovedIndices | db/entity/table_entity_comparator.cpp:163-180 | Exactly the old indexes whose id the new table does not have. |
| TableEntityComparator.CurrIndicesWithStatus | db/entity/table_entity_comparator.cpp:182-209 | Each new index is listed in order with its old form and whether it is modified or added. |
| TableEntityComparator.RemovedForeignKeys | db/entity/table_entity_comparator.cpp:211-228 | Exactly the old foreign keys whose id the new table does not have. |
| TableEntityComparator.AddedForeignKeys | db/entity/table_entity_comparator.cpp:230-247 | Exactly the new foreign keys whose id the old table does not have. |
| TableEntityComparator.ModifiedForeignKeys | db/entity/table_entity_comparator.cpp:249-270 | Exactly the pairs of foreign keys of one id that differ. |
| MySQLTableEditor.DropModifiedKeys | db/mysql/mysql_table_editor.cpp:32-38 | A statement of its own drops each modified foreign key by its old name. |
| MySQLTableEditor.DropDefaults | db/mysql/mysql_table_editor.cpp:42-59 | A statement of its own drops the default of each modified column that has none any more, by the old name. |
| MySQLTableEditor.EditColumns | db/mysql/mysql_table_editor.cpp:63-97 | A CHANGE for each modified and an ADD for each new column, placed FIRST or AFTER the new name of its predecessor. |
| MySQLTableEditor.DropColumns | db/mysql/mysql_table_editor.cpp:99-104 | A DROP for each removed column. |
| MySQLTableEditor.DropIndexes | db/mysql/mysql_table_editor.cpp:108-111 | A DROP for each removed index. |
| MySQLTableEditor.ChangeIndexes | db/mysql/mysql_table_editor.cpp:113-128 | A modified index is dropped by its old name; a modified or new one is added unless it has no columns. |
| MySQLTableEditor.ReaddForeignKeys | db/mysql/mysql_table_editor.cpp:137-139 | Every modified foreign key, dropped before, is added in its new form. |
| MySQLTableEditor.AddForeignKeys | db/mysql/mysql_table_editor.cpp:141-144 | Every new foreign key is added. |
| MySQLTableEditor.DropForeignKeys | db/mysql/mysql_table_editor.cpp:132-135 | A DROP for each removed foreign key. |
| MySQLTableEditor.Edit | db/mysql/mysql_table_editor.cpp:16-164 | The statements sent are the drops of modified keys, the drops of defaults and the main ALTER if it has a clause, and the table counts as changed exactly when one was sent. |
| AlterColumns.ColumnReplay | db/mysql/mysql_table_editor.cpp:61-104 | With distinct ids and names, replaying CHANGE, ADD and DROP on the old columns succeeds and gives a permutation of the new definitions, which is the new list itself if and only if the unmodified columns keep their relative order. |
| AlterIndexes.IndexReplay | db/mysql/mysql_table_editor.cpp:108-128 | Replaying the index clauses succeeds and leaves exactly the new non-empty indexes, new and modified ones as printed and unmodified ones as they were. |
| AlterKeys.KeyReplay | db/mysql/mysql_table_editor.cpp:130-144 | With the modified foreign keys dropped ahead and distinct ids, the key clauses succeed if and only if no new or modified key takes the name of a removed one, and leave exactly the new foreign keys. |
| AlterReplay.Preparations | db/mysql/mysql_table_editor.cpp:32-59 | The statements before the main one succeed and leave the table as the main one needs it. |
| AlterReplay.EditReplay | db/mysql/mysql_table_editor.cpp:16-164 | With distinct ids, the statements of an edit all succeed if and only if no foreign key takes the name of a removed one, and together they turn the old table into the new one: columns, indexes and foreign keys. |
| AlterReplay.EditedColumnsMatch | db/mysql/mysql_table_editor.cpp:254-328 | After the edit every column the server has agrees with a column of the new table in each field but the character set: name, type, length, flags, default, comment and collation. |
| AlterReplay.DefinitionDecidesSql | db/mysql/mysql_table_editor.cpp:254-328 | Columns that agree in these fields are printed as the same text, so that a clause can stand for what is printed. |
| AlterReplay.DefaultDroppedIff | db/mysql/mysql_table_editor.cpp:42-59 | A statement drops a default under some name if and only if a column of that name had a default and the new column of its id has none. |
| KeyIds.AnyIdsReplayIff | db/mysql/mysql_table_editor.cpp:16-164 | Whatever ids foreign keys have, the statements succeed and give the new keys if and only if each id that both versions have belongs to one key of each, and no key takes the name of a removed one; the rest of the table is then right, too. |
| KeyIds.ParsedKeysIff | db/table_structure_parser.cpp:243-276 | For a table with two or more foreign keys as parsed, an edit gives the new keys if and only if none of the parsed ones and none of their names is kept. |
| KeyIds.ReplacedKeyExample | db/mysql/mysql_table_editor.cpp:130-144 | A foreign key that is replaced by a new one of its name is not accepted. |
| AlterReplay.EditedIndexesMatch | db/table_index.cpp:210-241 | After the edit the server has exactly the new indexes that have columns, the primary key under a name of its own and the others under theirs, with class, type and columns, up to the order of columns in an index reported unmodified. |
| AlterReplay.EditedKeysMatch | db/foreign_key.cpp:164-222 | After the edit the server has exactly the new foreign keys, with the referenced table, both actions and both lists of columns, up to what dataDiffers ignores in one reported unmodified. |
| TableStructure.Structure.InsertEmptyDefaultColumn | db/table_structure.cpp:90-117 | A new object is inserted behind the given column, or at the end for a position out of range: a copy that is not AUTO_INCREMENT, or a nullable column, with a new id and name. |
| TableStructure.Structure.AppendColumn | db/table_structure.cpp:164-172 | The column gets the next id and comes last; nothing else changes. |
| TableStructure.Structure.RemoveColumnAt | db/table_structure.cpp:185-196 | The column at a valid position goes, the others keep their order; otherwise nothing changes. |
| TableStructure.Structure.MoveColumnUp | db/table_structure.cpp:203-210 | The column changes places with the one before it, if there is one. |
| TableStructure.Structure.MoveColumnDown | db/table_structure.cpp:217-224 | The column changes places with the one after it, if there is one. |
| TableStructure.Structure.ColumnById | db/table_structure.cpp:324-332 | The loop finds the column that looking the id up in the list of values finds. |
| TableStructure.Structure.ColumnByName | db/table_structure.cpp:334-342 | The loop finds the first column of the name. |
| TableStructure.Structure.DeepCopy | db/table_structure.cpp:51-88 | The copy has equal columns, indexes and counters, shares no object with the original, and its foreign keys point to the copied columns of the same names. |
| TableStructure.CopyKey | db/foreign_key.cpp:128-143 | A copied foreign key keeps its data and points to the columns that have the names of the old ones. |
| TableStructure.CopiedKeyIsEqual | db/foreign_key.cpp:128-143 | When column names are distinct, a copied foreign key refers to the same column ids as the original. |
| StructureRuns.InsertedColumn | db/table_structure.cpp:90-117 | An insertion adds one column behind the given one or at the end, with an id no other column has: it has all data of the one before it, except that its name is column_ with the decimal number of its place and that AUTO_INCREMENT becomes the text 0; removing it gives back the list. |
| StructureRuns.MoveUndone | db/table_structure.cpp:203-224 | Moving a column up and down again, or down and up, changes nothing. |
| StructureRuns.RunAddsNoAutoInc | db/table_structure.cpp:104-107 | Over every run of edits in which the user sets no AUTO_INCREMENT, inserted copies included, there is never a second such column. |
| StructureRuns.RunKeepsNumbering | db/table_structure.h:143-145 | Over every run of edits, ids stay distinct and within the counter, which never goes back. |
| StructureRuns.GoneIdsStayGone | db/table_structure.h:143-145 | An id that was handed out and is no longer in use never comes back, whatever edits follow. |
| StructureRuns.PairedWithOrigin | db/table_structure.cpp:51-224 | After any run of edits on a copy, looking a column up by id in the original finds the column it originates from, followed by position alone, and nothing for an added column. |
| StructureRuns.RemovedHaveNoHeir | db/entity/table_entity_comparator.cpp:110-127 | A column is reported removed exactly when no column of the edited list originates from it. |
| EditedColumns.OrderKeptIff | db/entity/table_entity_comparator.cpp:129-161 | After any run of edits, the unmodified columns keep their order, so that the ALTER gives the new list, exactly when the positions they originate from increase along the new list. |
| EditedColumns.UnmovedEditReplays | db/mysql/mysql_table_editor.cpp:16-164 | For every run of edits without moves, the statements give exactly the edited list of columns. |
| EditedColumns.MovedIsMissed | db/entity/table_entity_comparator.cpp:151-151 | For two columns that change places nothing is sent at all. |
| TableStructureParser.SkipSpace | db/table_structure_parser.cpp:437-441 | The loop stops at the first character that is not white space. |
| TableStructureParser.ExtractDataTypeByName | db/table_structure_parser.cpp:354-378 | The first type of the list whose name the text begins with, without case; the text keeps its white space when there is none. |
| TableStructureParser.ExtractLengthSet | db/table_structure_parser.cpp:393-431 | The contents of a leading pair of parentheses, with parentheses in quotes ignored, and the text behind it. |
| TableStructureParser.FindClosing | db/table_structure_parser.cpp:405-422 | The loop finds the first closing parenthesis outside of quotes, if there is one. |
| TableStructureParser.StartsFromIff | db/table_structure_parser.cpp:433-451 | A word is found exactly when the text is white space, the word in any case, and the rest that is left. |
| ColumnOptions.OptionsParse | db/table_structure_parser.cpp:174-181 | With CHARACTER SET, COLLATE or both between the type and NULL, for all words, the character set and collation are those words, and everything else is read as it is without them. |
| ColumnOptions.ShownRoundTrips | db/table_structure_parser.cpp:453-475 | A definition as a server shows it, the character set and collation of the column included, comes back if and only if both are words and the rest of the column is recoverable. |
| ColumnOptions.WordDefaultIff | db/table_structure_parser.cpp:532-549 | A default that is a word without quotes is taken with what follows it left, if and only if nothing in the text reads as nextval, NULL, a time stamp or an ON UPDATE clause. |
| ColumnOptions.ParenthesizedIsRead | db/table_structure_parser.cpp:512-563 | A plain text in quotes and parentheses is taken as the default without them. |
| ColumnRoundTrip.NullParses | db/table_structure_parser.cpp:477-485 | The printed NULL or NOT NULL is recognised and consumed, whatever follows. |
| TableStructureParser.MatchQuotedStr | db/table_structure_parser.cpp:584-622 | The scan with its three-character step over doubled quotes gives the raw contents of the first literal, or nothing and an unchanged text. |
| ColumnDefaults.DefaultIff | db/table_structure_parser.cpp:487-566 | For all kinds of default, printing and parsing gives back kind, text and comment exactly when the column is recoverable. |
| ColumnDefaults.NullUpdateIff | db/table_structure_parser.cpp:523-531 | NULL with ON UPDATE comes back exactly when the comment is plain. |
| ColumnDefaults.CurTSUpdateIff | db/table_structure_parser.cpp:532-541 | A time stamp with ON UPDATE comes back exactly when the comment is plain. |
| ColumnDefaults.LineParses | db/table_structure_parser.cpp:151-190 | What is read from a printed definition: all attributes that the type prints, and what is found behind NULL. |
| QuotedTexts.PlainIsMatched | db/table_structure_parser.cpp:584-622 | A text without quotes and backslashes comes back from its literal, and what follows the literal is left. |
| QuotedTexts.MatchedIsPlain | db/table_structure_parser.cpp:584-622 | Only such a text ever comes back. |
| QuotedTexts.DoubledIsPassed | db/table_structure_parser.cpp:596-612 | A doubled quote in a literal is passed over together with the character behind it, whatever that is, even a quote. |
| OnUpdatePattern.FoundBeforeQuote | db/table_structure_parser.cpp:88-88 | In a text with a quote, the first match of the ON UPDATE pattern is that of the part before the quote, and otherwise that of the part behind it. |
| OnUpdatePattern.ClauseIsFound | db/table_structure_parser.cpp:624-632 | A printed ON UPDATE clause is recognised and removed with its length. |
| ColumnRoundTrip.TypeFound | db/table_structure_parser.cpp:364-374 | Among types sorted by length, the printed type is found unless an earlier one would be taken for it. |
| ColumnRoundTrip.CommentParses | db/table_structure_parser.cpp:568-582 | A printed comment is parsed back exactly when it is free of quotes and backslashes. |
| ColumnRoundTrip.MatchInComment | db/table_structure_parser.cpp:624-632 | The first match of ON UPDATE in what follows a default is that of the comment. |
| CommentCuts.CutIff | db/table_structure_parser.cpp:568-582 | However many characters are cut off in front of a printed comment, or into it, the comment comes back exactly when it is plain and the cut ends right before it. |
| ColumnDefaults.TextUpdateIff | db/table_structure_parser.cpp:550-563 | A default text with ON UPDATE comes back if and only if text and comment are plain and the comment holds an ON UPDATE clause as long as the printed one, with or without its leading space. |
| ColumnDefaults.ClauseExample | db/table_structure_parser.cpp:550-563 | With a comment that is the clause such a column comes back, without a comment it does not. |
| ColumnDefaults.DefinitionRoundTrips | db/table_structure_parser.cpp:151-190 | Parsing a definition that was captured as a whole, at the end of a line or before a comma, gives the column back if and only if it has a name without the quote, its default is of a recoverable kind, its text and comment are plain, an ON UPDATE clause in its comment does no harm, and it has no character set or collation, nor a length or flags its type cannot have. |
| ColumnLines.ParseColumns | db/table_structure_parser.cpp:133-190 | The loop over all matches of the column pattern gives the columns read from the captures, in order. |
| ColumnLines.ParsedIsOneLine | db/table_structure_parser.cpp:142-190 | A column read from a captured line holds no line break in any of its texts. |
| ColumnLines.TableRoundTrips | db/mysql/mysql_table_editor.cpp:254-328 | Parsing a statement that defines any number of printed columns, a line each, gives exactly those columns in their order if and only if each is recoverable, holds no line break and has a name without the quote. |
| ColumnLines.ColumnRoundTrips | db/mysql/mysql_table_editor.cpp:254-328 | The same for a single printed column, through the pattern that captures its line. |
| DefinitionReading.DefinitionIsRead | db/mysql/mysql_table_editor.cpp:254-328 | A server that reads the printed name, type and attributes reads exactly those of the column, for all names, default texts, comments and collations, whatever quotes and backslashes they hold. |
| DefinitionReading.PrintedAlikeIff | db/mysql/mysql_table_editor.cpp:254-328 | Two columns of a type are printed as the same text if and only if they have the same name and mean the same attributes. |
| Escaping.MySQLRoundTrip | db/mysql/mysql_connection.cpp:403-445 | Unescaping undoes escaping if and only if the text has no backslash directly before n, r, 0 or t. |
| Escaping.ControlExample | db/mysql/mysql_connection.cpp:432-440 | A backslash and an n do not come back. |
| Escaping.PGRoundTrip | db/pg/pg_connection.cpp:268-309 | The same for PostgreSQL. |
| Escaping.SQLiteRoundTrip | db/sqlite/sqlite_connection.cpp:150-191 | Unescaping undoes escaping for every text. |
| Escaping.MySQLLiteralIsRead | db/mysql/mysql_connection.cpp:403-430 | The server reads every text back from its quoted literal and the literal ends where it should. |
| Escaping.PGLiteralIsRead | db/pg/pg_connection.cpp:268-294 | The same for the E'' literals of PostgreSQL. |
| Escaping.SQLiteLiteralIsRead | db/sqlite/sqlite_connection.cpp:150-176 | The same for SQLite, which knows no backslash escapes. |
| LikePatterns.MySQLFilterIff | db/mysql/mysql_connection.cpp:490-498 | The literal of a filter ends where it should, and the server takes it for the pattern of all texts that hold the value if and only if the value has no backslash. |
| LikePatterns.PGFilterIff | db/pg/pg_connection.cpp:370-384 | The same for PostgreSQL, if and only if the value has no quote. |
| Escaping.ControlsLoseLetter | db/mysql/mysql_connection.cpp:432-440 | Undoing control sequences loses one of their letters whenever there is a sequence to undo. |
| Escaping.ControlsAreTheServers | db/mysql/mysql_connection.cpp:432-440 | Each of the four control sequences on its own is undone as the server reads it. |
| Identifiers.IdentifierRoundTrip | db/connection.cpp:219-281 | Dequoting undoes quoting for every name, without glue. |
| Identifiers.NameIsRead | db/connection.cpp:219-246 | A server reads every quoted name back, whatever quotes it has. |
| Identifiers.HalvesAreRead | db/connection.cpp:219-246 | With glue, it reads the two halves of the name at the first glue. |
| Identifiers.GluedRoundTrip | db/connection.cpp:219-281 | With glue, a name that holds it comes back if and only if what follows the first glue does not have a quote, the glue, quotes, the glue and a quote in a row. |
| Identifiers.UngluedRoundTrip | db/connection.cpp:219-281 | With glue, a name that does not hold it comes back, whatever quotes it has. |
| Identifiers.NoQuoteNotEntangled | db/connection.cpp:219-281 | A name without quotes is never in the way of that. |
| Identifiers.EntangledExample | db/connection.cpp:219-281 | A name that does not come back. |
| RoutineParser.ExtractLiteral | db/routine_structure_parser.cpp:151-184 | The loop that toggles at quotes finds the end of the literal behind the prefix; without a match nothing is consumed. |
| RoutineParser.LiteralStartIff | db/routine_structure_parser.cpp:151-166 | A literal begins exactly with white space, the prefix with white space behind it, and a quote, or with white space and a quote when there is no prefix, and all of that is skipped. |
| RoutineParser.CommentRoundTrip | db/routine_structure_parser.cpp:151-184 | Extracting a printed comment always leaves what follows it, and gives the comment back if and only if it has no backslash directly before n, r, 0 or t. |
| RoutineParams.ScanParams | db/routine_structure_parser.cpp:54-77 | The loop collects the text between the outer parentheses and stops at the one that closes them. |
| RoutineParams.ScanFindsListIff | db/routine_structure_parser.cpp:54-77 | For every text that opens no parenthesis outside of quotes, followed by a list in parentheses: exactly the list is found, and the scan stops at its end, if and only if parentheses and quotes match in it. |
| RoutineParams.PrintedListIsFound | db/routine_editor.cpp:126-147 | For all routine and parameter names, whatever characters they hold, exactly the printed parameter list is cut out of the printed statement. |
| RoutineParams.OneParamIsFoundIff | db/routine_structure_parser.cpp:54-77 | A printed list of one parameter is found if and only if parentheses and quotes match in its type. |
| RoutineParams.TypeExample | db/routine_structure_parser.cpp:54-77 | In ENUM('a)') they do not. |
| MySQLQueryResult.Cursor.SeekRecNo | db/mysql/mysql_query_result.cpp:84-134 | After a seek to another record, the current row is the row of that number among all pages, whether or not the native seek was skipped; behind the last row the cursor is at the end; a seek to where it stands changes nothing. |
| MySQLQueryResult.Cursor.FetchFrom | db/mysql/mysql_query_result.cpp:107-121 | Skipping the native seek when the current row is the one before the wanted row fetches the right row of the right page. |
| MySQLQueryResult.Cursor.SeekFirst | db/native_query_result.cpp:26-30 | The first row is shown, or the end when there are none. |
| MySQLQueryResult.Cursor.SeekNext | db/native_query_result.cpp:32-35 | From any place: the next row is shown, from the start the first one, the record number wrapping around; behind the last row the cursor is at the end, and stays there. |
| MySQLQueryResult.Cursor.ReadRows | db/connection.cpp:191-212 | Going from the first row to the end visits all rows of all pages, in order. |
| MySQLQueryResult.Cursor.AppendResultData | db/native_query_result.cpp:250-261 | The rows are those of before and the new page's; the current row stays right if and only if the cursor was not at the end or the page is empty. |
| MySQLQueryResult.Cursor.PrepareEditing | db/native_query_result.cpp:112-126 | Entering edit mode keeps every cell at its place, for any number of pages. |
| MySQLQueryResult.PrepareResultForEditing | db/mysql/mysql_query_result.cpp:226-255 | All rows of a page are fetched and copied in order. |
| PGQueryResult.Cursor.SeekRecNo | db/pg/pg_query_result.cpp:34-78 | The page and local position picked are those of the row of the wanted number. |
| PGQueryResult.Cursor.AppendResultData | db/native_query_result.cpp:250-261 | The current row stays right if and only if the cursor was not at the end or the page is empty. |
| PGQueryResult.Cursor.PrepareEditing | db/native_query_result.cpp:112-126 | All cells of all pages are copied in place. |
| PGQueryResult.PrepareResultForEditing | db/pg/pg_query_result.cpp:121-144 | All cells of a page are copied. |
| QueryData.EditableGridData.SetData | db/editable_grid_data.h:60-70 | An unchanged cell changes nothing; otherwise the row becomes the pending one, with the cell changed. |
| QueryData.EditableGridData.CreateUpdateRow | db/editable_grid_data.h:138-145 | The pending row is kept when it is this one, and replaced by a copy of the row otherwise. |
| QueryData.EditableGridData.ApplyModifications | db/editable_grid_data.h:88-96 | The pending data take the place of their row, and no other row changes. |
| QueryData.EditableGridData.DiscardModifications | db/editable_grid_data.h:79-86 | Nothing is pending any more, and the number of the row is returned. |
| QueryData.EditableGridData.DeleteRow | db/editable_grid_data.h:102-106 | The row goes and so does what is pending. |
| QueryData.Data.SetData | db/query_data.cpp:183-191 | Grid, pending row and table are those of the step. |
| QueryData.Data.WhereForCurRow | db/query_data.cpp:369-437 | The key values are those of the pending row if there is one, before or after its changes, and of the current row otherwise. |
| QueryData.Data.ApplyModificationsInDB | db/query_data_editor.cpp:15-84 | An UPDATE of exactly the columns that differ is sent for the key the row had; nothing is sent when none differs; a refused statement changes nothing. |
| QueryData.Data.EnsureFullRow | db/query_data.cpp:439-473 | The pending data become what the table holds under their key, if it has a row of the same width. |
| QueryData.Data.ApplyModifications | db/query_data.cpp:223-238 | All outcomes of an apply: nothing to do, refused with the row still pending, or done. |
| QueryData.Data.DiscardModifications | db/query_data.cpp:240-245 | Only what is pending goes. |
| QueryData.Data.DeleteRowInDB | db/query_data.cpp:247-265 | The table loses the row of the key addressed, the grid the row given; a refused statement changes nothing. |
| GridRuns.UpdateWritesRow | db/query_data_editor.cpp:37-77 | Assigning only the columns that differ writes the whole pending row under its new key, leaves every other row alone, and fails exactly when the new key is taken or NULL or the server refuses. |
| GridRuns.ChangesIff | db/query_data_editor.cpp:37-77 | A column is assigned if and only if the row was changed in it, with its new value; columns come in order and once. |
| GridRuns.ApplyWritesWhatIsShown | db/query_data.cpp:223-238 | After an apply the row shown is in the grid and under its key in the table, and all other rows are as before. |
| GridRuns.DeleteKeepsStepIff | db/query_data.cpp:378-382 | An accepted delete keeps grid and table in step if and only if no other row is pending. |
| GridRuns.RunKeepsStepIff | db/query_data.cpp:183-265 | Over every run of edits, applies, discards and deletes, whatever the server accepts, each grid row is the table row of its key and the other way round at every moment, if and only if each row that was deleted was the pending one or none was pending. |
| GridRuns.UnchangedStaysPending | db/query_data_editor.cpp:37-83 | An apply does nothing, and gives nothing up, exactly when the pending data equal the row. |
| GridRuns.EditKeepsPendingIff | db/editable_grid_data.h:138-145 | An edit keeps the pending row pending if and only if it is in that row or changes nothing. |
| GridRuns.StepShowsIff | db/query_data.cpp:183-265 | A step shows what it is meant to show if and only if it does not discard edits, delete or change another row while there are some, or read back something else than was written. |
| GridRuns.RunShowsIff | db/query_data.cpp:183-265 | Over every run, in step with the table or not, the user sees at every moment what was typed, whatever was applied or refused, if and only if no step gives up edits. |
| GridRuns.InStepReadsBack | db/query_data.cpp:439-473 | In step with the table, an apply never reads back something else. |
| GridRuns.GivenUpExample | db/editable_grid_data.h:138-145 | Two rows, of which the first is edited and then the second. |
| GridRuns.DeletedOtherExample | db/query_data.cpp:378-382 | Deleting the second row of these deletes the first one in the table. |
| UserManager.IdIdentifiesIff | db/user_manager.h:88-108 | An id belongs to a single object if and only if that is the server or a database, or no part of its name holds a colon. |
| UserManager.ColonsConfuse | db/user_manager.h:88-108 | With colons, two tables can share an id. |
| UserManager.User.PrivilegeById | db/user_manager.h:189-196 | The loop finds the first entry of the id. |
| UserManager.User.CopyDataFrom | db/user_manager.h:207-219 | All data but whether the user is new are copied, the entries into new objects; a user copied from itself loses its entries. |
| MySQLUserManager.GrantIsSupported | db/mysql/mysql_user_manager.cpp:500-676 | For every version, the grant option is among the supported privileges of everything but columns. |
| MySQLUserManager.SupportedIff | db/mysql/mysql_user_manager.cpp:500-676 | A privilege is listed for an object if and only if it can be given on that kind of object and the version of the server knows it, by a table of privileges. |
| MySQLUserManager.NamesAreNoWords | db/mysql/mysql_user_manager.cpp:500-676 | For every version, no supported privilege is one of the words ALL, USAGE and GRANT OPTION. |
| MySQLUserEditor.RevokedItems | db/mysql/mysql_user_editor.cpp:254-270 | The items revoked are those of exactly the privileges that are no longer granted, GRANT as GRANT OPTION and column privileges with their column. |
| MySQLUserEditor.GrantedItems | db/mysql/mysql_user_editor.cpp:293-303 | The items granted are those of exactly the privileges asked for. |
| MySQLUserEditor.AddedIs | db/mysql/mysql_user_editor.cpp:344-366 | Through WITH GRANT OPTION and USAGE, the statement adds exactly the privileges listed, on exactly that object. |
| MySQLUserEditor.AllIsExact | db/mysql/mysql_user_editor.cpp:307-325 | Granting everything with ALL, which brings the grant option along, adds exactly what was asked for, on that object alone. |
| MySQLUserEditor.AboutOne | db/mysql/mysql_user_editor.cpp:434-462 | What is named behind ON is about exactly one object, which a server reads off the kind and the names alone. |
| MySQLUserEditor.Editor.GrantPrivileges | db/mysql/mysql_user_editor.cpp:289-331 | Exactly the privileges asked for are added, on exactly that object, by one statement that the server accepts, or none when there is nothing to grant. |
| MySQLUserEditor.Editor.EditPrivilege | db/mysql/mysql_user_editor.cpp:239-287 | Revoking and granting the differences gives the new set on that object and changes no other, with a statement for each of the two that has something to do. |
| MySQLUserEditor.Editor.EditPrivileges | db/mysql/mysql_user_editor.cpp:209-237 | The statements sent turn the privileges the user had into the edited ones on every object; a change is reported exactly when an object is new or its privileges differ, and otherwise nothing is sent. |
| MySQLUserEditor.PlainPartsIdentifyEntries | db/user_manager.h:88-108 | Ids tell the entries of two lists apart when those of one list have ids of their own, whatever the other list holds. |
| BatchExecutor.Executor.RunQueries | db/user_query/batch_executor.cpp:19-88 | The run goes on behind every query but the last executed one, stops there for a reason, counts outcomes, reports each index, and fails exactly when its last query failed and counted. |
| BatchExecutor.RunEndIsUnique | db/user_query/batch_executor.cpp:19-88 | The outcomes of the queries and what the abort flag was behind each decide all fields at the end. |
| BatchExecutor.EveryExecution | db/user_query/batch_executor.cpp:19-93 | In every interleaving of the run's atomic regions with aborts, fields and record agree after every step. |
| BatchExecutor.EveryEndIsOfTheLoop | db/user_query/batch_executor.cpp:19-93 | Every interleaving that ended has the fields that the sequential loop leaves for the outcomes and flags it met. |
| BatchExecutor.EveryLoopIsAnExecution | db/user_query/batch_executor.cpp:19-93 | Every end of the sequential loop is the end of some interleaving. |
| BatchExecutor.WhatGettersSee | db/user_query/batch_executor.cpp:95-149 | At any moment, succeeded plus failed queries are the results or one less, and every reported index has its result. |
| BatchExecutor.AbortEndsRun | db/user_query/batch_executor.cpp:69-93 | Whenever the run is aborted, at most one more query is executed whatever happens then, and none if the abort comes during a query. |
| BatchExecutor.WhatTheEndMeans | db/user_query/batch_executor.cpp:69-88 | A run that ended neither aborted nor failed executed every query; it failed exactly when its last query did and either failures stop it or it was the last of all. |
| LineBreaks.ScanLineBreaks | helpers/text.cpp:17-44 | Within the scan limit, the one kind of all line breaks, Mixed for several and none for none. |
| LineBreaks.ConversionRoundTrip | helpers/text.cpp:17-121 | A text that scans as one of the four kinds converts to any other: the result scans as that kind, has as many breaks, and converts back to the text. |

## Left out

- MidRef: a longer delimiter that overlaps itself or begins a script makes the source compute negative lengths, which the model gives the meaning QString::midRef gives them.
- StatementConservation: scripts with such delimiters are not covered, though some of them lose nothing either.
- PiecesRoundTripIff: pieces are put together with delimiters of one character.
- ToLowerChar: case is folded for the letters A to Z only, where Qt folds all letters.
- Characters are Dafny characters, not UTF-16 units.
- The text of ALTER clauses is modelled as clause values; only column definitions are printed and parsed as text.
- Execute: ALTER TABLE is the small semantics written in `AlterServer`; what it refuses and keeps is stated in `ServerLaws`, and in it a foreign key cannot be added under a name the table had before the statement; the server's data conversion, implicit indexes for foreign keys and column types are not part of it.
- Definition: the character set of a column is not printed by the table editor, so replay is up to character sets.
- Table name, comment, collation, engine and other table options of an edit, and servers before 4.0.1, whose ALTER has no column positions.
- EditReplay: old indexes are assumed to have columns, and names to be distinct, as are the ids of columns and indexes; those of foreign keys need not be (`AnyIdsReplayIff`).
- KeyReplay: distinct ids of foreign keys are assumed; `AnyIdsReplayIff` covers the others.
- Edit: table options and renaming, which have clauses of their own and can make the table count as changed, too.
- The ids of indexes and foreign keys follow the same counters as those of columns; only columns have edit runs here.
- Change: edits of a column's fields in place are one step that keeps the id; signals to the user interface about removed columns are not modelled.
- DefinitionRoundTrips: lengths whose parentheses or quotes do not match, and types that one listed before them would be taken for are not covered.
- Captured: a line ends at LF alone, as the regular expressions are compiled by default, and identifiers are quoted by `` ` `` or `"`.
- TableRoundTrips: the columns are compared without ids, which they get when they are appended to the structure; the lines around them are any that hold nothing like a column.
- parseKeysIndicies, parseForeignKeys, parseTableOptions and the view and trigger parsers, which are general regular expressions.
- PGFilterIff: a backslash is nothing special in a literal, as in servers with standard-conforming strings; folding the value to lower case, and the columns that are cast, are not part of it.
- QuoteIdentifier: quote and glue characters are assumed to differ where both are used.
- ScanParams: the regular expression that takes the found parameter list apart.
- Cursor: pages passed to an append were just fetched, with the native cursor behind their first row, as results are after their initialisation; seeking while in edit mode, where rows come from the grid, is not modelled.
- AppendResultData: the branch for edit mode, in which the rows of the new page are copied into the grid.
- PrepareEditing: NULL and empty text are different cells from the start, so that they stay apart is not a result.
- ApplyModificationsInDB: the branch for rows that are not in the table yet, for which an INSERT is sent.
- DeleteRowInDB: rows that are not in the table yet, for which no DELETE is sent.
- Client libraries, columns and types of results, and conversion of raw bytes to text.
- InStep: rows that are inserted but not saved, partially loaded cells, server-side conversion and triggers, and tables without a primary key; cells are values, so the number forms of WHERE clauses are not printed.
- Target: proxy privileges, and statements for servers before 5.0.6, which do not name the kind of object.
- IsAccepted: which privileges GRANT ALL stands for is taken to be the supported ones of the scope.
- Statements for limits, passwords, renaming, creating and dropping of users.
- WhatGettersSee: the stop-on-error setting does not change during a run; sums of rows and durations are not modelled.
- Threads, sockets, SSH tunnels, settings, logging, translations, entity trees and data type tables.
- The syntax highlighter and the auto-completion that use the tokenizer.
