# MiniDB, modelled and proved in Dafny

MiniDB is a small SQL engine in C++ without STL containers. This project models
its core and proves what that core keeps over every run:

- the **executor** over tables and primary key indexes, a state machine whose
  steps are SQL statements (`Relational`, `Meaning`, `Sessions`, `Execution`,
  `Databases`, `Tables`, `PrimaryIndex`);
- the **lexer** and the **recursive-descent parser** (`Lexing`, `Parsing`);
- the **text file** a table is saved to and loaded from (`TableFormat`, `Tables`);
- the **base structures**: the growable vector, binary search, the ordering of
  values, decimal text (`Vectors`, `PrimaryIndex`, `Values`, `Numbers`).

Code that changes objects step by step is a class whose methods are proved
against functions on values; the laws are lemmas about those functions, so they
hold of the classes. `Session.Execute` handles every statement; inside the database
in use `Executor.Execute` takes the state of the objects through exactly
`Relational.Step`. Every database a session ever has is the end of a run from the
empty database (`SessionIsRun`), so what is said about `Relational.Run`, the
repetition of `Step`, is said about all reachable states.

Automatic induction is switched off on every lemma, so that each proof says what it
recurs on.

## Main results

**Statements mean what they say.** `Meaning` gives the result and the reply of each
statement on a table by column names and rows alone, without column numbers,
comparing, loops or an index: a condition is met by the order in which NONE comes
first, then the integers by size, then the strings as in a dictionary. On every table
whose rows fit its schema the executor's step gives exactly that relation and that
reply, errors and their order included; all the index contributes is the set of keys
that INSERT refuses (`StepMeans`). What the step does to the index is given the same
way, key by key (`IndexMeans`), and what a statement does to the list of tables
(`ListMeans`). For any SELECT of one column this says that it
shows the cell of that column of each row SELECT * shows (`SelectOneColumn`), and for
any condition which cells pass it (`WhereMeans`). Over a run each statement gets the
reply of its own step (`RunReplies`), and a session's statement the reply of the run
since the last USE, or a refusal outside any database (`SessionReplies`).

**The key index, over whole runs.** The index is meant to agree with a scan of
the key column. It does not always, and the project says exactly when. Each
property below comes with the exact condition under which a single statement
keeps it; along a run it holds at every moment *if and only if* every step meets
the condition (`RunLaw`).

- INSERT decides about every integer key as a scan of the table would. For a table
  this means that the index holds exactly the integer keys a scan finds
  (`VerdictIff`), and also that no statement could tell the table from a relation
  without an index (`InvisibleIff`). A statement keeps it if and only if it takes no
  key from the index that a row still holds and leaves none in it that no row holds:
  a DELETE must not split rows sharing a key, an INSERT of a key that is no integer
  needs a row of key 0, and an UPDATE of the key column must leave every filed key it
  takes from a row to another row or set it anew (`ScanExactIff`). Along runs this is
  an if-and-only-if (`DuplicateIffScanFinds`, `InvisibleOverRuns`), and in such runs
  the database answers, reply by reply, as one that has no index, no slots and no
  table order at all (`IndexIsInvisible`).
- One half of it: the index holds no key without a row, so INSERT refuses a key only
  if a row holds it (`NoPhantomIff`, `NoPhantomOverRuns`).
- The other half: every integer key of the table is in the index, so INSERT accepts a
  key only if no row holds it. Any statement keeps that except exactly a DELETE that
  removes one of several rows with one key (`CoverageIff`, `CoverageOverRuns`). Hence
  no delete-free run accepts a key that a row holds (`SafeWithoutDelete`).
- All keys are integers, distinct, and exactly those in the index. A statement keeps
  that if and only if it is `Harmless`: an INSERT must have an integer literal for
  the key, and an UPDATE of the key column must pick no row, or one row that already
  has that key (`AgreementIff`, `AgreementOverRuns`).
- Integer keys are distinct and in the index. Any statement keeps that except
  exactly an UPDATE that gives two rows one key (`DistinctIff`, `DistinctOverRuns`);
  until then INSERT refuses every key a row holds (`SafeWhileDistinct`).
- Row numbers in the index are *never too small*. Any statement keeps that except
  exactly a DELETE that splits rows sharing a key and an UPDATE that files a key in
  front of another row holding it (`NeverLowIff`, `NeverLowOverRuns`).
- Row numbers in the index are *exact*. Any statement keeps that except exactly a
  DELETE that leaves an integer key behind a deleted row, an UPDATE that gives two
  rows one key, and an INSERT of a key that is no integer into a table that holds
  the key 0 (`ExactIff`, `ExactOverRuns`).
- The account of stale row numbers is complete: the number filed for a key is the
  present place of its row plus the number of rows deleted from in front of it since
  it was filed. A statement keeps the account if and only if it meets `KeepsAccount`
  (`StepAccounts`, `StalenessOverRuns`); harmless runs are among those that do
  (`HarmlessRunKeepsAccount`). In such runs from the empty database the number is
  never below the place (`NeverBelow`), and equal to it when no DELETE has a
  condition (`ExactWithoutPartialDelete`).
- What goes wrong outside these conditions is shown by scripts that start from the
  empty database, in `Counterexamples`: the old key stays refused after an UPDATE, a
  key that is not an integer blocks the key 0, an UPDATE files a row number that is
  too small, an UPDATE followed by a DELETE lets a duplicate in, and an INSERT of a
  string into an integer column is lost when the table is saved and loaded.

**The lexer is exact.** It accepts a text with given tokens if and only if the
text is a layout of them: white space and maximal tokens in turn, each knowing its
line and column, one END_OF_FILE last (`LexerIsExact`). It refuses a text if and only
if good tokens are laid out up to a place where no token starts (`LexerErrors`). Which
characters and which seventeen words it knows is listed (`Characters`, `KeywordsAre`).

**The parser is exact.** On every token list it returns a statement and a rest if
and only if the list starts with a sentence of that statement, the sentence is over
there, and the rest follows (`ParserIsExact`). The grammar is the documented one
with literals that may be missing where no literal stands; a sentence is over with
its semicolon, or in front of anything but a semicolon or a WHERE that would belong
to it. From both results: a text is parsed to a statement if and only if it is a layout
of tokens that start with an ended sentence of it (`TextIsExact`), and every statement,
in any keyword casing and white space, with or without its semicolon, is parsed back to
itself (`SqlRoundTrip`), also from its text in the documented words (`PrintThenParse`).
A table never gets two primary columns (`CountsPrimaries`, `ParsedHasOnePrimary`).

**The table file.** Loading any file succeeds if and only if it has all the lines it
announces and every column line has three parts, and what is loaded is given line by
line, in the case of failure too (`LoadMeans`). Loading a saved table gives it back if and only if it is
`Reloadable` (`SaveLoadRoundTrip`): every cell has its column's type, strings are
not empty and hold no bar, newline or carriage return, names are single words, and
every line has at most 8191 characters. A line of exactly 8191 leaves its newline
to the next read and is harmless only in front of nothing but empty rows (a column
line: only as the last one of a table without rows). Given a schema that survives,
as short words do (`WordsAreKept`), a statement keeps a table reloadable if and only
if its literals suit their columns and the lines they make fit (`ReloadableIff`);
along runs this is an if-and-only-if too (`SavableOverRuns`).

## Where code and documentation differ

The code is followed.

- The repository's README says identifiers are lower-case letters only; the lexer
  takes letters of both cases, digits and underscores after the first letter.
- It says a string has at most 256 characters; nothing checks that.
- `row.hpp` says comparing gives -1, 0 or 1; two strings give whatever `strcmp`
  gives, so only the sign of the result is used.
- A comment in UPDATE says the index is rebuilt for the key column; the code adds
  the new key and keeps the old ones.
- A comment in the database class says tables are loaded on demand; nothing loads
  them, so USE of a database, even of the one in use, starts with no tables.
- Keywords are read in any casing, but a column type is compared with `int` as
  spelled, so a column declared `INT` gets the string type.
- `INSERT INTO t VALUES ()` is refused, but a list like `(,)` is read as two empty
  strings: a missing literal is the empty string everywhere else.

## Model

| member | source | states |
|---|---|---|
| Sessions.Session.Execute | src/execution/executor.cpp:37-61 | every statement takes the session through exactly one step, with its reply: tables are touched inside the database in use only, and without one the statement is refused |
| Sessions.SessionIsRun | src/execution/executor.cpp:66-150 | whatever statements of SQL text a session ran, its tables are those of a run from the empty database: of the statements since its last USE |
| Sessions.SessionReplies | src/execution/executor.cpp:37-61 | after any statements of SQL text the next one gets the reply of the run since the last USE; without a database it is refused; CREATE and DROP DATABASE answer what the file system granted |
| SqlText.ParsedNamesNotEmpty | src/parser/parser.cpp:193-250 | no SQL text names a database by the empty string |
| Execution.Executor.Execute | src/execution/executor.cpp:45-57 | inside the database in use the objects go through exactly one step of the state machine, with its reply; no object of the database leaks in or out |
| Execution.Executor.ExecCreateTable | src/execution/executor.cpp:155-181 | appends an empty table with an empty index, or refuses a name that is taken and changes nothing |
| Execution.Executor.ExecDropTable | src/execution/executor.cpp:186-204 | removes the table and its index and closes the gap, or fails on an unknown name |
| Execution.Executor.ExecSelect | src/execution/executor.cpp:250-326 | answers from the named table and changes no object |
| Execution.Executor.SelectFrom | src/execution/executor.cpp:271-325 | the result is project(filter(rows)) in row order, under the selected columns; unknown columns are reported first the selected, then the WHERE one |
| Execution.Executor.CopyMatching | src/execution/executor.cpp:303-320 | the row loop shows exactly the picked rows, in order, whole or reduced to one cell |
| Execution.Executor.ExecDelete | src/execution/executor.cpp:331-384 | only the named table and its index change, as DELETE says |
| Execution.Executor.DeleteMatching | src/execution/executor.cpp:361-379 | the backward loop over the shrinking table equals an order-preserving filter; the keys of exactly the deleted rows leave the index; the count is the number deleted |
| Execution.Executor.DeleteRow | src/execution/executor.cpp:368-377 | an integer key leaves the index and later rows move down by one |
| Execution.Executor.ExecInsert | src/execution/executor.cpp:389-454 | only the named table and its index change, as INSERT says |
| Execution.Executor.InsertValues | src/execution/executor.cpp:404-453 | wrong width and known key are refused without any change; otherwise the row comes last and is filed under its key, or under 0 when the key is not an integer |
| Execution.Executor.ExecUpdate | src/execution/executor.cpp:459-529 | only the named table and its index change, as UPDATE says |
| Execution.Executor.UpdateMatching | src/execution/executor.cpp:503-524 | the in-place loop equals a pointwise map over the rows; the new key ends up filed under the last picked row and no old key is removed |
| Execution.Executor.UpdateRow | src/execution/executor.cpp:512-521 | one cell changes, and the index only when that cell is the key and the value an integer |
| Databases.Database.constructor | src/storage/database.cpp:22 | a new database has no tables |
| Databases.Database.Slot | src/storage/database.cpp:98-114 | finds the slot of the one table of that name, or says there is none |
| Databases.Database.GetTable | src/storage/database.cpp:98-105 | gives the table in the slot of the name, null exactly when there is none |
| Databases.Database.GetIndex | src/storage/database.cpp:107-114 | gives the index in the slot of the same table |
| Databases.Database.CreateTable | src/storage/database.cpp:24-46 | an insertion-ordered map: a new entry comes last, a taken name changes nothing, names stay distinct and the three vectors stay aligned |
| Databases.Database.DropTable | src/storage/database.cpp:48-96 | removes one entry and keeps the order and contents of all others |
| Databases.Database.ShiftDown | src/storage/database.cpp:83-92 | the joint shift removes the same slot from all three vectors |
| Tables.Table.ColumnNumber | src/storage/table.cpp:43-50 | the first column of that name, or -1 |
| Tables.Table.PrimaryKeyIndex | src/storage/table.cpp:52-59 | the first column declared primary, or -1 |
| Tables.Table.RemoveRow | src/storage/table.cpp:65-72 | the shifting loop removes that one row and keeps the order of the others; a number past the end removes nothing |
| Tables.Table.SaveToFile | src/storage/table.cpp:83-118 | writes exactly the file text of the table, for which the round trip is proved |
| Tables.Table.SaveRow | src/storage/table.cpp:105-115 | the loop writes the cells with one bar between each two |
| Tables.Table.LoadFromFile | src/storage/table.cpp:123-188 | reads any file as the reading function says, failures and what the table then still holds included |
| Tables.Table.LoadColumns | src/storage/table.cpp:133-151 | reads as many column lines as announced, stopping at the first bad one with the columns so far |
| Tables.Table.LoadColumn | src/storage/table.cpp:136-150 | three calls of strtok succeed exactly when the line has three tokens, and give the column |
| Tables.Table.LoadRow | src/storage/table.cpp:161-183 | takes as many cells as there are tokens, but no more than columns |
| Tables.Table.LoadRows | src/storage/table.cpp:157-184 | reads as many row lines as announced, stopping at the end of the file |
| PrimaryIndex.Index.FindPos | src/storage/index.cpp:6-22 | gives the slot of the key or ~at for the only slot it could go to, within floor(log2 n) + 1 probes |
| PrimaryIndex.Midpoint | src/storage/index.cpp:13-14 | the midpoint never leaves the interval and halves it, and no step of its computation exceeds the upper end |
| PrimaryIndex.Index.Insert | src/storage/index.cpp:24-44 | keeps the array strictly ascending and acts as a map update |
| PrimaryIndex.Index.ShiftRight | src/storage/index.cpp:38-41 | the in-place loop opens a slot and moves the entries behind it up by one |
| PrimaryIndex.Index.Find | src/storage/index.cpp:46-51 | acts as a map lookup |
| PrimaryIndex.Index.Remove | src/storage/index.cpp:53-63 | keeps the array ascending and acts as a map removal, telling whether the key was there |
| PrimaryIndex.Index.ShiftLeft | src/storage/index.cpp:57-61 | the in-place loop closes the slot |
| PrimaryIndex.HalvingsIsLogarithm | src/storage/index.cpp:9-20 | the probe bound of the search is floor(log2 n) + 1, and 0 for an empty index |
| Vectors.Vector.Reserve | src/core/vector.hpp:101-112 | keeps the contents and moves each element once, only when capacity grows |
| Vectors.Vector.PushBack | src/core/vector.hpp:71-77 | appends; grows to 8, then doubles, only when full |
| Vectors.Vector.PopBack | src/core/vector.hpp:87-92 | drops the last element, if any, and keeps the capacity |
| Vectors.Vector.Clear | src/core/vector.hpp:94-99 | empties the vector and keeps its capacity |
| Vectors.AmortisedGrowth | src/core/vector.hpp:71-112 | from an empty vector any pushes, pops and clears keep size <= capacity and move fewer than 2 elements per push |
| Values.CompareIsTotalOrder | src/storage/row.cpp:7-28 | comparing is a total order, zero only on equal values, and it is this one: NONE before all, integers by size, then strings as in a dictionary |
| Values.StrCmpIsDictionaryOrder | src/storage/row.cpp:7-28 | the sign of strcmp is the dictionary order defined by the first difference |
| StatementLaws.SelectAndDeleteConserveRows | src/execution/executor.cpp:303-383 | rows SELECT * shows plus rows DELETE leaves are the table as a multiset, the count is the number shown, and nothing is left to select |
| StatementLaws.WhereMeans | src/execution/executor.cpp:217-245 | which cells pass <, = and > against an integer or a string literal; no other operator picks a row, no condition picks all |
| StatementLaws.WhereTrichotomy | src/execution/executor.cpp:230-245 | <, = and > on any column and literal split the rows into those whose cell comes before the value, holds it and comes after it |
| StatementLaws.WhereEqualsPicks | src/execution/executor.cpp:230-245 | = picks exactly the rows whose cell is the literal's value |
| StatementLaws.UpdateIsIdempotent | src/execution/executor.cpp:496-524 | the same UPDATE twice leaves table and index as once, even when it sets the WHERE column |
| StatementLaws.UpdateFrame | src/execution/executor.cpp:507-524 | rows keep number and order; exactly the cells of the set column in picked rows change |
| StatementLaws.StepIsSound | src/execution/executor.cpp:37-61 | every statement keeps names distinct and rows as wide as their schema |
| StatementLaws.StepOrigin | src/execution/executor.cpp:37-61 | every table after a statement is an old one, the one the statement works on, or a new empty one |
| StatementLaws.RunIsSound | src/execution/executor.cpp:37-61 | the same over every run |
| StatementLaws.RunReplies | src/execution/executor.cpp:37-61 | a run answers each statement with the reply of its own step from the state the earlier ones leave |
| StatementLaws.FailureChangesNothing | src/execution/executor.cpp:389-441 | a statement that fails leaves tables and indexes as they were |
| StatementLaws.OtherTablesUntouched | src/execution/executor.cpp:37-61 | all tables a statement does not name keep contents and order |
| Meaning.StepMeans | src/execution/executor.cpp:250-529 | every statement on a table gives the relation and the reply described by column names and rows alone, errors included; the index only says which keys INSERT refuses |
| Meaning.SelectOneColumn | src/execution/executor.cpp:294-318 | SELECT of a column shows under that column the cell of each row SELECT * shows, in order |
| Meaning.ListMeans | src/execution/executor.cpp:37-61 | CREATE TABLE appends an empty table unless the name is taken, DROP TABLE takes the one of that name out, every other statement replaces it by what its step makes of it; an unknown name is refused; with the reply of each |
| IndexMeaning.IndexMeans | src/execution/executor.cpp:362-524 | what each statement does to the index, key by key: DELETE removes the keys of the rows it deletes, INSERT files the new row under its key or 0, UPDATE of the key column files the last row it changes, and no other entry changes |
| Meaning.SchemaIs | src/execution/executor.cpp:161-167 | the schema of a new table keeps names, order and primary flags, and a column is of integers exactly when its type is spelled int |
| Meaning.CreatedColumns | src/execution/executor.cpp:155-181 | a created table comes last with one column for each definition, of integers if and only if the type is spelled int |
| ScanVerdicts.NoPhantomIff | src/execution/executor.cpp:362-524 | any statement leaves every key in the index with a row, except exactly an INSERT of another key into a table without key 0 and an UPDATE that takes a filed key from its last row |
| ScanVerdicts.NoPhantomOverRuns | src/execution/executor.cpp:362-524 | the same, in both directions, all along every run |
| ScanVerdicts.ScanExactIff | src/execution/executor.cpp:362-524 | a statement keeps the index to exactly the scanned keys if and only if it splits no rows sharing a key and leaves no key without a row |
| ScanVerdicts.VerdictIff | src/execution/executor.cpp:427-441 | INSERT decides about every integer key as a scan would if and only if the index holds exactly the scanned keys |
| ScanVerdicts.DuplicateIffScanFinds | src/execution/executor.cpp:362-524 | all along a run INSERT would report a duplicate exactly when a scan finds the key, if and only if every step meets the condition |
| ScanVerdicts.ReplyAfterRun | src/execution/executor.cpp:427-453 | after such a run from the empty database the reply to an INSERT is the one a scan calls for |
| ScanVerdicts.HarmlessRunKeepsScan | src/execution/executor.cpp:362-524 | harmless runs are among these runs |
| KeyAgreement.AgreementIff | src/execution/executor.cpp:443-524 | a statement keeps index and scan in agreement if and only if it is harmless |
| KeyAgreement.AllAgreeIff | src/execution/executor.cpp:37-61 | the same for all tables of the database together |
| KeyAgreement.AgreementOverRuns | src/execution/executor.cpp:362-524 | each index holds exactly its table's keys, all integers and distinct, all along a run if and only if the run is harmless |
| RunLaws.RunLaw | src/execution/executor.cpp:45-57 | a property that each statement keeps under an exact condition holds all along a run if and only if every step meets the condition |
| RunLaws.ThroughoutMeans | src/execution/executor.cpp:45-57 | all along a run means after every beginning of it |
| Staleness.SurvivorLag | src/storage/table.cpp:65-72 | a row that survives a DELETE adds the deleted rows in front of it to its lag |
| Staleness.StepAccounts | src/execution/executor.cpp:362-524 | a statement keeps the account, filed number = place + lag, if and only if it meets the condition, with any keys and any state that the account fits |
| Staleness.StalenessOverRuns | src/execution/executor.cpp:362-524 | the account is right all along a run if and only if every step meets the condition |
| Staleness.HarmlessRunKeepsAccount | src/execution/executor.cpp:362-524 | every step of a harmless run meets the condition |
| Staleness.NeverBelow | src/execution/executor.cpp:443-450 | after every run from the empty database that keeps the account the filed number is not below the row's true place |
| Staleness.ExactWithoutPartialDelete | src/execution/executor.cpp:362-379 | after every such run without a WHERE-delete the filed number equals the row's true place |
| FiledPlaces.NeverLowIff | src/execution/executor.cpp:362-524 | any statement keeps every filed number at or above the row, except exactly a DELETE that splits rows sharing a key and an UPDATE that files a key in front of a row holding it |
| FiledPlaces.NeverLowOverRuns | src/execution/executor.cpp:362-524 | the same, in both directions, all along every run |
| FiledPlaces.ExactIff | src/execution/executor.cpp:362-524 | any statement keeps every filed number exact, except exactly a DELETE that leaves a key behind a deleted row, an UPDATE that gives two rows one key and an INSERT of another key beside the key 0 |
| FiledPlaces.ExactOverRuns | src/execution/executor.cpp:362-524 | the same, in both directions, all along every run |
| IdealMachine.StepRefines | src/execution/executor.cpp:37-61 | one statement on tables whose indexes hold exactly the scanned keys gives the reply and the relations of the index-free machine, whose statements are those of Meaning |
| IdealMachine.IndexIsInvisible | src/execution/executor.cpp:37-61 | over every run that keeps the indexes to the scanned keys all replies and all relations are those of the index-free machine |
| IdealMachine.InvisibleIff | src/execution/executor.cpp:250-529 | no statement tells a table from its relation if and only if the index holds exactly the scanned keys |
| IdealMachine.InvisibleOverRuns | src/execution/executor.cpp:250-529 | the same all along a run, if and only if every step meets the condition |
| KeySafety.CoverageIff | src/execution/executor.cpp:362-524 | every integer key stays in the index unless, and only unless, a DELETE splits rows sharing a key |
| KeySafety.CoverageOverRuns | src/execution/executor.cpp:362-524 | all along a run every integer key is in the index if and only if no DELETE of the run splits rows sharing a key |
| KeySafety.SafeWithoutDelete | src/execution/executor.cpp:427-521 | after every delete-free run from the empty database INSERT refuses each integer key a row holds and changes nothing |
| KeySafety.DistinctIff | src/execution/executor.cpp:507-524 | distinct and covered keys stay distinct unless, and only unless, the statement is an UPDATE that gives two rows one key; they always stay covered |
| KeySafety.DistinctOverRuns | src/execution/executor.cpp:362-524 | all along a run keys are distinct and covered if and only if no UPDATE of the run gives two rows one key, DELETEs and other keys included |
| KeySafety.SafeWhileDistinct | src/execution/executor.cpp:427-521 | after every such run from the empty database INSERT refuses each integer key a row holds and changes nothing |
| Counterexamples.OldKeyRefused | src/execution/executor.cpp:515-521 | a script from the empty database after which an updated key is still refused though no row holds it |
| Counterexamples.PhantomZero | src/execution/executor.cpp:416-450 | a script after which a key that is not an integer blocks the key 0 |
| Counterexamples.FiledTooLow | src/execution/executor.cpp:507-521 | a script after which a row is filed below its place |
| Counterexamples.StringLost | src/storage/table.cpp:171-175 | a script after which a table does not come back from its file |
| Counterexamples.DuplicateAccepted | src/execution/executor.cpp:362-379 | a script in which INSERT accepts a key a row holds |
| Lexing.Lexer.Tokenize | src/parser/lexer.cpp:11-45 | for every text the tokens and the error flag are those of the specification, which LexerIsExact characterises |
| Lexing.Lexer.SkipWhitespace | src/parser/lexer.cpp:47-61 | moves past the longest run of white space and keeps line and column |
| Lexing.Lexer.ScanToken | src/parser/lexer.cpp:63-176 | takes one token or reports an error, moving the cursor and the column by what was taken |
| Lexing.Lexer.ScanIdentifierOrKeyword | src/parser/lexer.cpp:178-202 | takes the longest word and decides keyword or identifier |
| Lexing.Lexer.ScanNumber | src/parser/lexer.cpp:204-221 | takes the longest run of digits with its accumulated value |
| Lexing.Lexer.ScanString | src/parser/lexer.cpp:223-255 | takes the text up to the next quote, newlines included, or fails at the end |
| Lexing.Lexer.MatchKeyword | src/parser/lexer.cpp:257-293 | finds the keyword that equals the word up to casing |
| LexerLaws.LexerIsExact | src/parser/lexer.cpp:11-255 | a text lexes to given tokens if and only if it is a layout of them: lossless, maximal munch, exact places, one END_OF_FILE last |
| LexerLaws.LexerErrors | src/parser/lexer.cpp:29-255 | a text is refused if and only if good tokens lead up to a character of no token or a quote never closed, and the tokens are then those, INVALID and END_OF_FILE |
| LexerLaws.TokenPositions | src/parser/lexer.cpp:29-60 | line = 1 + newlines before the token outside string literals, column = 1 + distance from the last of them |
| LexerLaws.LiteralValuesAgree | src/parser/lexer.cpp:204-221 | the value the lexer accumulates is what atoi later reads from the lexeme |
| Numbers.AccumulatedBound | src/parser/lexer.cpp:208-214 | the accumulating loop never holds more than the final value |
| Numbers.AtoiOfText | src/storage/table.cpp:109-110 | atoi reads back what %d wrote, negative numbers included |
| Numbers.AtoiMeans | src/storage/table.cpp:145-172 | atoi in full: white space, one sign or none, digits, anything else; 0 without digits |
| SqlText.KeywordInAnyCasing | src/parser/lexer.cpp:257-293 | a word is a keyword of the table if and only if it is that keyword in some casing |
| SqlText.KeywordsAre | src/parser/lexer.cpp:274-290 | which of the seventeen words, in any casing, is which keyword |
| SqlText.OtherWordsAreNames | src/parser/lexer.cpp:292 | every other word is an identifier |
| SqlText.SameWordMeans | src/parser/lexer.cpp:260-272 | casing: letter by letter the same, or the capital of a small letter |
| Samples.Characters | src/parser/lexer.cpp:47-160 | the white space, letters, digits and marks of SQL text, and the delimiters of table files |
| Parsing.Parser.Parse | src/parser/parser.cpp:14-18 | on every token list that ends in END_OF_FILE the result is that of the specification, and no read goes past the end |
| Parsing.Parser.ParseText | src/parser/parser.cpp:20-29 | lexer and parser together; a lexical error gives no statement |
| Parsing.Parser.Advance | src/parser/parser.cpp:39-41 | takes one token, never past the END_OF_FILE |
| Parsing.Parser.ParseStatement | src/parser/parser.cpp:80-104 | dispatches on the first token |
| Parsing.Parser.ParseCreate | src/parser/parser.cpp:110-191 | CREATE DATABASE and CREATE TABLE as in the specification |
| Parsing.Parser.ParseCreateTable | src/parser/parser.cpp:134-190 | a nonempty column list with at most one primary column |
| ParserLaws.CountsPrimaries | src/parser/parser.cpp:174-181 | the count is above one exactly when two columns are primary |
| ParserLaws.TwoPrimariesRefused | src/parser/parser.cpp:174-181 | a column list with two primary columns gives no statement |
| SqlText.TwoPrimaries | src/parser/parser.cpp:174-181 | nor does any text of it |
| SqlText.ParsedHasOnePrimary | src/parser/parser.cpp:134-190 | a CREATE TABLE parsed from any text has columns, and no two of them primary |
| Parsing.Parser.ParseColumnDefs | src/parser/parser.cpp:156-172 | the list loop takes tokens in every round and ends at the closing parenthesis |
| Parsing.Parser.ParseColumnDef | src/parser/parser.cpp:471-496 | name, type as spelled, optional PRIMARY |
| Parsing.Parser.ParseDrop | src/parser/parser.cpp:193-230 | DROP DATABASE and DROP TABLE as in the specification |
| Parsing.Parser.ParseUse | src/parser/parser.cpp:236-250 | USE as in the specification |
| Parsing.Parser.ParseSelect | src/parser/parser.cpp:256-303 | SELECT as in the specification |
| Parsing.Parser.ParseDelete | src/parser/parser.cpp:309-344 | DELETE as in the specification |
| Parsing.Parser.ParseInsert | src/parser/parser.cpp:350-406 | INSERT as in the specification |
| Parsing.Parser.ParseValues | src/parser/parser.cpp:386-401 | the list loop takes tokens in every round and ends at the closing parenthesis |
| Parsing.Parser.ParseUpdate | src/parser/parser.cpp:412-465 | UPDATE as in the specification |
| Parsing.Parser.ParseComparison | src/parser/parser.cpp:502-527 | column, operator and a literal that may be missing |
| Parsing.Parser.ParseValue | src/parser/parser.cpp:533-552 | a literal with its kind, or the empty string without taking a token |
| ParserLaws.ParserIsSound | src/parser/parser.cpp:80-552 | what a successful parse takes is a sentence of exactly the statement returned, and that sentence is over |
| ParserLaws.ParserIsComplete | src/parser/parser.cpp:80-552 | every sentence that is over is parsed to its statement, and later tokens are ignored |
| ParserLaws.ParserIsExact | src/parser/parser.cpp:80-552 | on every token list: parsed to a statement and a rest if and only if the list starts with a sentence of it that is over there |
| ParserLaws.GrammarIsUnambiguous | README.md:85-112 | no token list starts with two different sentences that are over, of two statements or of one with two ends |
| SqlText.TextIsExact | src/parser/parser.cpp:20-29 | a text is parsed to a statement if and only if it is a layout of tokens that start with an ended sentence of it; texts with lexical errors are invalid |
| SqlText.SqlRoundTrip | README.md:85-112 | a well-formed statement in any keyword casing and white space, with or without semicolon, is lexed and parsed back to itself |
| Printing.PrintThenParse | README.md:85-112 | the text of any writable statement in the documented words is parsed back to it, the type as spelled |
| Samples.DatabaseTexts | README.md:91-93 | CREATE DATABASE, DROP DATABASE and USE, written out |
| Samples.TableTexts | README.md:94-95 | CREATE TABLE and DROP TABLE, written out |
| Samples.QueryTexts | README.md:101 | SELECT with and without a condition, written out |
| Samples.InsertText | README.md:102 | INSERT, written out |
| Samples.UpdateText | README.md:103 | UPDATE, written out |
| Samples.DeleteText | README.md:104 | DELETE, written out |
| TableFormat.ThreeTokens | src/storage/table.cpp:136-139 | three strtok calls in a row give the first three tokens, and all succeed exactly when there are three |
| FileLines.LoadMeans | src/storage/table.cpp:123-188 | loading succeeds if and only if the file has all the lines it announces and each column line has three parts; what is loaded, on failure too, line by line and cell by cell |
| Samples.PersonFile | README.md:165-171 | the file of the documented table with its first row, written out |
| Samples.LongestLine | src/storage/table.cpp:127 | the line buffer takes 8190 characters with their newline, and of 8191 all but the newline |
| TableRoundTrip.FgetsOf | src/storage/table.cpp:127-135 | what fgets makes of a line by its length, a line longer than the buffer included |
| TableRoundTrip.ColumnsIff | src/storage/table.cpp:134-151 | columns come back if and only if they are kept, and what is then left of the file |
| TableRoundTrip.RowsIff | src/storage/table.cpp:157-184 | rows come back if and only if they are kept |
| TableRoundTrip.SaveLoadRoundTrip | src/storage/table.cpp:83-188 | loading a saved table restores columns and rows, whatever the loading object held, if and only if the table is reloadable |
| SavableRuns.ReloadableIff | src/execution/executor.cpp:362-524 | a statement keeps a table reloadable if and only if its literals have their columns' types, no empty string and no bar or line end, and the lines they make fit; DELETE always does |
| SavableRuns.SavableOverRuns | src/storage/table.cpp:83-188 | all along a run all tables whose schema survives are reloadable, if and only if every step meets the condition |
| SavableRuns.SavedAfterRun | src/storage/table.cpp:83-188 | after such a run from the empty database each of them comes back from its file |
| SavableRuns.WordsAreKept | src/storage/table.cpp:89-95 | column names that are words and leave room in the line survive |

## Left out

- The directories behind CREATE DATABASE, DROP DATABASE and USE: what `mkdir` or `rmdir` answers is a parameter of `Session.Execute`.
- Sessions.Session.Execute: excludes dropping the database of the empty name while none is in use, which dereferences null in the original; no SQL text says it (`SqlText.ParsedNamesNotEmpty`).
- The registry of databases, `save_all`, `load_all` and the path names: file system plumbing. `load_from_file` has no caller outside the repository's tests, so no run reads a table back.
- File system effects: `fopen` failures, the removal of files in `drop_table`, partly written files. A file is a sequence of characters.
- Sockets, the command line, JSON replies and the C interface to the parser: input and output plumbing.
- Texts of messages: a reply says success, the result set, the count or the kind of failure. A statement that does not parse is `Invalid` without its message.
- Integer width: integers are unbounded. An integer literal, an `atoi` result or a row count outside the C++ `int` range is undefined behaviour in the original and gives its mathematical value here. `Numbers.AccumulatedBound` shows that a literal that fits is read without overflow.
- NUL characters: strings are sequences of characters without terminator; a NUL inside one, which ends a C string early, is not modelled.
- Raw memory: placement new, destructors, moves and the value union. Containers of the original are sequences held in fields; the vector itself is modelled once, over an array of values.
- `Table::update_row`, row getters and other accessors: they would only add easy members.
- Loops of one C++ function that are methods of their own here (the row loops of the executor, the shifts of index and database, the list loops of the parser): same order and branches, one contract for each loop. The 17 comparisons of `match_keyword` are a loop over a table of keywords.
- StrCmp: only the sign of `strcmp` is meant; the model returns -1, 0 or 1.
- FailureChangesNothing: follows from the definitions of the steps and is stated for the reader; the work is in `Execution.Executor.Execute`.
- SaveLoadRoundTrip: counts of columns and rows are bounded by the largest `int`, as the loops of the original are.
