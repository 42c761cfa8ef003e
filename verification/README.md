# Verified models of six tools and services of the mail server

This project models, in Dafny 4.11, the parts of the repository whose behaviour is hard to see from reading one body,
and proves properties of them for every input or every run. `dafny verify dfyconfig.toml` checks all of it.

- **Database Unicode converter.** A table-creation script is compiled to a migration script. `UnicodeConversion.dfy`
  follows the original class; `OutputFile.dfy` reads the written file back; `CreateScript.dfy` has the syntax of
  scripts, their printed layout and the commands they should give; `StatementEffect.dfy` reads the statements that are
  passed through; `Database.dfy` is a small database engine; `LiveObjects.dfy`, `DataKept.dfy` and `Interrupted.dfy`
  prove what the migration of any text keeps; `Migration.dfy` and `ConvertedScript.dfy` give the exact outcome for
  creation scripts and run the written file.
- **Translation importer.** `TranslationImport.dfy` follows the original; `TranslationBatch.dfy` reads the batch with a
  SQL lexer and executes it; `Decimal.dfy` has 32-bit decimal parsing.
- **Upgrade script generator.** `ScriptGeneration.dfy`.
- **Administration menu.** `TreeMenu.dfy`.
- **Mercury ini reader.** `MercuryIni.dfy`.
- **Scripting interface for accounts.** `ComAccounts.dfy` has the objects, `ComServer.dfy` the runs.

`Text.dfy` and `Wrappers.dfy` hold the string operations and the optional value that all of them use. `None` as a
result stands for an exception of the original. The line separator is a carriage return and a line feed.

## What was found

- The converter drops every index of a table and replays only `create index` and `create clustered index` statements.
  A `create nonclustered index`, of which the repository's own creation script has two
  (`hmailserver/source/DBScripts/CreateTablesMSSQL.sql:297` and `:669`), is lost; `NonclusteredIndexIsLost` gives a text
  and a database. `ObjectsRestored` gives the exact condition under which a table gets all its indexes and constraints
  back.
- A migration is refused exactly when a converted column or a named table is missing, a value does not fit the new
  type, or some column is already named like a text column followed by `_tmp` (`MigrationResult`).
- For every text the converter accepts, well formed or not, and whatever the statements do that it passes through, the
  table of a command that changes a column has no live index or constraint when that command is reached
  (`NoLiveObjects`).
- The converter's file cannot be read back if the script hands `---` on to a command, because the converter deletes it,
  or if the last paragraph is passed through with its line end; otherwise it always can (`FileReadsBack`; the two kinds
  are `DashesAreLost` and `FinalLineEndIsLost`).
- The converter passes every `alter table` through, and some lose data: the one in
  `hmailserver/source/DBScripts/Upgrade0to1100MSSQL.sql:7` drops a column, like every text of `ColumnIsLost`. For every
  text whose passed-through statements are read, `ColumnsAfter` gives the outcome of a successful migration column by
  column, and `DataIsKept` the exact condition under which nothing is lost: where no column is both added and dropped,
  if and only if no passed-through statement drops one.
- A column that no passed-through statement drops is never lost, wherever the migration stops: its values stand under
  its own name or its name followed by `_tmp` (`InterruptedKeepsData`).
- The ini reader returns the settings of a later section when the named one has none (`ReadsOwnSettings`, with the text
  of `EmptySectionReadsNext`), keeps the space before a comment as part of the value, and returns the comment when the
  value is empty (`ValueComesBack`).
- Levels outside the three of the enumeration are set without a permission check, even by a session with no account
  (`AccountItem.PutAdminLevel`). The runs in `ComServer.dfy` include such steps, and the proved statements hold all the
  same. The comment in the original says that permission is checked.
- A level that was set but not saved is saved by anyone who holds the object, unless it is the server administrator's:
  only that level is checked when saving. So a row can come to the domain administrator's level while nobody is logged
  on (`SavedByNobody`). It cannot if every object at that level is saved at it (`NoRowIsPromoted`); if one that a
  wrapper holds is new, or its row is at another level, a save does it (`Server.SaveUnprivileged`). Apart from that, no object and no row comes to that level in a run without
  administrators (`Restricted` in `ComServer.Server.Run`).
- The MySQL commands that the converter collects are never written.

## Model

| member | source | states |
|---|---|---|
| UnicodeConversion.Parser.Run | hmailserver/tools/DatabaseUnicodeConversion/Parser.cs:17-49 | the loops leave the commands of every paragraph, in order, and write their text; an exception writes nothing |
| UnicodeConversion.Parser.ExtractAll | hmailserver/tools/DatabaseUnicodeConversion/Parser.cs:31-34 | the loop over the paragraphs collects the commands of each, in order, or stops at the first that throws |
| UnicodeConversion.Parser.OutputText | hmailserver/tools/DatabaseUnicodeConversion/Parser.cs:39-44 | the loop writes every command followed by a blank line |
| UnicodeConversion.Parser.ExtractCommand | hmailserver/tools/DatabaseUnicodeConversion/Parser.cs:51-69 | which paragraphs are compiled, passed through or ignored, with both lists afterwards |
| UnicodeConversion.Parser.ParseCreateTableCommand | hmailserver/tools/DatabaseUnicodeConversion/Parser.cs:71-137 | the loop appends the commands of all lines under the one table name, or throws before appending anything |
| UnicodeConversion.Parser.ParseLine | hmailserver/tools/DatabaseUnicodeConversion/Parser.cs:78-136 | what one line appends, with the table name carried over from the line before |
| UnicodeConversion.Parser.StartTable | hmailserver/tools/DatabaseUnicodeConversion/Parser.cs:94-99 | a header line appends one command to each list |
| UnicodeConversion.Parser.ReadTableName | hmailserver/tools/DatabaseUnicodeConversion/Parser.cs:84-92 | the name, or the exception of Substring |
| UnicodeConversion.Parser.ConvertColumn | hmailserver/tools/DatabaseUnicodeConversion/Parser.cs:113-134 | the texts appended for a column are those of its commands |
| UnicodeConversion.HeaderComesFirst | hmailserver/tools/DatabaseUnicodeConversion/Parser.cs:73-82 | the first line of a table command is its header, so no column is compiled with an empty table name |
| UnicodeConversion.TableDropsFirst | hmailserver/tools/DatabaseUnicodeConversion/Parser.cs:94-99 | a table definition first drops the table's objects; every later command is about that table and none is passed through |
| OutputFile.TableNameExists | hmailserver/tools/DatabaseUnicodeConversion/Parser.cs:84-92 | reading the name stays in bounds exactly when the header has a blank and a line end after the place where the name starts |
| OutputFile.ShowJoinsWords | hmailserver/tools/DatabaseUnicodeConversion/Parser.cs:97-132 | every generated command is its words separated by single blanks |
| OutputFile.PiecesUnbroken | hmailserver/tools/DatabaseUnicodeConversion/Parser.cs:31-34 | no generated command holds a blank line or ends in a line end, whatever the script |
| OutputFile.RenderReadsBack | hmailserver/tools/DatabaseUnicodeConversion/Parser.cs:28-44 | splitting the rendered commands at blank lines gives them back exactly when no line end was kept at the end |
| OutputFile.FileReadsBack | hmailserver/tools/DatabaseUnicodeConversion/Parser.cs:28-48 | the exact condition on the script under which the written file, after the deletion of `---`, gives back the emitted commands |
| OutputFile.DashesAreLost | hmailserver/tools/DatabaseUnicodeConversion/Parser.cs:46 | a text whose written file does not hold the command that was emitted |
| OutputFile.FinalLineEndIsLost | hmailserver/tools/DatabaseUnicodeConversion/Parser.cs:29-44 | a text whose last command is not read back because its line end was kept |
| OutputFile.PassedThroughInOrder | hmailserver/tools/DatabaseUnicodeConversion/Parser.cs:51-69 | the commands passed through are exactly the lower-cased paragraphs of the three kinds, in their order, a subsequence of all paragraphs |
| OutputFile.ParagraphsAreContents | hmailserver/tools/DatabaseUnicodeConversion/Parser.cs:26-29 | for every text: the paragraphs joined by blank lines are the text with each capital replaced by its small letter, and none holds a capital or a blank line |
| OutputFile.PassedThroughIsLower | hmailserver/tools/DatabaseUnicodeConversion/Parser.cs:62-67 | no command that is passed through holds a capital letter, and each is a paragraph |
| OutputFile.CharsetsFollowDrops | hmailserver/tools/DatabaseUnicodeConversion/Parser.cs:94-99 | the MySQL commands collected are one for each table definition that is converted, in order |
| OutputFile.ScriptThrows | hmailserver/tools/DatabaseUnicodeConversion/Parser.cs:84-92 | a text is refused exactly when some paragraph is a table definition without a readable name |
| LiveObjects.DropComesFirst | hmailserver/tools/DatabaseUnicodeConversion/Parser.cs:97-131 | for every text: before a command that changes a column its table's objects are dropped and nothing is passed through in between |
| LiveObjects.NoLiveObjects | hmailserver/tools/DatabaseUnicodeConversion/Parser.cs:97-131 | for every text and database, whatever the passed-through statements do: when a command that changes a column is reached, its table has no live index or constraint |
| DataKept.ColumnsAfter | hmailserver/tools/DatabaseUnicodeConversion/Parser.cs:31-34 | for every text whose passed-through statements are read, and every database: after a successful migration each column has its old values, or is the one a paragraph added, or is gone, as the last paragraph about it says |
| DataKept.DataIsKept | hmailserver/tools/DatabaseUnicodeConversion/Parser.cs:62-67 | the exact condition under which nothing is lost; where no column is both added and dropped, exactly when no passed-through statement drops one, and the columns are the same exactly when none adds one either |
| DataKept.ColumnIsAdded | hmailserver/tools/DatabaseUnicodeConversion/Parser.cs:62-67 | every text that is one statement adding a column is passed through, and running it adds the column |
| DataKept.ColumnIsLost | hmailserver/tools/DatabaseUnicodeConversion/Parser.cs:62-67 | every text that is one statement dropping a column is passed through, and running it loses the column with its values |
| Interrupted.InterruptedKeepsData | hmailserver/tools/DatabaseUnicodeConversion/Parser.cs:120-133 | after any number of executed commands the values of a column that none drops stand under its name or its temporary name |
| Interrupted.InterruptedScriptKeepsData | hmailserver/tools/DatabaseUnicodeConversion/Parser.cs:31-34 | wherever the migration of a creation script in the layout is refused, no table, row or value is lost |
| Text.SplitInvertsJoin | hmailserver/tools/DatabaseUnicodeConversion/Parser.cs:29 | joined pieces are split back exactly when they are separable |
| Text.JoinInvertsSplit | hmailserver/tools/DatabaseUnicodeConversion/Parser.cs:73 | a split always joins back to its text and is separable |
| Text.DeleteIsIdentity | hmailserver/tools/DatabaseUnicodeConversion/Parser.cs:46 | deleting a text changes nothing exactly when it does not occur |
| Text.LowerIsCasing | hmailserver/tools/DatabaseUnicodeConversion/Parser.cs:26 | lower-casing gives a text exactly when that text has no capital and equals the original but for capitals in place of their small letters |
| Text.TrimCuts | hmailserver/tools/SQLScriptCreator/ScriptGenerator.cs:93 | trimming cuts off white space at both ends, all of it and nothing else |
| CreateScript.PrintedTableName | hmailserver/tools/DatabaseUnicodeConversion/Parser.cs:84-92 | for a printed table the name read is the table's name |
| CreateScript.LineIsCompiled | hmailserver/tools/DatabaseUnicodeConversion/Parser.cs:80-134 | a printed column line gives the commands of its column, whatever its indentation and tail; a line with no inner blank gives none |
| CreateScript.StatementIsCompiled | hmailserver/tools/DatabaseUnicodeConversion/Parser.cs:51-137 | a printed statement is converted to exactly its intended commands |
| CreateScript.ConvertsPrintedScript | hmailserver/tools/DatabaseUnicodeConversion/Parser.cs:26-34 | for every text that equals a script in the layout but for capitals in place of small letters, the parser emits exactly the compiled commands |
| Migration.TextColumnMigrates | hmailserver/tools/DatabaseUnicodeConversion/Parser.cs:120-133 | the four commands keep the values of the column and change only its type, and are refused exactly when the temporary name is taken, the column is missing, a value does not fit or a live index or constraint is about the column |
| Migration.LinesMigrate | hmailserver/tools/DatabaseUnicodeConversion/Parser.cs:104-135 | all columns of a table together: success exactly when every line is ready, and then the last conversion of each column wins |
| Migration.PrintedEffect | hmailserver/tools/DatabaseUnicodeConversion/Parser.cs:62-67 | a statement of the layout that is passed through creates an index or adds a key of the table it names and does nothing else |
| Migration.MigrationResult | hmailserver/tools/DatabaseUnicodeConversion/Parser.cs:31-34 | for every script and database: refused exactly when the script is not ready, otherwise the migrated database |
| ConvertedScript.ReadCommandInvertsShow | hmailserver/tools/DatabaseUnicodeConversion/Parser.cs:97-132 | every emitted text is recognised as the command it stands for |
| ConvertedScript.FileRunsCommands | hmailserver/tools/DatabaseUnicodeConversion/Parser.cs:28-48 | for every text whose file can be read back and whose names hold no blank and no dot, running the file executes the emitted commands |
| ConvertedScript.FileHoldsCommands | hmailserver/tools/DatabaseUnicodeConversion/Parser.cs:28-48 | the paragraphs of the written file are the compiled commands, all of them readable |
| ConvertedScript.ConvertedScriptMigrates | hmailserver/tools/DatabaseUnicodeConversion/Parser.cs:17-137 | from script text to database: running the written file gives exactly the migrated database or is refused |
| ConvertedScript.MigrationKeepsData | hmailserver/tools/DatabaseUnicodeConversion/Parser.cs:120-133 | a migration that succeeds keeps every table, row, column and value, and leaves unnamed tables as they were |
| ConvertedScript.ColumnsGetScriptType | hmailserver/tools/DatabaseUnicodeConversion/Parser.cs:113-134 | in the database after the run, a column has the type of the last line that converts it |
| ConvertedScript.OtherColumnsKeepType | hmailserver/tools/DatabaseUnicodeConversion/Parser.cs:106-134 | in the database after the run, a column that no line converts has the type it had |
| ConvertedScript.ObjectsRestored | hmailserver/tools/DatabaseUnicodeConversion/Parser.cs:62-67 | in the database after the run, a created table has all its indexes and constraints of the script, in order, exactly when each is of a kept kind and comes after the creation |
| ConvertedScript.NonclusteredIndexIsLost | hmailserver/source/DBScripts/CreateTablesMSSQL.sql:283-297 | a text of the repository's own shape and a database: the written file runs and the index is gone |
| TranslationImport.ImportFile | hmailserver/tools/TranslationImporter/Program.cs:38-72 | the loop builds the batch of the accepted lines, or throws for a name without a dot or a line it cannot parse |
| TranslationImport.ImportLine | hmailserver/tools/TranslationImporter/Program.cs:49-69 | one line adds nothing, one update, or throws |
| TranslationBatch.ReplaceDoubles | hmailserver/tools/TranslationImporter/Program.cs:63 | replacing quotes doubles each of them |
| TranslationBatch.LiteralReadsBack | hmailserver/tools/TranslationImporter/Program.cs:63-65 | a doubled value is read back from its literal, whatever characters it holds, where a backslash is an ordinary one |
| TranslationBatch.StatementIsWhole | hmailserver/tools/TranslationImporter/Program.cs:65 | a statement ends outside quotes with no bare semicolon exactly when its language name does |
| TranslationBatch.BatchSplitsIntoStatements | hmailserver/tools/TranslationImporter/Program.cs:65-69 | the batch is read as one statement per accepted line exactly when the language name is whole or no line was accepted |
| TranslationBatch.StatementDecodes | hmailserver/tools/TranslationImporter/Program.cs:58-65 | a statement decodes to its language, value and row number |
| TranslationBatch.FileIsImported | hmailserver/tools/TranslationImporter/Program.cs:44-73 | the batch of any file gives each row the value of its last accepted line and changes nothing else |
| TranslationBatch.FileIsStoredUnderItsName | hmailserver/tools/TranslationImporter/Program.cs:38-73 | end to end from the file name: a file named after a language, with any ending, stores in exactly the rows with an accepted line the value of the last one, as the text of that language, and nothing else |
| TranslationBatch.NothingIsSent | hmailserver/tools/TranslationImporter/Program.cs:38-72 | nothing is sent exactly when the name has no dot or some line throws |
| TranslationBatch.LinesAt | hmailserver/tools/TranslationImporter/Program.cs:44 | every carriage return and every line feed ends a line |
| TranslationBatch.LineIsRead | hmailserver/tools/TranslationImporter/Program.cs:52-61 | what any line gives, by its text before and after the first `=` and by where its first underscore is |
| TranslationBatch.LinesAreRead | hmailserver/tools/TranslationImporter/Program.cs:47-69 | the updates of two parts of a file are those of each in turn |
| TranslationBatch.LineIsSkipped | hmailserver/tools/TranslationImporter/Program.cs:49-54 | a line is passed over exactly when it has no `=` or nothing before it |
| TranslationBatch.PrintedFileIsRead | hmailserver/tools/TranslationImporter/Program.cs:44-61 | a file printed from a list of translations is read as that list |
| TranslationBatch.TranslationsSurvive | hmailserver/tools/TranslationImporter/Program.cs:44-73 | a list of translations survives being written, imported and executed |
| Decimal.ParseInvertsPrint | hmailserver/tools/TranslationImporter/Program.cs:61-65 | a printed number is parsed back exactly when it has 32 bits |
| Decimal.PrintInvertsParse | hmailserver/tools/TranslationImporter/Program.cs:61 | digits without a leading zero are parsed to the number that prints as them |
| Decimal.ParsesNumber | hmailserver/tools/TranslationImporter/Program.cs:61 | digits with at most a sign before them and white space around them are parsed to their value, exactly when it has 32 bits |
| Decimal.OnlyNumbersParse | hmailserver/tools/TranslationImporter/Program.cs:61 | whatever is parsed is digits with at most a sign before them and white space around them |
| ScriptGeneration.ScriptGenerator.Generate | hmailserver/tools/SQLScriptCreator/ScriptGenerator.cs:24-133 | succeeds exactly when every statement is acceptable; then writes each engine's own script and nothing else, otherwise writes nothing; `ScriptGrows`, `AcceptedExactly` and `FilesOfEngines` say what these are |
| ScriptGeneration.ScriptGenerator.BuildScripts | hmailserver/tools/SQLScriptCreator/ScriptGenerator.cs:32-120 | the nested loops fill the dictionary with the per-engine scripts |
| ScriptGeneration.ScriptGenerator.AddStatement | hmailserver/tools/SQLScriptCreator/ScriptGenerator.cs:33-118 | one round extends every engine's script, or throws exactly when the statement is not acceptable |
| ScriptGeneration.ScriptGenerator.GenerateOne | hmailserver/tools/SQLScriptCreator/ScriptGenerator.cs:39-103 | the texts of one engine for one statement, whether any was found, and the exceptions |
| ScriptGeneration.ScriptGenerator.JoinRaw | hmailserver/tools/SQLScriptCreator/ScriptGenerator.cs:88-100 | raw texts are trimmed and terminated; a terminated one throws; an empty one is not found |
| ScriptGeneration.ScriptGenerator.JoinAll | hmailserver/tools/SQLScriptCreator/ScriptGenerator.cs:43-48 | the other texts are terminated as they are |
| ScriptGeneration.ScriptGenerator.WriteScripts | hmailserver/tools/SQLScriptCreator/ScriptGenerator.cs:122-132 | one ASCII file per entry, every other file untouched |
| ScriptGeneration.ScriptsHas | hmailserver/tools/SQLScriptCreator/ScriptGenerator.cs:106-109 | the dictionary has an entry for exactly the listed engines, and it is that engine's fold |
| ScriptGeneration.GenerationIsCompositional | hmailserver/tools/SQLScriptCreator/ScriptGenerator.cs:33-120 | generating for two lists in turn is generating for each, engine by engine |
| ScriptGeneration.ScriptStarts | hmailserver/tools/SQLScriptCreator/ScriptGenerator.cs:30-39 | a script is empty before the first statement |
| ScriptGeneration.ScriptGrows | hmailserver/tools/SQLScriptCreator/ScriptGenerator.cs:39-109 | one more statement adds to a script exactly the texts the engine gives for it, each with the separator after it, those of a raw statement trimmed |
| ScriptGeneration.AcceptedExactly | hmailserver/tools/SQLScriptCreator/ScriptGenerator.cs:88-118 | a statement is accepted exactly when it is of a known kind, no engine throws, no raw text ends in a semicolon once trimmed, and some engine has a text for it |
| ScriptGeneration.FilesOfEngines | hmailserver/tools/SQLScriptCreator/ScriptGenerator.cs:122-132 | after a run each of the four scripts is in the file of its engine, and every other file is as before |
| ScriptGeneration.AsciiKeeps | hmailserver/tools/SQLScriptCreator/ScriptGenerator.cs:131 | a text is written as it is exactly when it is ASCII; any other character becomes a question mark |
| ScriptGeneration.ScriptSplitsIntoPieces | hmailserver/tools/SQLScriptCreator/ScriptGenerator.cs:98-99 | a script split at its separator gives back its texts exactly when each is clean of the separator |
| ScriptGeneration.EnginesAcceptRaw | hmailserver/tools/SQLScriptCreator/Generators/MySQLGenerator.cs:87-103 | the exact condition under which the four engines accept a raw statement |
| ScriptGeneration.RawIsAdded | hmailserver/tools/SQLScriptCreator/Generators/MySQLGenerator.cs:87-103 | an accepted raw statement adds its trimmed text to the scripts of the engines it lists, or of all when it lists none |
| TreeMenu.Page.Build | hmailserver/source/WebAdmin/include_treemenu.php:7-180 | the page emits the described menu for every level, with ids in step and every parent id naming the right node |
| TreeMenu.Page.BuildUser | hmailserver/source/WebAdmin/include_treemenu.php:11-30 | the nodes of an ordinary user |
| TreeMenu.Page.BuildDomain | hmailserver/source/WebAdmin/include_treemenu.php:33-45 | the hard-coded parent 1 is the domains node |
| TreeMenu.Page.BuildServer | hmailserver/source/WebAdmin/include_treemenu.php:47-178 | the nodes of a server administrator, in order |
| TreeMenu.Page.AddDomains | hmailserver/source/WebAdmin/include_treemenu.php:60-65 | the hard-coded parent 2 is the domains node in every round |
| TreeMenu.Page.AddRoutes | hmailserver/source/WebAdmin/include_treemenu.php:94-105 | both ids of a route are taken before its nodes are emitted, and still come out in order |
| TreeMenu.Page.GetStringForDomain | hmailserver/source/WebAdmin/include_treemenu.php:184-264 | the nodes of one domain, only its own node when it is not expanded |
| TreeMenu.Page.AddAccounts | hmailserver/source/WebAdmin/include_treemenu.php:208-227 | one node per account and one more under the selected one |
| TreeMenu.Page.AddLists | hmailserver/source/WebAdmin/include_treemenu.php:251-261 | two nodes per distribution list |
| TreeMenu.MenuIsForest | hmailserver/source/WebAdmin/include_treemenu.php:7-180 | the k-th node has id k, parents come first, only the first and last stand at the top, and parents lead to node 0 |
| TreeMenu.MenuIsOneTree | hmailserver/source/WebAdmin/include_treemenu.php:8-180 | every node between the first and the last is shown below the first |
| TreeMenu.ServerMenuSize | hmailserver/source/WebAdmin/include_treemenu.php:47-180 | the number of nodes, with at most the selected domain expanded |
| TreeMenu.MenuHolds | hmailserver/source/WebAdmin/include_treemenu.php:7-264 | at every level exactly what is to be shown is shown: a domain administrator sees all of his domain whatever is selected, a server administrator the contents of the selected domain |
| TreeMenu.OtherMenuSizes | hmailserver/source/WebAdmin/include_treemenu.php:11-45 | the number of nodes at the other two levels |
| TreeMenu.DomainsInOrder | hmailserver/source/WebAdmin/include_treemenu.php:60-65 | the domains come in their order, each followed by its contents |
| TreeMenu.FoldersInOrder | hmailserver/source/WebAdmin/include_treemenu.php:204-261 | accounts, aliases and lists come in this order, each folder before what is in it |
| TreeMenu.AccountsInOrder | hmailserver/source/WebAdmin/include_treemenu.php:208-227 | the accounts come in their order, the extra node of the selected one right after it |
| TreeMenu.CountDistinct | hmailserver/source/WebAdmin/include_treemenu.php:222-226 | with distinct account ids the selected account gives at most one extra node |
| TreeMenu.MenuShowsOnce | hmailserver/source/WebAdmin/include_treemenu.php:7-180 | with distinct ids no menu of any level shows anything twice |
| TreeMenu.MenuIsDetermined | hmailserver/source/WebAdmin/include_treemenu.php:184-261 | with distinct ids the description of the menu determines every id and parent of the page |
| MercuryIni.GetSettings | hmailserver/source/Migration/Mercury/Globals.cs:30-81 | the single pass with its flag and early exit refines finding the header and then collecting |
| MercuryIni.ReadSetting | hmailserver/source/Migration/Mercury/Globals.cs:63-77 | name and value of a line, with the comment cut |
| MercuryIni.EntryIsRead | hmailserver/source/Migration/Mercury/Globals.cs:63-77 | a printed entry is read as what is kept of it |
| MercuryIni.ReadsPrintedFile | hmailserver/source/Migration/Mercury/Globals.cs:38-80 | for every file in the layout: the settings of the section, or of the next one that has any |
| MercuryIni.ReadsOwnSettings | hmailserver/source/Migration/Mercury/Globals.cs:46-58 | the section's own settings are returned exactly when it has some or no later section has any |
| MercuryIni.EmptySectionReadsNext | hmailserver/source/Migration/Mercury/Globals.cs:46-58 | a text with an empty section for which the next section's setting is returned |
| MercuryIni.ValueComesBack | hmailserver/source/Migration/Mercury/Globals.cs:71-75 | the exact condition under which a printed value is read back unchanged |
| ComAccounts.Session.Authenticate | hmailserver/source/Server/COM/COMAuthentication.cpp:31-74 | whom the session holds after logging on |
| ComAccounts.Store.SaveObject | hmailserver/source/Server/Common/Persistence/PersistentAccount.cpp:227-338 | insert with a new id or update of an existing row, and the failures |
| ComAccounts.Store.DeleteObject | hmailserver/source/Server/Common/Persistence/PersistentAccount.cpp:55-62 | deletes the row, refused without an id |
| ComAccounts.Accounts.GetItemByDBID | hmailserver/source/Server/Common/BO/Collection.h:160-178 | an item with the id, or none exactly when there is none |
| ComAccounts.Accounts.DeleteItemByDBID | hmailserver/source/Server/Common/BO/Collection.h:181-200 | removes one item with the id and its row |
| ComAccounts.Accounts.Refresh | hmailserver/source/Server/Common/BO/Accounts.cpp:34-58 | new objects for the rows of the query, in its order |
| ComAccounts.AccountItem.AddToParentCollection | hmailserver/source/Server/COM/COMCollection.h:22-29 | appends once, never without a parent |
| ComAccounts.AccountItem.PutAdminLevel | hmailserver/source/Server/COM/InterfaceAccount.cpp:740-788 | who may set which level, by the level of the session's account; with no account exactly the levels outside the enumeration, and a level kept; nothing else changes |
| ComAccounts.AccountItem.PutAddress | hmailserver/source/Server/COM/InterfaceAccount.cpp:141-162 | a setter for accounts at the two administrators' levels, which trims |
| ComAccounts.AccountItem.PutActive | hmailserver/source/Server/COM/InterfaceAccount.cpp:74-88 | a setter without a check |
| ComAccounts.AccountItem.Save | hmailserver/source/Server/COM/InterfaceAccount.cpp:294-330 | a save succeeds exactly when it is allowed, the row of a saved object exists, and a server administrator saves an object of that level; what is stored, and whether the collection grows |
| ComAccounts.AccountItem.Delete | hmailserver/source/Server/COM/InterfaceAccount.cpp:1181-1202 | only at the two administrators' levels; at most one item and one row go |
| ComServer.Server.DoAdd | hmailserver/source/Server/COM/InterfaceAccounts.cpp:42-75 | hands out a wrapper for a new object exactly at the two administrators' levels; every invariant is kept |
| ComServer.Server.DoGetItem | hmailserver/source/Server/COM/InterfaceAccounts.cpp:98-125 | hands out a wrapper that shares the object of the collection |
| ComServer.Server.DoDeleteAt | hmailserver/source/Server/COM/InterfaceAccounts.cpp:77-96 | deletes the row but keeps the item, exactly at the two administrators' levels; every invariant is kept |
| ComServer.Server.DoRefresh | hmailserver/source/Server/COM/InterfaceAccounts.cpp:127-141 | the items are new objects for the rows of the query, in its order; ids stay distinct and older wrappers sound |
| ComServer.Server.DoAuthenticate | hmailserver/source/Server/COM/InterfaceApplication.cpp:322-350 | the wrapper handed out holds a copy, so no later step reaches the session's account |
| ComServer.Server.DoPutAdminLevel | hmailserver/source/Server/COM/InterfaceAccount.cpp:740-788 | no escalation to either administrator's level, and the session answers as before |
| ComServer.Server.DoSave | hmailserver/source/Server/COM/InterfaceAccount.cpp:294-330 | the collection grows exactly for a wrapper whose object was not yet saved, once for each wrapper; below the server administrator's level anyone saves what is in the object |
| ComServer.NobodyLogsOn | hmailserver/source/Server/COM/COMAuthentication.cpp:31-74 | without logging on, the session is at the same level at every step |
| ComServer.StepAfterRun | hmailserver/source/Server/COM/InterfaceAccount.cpp:294-330 | one more step makes a run one step longer: growth, insertions, levels and the session together |
| ComServer.Server.Do | hmailserver/source/Server/COM/COMAuthentication.cpp:108-122 | every step keeps all invariants; records and wrappers only grow; items enter by loading or a recorded wrapper; what a step may change is bounded by the level of the session's account, which only logging on decides |
| ComServer.Server.Run | hmailserver/source/Server/COM/InterfaceAccount.cpp:294-330 | the same for every run: the level at every step follows from the steps; if none is taken as server administrator, no object, old or new, and no row comes to that level; if none is taken as any administrator, none comes to the domain administrator's level except by saving an object that was there, no row and without reloading no item goes, no wrapper that adds an object is new, and no address is changed; insertions are unique, and without removals the collection grows by exactly them |
| ComServer.RestrictedOn | hmailserver/source/Server/COM/COMAuthentication.cpp:108-116 | two stretches without an administrator, with no domain administrator logged on in between, make one |
| ComServer.NoRowIsPromoted | hmailserver/source/Server/COM/InterfaceAccount.cpp:294-330 | if every object at the domain administrator's level is saved at that level, no row comes to it in such a run |
| ComServer.Server.SaveUnprivileged | hmailserver/source/Server/COM/InterfaceAccount.cpp:294-330 | if one that a wrapper holds is new or its row is at another level, a log-on that fails and a save bring its row to that level |
| ComServer.SavedByNobody | hmailserver/source/Server/COM/InterfaceAccount.cpp:748-757 | on a new server: an administrator sets the level of an added account, nobody is logged on any more, and a save makes the row a domain administrator's |

## Left out

- The database engine: it is a small one of this project. It has no nullability, defaults or uniqueness checks, does not check that an index or key names columns of its table, and refuses a command about a table that does not exist. Which values a type holds, which columns an index is about and what an added column is filled with are parameters.
- The body of `hm_drop_table_objects` beyond the removal of all indexes and constraints of the table.
- Passed-through statements other than those that `StatementEffect.EffectOf` reads as a whole, which are a create index with its columns, a named key, and one column added, altered or dropped: what they do is a parameter of the engine. `ColumnsAfter`, `DataIsKept` and `InterruptedKeepsData` are made for texts without them; creation scripts in the layout have none.
- MySQL's backslash escapes: literals are read by the doubled-quote rule of section 5.3 of ISO/IEC 9075-2, where a backslash is an ordinary character. The importer's target may be a MySQL server that treats it otherwise.
- Library string operations are ordinal; lower case covers ASCII letters and trimming ASCII white space. Culture rules are not modelled.
- File, database and network access: contents of files and the directory of scripts are values; the batch is executed on a map. Sending an empty batch is not modelled.
- Lower-casing of names already in the database: column and table names are compared as they are.
- The generators' texts for structured statements: an arbitrary function, since acceptance and concatenation do not depend on them. Their texts for raw statements are modelled.
- The XML reader of the script generator, and the construction of file paths in the output directory.
- The HTML, addresses and images of the menu, and PHP's loose comparison of a request parameter with an id.
- ComServer.Server.DoRefresh: the query's order is a parameter that must list the matching rows once each.
- The other properties of accounts and the other wrappers; `PutAddress` and `PutActive` stand for the setters with and without a check.
- Renaming an account, the limits checked before saving, and deletion of messages, folders and rules: a parameter tells whether saving is allowed.
- More than one collection, domain filter or session object at a time, threads and reference counting.
- UnicodeConversion.Parser.Run: when an exception leaves no file, what the two command lists hold is not stated, because the object is gone with the process.
