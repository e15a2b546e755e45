# winget window of profiTools, modelled in Dafny

profiTools is a WPF desktop tool. Its winget window
(`profiTools/wind/WinWinget.xaml.cs`) does three things:

- It reads the text printed by `winget list --accept-source-agreements` and
  lists one program per row, named by the row's first space-separated word.
- It shows two check boxes per row, "Удалить" (remove) and "Обновить"
  (upgrade). Ticking one clears the other.
- Its "apply" button goes through the rows one by one, in list order. For
  each row it starts `winget uninstall "<name>" --silent` if the row is marked
  for removal, then `winget upgrade "<name>" --silent` if the row is marked
  for upgrade.

The model keeps the window's own shape. `Window.ProgramModel` is a class
whose three fields the handlers change in place. `Window.WinWinget` is a
class that holds the list of rows as a sequence of `ProgramModel` objects.
Its methods append to that list, clear flags on a row, and issue the winget
launches. A launch of winget is not run. It is appended to the window's
`launched` log as a `(command, program name)` pair.

Each method is proved against a value-level specification:

- `Listing.Parsed(output)` gives the records one listing adds.
- `Records.Checked(record, caption)` gives a row's flags after a tick.
- `Dispatch.Commands(records)` gives the launches the button issues.

The properties the window promises are proved as lemmas about these
functions. .NET's `String.Split(char[], StringSplitOptions.RemoveEmptyEntries)`
is a library call, so module `StringSplit` defines it and proves what it
does.

Files: `split.dfy` (StringSplit), `records.dfy` (Records), `listing.dfy`
(Listing), `dispatch.dfy` (Dispatch), `window.dfy` (Window).

The model follows the code in three details:

- Words are separated by the space character only, not by any whitespace.
  A tab stays inside a word, so a row starting with a tab gives a name
  starting with a tab.
- The name is the row's first space-separated word, not its Name column. A
  name that itself contains a space, such as `Microsoft Edge`, is cut at
  that space and listed as `Microsoft`.
- Parsing appends to the window's existing list. It does not build a fresh
  batch of records.

## Model

| member | source | states |
|---|---|---|
| `StringSplit.Pieces` | profiTools/wind/WinWinget.xaml.cs:68 | Splitting always yields at least one piece, even for the empty string. |
| `StringSplit.NonEmpty` | profiTools/wind/WinWinget.xaml.cs:68 | Dropping empty entries leaves only non-empty pieces and never adds any. |
| `StringSplit.SplitSeparatorFree` | profiTools/wind/WinWinget.xaml.cs:68 | Every piece of a split with empty entries removed is non-empty and contains no separator character. |
| `StringSplit.SplitConcat` | profiTools/wind/WinWinget.xaml.cs:68 | The pieces, concatenated in order, are exactly the input with its separator characters removed: nothing is lost or reordered. |
| `StringSplit.SplitEmptyIff` | profiTools/wind/WinWinget.xaml.cs:74-75 | A split has no pieces if and only if every character of the input is a separator. |
| `StringSplit.SplitHead` | profiTools/wind/WinWinget.xaml.cs:74-78 | When there is a piece, the first one is the input with its leading separators skipped, cut at the next separator. |
| `StringSplit.SplitNoSeparator` | profiTools/wind/WinWinget.xaml.cs:68 | Input without any separator splits into itself alone, or into nothing when it is empty. |
| `StringSplit.SplitAtSeparator` | profiTools/wind/WinWinget.xaml.cs:68 | Splitting `a + [c] + t` at a separator `c` gives the split of `a` followed by the split of `t`. |
| `StringSplit.PiecesJoin` | profiTools/wind/WinWinget.xaml.cs:74 | With one separator character, joining the pieces (empties kept) with that character gives back the input. |
| `Listing.Rows` | profiTools/wind/WinWinget.xaml.cs:71 | Skipping the header leaves one row fewer than there are lines, and none when there are no lines. |
| `Listing.RowsRecords` | profiTools/wind/WinWinget.xaml.cs:71-81 | The rows never add more records than there are rows. |
| `Listing.ParsedIsExpected` | profiTools/wind/WinWinget.xaml.cs:68-79 | The records a listing adds follow the reference reading, in line order. After the header, each non-empty line containing a character other than a space gives one unmarked record named by its first word. The count is the number of such lines. |
| `Listing.RowsRecordsIsExpected` | profiTools/wind/WinWinget.xaml.cs:71-81 | The split-based row loop equals the reference reading on every list of rows. |
| `Listing.RowRecordsIsExpected` | profiTools/wind/WinWinget.xaml.cs:74-79 | A row adds a record if and only if it contains a non-space character, and the name is the row's first word. |
| `Listing.ParsedWellFormed` | profiTools/wind/WinWinget.xaml.cs:74-79 | Every added record has a non-empty name with no space in it, and neither flag is set. |
| `Listing.ParsedHeaderOnly` | profiTools/wind/WinWinget.xaml.cs:68-71 | A header line ended by `\r\n` adds no record. |
| `Listing.ParsedSingleLine` | profiTools/wind/WinWinget.xaml.cs:68-71 | Output with no `\r` or `\n` adds no record. This covers both the empty output and a header line alone. |
| `Listing.HeaderAndOneRow` | profiTools/wind/WinWinget.xaml.cs:68-79 | A header line and one row, both ending in `\r\n`, add exactly one record, named by the row's first space-separated word. Tabs stay inside the name. |
| `Listing.RowsRecordsAppend` | profiTools/wind/WinWinget.xaml.cs:71-81 | One more row at the end adds its record at the end: records follow row order. |
| `Records.Unmarked` | profiTools/wind/WinWinget.xaml.cs:155-160 | A new record has the given name and neither action chosen. |
| `Records.Checked` | profiTools/wind/WinWinget.xaml.cs:96-105 | "Удалить" clears the upgrade flag and keeps the removal flag. "Обновить" clears the removal flag and keeps the upgrade flag. Any other caption changes nothing. The name never changes. After either known caption at most one flag is set. |
| `Records.CheckedLeavesOnlyTicked` | profiTools/wind/WinWinget.xaml.cs:96-105 | If the ticked box's own flag is already set when the handler runs, exactly that flag is left set afterwards. |
| `Records.CheckedIdempotent` | profiTools/wind/WinWinget.xaml.cs:96-105 | Handling the same tick twice changes nothing more. |
| `Dispatch.Arguments` | profiTools/wind/WinWinget.xaml.cs:141 | The argument string is the command, then a space, the name in double quotes, and ` --silent`. The layout is stated position by position. |
| `Dispatch.ArgumentsRoundTrip` | profiTools/wind/WinWinget.xaml.cs:141 | For a command without a space, the argument string determines the command and the name: `ParseArguments` reads both back. |
| `Dispatch.RecordCommands` | profiTools/wind/WinWinget.xaml.cs:121-128 | A record gives one launch per set flag: none, one or two. Every launch names the record's program. A removal mark gives `uninstall`, an upgrade mark gives `upgrade`, and with both the uninstall is started first. |
| `Dispatch.CommandsInOrder` | profiTools/wind/WinWinget.xaml.cs:119-129 | The launches of record `i` come after those of every earlier record and before those of every later one. |
| `Dispatch.CommandsAppend` | profiTools/wind/WinWinget.xaml.cs:119-129 | The launches for two record lists, one after the other, are the first list's launches followed by the second's. |
| `Dispatch.CommandsComplete` | profiTools/wind/WinWinget.xaml.cs:121-128 | Every record marked for removal is uninstalled and every record marked for upgrade is upgraded. This holds even when both flags are set. |
| `Dispatch.CommandsSound` | profiTools/wind/WinWinget.xaml.cs:121-128 | Every launch is either an uninstall of a record marked for removal or an upgrade of a record marked for upgrade. |
| `Dispatch.CommandsCount` | profiTools/wind/WinWinget.xaml.cs:119-129 | There are as many uninstalls as records marked for removal and as many upgrades as records marked for upgrade. The total is the sum of the two. |
| `Dispatch.RemoveThenUpdate` | profiTools/wind/WinWinget.xaml.cs:119-129 | For a record marked for removal followed by one marked for upgrade, the button issues exactly an uninstall of the first, then an upgrade of the second. |
| `Dispatch.CommandsArgumentsRoundTrip` | profiTools/wind/WinWinget.xaml.cs:123-141 | Every argument string the button builds decodes back to the launch it was made from. |
| `Window.RecordsOfAt` | profiTools/wind/WinWinget.xaml.cs:15 | Position `i` of the list's records is the record of the row object at position `i`. |
| `Window.DistinctAt` | profiTools/wind/WinWinget.xaml.cs:79 | Every row is added as a new object, so in a valid list two positions never hold the same row. |
| `Window.ProgramModel.constructor` | profiTools/wind/WinWinget.xaml.cs:155-160 | A new row has the given name and neither flag set. |
| `Window.WinWinget.constructor` | profiTools/wind/WinWinget.xaml.cs:17-23 | A new window has an empty list and has launched nothing. |
| `Window.WinWinget.ParseWingetOutput` | profiTools/wind/WinWinget.xaml.cs:65-85 | The list becomes its old rows, unchanged and as the same objects, followed by new objects whose records are exactly `Parsed(output)`. Rows stay distinct objects. |
| `Window.WinWinget.ParseRow` | profiTools/wind/WinWinget.xaml.cs:74-80 | One row of the loop appends a new row object for the line's first word, or nothing for a line with no word. |
| `Window.WinWinget.AddProgram` | profiTools/wind/WinWinget.xaml.cs:79 | Appends one new, unmarked row object and keeps the earlier rows. |
| `Window.WinWinget.ActionCheckBoxChecked` | profiTools/wind/WinWinget.xaml.cs:87-109 | The ticked row's flags become `Checked(old flags, caption)` and every other row keeps its record, so in a valid list at most one position changes. With no row (`null`), nothing changes. |
| `Window.WinWinget.ExecuteWingetCommand` | profiTools/wind/WinWinget.xaml.cs:134-147 | A launch appends `(command, program name)` to the log. |
| `Window.WinWinget.SuccesButtonClick` | profiTools/wind/WinWinget.xaml.cs:116-132 | The log grows by exactly `Commands(records)`, in list order. The list and every row's name and flags are unchanged. |

## Left out

- `LoadProgramsFromWinget` (profiTools/wind/WinWinget.xaml.cs:29-63) starts `winget list` and reads its output. Process I/O is not modelled. The listing text is a parameter of `ParseWingetOutput`, and the window's constructor starts with an empty list instead of calling the loader.
- `Process.Start` in `ExecuteWingetCommand` (line 146) is replaced by the append to `launched`. A launch failure and its message box (lines 148-151) are not modelled: every launch is recorded as made. Launches are not awaited, so the uninstall and upgrade of a row with both marks run at the same time; the model states only the order in which they are started.
- `MessageBox.Show`, `programListView.Items.Refresh()`, `InitializeComponent` and the `ItemsSource` binding are UI only.
- The casts of `sender` and `DataContext` in `ActionCheckBox_Checked` (lines 90-94) are not modelled. The handler takes the row object (or `null` for none) and the check box text directly. Line 91 reads `checkBox.DataContext` before line 93 tests `checkBox` for null, so only the data-context half of that test is modelled.
- Dispatch.ArgumentsRoundTrip: line 141 does not escape a `"` inside the name, and `ParseArguments` is not how the started process splits its command line. Under the Windows rules a `"` in the name ends the quoted span, so winget would receive different arguments. The lemma states only that the argument string determines the command and the name.
- `ActionCheckBox_Unchecked` (lines 111-114) has an empty body and is not modelled.
- The XAML binding (`WinWinget.xaml`) that sets a flag when its box is ticked is not modelled; only the handler's clearing rule is. `Records.CheckedLeavesOnlyTicked` states what follows when the binding has already run.
- `ObservableCollection` change notifications are not modelled. `Programs` is a sequence field.
- `profiTools/MainWindow.xaml.cs` only opens a web site and this window. It has no logic to model.
