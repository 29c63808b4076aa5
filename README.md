# S3 bucket utility: a verified model of its menu loop

`bucket_util.js` is an interactive terminal tool for object-storage buckets.
At start-up it reads the bucket inventory: every bucket whose name does not
contain `do-not-delete`, numbered from 1, with the number of objects on the
first listing page (or -1 when that listing fails). It then runs a loop. Each
turn prints a menu of the inventory and reads a command: help, quit, refresh,
or delete, list or empty a bucket chosen by its number.

This project models that core in Dafny and proves properties of the model:

- `storage.dfy` (module `Storage`): the service calls the program makes, as a
  `Call` datatype. The service's answers are an `Adapter`: a value that fixes
  what every call returns. Every operation returns the calls it made, in
  order, so properties can speak about what was sent to the service.
- `numbers.dfy` (module `Numbers`): `Number.prototype.toString` for integers
  below 10^21 in magnitude (the ones it writes without an exponent),
  and the global `parseInt` without a radix, as section 19.2.5 of ECMA-262
  defines it. That covers leading white space, a sign, the `0x` prefix, the
  longest digit run, and NaN.
- `inventory.dfy` (module `Inventory`): `countFiles` and `readBuckets`, a
  lookup by id (`buckets.find`) and a removal by id (`buckets.filter`).
- `menu.dfy` (module `Menu`): `padding` and `dumpMenu`. The column width is the
  longest name rounded up to even. There is a header, a rule, and one row per
  bucket.
- `commands.dfy` (module `Commands`): how a typed line becomes a command. The
  line is lower-cased and compared with the control words. Otherwise it is cut
  after the first space, or after its first character when there is no space.
  The part before the cut is trimmed into a verb, and the part after it goes
  to `parseInt`.
- `emptying.dfy` (module `Emptying`): `emptyS3Directory`,
  `emptyS3DirectoryVersions` and the "empty" command that awaits both.
- `controller.dfy` (module `Controller`): one turn of the loop as the function
  `Turn`, the class `Repl` that keeps the inventory, the `running` flag and the
  call trace and carries out a turn in place (`Step`), and a whole session over
  a script of typed lines (`Session`).

Several proved properties describe the program as a whole:

- `Controller.SessionProtected`: however the service answers and whatever is
  typed, no bucket whose name contains the exclusion marker is ever deleted or
  emptied.
- `Controller.ExecuteGuarded`: a bucket known to hold objects is never deleted.
- `Controller.DeleteTurn`: a deletion removes exactly the chosen entry.
- `Numbers.ParseIntRoundTrip`: `parseInt` reads back any id that the menu
  prints.

Where the code does something other than what its design evidently
intended, the model follows the code:

- A number that names no entry of the inventory makes `buckets.find` return
  `undefined`. The next field read throws, and the exception ends the loop.
  This is modelled as the fault `UndefinedBucket`.
- When a listing page is truncated, both emptying functions call
  `emptyS3Directory(bucket, dir)`. No `dir` is declared anywhere, so that call
  throws a ReferenceError after the first page has been deleted. This is
  modelled as `DirNotDefined`. Emptying therefore never pages, and the
  "empty" command reports an error for a bucket larger than one page.
- A failed count is kept as the number -1. The "delete" guard (`numFiles > 0`)
  and the "list"/"empty" guard (`numFiles == 0`) both let -1 through.
- Ids are not renumbered after a deletion, so the ids in the menu can have
  gaps.
- A line without a space, such as `l1`, is cut after its first character: `l1`
  is "list 1" (`Commands.CompactCommand`), and `delete` is "d" with no number.

## Model

| member | source | states |
|---|---|---|
| Numbers.NumberToString | bucket_util.js:88-91 | the numeral of an integer is non-empty and starts with a minus sign exactly when the integer is negative; its other characters are digits (`NumeralCharacters`) |
| Numbers.ParseInt | bucket_util.js:214 | `parseInt` without a radix; characterised by `ParseIntSkipsWhiteSpace`, `ParseIntNaN`, `ParseIntRoundTrip` and `DigitRunLongest` |
| Numbers.NumeralCharacters | bucket_util.js:88-91 | an integer's numeral is an optional minus sign followed only by decimal digits |
| Numbers.Decimal | bucket_util.js:88-91 | the numeral of a natural number is non-empty, all decimal digits, starts with 0 only for 0, and is one digit long exactly below 10 |
| Numbers.DecimalLength | bucket_util.js:88 | a number below 10^k has at most k digits, which bounds `sizeSize` |
| Numbers.SkipWhiteSpace | bucket_util.js:214 | `parseInt` drops exactly the leading white space: the result is a suffix, everything dropped is white space, and the rest does not start with white space |
| Numbers.DigitRunLongest | bucket_util.js:214 | the digits `parseInt` reads are the longest prefix of radix digits: digits up to the run, a non-digit or the end right after it |
| Numbers.DecimalValue | bucket_util.js:214 | the digits of a number's numeral have that number as their value |
| Numbers.ParseIntUnsigned | bucket_util.js:214 | text that starts with a digit is read as an unsigned magnitude, with no white space or sign taken off |
| Numbers.ParseIntNegative | bucket_util.js:214 | after a leading minus sign, `parseInt` gives the negated magnitude of what follows |
| Numbers.DecimalMagnitude | bucket_util.js:214 | a numeral followed by text that does not continue it reads as the numeral's value, never as a `0x` prefix |
| Numbers.ParseIntRoundTrip | bucket_util.js:214 | `parseInt` of an integer's numeral gives the integer back, whatever follows the numeral, provided that text does not continue it |
| Numbers.ParseIntOfNumeral | bucket_util.js:214 | `parseInt` of the numeral of an integer gives the integer back; this covers every id and count the menu prints, all far below 10^21 |
| Numbers.ParseIntSkipsWhiteSpace | bucket_util.js:214 | leading white space never changes the result of `parseInt` |
| Numbers.ParseIntNaN | bucket_util.js:214 | text that starts with neither white space, a sign nor a digit, or empty text, is NaN |
| Inventory.CountFiles | bucket_util.js:51-58 | the count is at least -1, and it is -1 exactly when the listing threw |
| Inventory.ReadBuckets | bucket_util.js:99-119 | a failed enumeration propagates after one call; otherwise the result is the numbered inventory of the kept names, and one listing is made per kept name, in order |
| Inventory.Kept | bucket_util.js:104-106 | the enumerated names without those that contain the marker, in order; characterised by `KeptMembers` and `KeptConcat` |
| Inventory.Inventory | bucket_util.js:103-116 | the numbered entries built from the kept names; characterised by `InventoryNumbering` and `InventoryAscending` |
| Inventory.KeptMembers | bucket_util.js:106 | a name is in the inventory exactly when it was enumerated and does not contain the marker |
| Inventory.KeptConcat | bucket_util.js:104-106 | filtering by the marker commutes with concatenation, so enumeration order is kept |
| Inventory.InventoryNumbering | bucket_util.js:103-116 | entry i is the i-th kept name with id i+1 and that name's count |
| Inventory.InventoryAscending | bucket_util.js:103-116 | a loaded inventory has strictly ascending ids from 1, counts of at least -1, and no marked name |
| Inventory.FindIndex | bucket_util.js:215 | the lookup finds the first entry with the id; it finds none exactly when the id is NaN or no entry has it |
| Inventory.RemoveId | bucket_util.js:226 | the `filter` by id never lengthens the inventory; characterised by `RemoveIdMembers`, `RemoveAbsentId` and `RemoveIdAt` |
| Inventory.RemoveIdMembers | bucket_util.js:226 | the filter keeps exactly the entries whose id differs |
| Inventory.RemoveAbsentId | bucket_util.js:226 | filtering out an id that no entry has changes nothing |
| Inventory.TailAscending | bucket_util.js:226 | past the first entry of an ascending inventory, ids still ascend and all exceed the first id |
| Inventory.RemoveIdAt | bucket_util.js:226 | with ascending ids, filtering out entry i's id drops exactly entry i and keeps the others in order |
| Inventory.RemoveAtAscending | bucket_util.js:226 | dropping one entry keeps the ids ascending |
| Menu.Pad | bucket_util.js:60-66 | the padding has the requested length, or is empty for a length of zero or below, and holds only the given character |
| Menu.Padding | bucket_util.js:60-66 | the character-appending loop builds exactly that padding |
| Menu.LongestName | bucket_util.js:69-72 | the maximum is at least every name's length, is attained by some name, and is 0 for an empty list |
| Menu.ColumnWidth | bucket_util.js:69-75 | the width of the name column; characterised by `ColumnWidthIsLeastEven` |
| Menu.Header | bucket_util.js:77-79 | the header line; its width is stated by `MenuFrame` |
| Menu.Rule | bucket_util.js:80 | the rule line; its width and its dashes are stated by `MenuFrame` |
| Menu.Row | bucket_util.js:83-94 | one bucket's line; characterised by `RowWidth`, `RowLeadingSpace` and `RowCountField` |
| Menu.Render | bucket_util.js:68-97 | the whole menu; characterised by `MenuFrame` and the row lemmas |
| Menu.MeasureColumn | bucket_util.js:69-75 | the loop computes the column width: the longest name rounded up to even |
| Menu.ColumnWidthIsLeastEven | bucket_util.js:73-75 | the column width is even, fits every name, and is the least such number |
| Menu.DumpMenu | bucket_util.js:68-97 | the printed lines are the header, the rule, then one row per bucket in inventory order |
| Menu.FormatRow | bucket_util.js:83-94 | the row builder produces exactly the row layout |
| Menu.MenuFrame | bucket_util.js:77-80 | the menu has two lines more than the inventory; the header is the column width plus 11 wide (at least 23); the rule is the column width plus 12 dashes |
| Menu.RowWidth | bucket_util.js:84-91 | a row with an id below 100 and a count below 10^7 is the column width plus 11 wide, which is the header's width once the column is at least 12 |
| Menu.RowLeadingSpace | bucket_util.js:84-86 | a row starts with a space exactly when its id is below 10 |
| Menu.RowCountField | bucket_util.js:90-94 | a row ends with " -" exactly when the count is -1 or below, and otherwise ends with the count's numeral |
| Commands.ToLower | bucket_util.js:198 | lower-casing keeps the length and maps each character |
| Commands.TrimEnd | bucket_util.js:216 | trimming the end drops exactly the trailing white space |
| Commands.IndexOf | bucket_util.js:210 | `indexOf` is -1 exactly when the character is absent, and otherwise gives its first position |
| Commands.ControlWordsParse | bucket_util.js:198-207 | a line means help, quit or refresh exactly when its lower-case form is one of that command's words |
| Commands.LowerFixed | bucket_util.js:198 | lower-casing a line without capitals changes nothing |
| Commands.CaseInsensitive | bucket_util.js:198-207 | a line means the same as its lower-case form |
| Commands.TrimWord | bucket_util.js:216 | the verb cut out with its trailing space trims to the word itself |
| Commands.ParseCommand | bucket_util.js:198-216 | the command a typed line stands for; characterised by `ControlWordsParse`, `ParseOrdinaryLine`, `CaseInsensitive`, `UnknownVerb` and the command lemmas below |
| Commands.ParseOrdinaryLine | bucket_util.js:208-216 | every line whose lower-case form is no control word is split and dispatched by its verb |
| Commands.NoControlWord | bucket_util.js:200-206 | a line with a space, or starting with d, l or e, is no control word |
| Commands.Split | bucket_util.js:210-216 | empty text gives an empty verb and NaN; without a space, the cut falls after the first character; with one, `SplitAtSpace` applies |
| Commands.SplitAtSpace | bucket_util.js:210-216 | with a space, the cut falls right after the first space |
| Commands.TrimChar | bucket_util.js:216 | a one-character verb trims to itself or to nothing |
| Commands.UnknownVerb | bucket_util.js:216-246 | a line with no space that is no control word and whose first letter is not d, l or e selects no branch |
| Commands.Dispatch | bucket_util.js:218-246 | only "delete"/"d", "list"/"l" and "empty"/"e" select a branch; any other verb selects none |
| Commands.SpacedCommand | bucket_util.js:210-246 | "verb n" means the verb's command on bucket n, for every lower-case verb and every integer n; any other word means nothing |
| Commands.SplitSpaced | bucket_util.js:210-216 | "verb n" with a space splits into the verb and the number n |
| Commands.CompactCommand | bucket_util.js:210-246 | "d", "l" or "e" run together with a number, as in `l1`, is that command on that number |
| Commands.SplitFirstChar | bucket_util.js:210-216 | without a space, the first character is the verb and the rest goes to `parseInt` |
| Commands.LettersNaN | bucket_util.js:214 | text that starts with a letter is NaN to `parseInt` |
| Commands.SplitCompactWord | bucket_util.js:210-216 | a word without a space splits into its first letter and NaN |
| Commands.CompactWord | bucket_util.js:210-246 | a whole word without a space, such as `delete`, is its first letter's command with no number |
| Emptying.Unversioned | bucket_util.js:13-15 | one `{ Key }` entry per listed key, in order |
| Emptying.IdentifiedEntries | bucket_util.js:31-36 | one `{ Key, VersionId }` entry per version, in order |
| Emptying.Versioned | bucket_util.js:31-36 | the versioned request lists every version, then every delete marker |
| Emptying.EmptyDirectory | bucket_util.js:5-20 | one listing of the bucket; a delete of exactly its keys when the page is non-empty; every call addresses that bucket; it succeeds exactly when the listing and the delete succeed and the page was not truncated |
| Emptying.EmptyVersions | bucket_util.js:22-40 | the same for the version listing of at most 1000 entries, whose delete names every version and delete marker |
| Emptying.EmptyBucket | bucket_util.js:252-254 | starts with the listing of that bucket, touches no other bucket, and succeeds exactly when both emptying steps succeed |
| Emptying.EmptyS3Directory | bucket_util.js:5-20 | the `forEach` that builds the request gives exactly the emptying effect |
| Emptying.EmptyS3DirectoryVersions | bucket_util.js:22-40 | the two loops that build the request give exactly the versioned emptying effect |
| Controller.Refreshed | bucket_util.js:205-207 | the state after reading the inventory again; characterised by `RefreshReloads` and `StartRuns` |
| Controller.Targeted | bucket_util.js:215-260 | the delete, list and empty branches; characterised by `DeleteTurn`, `ListTurn`, `EmptyCommand`, `EmptyTurn` and `UnknownTarget` |
| Controller.Execute | bucket_util.js:200-260 | the `if` chain on a parsed command; characterised by `ExecuteSettles`, `ExecuteGuarded` and `ControlWords` |
| Controller.Turn | bucket_util.js:194-260 | the body of one turn on a typed line; characterised by `TurnExecutes`, `TurnSettles` and `TurnProtected` |
| Controller.Settle | bucket_util.js:188-192 | the test at the top of the loop: it keeps running only with some bucket left, and changes nothing else |
| Controller.Exec | bucket_util.js:200-260 | the `if` chain carries out exactly the transition `Execute` defines |
| Controller.Reload | bucket_util.js:205-207 | reading the inventory again replaces it, or ends the loop with the enumeration's error |
| Controller.Act | bucket_util.js:215-260 | the delete, list and empty branches carry out exactly the targeted-command transition |
| Controller.Repl.StopWhenEmpty | bucket_util.js:188-192 | clears the running flag exactly when no bucket is left, and changes nothing else |
| Controller.Repl.constructor | bucket_util.js:183-192 | start-up holds the loaded inventory, stopped by the enumeration's error or by an empty inventory, otherwise running; the state is consistent |
| Controller.Repl.Step | bucket_util.js:187-261 | one turn prints the menu of the old inventory, appends its calls to the trace, moves to the state the turn and the next emptiness test define, and keeps the state consistent |
| Controller.Advance | bucket_util.js:187-261 | one more line taken by a running loop leaves the state that replaying one more entry defines, and keeps it sound |
| Controller.Run | bucket_util.js:186-262 | `consumed` is the number of lines the loop reads: each of them is read while the loop runs, and when lines remain the loop had stopped after the `consumed`-th; its state is the replay of the whole script |
| Controller.Session | bucket_util.js:184-262 | `consumed` is the number of lines the program reads: each is read while the loop runs, and when lines remain the loop had stopped after the `consumed`-th (an empty inventory stops it before the first read); its final state is the replay of the script |
| Controller.StartSettled | bucket_util.js:184-192 | the start-up state is sound, deletes nothing, and after the emptiness test runs only with some bucket |
| Controller.StartRuns | bucket_util.js:184-192 | the loop reads a first line exactly when the enumeration succeeds and some name lacks the marker |
| Controller.EmptiedStops | bucket_util.js:188-192 | a turn that leaves no bucket stops the loop before another line is read |
| Controller.ResetKeepsSound | bucket_util.js:254 | setting one count to zero keeps the inventory sound |
| Controller.DropKeepsSound | bucket_util.js:226 | a deletion drops exactly the chosen entry and keeps the inventory sound |
| Controller.ExecuteSettles | bucket_util.js:198-260 | every command keeps the inventory sound, and one that faults stops the loop |
| Controller.TurnSettles | bucket_util.js:187-261 | every turn keeps the inventory sound, and one that faults stops the loop |
| Controller.ExecuteGuarded | bucket_util.js:218-260 | every bucket deletion is of an entry whose count is not positive, and every object deletion is of an entry whose count is not zero |
| Controller.TurnProtected | bucket_util.js:218-260 | no turn deletes or empties a bucket whose name contains the marker |
| Controller.ReplayHalted | bucket_util.js:186-192 | once the loop has stopped, further lines change nothing |
| Controller.ReplaySettled | bucket_util.js:186-262 | any run of turns keeps the state consistent and never deletes or empties a marked bucket |
| Controller.SessionProtected | bucket_util.js:184-262 | from start-up on, whatever is typed and whatever the service answers, no marked bucket is deleted or emptied, and the loop never runs on an empty inventory |
| Controller.ControlWords | bucket_util.js:200-260 | help words change nothing; quit words stop the loop with no call; a line that selects no branch changes nothing and makes no call |
| Controller.RefreshReloads | bucket_util.js:205-207 | refresh renumbers the kept names from 1 with fresh counts, or ends the loop when the enumeration fails |
| Controller.UnknownTarget | bucket_util.js:215-247 | delete, list or empty of an id that no entry has, or of NaN, ends the loop with a fault and makes no call |
| Controller.DeleteTurn | bucket_util.js:218-232 | delete n refuses a bucket with objects; otherwise it makes one deleteBucket call, and on success exactly that entry leaves the inventory |
| Controller.ListTurn | bucket_util.js:233-245 | list n lists that bucket unless its count is zero, and never changes the inventory |
| Controller.EmptyCommand | bucket_util.js:246-259 | the "empty" branch on an existing entry: nothing happens when its count is zero; otherwise it makes exactly the emptying calls on that bucket and resets only that entry's count, and only when both steps succeed |
| Controller.EmptyTurn | bucket_util.js:246-259 | empty n deletes only that bucket's objects, unless its count is zero; the count becomes zero only when both steps succeed; no other entry changes |

## Left out

- Credentials (bucket_util.js:156-178): the environment check and the profile
  prompt. The assignment to the constant `profile` throws inside its own
  `try`; the error is printed and the default credential chain is used.
  Nothing of this reaches the loop.
- The readline set-up and the banner (bucket_util.js:124-150), and all console
  messages other than the menu: they are output only and decide nothing.
- The object listing that "list" prints (`listS3Directory`,
  bucket_util.js:42-49): only its call is modelled. A failure of that call is
  caught and printed, so it changes no state.
- The object-storage client: each call is answered by the `Adapter` value that
  is given for the turn. The service's own state is not modelled: the adapter
  of a turn need not reflect the deletions of earlier turns.
- Emptying.EmptyDirectory: the per-key errors that a `deleteObjects` response
  can report without throwing are ignored, as the program ignores them.
- Inventory.CountFiles: counts only the first listing page, which holds at
  most 1000 keys, exactly as the program does.
- Commands.ToLower: maps only A-Z. The full Unicode lower-casing of
  `toLowerCase` is not modelled.
- String lengths are counted in Dafny characters, not in UTF-16 code units.
- Numbers.ParseInt: returns the exact integer. The rounding to a double above
  2^53, and the distinction between -0 and 0, are not modelled; neither can
  match an id.
- Numbers.NumberToString: writes every integer in plain decimal. `String(n)`
  switches to exponent form from 10^21 on, and a Number above 2^53 is not
  exact; no id or count of the inventory comes near either bound.
- Menu.RowWidth: proved only for ids below 100 and counts below 10^7. Beyond
  those bounds a row can be longer than the column width plus 11, as in the
  program.
- The asynchronous scheduling of the awaited calls: every call is awaited
  before the next, so they are modelled in sequence.
- An exception that escapes the loop ends the program through a rejected
  promise. It is modelled as a `Fault` that stops the loop; the process exit
  itself is not modelled.
