# Student registration app: a Dafny model of its decision logic

`registration_example.py` is a console app. It signs a student in by id. It then
runs a menu loop that searches, adds and drops courses through SQL statements on a
MySQL connection, which is opened through an SSH tunnel. The SQL, the tunnel and
the console are foreign systems. This project models the decision rules that
surround them and proves their properties:

- **Command line** (`CommandLine`).
  - The argument loop of `main` is the method `ParseArgs`: a `while` loop over
    `sys.argv` with the index `i`, the help flag and the `params` dictionary.
  - It is proved equal to the recursive reference `Scan`. `Launch` is the decision
    that follows: print the help text, or connect to `localhost` on the tunnel's port.
  - Lemmas characterise the loop completely. It asks for help exactly when the
    arguments are not a run of flag/value pairs. A help flag or an unrecognised
    option stops the scan, and nothing after it is read. A trailing value flag asks
    for help. The argument after a value flag is taken as its value whatever it
    looks like. The last value given for a key wins. The dictionary only ever holds
    `dbname`, `user` and `password`.
- **Sign-in** (`SignIn`).
  - The `for` loop over the lookup rows keeps the last row (`Cursor.LastRow`).
  - The branch structure is the pure function `Decide`. It has five outcomes:
    `Welcome`, `Created`, `Exit`, `Restart` and `FallThrough`.
  - `signIn` returns exactly what the lookup loop left behind. On every other
    branch it returns `None`, including right after a new student is created.
- **Menu** (`Menu`).
  - `Interpret` is the step function of one selection: an exact, case-sensitive
    match of `S`, `A`, `D` or `Q`.
  - The course line is cut with Python's `str.split()`, modelled in `Tokens`
    together with a round-trip lemma against `" ".join`.
  - `RunMenu` is the `while True` loop over the console lines. It is proved equal
    to the reference `Run`, and it records every statement it hands to the
    database as a `Query` value with its parameters.
- **Credit total** (`Credits`). A NULL `SUM` is shown as 0 with the "(No registered
  courses)" placeholder. Any other sum is shown unchanged.
- **Course search** (`CourseSearch`).
  - The keyword is wrapped as `"%" + keyword + "%"` and not escaped.
  - Against a model of MySQL's `LIKE`, the search finds exactly the titles that
    contain the keyword, provided the keyword has no `%`, `_` or backslash.
  - For the keyword `"_"` it also finds a title without an underscore.

Query results are inputs to the model: a lookup is a sequence of rows, and a NULL
column is `None`. The console lines are also inputs. What follows from the code as
written:

- `runApp` passes the value `signIn` returned to `showStudentCourses`. After a new
  student is created, after any answer other than `y`/`n`, and after a nested
  restart returns, the listing and credit queries therefore run with a NULL name.
  `RunMenu` is modelled with that `student: Option<string>` parameter.
- Some behaviour differs from a cleaner design for the same app. In every such
  case the model follows the code:
  - Too few course tokens raise an uncaught `IndexError` (`End.CourseIndexError`).
    They are not reported as an input error.
  - Extra course tokens are ignored.
  - A restart re-enters `runApp` recursively. It does not loop.
  - An unrecognised option prints the help text, and `main` returns normally.

## Model

| member | source | states |
|---|---|---|
| `CommandLine.Scan` | registration_example.py:222-242 | the reference scan of the arguments after `argv[0]`: consumes them from the front, a help flag stops with help, a value flag stores the next argument under its name, anything else writes one "Unrecognized option" line and stops with help; its contract gives at most one stderr line, only with help, and no help only for flag/value pairs (full properties in `ScanNeedsHelp`, `HelpStopsScan`, `UnrecognizedStopsScan`, `MissingValueNeedsHelp`, `ScanLastValueWins`, `ScanKeys`) |
| `CommandLine.Parse` | registration_example.py:213-242 | the whole `sys.argv`: starts from the three defaults and scans everything after `argv[0]`; the dictionary always has exactly the keys `dbname`, `user`, `password` (settings in `ParseSettings`) |
| `CommandLine.ParseArgs` | registration_example.py:213-242 | the argument loop over `sys.argv` leaves exactly the dictionary, help flag and stderr lines of the reference scan `Parse` (defaults, skip `argv[0]`, help flags, value flags, unrecognised options) |
| `CommandLine.ScanNeedsHelp` | registration_example.py:223-242 | help is requested if and only if the arguments are not flag/value pairs; at most one stderr line is written, and only for an unrecognised option, which it names |
| `CommandLine.HelpStopsScan` | registration_example.py:227-229 | a `-h`/`-help` in option position ends the scan with help requested, whatever follows it; the dictionary keeps the values set before it |
| `CommandLine.UnrecognizedStopsScan` | registration_example.py:238-242 | an unrecognised option writes one "Unrecognized option: <arg>" line, requests help and ends the scan, whatever follows it |
| `CommandLine.MissingValueNeedsHelp` | registration_example.py:231-233 | a value flag in last position requests help and changes no key |
| `CommandLine.ValueIsNeverAnOption` | registration_example.py:234-236 | wherever a value flag stands after flag/value pairs, the argument after it is stored under the flag name without its dash, and scanning resumes after it, so it is never read as an option |
| `CommandLine.UserNamedLikeHelpFlag` | registration_example.py:231-236 | `app -user -h` connects with user "-h" and the other defaults, and does not ask for help |
| `CommandLine.ScanKeys` | registration_example.py:213-236 | starting from the three defaults, the dictionary holds exactly the keys `dbname`, `user`, `password` after any arguments |
| `CommandLine.ScanLastValueWins` | registration_example.py:231-236 | on flag/value pairs each key ends with the last value given for it, and a key never given keeps its previous value |
| `CommandLine.ParseSettings` | registration_example.py:213-242 | for the whole `sys.argv`: help if and only if not flag/value pairs; always the three keys; without help no stderr output and every key equals its `Setting` (last value given, else default) |
| `CommandLine.Launch` | registration_example.py:238-256 | `main` shows help (and connects to nothing) exactly when the arguments are not flag/value pairs, after writing the loop's stderr line (at most one); otherwise it writes nothing and connects to `localhost` on the forwarded port with each setting's last given value or its default |
| `Cursor.LastRow` | registration_example.py:149-151 | after the `for` loop over a result set the variable holds the last row's value, or `None` when there were no rows |
| `SignIn.Decide` | registration_example.py:153-169 | the branch logic of `signIn` on the looked-up name and the answers read: welcome for a name, otherwise create, exit, restart or fall through on the answers; the value returned is always the looked-up one, and a creation inserts the second answer only after 'y' (each outcome's exact answers in `DecideOutcomes`) |
| `SignIn.SignIn` | registration_example.py:145-169 | `signIn` returns the last looked-up row's name (`None` for no rows or a NULL name); it welcomes exactly when that is a name; it creates exactly on 'y' (inserting the next line as the name), exits exactly on 'n' then 'y', restarts exactly on 'n' then 'n' |
| `SignIn.DecideOutcomes` | registration_example.py:153-169 | each of the five outcomes happens for exactly the answers listed, answers are not consulted when a name was found, and the value returned is always the looked-up one |
| `SignIn.UnknownIdCreated` | registration_example.py:154-157 | an unknown id answered 'y' and "Ada" inserts Ada and returns no name |
| `Credits.Render` | registration_example.py:187-190 | a NULL sum shows the placeholder and the number 0; any other sum shows unchanged without the placeholder |
| `Credits.RenderRecover` | registration_example.py:187-190 | the shown number and placeholder determine the sum, so NULL and 0 stay distinguishable |
| `Credits.ShowCredits` | registration_example.py:181-190 | over the rows of the credit query: placeholder exactly when there is no row or the last is NULL; the number is the last row's sum, or 0 |
| `CourseSearch.Pattern` | registration_example.py:193 | the pattern is the keyword between two `%` wildcards, and the keyword can be read back from it |
| `CourseSearch.SearchFindsSubstrings` | registration_example.py:192-194 | for a keyword without `%`, `_` or backslash, a title matches the pattern under `LIKE` if and only if the keyword is a substring of the title |
| `CourseSearch.UnderscoreMatchesAnyTitle` | registration_example.py:193 | because the keyword is not escaped, searching for "_" matches the title "OS", which contains no underscore |
| `Tokens.Split` | registration_example.py:127 | `str.split()` with no separator: runs of whitespace separate tokens, leading and trailing whitespace give no token; an empty line gives no token (properties in `SplitTokens`, `SplitKeepsText`, `SplitJoin`, `SplitPadded`, `SplitFirstTwo`, `SplitAtMostOne`) |
| `Tokens.SplitTokens` | registration_example.py:127 | every token of `str.split()` is non-empty and contains no whitespace |
| `Tokens.SplitKeepsText` | registration_example.py:127 | the tokens together are exactly the line's non-whitespace characters, in order |
| `Tokens.SplitJoin` | registration_example.py:127 | splitting tokens joined by single spaces gives the tokens back |
| `Tokens.SplitPadded` | registration_example.py:134 | two tokens surrounded and separated by any whitespace split into exactly those two tokens |
| `Tokens.SplitFirstTwo` | registration_example.py:127-129 | two tokens with whitespace before and between them, then the end of the line or whitespace, are the first two tokens whatever follows |
| `Tokens.SplitAtMostOne` | registration_example.py:127-129 | a line of whitespace with at most one token in it splits into fewer than two tokens |
| `Menu.Interpret` | registration_example.py:121-137 | one selection with the line read after it: exact comparison with "S", "A", "D", "Q"; search with the line, or add/drop with the first two tokens of `line.split()`, an index error when there are fewer; it does something exactly for the four letters and quits exactly on "Q" (more in `InterpretSelections`, `CourseFromTokens`, `TooFewTokens`, `PaddedCourseLine`) |
| `Menu.InterpretSelections` | registration_example.py:119-139 | only the exact strings "S", "A", "D", "Q" do anything; everything else (lower case included) is a no-op; only "Q" quits |
| `Menu.CourseFromTokens` | registration_example.py:126-137 | on a line of tokens joined by single spaces, Add and Drop take the first two tokens as the prefix and number and ignore any further tokens (other whitespace is covered by `PaddedCourseLine`) |
| `Menu.TooFewTokens` | registration_example.py:127-129 | a course line with fewer than two tokens (only whitespace, or one token with any whitespace around it) makes Add and Drop fail on the index |
| `Menu.PaddedCourseLine` | registration_example.py:126-129 | any whitespace before and between the prefix and number, and anything after whitespace that follows the number, leaves the course added or dropped unchanged |
| `Menu.Run` | registration_example.py:110-139 | the reference semantics of the `while True` loop over the console lines: each pass shows the listing and credit total, then runs the action of one selection, ending on "Q", a short course line or the end of input; every trace starts with the student's listing and credit query (properties in `RunMenu`, `RunForSession`, `QuitNeedsQ`, `QuitStops`, `IgnoredSelections`) |
| `Menu.RunMenu` | registration_example.py:110-139 | the menu loop over the console lines runs exactly the statements, and ends exactly as, the reference `Run` says: a listing and credit query each pass, a search, add or drop per command, and an end by "Q", by end of input or by a short course line |
| `Menu.RunForSession` | registration_example.py:110-137 | every statement the loop runs is for the session: listings use the name `signIn` returned, adds and drops use the id typed at sign-in |
| `Menu.QuitNeedsQ` | registration_example.py:110-139 | the loop ends by quitting only on a console line "Q", and nothing after that line is read: the lines up to and including it give the same trace and end |
| `Menu.QuitStops` | registration_example.py:110-139 | "Q" read as a selection, after any run of ignored selections, ends the loop with only the listings shown; no later line is read |
| `Menu.IgnoredSelections` | registration_example.py:110-139 | selections that are not commands only repeat the listing; the loop then continues exactly as it would have without them |

## Left out

- The MySQL connection, cursor and `execute` calls, and what the SQL statements mean (`DatabaseApp.connect`, `close`, `__enter__`/`__exit__`, `createNewStudent`, `addClass`, `dropClass`). The database is a foreign system. Its results are inputs (sequences of rows), and the statements the menu runs are recorded as `Menu.Query` values. Properties that depend on the database are therefore not stated: credit sums, add-then-drop, re-lookup after creation.
- `DatabaseTunnel` (`db_tunnel`) is not part of this model; its forwarded port is a parameter of `CommandLine.Launch`.
- Console output: the menu text, the printed course rows, the `Welcome` line, the `printHelp` text, and the formatting of the credit line (the source prints the float `0.0` for a NULL sum; the model uses the integer 0). `time.sleep` is left out as well. `exit()` and the nested restart are the outcomes `SignIn.Exit` and `SignIn.Restart`, not effects.
- The composition inside `runApp` (read the id, call `signIn`, enter the loop) is not one member: `SignIn.SignIn` gives the returned value, and `Menu.RunMenu` takes it as its `student` parameter.
- Error reporting in `main`'s `try`/`except` blocks (including the echoed password), and the exceptions themselves. An `IndexError` or end of input ends `RunMenu` with an `End` value; database errors are not modelled.
- `CourseSearch.Like` compares characters exactly. The store's collation (often case-insensitive) is not modelled. A lone trailing backslash in a pattern is taken literally; the patterns built here always end in `%`.
- The default password's value: the source hard-codes an access token as the `password` default, and `CommandLine.DefaultPassword` keeps a placeholder in its place. The default database name and user are reproduced.
