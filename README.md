# Blacklisted-process monitor: a verified model

The program watches the processes of the logged-in user. Once a second it
takes a snapshot of them. It compares that snapshot with the previous one and
checks every newly started process against a fixed blacklist of
applications. Each hit is posted to a Discord channel with Kill and Info
buttons. This project models the logic inside that plumbing:

- `wrappers.dfy`: module `Wrappers`, the `Option` type.
- `text.dfy`: module `Text`, the Python built-ins the program relies on:
  - `' '.join` (`JoinSpace`);
  - literal substring occurrence (`Occurs`);
  - the decimal text of a count inside an f-string (`DecimalString`), with a
    reader (`ParseDecimal`) as its inverse.
- `rules.dfy`: module `Rules`, the blacklist table and the matcher:
  - `Blacklist` holds the seven entries, in order.
  - `FirstBinaryMatch` is the `next(...)` over the table.
  - `LookaheadPositions` and `ArgsFound` model the `re.findall` argument test.
  - `Match` is the whole decision for one process.
  - `MatchScanningOn` is the alternative reading, in which a failed argument
    test moves on to later rules. It serves as a reference to compare with.
- `monitor.dfy`: module `Monitor`, the user filter and the polling loop:
  - `GetProcesses` is `get_processes`.
  - The class `Snapshot` holds the stored pid set `last`.
  - `Snapshot.Tick` is one run of `monitor`: baseline, set difference,
    matching, snapshot update.
  - `ReportNew` is the loop over the new processes.
  - `Snapshot.Poll` is `Tick` after the user filter.
  - `Detections` is the specification of a tick, stated as a function.
- `info.dfy`: module `Info`, the command line shown by the Info button.
  `Truncate` cuts it to 256 characters and adds a note counting the omitted
  characters.

Inputs from the operating system are data:
- A process is a `Process` value: pid, name, owner and argv.
- A name of `None` stands for a process that exited before its name could be
  read (psutil's `NoSuchProcess`).
- An owner of `None` stands for one whose user name psutil could not read.
- `Snapshot.Tick` takes the filtered process list. `Snapshot.Poll` takes the
  whole enumeration together with the user name.

## Behaviour as written

Points where the behaviour of src/main.py is easy to misread:

- **No fallback to later rules.** The matcher takes the first rule whose
  binaries list the process name. If that rule's argument test fails, the
  loop moves on to the next process (`continue`, src/main.py:76-77). Later
  rules are never tried.
  - `FailedArgsStopsSearch` and `SharedBinaryStopsAtFirstRule` show the
    difference from scanning on.
  - In the shipped table, the executable names of the two entries with
    `args` appear in no later entry (`BlacklistArgsBinariesNotRepeated`). So
    both readings agree on every process (`BlacklistScanningOnAgrees`).
- **The argument condition.** `'args' in blacklisted is not None` is a
  chained comparison. It means `'args' in blacklisted and blacklisted is not
  None`, so it is true exactly when the rule declares `args`. It is not
  always true. `ArgsSatisfied` applies the argument test only to rules with
  `args`.
- **When a tick is a baseline.** The baseline is taken whenever the stored
  snapshot is empty (`len(last_processes) == 0`), not only on the first
  tick. A tick that finds no processes at all leaves the next tick as a
  baseline too.
- **An empty `args` list** would build the pattern `(?=())`, which matches
  at every position. The test would then always pass (`EmptyArgsAlwaysFound`).
  No rule in the table has an empty list.

## Model

| member | source | states |
|---|---|---|
| Rules.FirstBinaryMatch | src/main.py:72 | the index returned is that of a rule whose binaries contain the name, and no earlier rule lists it; `None` only when no rule lists it |
| Rules.LookaheadPositionsNonEmpty | src/main.py:76 | `findall` of the lookahead alternation returns something exactly when the alternation matches at some position of the line, end included |
| Rules.ArgsFoundIffOccurs | src/main.py:76 | for a non-empty list of literal arguments, the argument test passes if and only if one of them occurs in the line |
| Rules.EmptyArgsAlwaysFound | src/main.py:76 | an empty argument list gives a pattern that always matches, so the test passes on every line |
| Rules.MatchIsFirstBinaryRule | src/main.py:72-77 | a process is reported under rule r if and only if its name is readable, r is the first rule in table order listing that name, and r's argument test passes |
| Rules.NoArgsRuleIgnoresCmdline | src/main.py:75-78 | when the first rule listing the name has no `args`, the process is reported under it whatever its command line |
| Rules.ArgsRuleIffOccurs | src/main.py:76-78 | when the first rule listing the name has `args`, the process is reported if and only if one of those strings occurs in the space-joined command line |
| Rules.FailedArgsStopsSearch | src/main.py:76-77 | when the first rule listing the name rejects the arguments, the process is not reported at all, whatever later rules say |
| Rules.ScanningOnAgrees | src/main.py:72-77 | if no executable name of a rule with `args` is listed again by a later rule, stopping at the first binary match gives the same answer as scanning on to later rules |
| Rules.SharedBinaryStopsAtFirstRule | src/main.py:72-77 | with two rules sharing `java`, the first with an unmet argument test, the code reports nothing while scanning on would report the second |
| Rules.BlacklistArgsBinariesNotRepeated | src/main.py:14-45 | in the configured table, no executable name of an entry with `args` is listed again by a later entry |
| Rules.BlacklistScanningOnAgrees | src/main.py:14-45 | for the configured table both readings of the matcher agree on every process |
| Rules.JavaWithProfileIsAllTheMods | src/main.py:32-36 | `java -Dprofile=ATM9` is reported as All The Mods 9 |
| Rules.PlainJavaServerIsNotReported | src/main.py:32-36 | `java -jar server.jar` is not reported |
| Rules.GeometryDashAlwaysReported | src/main.py:20-23 | `GeometryDash.exe` is reported as Geometry Dash whatever its arguments |
| Text.JoinSpace | src/main.py:100 | the joined line is as long as all parts together plus one separator between each two neighbours |
| Text.OccursInJoin | src/main.py:76 | a string that occurs in one argument occurs in the space-joined command line |
| Text.CharNotInJoin | src/main.py:76 | a character other than a space that is in no argument is not in the space-joined command line |
| Text.DecimalString | src/main.py:102 | the count is written with digits only, at least one, and without a leading zero |
| Text.ParseDecimalString | src/main.py:102 | reading the written count back gives the count |
| Text.DecimalStringInjective | src/main.py:102 | different counts are written differently |
| Monitor.GetProcesses | src/main.py:120-126 | the result is the enumeration filtered to the processes owned by the user, in order; a process is kept if and only if it was enumerated and the user owns it |
| Monitor.OwnedByMembership | src/main.py:122-124 | a process is in the filtered list if and only if it was enumerated and its owner equals the user |
| Monitor.OwnedByConcat | src/main.py:122-124 | filtering keeps enumeration order: filtering two enumerations one after the other gives the two results one after the other |
| Monitor.ReportNew | src/main.py:70-78 | the detections listed are exactly the pairs (pid, matched rule) of the new processes the matcher accepts; when distinct processes have distinct pids, no pid is listed twice |
| Monitor.DetectionsCharacterized | src/main.py:64-78 | a detection is reported if and only if the stored snapshot is non-empty and some current process with that pid is absent from it and is matched to that rule |
| Monitor.BaselineReportsNothing | src/main.py:64-65 | a tick with an empty stored snapshot reports nothing |
| Monitor.UnchangedSnapshotReportsNothing | src/main.py:67-80 | a tick over the processes the previous tick stored reports nothing |
| Monitor.VanishedProcessSkipped | src/main.py:71-74 | a new process whose name lookup fails adds nothing; the tick reports what it would report without it |
| Monitor.GeometryDashScenario | src/main.py:60-80 | start-up with Geometry Dash running is silent, an unchanged second tick is silent, and a second Geometry Dash process is reported once under the Geometry Dash entry |
| Monitor.Snapshot.constructor | src/main.py:50 | the stored snapshot starts empty |
| Monitor.Snapshot.Tick | src/main.py:60-80 | afterwards the stored snapshot is the current pid set; the detections are exactly `Detections` of the old snapshot and the current processes; with distinct pids none is repeated |
| Monitor.OwnedByUniquePids | src/main.py:122-124 | when the enumeration has distinct pids, so has the user's filtered list |
| Monitor.Snapshot.Poll | src/main.py:61-80 | afterwards the stored snapshot is the pid set of the user's processes; the detections are exactly `Detections` of the old snapshot and those processes; when the enumeration has distinct pids, no pid is reported twice |
| Monitor.RepeatedTickReportsNothing | src/main.py:64-80 | two ticks over the same processes: the second reports nothing |
| Info.TruncateShowsOmittedCount | src/main.py:100-102 | a line of at most 256 characters is shown unchanged; a longer one keeps its first 256 characters, then ` ...(`, digits that read back as the number of omitted characters, and ` more characters)` |
| Info.TruncatedIffLong | src/main.py:101-102 | the shown text is longer than 256 characters if and only if the line was cut |
| Info.ThreeHundredCharacters | src/main.py:100-102 | a command line that joins to 300 characters shows its first 256 and ` ...(44 more characters)` |

## Left out

- Discord: the client, `on_ready`, the channel message, the embeds and the
  button views (src/main.py:52-58, 78, 82-118, 141-142) are network and UI.
  The model stops at the detection (pid, rule) that line 78 sends.
- psutil: `process_iter`, `Process(pid)`, `kill`, `cmdline`, `username`,
  `parent` are operating-system calls. Their results are input data.
- The Kill button (src/main.py:88-94) only wraps `kill()` in a try/except
  around the operating system. It is not modelled.
- The Info button's process lookup and displayed fields (src/main.py:98,
  104-105) are operating-system calls and display text. Only the command-line
  cut (lines 100-102) is modelled. The lookup at line 98 has no error
  handling, so no failure result is modelled for it.
- Process identity: psutil compares processes by pid and creation time. The
  model keys processes by pid only, so a pid reused by a new process is not
  seen as new.
- Monitor.Snapshot.Tick: the order of the detections is left unspecified,
  because Python iterates the set of new processes in an arbitrary order.
  Only the set of detections and the absence of repeats are stated.
- Monitor.Snapshot.Tick: when `cmdline()` at line 76 raises because the
  process has exited, the exception escapes the tick and the stored snapshot
  is not updated. The model takes argv as data and does not model that
  failure.
- Python's `name()` is called once per rule inside the generator (line 72).
  The model reads the name once. A process that exits part-way through the
  scan is treated as unreadable from the start.
- Regular expressions in general: the argument strings are put into the
  pattern unescaped. The model treats them as literal strings, which is
  exact for the table's strings (src/main.py:18, 35), which have no
  metacharacters.
- `get_applications` (src/main.py:128-139) is never called. It depends on
  parent-process lookups.
- Configuration and environment (`load_dotenv`, `os.getenv`,
  `int(CHANNEL_ID)`, `getpass.getuser()`) are environment reads. The user
  name is a parameter of `Snapshot.Poll`.
- The once-a-second timer and async execution (src/main.py:60) are
  scheduling. One tick is one call of `Snapshot.Tick`.
