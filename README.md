# uiautomatorstartall in Dafny

`uiautomatorstartall` starts the UIAutomator2 test server on several
Android devices at once. It takes three arguments:

- the path of the `adb` bridge executable;
- a poll interval in milliseconds;
- a list of device addresses joined by `/`.

It splits the list into device records. It then polls forever. On every pass it prints each record's name and its "idle" flag. For each idle record it starts a worker thread that runs `adb connect` and then the instrumentation command for that device. While a worker runs, its record is marked busy.

This project models that core and proves properties about it:

- `Whitespace.dfy`: the three in-place strip helpers. Each is a method that takes the string's value and returns its new value. They are proved against the functions `TrimLeft`, `TrimRight` and `Trim`, and against the `std::find_if` positions `FirstNonSpace` and `EndOfNonSpace`.
- `Devices.dfy`: the `DeviceInfo` record, which is a class whose `done` flag the worker updates in place, and `get_devices`.
  - Splitting on `/` is specified by `SplitOn`, whose inverse is `Join`.
  - `Segments` covers the empty-input case of `std::views::split`.
  - The registered names are specified by `DeviceNames`.
- `Worker.dfy`:
  - the two command strings;
  - the worker `systemthread`;
  - the body of the poll loop (`Visit`);
  - one whole pass over the registry (`Scan`). It is specified by `IdleIndices`, `StatusLines`, `IdleNames` and `WorkerBatch`.
- `Program.dfy`: `main` up to the end of the first pass of its poll loop.
  - the argument check and the usage text;
  - the bridge path;
  - the registry;
  - the first scan.

Calls to `system()` are not executed. Each worker returns the commands it would hand to `system()`, in order, and a scan concatenates them.

## Model

| member | source | states |
|---|---|---|
| Whitespace.IsSpace | uiautomatorstartall.cpp:73 | a character counts as whitespace exactly when it is a space or one of the codes 9 to 13 (tab, newline, vertical tab, form feed, carriage return), as `std::isspace` decides in the "C" locale; the reverse search at line 82 uses the same test |
| Whitespace.FirstNonSpace | uiautomatorstartall.cpp:73 | the position where the forward search for a non-space character stops: every character before it is whitespace, and the character at it (if any) is not |
| Whitespace.EndOfNonSpace | uiautomatorstartall.cpp:82 | the position where the reverse search stops (its `.base()`): every character from it on is whitespace, and the character just before it (if any) is not |
| Whitespace.FirstNonSpaceUnique | uiautomatorstartall.cpp:73 | those conditions single out one position, so any loop that stops there has found the position `find_if` returns |
| Whitespace.EndOfNonSpaceUnique | uiautomatorstartall.cpp:82 | the same uniqueness for the reverse search |
| Whitespace.TrimLeft | uiautomatorstartall.cpp:67-74 | the left strip is no longer than the input and does not start with whitespace |
| Whitespace.TrimRight | uiautomatorstartall.cpp:76-83 | the right strip is no longer than the input, does not end with whitespace, and keeps the input's first character |
| Whitespace.Trim | uiautomatorstartall.cpp:84-92 | the full strip is no longer than the input, and neither of its ends is whitespace |
| Whitespace.TrimLeftIsSuffix | uiautomatorstartall.cpp:73 | the left strip erases exactly the range from the start up to where `find_if` stops |
| Whitespace.TrimRightIsPrefix | uiautomatorstartall.cpp:82 | the right strip erases exactly the range from where the reverse `find_if` stops to the end |
| Whitespace.TrimLeftShape | uiautomatorstartall.cpp:67-74 | the left strip is a suffix of the input, and everything it dropped is whitespace |
| Whitespace.TrimRightShape | uiautomatorstartall.cpp:76-83 | the right strip is a prefix of the input, and everything it dropped is whitespace |
| Whitespace.TrimShape | uiautomatorstartall.cpp:84-92 | the full strip is one contiguous piece of the input starting at its first non-space character, and everything cut off on either side is whitespace |
| Whitespace.TrimIdempotent | uiautomatorstartall.cpp:84-92 | stripping an already stripped string changes nothing |
| Whitespace.TrimEmptyIff | uiautomatorstartall.cpp:84-92 | a string strips to empty exactly when it is empty or all whitespace |
| Whitespace.TrimPadding | uiautomatorstartall.cpp:84-92 | whitespace padding around a string with non-space ends is removed, and nothing else is |
| Whitespace.TrimKeepsOut | uiautomatorstartall.cpp:84-92 | stripping never introduces a character, so a `/`-free piece strips to a `/`-free name |
| Whitespace.LStripSpacesInPlace | uiautomatorstartall.cpp:67-74 | `lstrip_spaces_inplace` leaves an empty string alone and otherwise yields the left strip |
| Whitespace.RStripSpacesInPlace | uiautomatorstartall.cpp:76-83 | `rstrip_spaces_inplace` leaves an empty string alone and otherwise yields the right strip |
| Whitespace.StripSpacesInPlace | uiautomatorstartall.cpp:84-92 | `strip_spaces_inplace` (empty check, then left strip, then right strip) yields the full strip |
| Devices.SplitOn | uiautomatorstartall.cpp:113 | splitting on `/` gives one more piece than there are separators, and no piece holds a separator |
| Devices.Segments | uiautomatorstartall.cpp:113-114 | the pieces the split view yields: none for an empty list (`s == []` gives no pieces), otherwise exactly `SplitOn(s)`, which is one more piece than there are separators |
| Devices.JoinSplitOn | uiautomatorstartall.cpp:113 | joining the pieces with `/` gives back the input, so the split loses nothing |
| Devices.SplitOnJoin | uiautomatorstartall.cpp:113 | splitting undoes joining separator-free pieces (the round trip in the other direction) |
| Devices.KeptNames | uiautomatorstartall.cpp:114-125 | there are never more kept names than pieces |
| Devices.Kept | uiautomatorstartall.cpp:116-119 | a piece contributes at most one name |
| Devices.KeptNamesAppend | uiautomatorstartall.cpp:114-125 | every piece contributes its name on its own, in place: keeping distributes over concatenation, so order is preserved and repeats are kept |
| Devices.KeptNamesMember | uiautomatorstartall.cpp:114-125 | a name is registered exactly when it is non-empty and is the strip of one of the pieces |
| Devices.KeptNamesWellFormed | uiautomatorstartall.cpp:114-125 | every kept name is non-empty, has no whitespace at either end, holds no separator, and is its own strip |
| Devices.DeviceNames | uiautomatorstartall.cpp:110-127 | an empty list registers no names, and no list registers more than (number of `/`) + 1 names |
| Devices.DeviceNamesWellFormed | uiautomatorstartall.cpp:110-127 | every registered name is non-empty, stripped and `/`-free, and there are at most (number of `/`) + 1 of them |
| Devices.DeviceNamesPadded | uiautomatorstartall.cpp:110-127 | a list with padding, a blank piece and a trailing `/` around two addresses registers just those two, in order |
| Devices.DeviceNamesExample | uiautomatorstartall.cpp:110-127 | `" 127.0.0.1:5555 / /127.0.0.1:5570/"` registers `127.0.0.1:5555` and `127.0.0.1:5570` |
| Devices.DeviceInfo.constructor | uiautomatorstartall.cpp:120-123 | a new record holds the stripped name and starts with its flag set |
| Devices.StripPiece | uiautomatorstartall.cpp:116-118 | stripping the piece at `i` returns exactly the names that piece adds to the registry |
| Devices.GetDevices | uiautomatorstartall.cpp:110-127 | `get_devices` returns one record per registered name, in order: each is a distinct new object with its flag set |
| Worker.ConnectCommand | uiautomatorstartall.cpp:101 | the connect command is the bridge path, then ` connect `, then the device name, which ends the command |
| Worker.RunServerCommand | uiautomatorstartall.cpp:102-104 | the run-server command is the bridge path, then ` -s `, then the device name, then the instrumentation suffix, which ends the command |
| Worker.WorkerCommands | uiautomatorstartall.cpp:105-106 | a worker hands over two different commands, and the connect command is the first |
| Worker.ConnectCommandInjective | uiautomatorstartall.cpp:101 | two devices never share a connect command |
| Worker.RunServerCommandInjective | uiautomatorstartall.cpp:102-104 | two devices never share a run-server command |
| Worker.CommandsDiffer | uiautomatorstartall.cpp:101-104 | a connect command is never a run-server command |
| Worker.SystemThread | uiautomatorstartall.cpp:98-108 | the worker clears its record's flag, hands the connect command and then the run-server command to `system()` with the flag clear at both hand-overs (the ghost trace `busy` is `[false, false]`), sets the flag at the end, and changes no other object |
| Worker.IdleIndices | uiautomatorstartall.cpp:145-153 | every dispatched position is a position of the registry, and there are no more of them than records |
| Worker.IdleIndicesSpec | uiautomatorstartall.cpp:145-153 | a scan dispatches a record if and only if its flag is set, at most once, in registry order |
| Worker.StatusLines | uiautomatorstartall.cpp:147-148 | a scan prints one line per record |
| Worker.StatusLineShape | uiautomatorstartall.cpp:147-148 | one status line is the record's name, a tab, `1` exactly when its flag is set and `0` exactly when it is clear, and a newline |
| Worker.StatusLinesAt | uiautomatorstartall.cpp:145-148 | line `k` is record `k`'s name, a tab and its flag printed as `1` or `0` |
| Worker.IdleNames | uiautomatorstartall.cpp:149-152 | there is one dispatched name per dispatched position |
| Worker.IdleNamesAt | uiautomatorstartall.cpp:149-152 | the `j`th dispatched name is the name at the `j`th dispatched position |
| Worker.WorkerBatch | uiautomatorstartall.cpp:105-106 | the workers for `n` devices hand exactly `2n` commands to `system()` |
| Worker.WorkerBatchAt | uiautomatorstartall.cpp:101-106 | worker `j`'s connect command comes at `2j` and its run-server command at `2j+1` |
| Worker.AllIdleDispatchesAll | uiautomatorstartall.cpp:145-152 | when every flag is set, a scan dispatches every record, in registry order |
| Worker.IdleNamesAllSet | uiautomatorstartall.cpp:145-152 | when every flag is set, every record's name is dispatched |
| Worker.ScanStep | uiautomatorstartall.cpp:145-153 | scanning one more record adds its status line, plus its position and its worker's two commands when its flag is set |
| Worker.Visit | uiautomatorstartall.cpp:146-152 | the loop body prints the record's line and, exactly when the flag is set, runs its worker's commands; afterwards no flag has changed |
| Worker.Scan | uiautomatorstartall.cpp:145-153 | a pass dispatches the set flags in order and prints every record's line; the commands run are those of the dispatched records' workers, in order; afterwards every flag is as it was |
| Program.UsageNameRunsOn | uiautomatorstartall.cpp:132 | as written, the usage line runs the program name into `adbpath` |
| Program.ExampleNameRunsOn | uiautomatorstartall.cpp:133-134 | as written, the example line runs the program name into `adb.exe` |
| Program.UsageNameSeparated | uiautomatorstartall.cpp:132 | corrected, the program name in the usage line is followed by a space and then `adbpath` |
| Program.ExampleNameSeparated | uiautomatorstartall.cpp:133-134 | corrected, the program name in the example line is followed by a space and then `adb.exe` |
| Program.UsageMessageAsWritten | uiautomatorstartall.cpp:132-134 | as written, the message opens with `Usage: ` and the program name, and the next character is the `a` of `adbpath` |
| Program.UsageMessage | uiautomatorstartall.cpp:132-134 | corrected, the message opens with `Usage: ` and the program name, then a space, then the `a` of `adbpath` |
| Program.Start | uiautomatorstartall.cpp:130-153 | see the two cases below |

`Program.Start` covers the two ways `main` can begin:

- With fewer than four `argv` entries, it returns the corrected usage message (see Findings) and fails with `EXIT_FAILURE` before any parsing. No records are created.
- Otherwise:
  - the bridge path is `argv[1]` and the registry is the names of `argv[3]`, all idle;
  - the program prints `Devices:` and then each name with `1`;
  - it dispatches every record in order and runs each worker's two commands.

## Left out

- Threads and atomics. `Scan` runs each worker to completion at the moment it is dispatched, as a single-threaded executor would. So a later scan always finds every flag set again. Runs in which a pass sees a flag that a still-running worker has cleared are not modelled.
- The thread handles `main` keeps in `allthreads` are not modelled.
- `system()` is not modelled: the commands are returned, not executed, and their exit status is ignored, as the source ignores it. How a shell splits a command into words is also not modelled.
- `Program.Start`: only the first pass of the infinite poll loop is modelled. The sleep between passes (`sleepcp`) and every later pass are left out; each later pass is a `Scan` over a registry whose flags are all set again.
- `atoi` on the poll interval is left out. `Program.Start` keeps `argv[2]` as an unparsed string.
- Output streams are modelled only as the text they receive. `std::cout` and `std::cerr` buffering is left out.
- `std::isspace` is modelled only for the "C" locale: space, `\t`, `\n`, `\v`, `\f`, `\r`. Other locales are left out.
- `DeviceInfo` keeps its flag as a plain field. The original holds it behind a `unique_ptr<atomic<bool>>`.
- The `adb_exe` global is a local variable of `Program.Start`. It starts empty and has `argv[1]` appended, as the global does.
- An `argv` with no entries at all leaves `argv[0]` null in C++, so printing it is undefined. `Program.ProgramName` uses the empty string instead.
- Program.Start: reports the corrected usage text, with a space after the program name, not the run-together text the source prints. The as-written text is `Program.UsageMessageAsWritten`.

## Findings

| source | as written | input that shows it | evidently intended | confidence | as-written member | corrected member |
|---|---|---|---|---|---|---|
| uiautomatorstartall.cpp:132 | the usage line streams the program name with no space before `adbpath` | `argv[0]` = `./main` prints `Usage: ./mainadbpath sleeptime ...` | `Usage: ./main adbpath sleeptime ...` | high; not executed | Program.UsageNameRunsOn | Program.UsageNameSeparated |
| uiautomatorstartall.cpp:133-134 | the example line streams the program name with no space before `adb.exe` | `argv[0]` = `./main` prints `Example: ./mainadb.exe 5000 ...` | `Example: ./main adb.exe 5000 ...` | high; not executed | Program.ExampleNameRunsOn | Program.ExampleNameSeparated |

`Program.UsageMessageAsWritten` is the message as written. `Program.UsageMessage` is the corrected message, and `Program.Start` prints it.
