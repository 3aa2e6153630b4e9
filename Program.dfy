/** `main` of uiautomatorstartall.cpp: the argument check, the parsing of
    the three positional arguments, the registry and the first scan of the
    poll loop. */
module Program {
  import opened Devices
  import opened Worker

  /** `EXIT_FAILURE` of `<cstdlib>`. */
  const ExitFailure := 1

  /** The fewest entries of `argv` (program name included) that let the
      program start. */
  const MinArgc := 4

  /** What the usage line prints after the program name: the first
      argument name, then the rest of the synopsis. */
  const UsageArgs := "adbpath" + " sleeptime ADBDEVICE/ADBDEVICE1/ADBDEVICE2 ...\n"

  /** What the example line prints after the program name: a bridge path,
      then the rest of a sample command line. */
  const ExampleArgs := "adb.exe" + " 5000 127.0.0.1:5555/127.0.0.1:5570/127.0.0.1:5585/127.0.0.1:5590/127.0.0.1:5595\n"

  /** The header printed once before the poll loop. */
  const DevicesHeader := "Devices:\n"

  /** `argv[0]`, or nothing when the program was started without one. */
  function ProgramName(argv: seq<string>): string {
    if |argv| > 0 then argv[0] else []
  }

  /** The usage line: the program name, `gap`, then the argument
      synopsis. */
  function UsageLine(name: string, gap: string): string {
    "Usage: " + name + gap + UsageArgs
  }

  /** The example line: the program name, `gap`, then a sample command
      line. */
  function ExampleLine(name: string, gap: string): string {
    "Example: " + name + gap + ExampleArgs
  }

  /** The two lines as the program writes them to standard error: the
      usage line opens with the program name, and nothing separates it from
      the synopsis that follows. */
  function UsageMessageAsWritten(argv: seq<string>): (m: string)
    ensures var n := ProgramName(argv);
      |m| > 7 + |n| && m[..7 + |n|] == "Usage: " + n && m[7 + |n|] == 'a'
  {
    var n := ProgramName(argv);
    UsageNameRunsOn(n);
    Within(UsageLine(n, ""), ExampleLine(n, ""), 7 + |n|);
    UsageLine(n, "") + ExampleLine(n, "")
  }

  /** The two lines with a space after the program name, as the usage
      text evidently means them to read: the usage line opens with the
      program name, then a space, then the synopsis. */
  function UsageMessage(argv: seq<string>): (m: string)
    ensures var n := ProgramName(argv);
      |m| > 8 + |n| && m[..7 + |n|] == "Usage: " + n && m[7 + |n|] == ' ' && m[8 + |n|] == 'a'
  {
    var n := ProgramName(argv);
    UsageNameSeparated(n);
    Within(UsageLine(n, " "), ExampleLine(n, " "), 7 + |n|);
    Within(UsageLine(n, " "), ExampleLine(n, " "), 8 + |n|);
    UsageLine(n, " ") + ExampleLine(n, " ")
  }

  /** Up to a position inside the first part, a concatenation reads as its
      first part. */
  lemma Within(head: string, tail: string, k: nat)
    requires k < |head|
    ensures (head + tail)[..k] == head[..k] && (head + tail)[k] == head[k]
  {
  }

  /** What comes first in a concatenation, and the character right after
      it. */
  lemma Follows(head: string, tail: string)
    ensures (head + tail)[..|head|] == head
    ensures |tail| > 0 ==> (head + tail)[|head|] == tail[0]
  {
  }

  /** As written, the program name runs straight into the first argument
      name: "Usage: ./main" is followed by "adbpath", not by a space. */
  lemma UsageNameRunsOn(name: string)
    ensures var u := UsageLine(name, "");
      |u| > 7 + |name| && u[..7 + |name|] == "Usage: " + name && u[7 + |name|] == 'a'
  {
    assert "Usage: " + name + "" == "Usage: " + name;
    Follows("Usage: " + name, UsageArgs);
  }

  /** As written, the example line runs the program name straight into the
      bridge path: "Example: ./main" is followed by "adb.exe". */
  lemma ExampleNameRunsOn(name: string)
    ensures var e := ExampleLine(name, "");
      |e| > 9 + |name| && e[..9 + |name|] == "Example: " + name && e[9 + |name|] == 'a'
  {
    assert "Example: " + name + "" == "Example: " + name;
    Follows("Example: " + name, ExampleArgs);
  }

  /** With the space, the program name stands on its own in the usage line
      and the synopsis starts after the space. */
  lemma UsageNameSeparated(name: string)
    ensures var u := UsageLine(name, " ");
      |u| > 8 + |name| && u[..7 + |name|] == "Usage: " + name &&
      u[7 + |name|] == ' ' && u[8 + |name|] == 'a'
  {
    assert UsageLine(name, " ") == ("Usage: " + name + " ") + UsageArgs;
    Follows("Usage: " + name, " ");
    Follows("Usage: " + name + " ", UsageArgs);
  }

  /** With the space, the program name stands on its own in the example
      line and the sample command line starts after the space. */
  lemma ExampleNameSeparated(name: string)
    ensures var e := ExampleLine(name, " ");
      |e| > 10 + |name| && e[..9 + |name|] == "Example: " + name &&
      e[9 + |name|] == ' ' && e[10 + |name|] == 'a'
  {
    assert ExampleLine(name, " ") == ("Example: " + name + " ") + ExampleArgs;
    Follows("Example: " + name, " ");
    Follows("Example: " + name + " ", ExampleArgs);
  }

  /** How `main` gets under way: it stops with the usage message, or it
      runs with the bridge path, the unparsed poll interval, what it has
      written to standard output, the records the first scan dispatched and
      the commands those workers handed to `system()`. */
  datatype Launch =
    | Usage(message: string, status: int)
    | Running(adbExe: string, sleepArg: string, stdout: seq<string>,
              dispatched: seq<nat>, commands: seq<string>)

  /** `main` up to the end of the first pass of its poll loop. With fewer
      than three arguments it reports the usage (in its corrected form,
      with a space after the program name) and fails before anything
      is parsed or any record exists. Otherwise the bridge path is
      `argv[1]`, the records are the names of `argv[3]` with their flags
      set, and the first scan prints every record as idle and dispatches a
      worker for each of them, in registry order. */
  method Start(argv: seq<string>) returns (launch: Launch, devices: seq<DeviceInfo>)
    ensures launch.Usage? <==> |argv| < MinArgc
    ensures launch.Usage? ==>
      launch.message == UsageMessage(argv) && launch.status == ExitFailure && devices == []
    ensures launch.Running? ==>
      launch.adbExe == argv[1] && launch.sleepArg == argv[2] &&
      Names(devices) == DeviceNames(argv[3]) && (forall d <- devices :: d.done) &&
      |launch.stdout| == |devices| + 1 && launch.stdout[0] == DevicesHeader &&
      (forall k :: 0 <= k < |devices| ==> launch.stdout[k + 1] == StatusLine(devices[k].name, true)) &&
      |launch.dispatched| == |devices| &&
      (forall k :: 0 <= k < |devices| ==> launch.dispatched[k] == k) &&
      launch.commands == WorkerBatch(argv[1], Names(devices))
  {
    if |argv| < MinArgc {
      return Usage(UsageMessage(argv), ExitFailure), [];
    }
    var sleepArg := argv[2];
    var adbExe: string := [];
    adbExe := adbExe + argv[1];
    assert adbExe == argv[1];
    devices := GetDevices(argv[3]);
    ghost var names := Names(devices);
    ghost var flags := Flags(devices);
    var dispatched, lines, commands := Scan(devices, adbExe);
    AllIdleDispatchesAll(flags);
    IdleNamesAllSet(names, flags);
    forall k | 0 <= k < |devices|
      ensures lines[k] == StatusLine(devices[k].name, true)
    {
      StatusLinesAt(names, flags, k);
    }
    launch := Running(adbExe, sleepArg, [DevicesHeader] + lines, dispatched, commands);
  }
}
