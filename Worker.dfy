/** The device worker (`systemthread`) and one pass of the poll loop in
    `main` of uiautomatorstartall.cpp. The worker is run to completion at
    the moment the scan dispatches it, as a synchronous executor would. */
module Worker {
  import opened Devices

  /** The arguments between the bridge path and the device name in the
      connect command. */
  const ConnectArgs := " connect "

  /** The serial-number option between the bridge path and the device name
      in the run-server command. */
  const SerialArgs := " -s "

  /** The instrumentation that the run-server command starts on the device. */
  const InstrumentArgs := " shell am instrument -w -r -e debug false -e class com.github.uiautomator.stub.Stub com.github.uiautomator.test/androidx.test.runner.AndroidJUnitRunner"

  /** The shell command that connects the bridge to device `name`: the
      bridge path, then the connect arguments, and the device name last. */
  function ConnectCommand(adbExe: string, name: string): (cmd: string)
    ensures |cmd| == |adbExe| + |ConnectArgs| + |name|
    ensures cmd[..|adbExe|] == adbExe
    ensures cmd[|adbExe|..|adbExe| + |ConnectArgs|] == ConnectArgs
    ensures cmd[|adbExe| + |ConnectArgs|..] == name
  {
    adbExe + ConnectArgs + name
  }

  /** The shell command that starts the test server on device `name`: the
      bridge path, the serial option, the device name, and the
      instrumentation last. */
  function RunServerCommand(adbExe: string, name: string): (cmd: string)
    ensures |cmd| == |adbExe| + |SerialArgs| + |name| + |InstrumentArgs|
    ensures cmd[..|adbExe|] == adbExe
    ensures cmd[|adbExe|..|adbExe| + |SerialArgs|] == SerialArgs
    ensures cmd[|adbExe| + |SerialArgs|..|adbExe| + |SerialArgs| + |name|] == name
    ensures cmd[|cmd| - |InstrumentArgs|..] == InstrumentArgs
  {
    adbExe + SerialArgs + name + InstrumentArgs
  }

  /** The commands one worker runs, in the order it runs them: two
      different commands, the connect command first. */
  function WorkerCommands(adbExe: string, name: string): (cmds: seq<string>)
    ensures |cmds| == 2 && cmds[0] != cmds[1]
    ensures cmds[0] == ConnectCommand(adbExe, name)
  {
    CommandsDiffer(adbExe, name, name);
    [ConnectCommand(adbExe, name), RunServerCommand(adbExe, name)]
  }

  /** The connect command names its device unambiguously: the device name
      is what follows the fixed prefix, so two devices never share one. */
  lemma ConnectCommandInjective(adbExe: string, a: string, b: string)
    requires ConnectCommand(adbExe, a) == ConnectCommand(adbExe, b)
    ensures a == b
  {
    var n := |adbExe + ConnectArgs|;
    assert ConnectCommand(adbExe, a)[n..] == a;
    assert ConnectCommand(adbExe, b)[n..] == b;
  }

  /** The run-server command names its device unambiguously: the device
      name sits between the fixed prefix and the fixed instrumentation
      suffix. */
  lemma RunServerCommandInjective(adbExe: string, a: string, b: string)
    requires RunServerCommand(adbExe, a) == RunServerCommand(adbExe, b)
    ensures a == b
  {
    var n := |adbExe + SerialArgs|;
    var c := RunServerCommand(adbExe, a);
    assert |a| == |b|;
    assert c[n..n + |a|] == a;
    assert RunServerCommand(adbExe, b)[n..n + |b|] == b;
  }

  /** The two commands of a worker are never the same command, whatever the
      bridge path and the device names: they part right after the bridge
      path and its space. */
  lemma CommandsDiffer(adbExe: string, a: string, b: string)
    ensures ConnectCommand(adbExe, a) != RunServerCommand(adbExe, b)
  {
    var n := |adbExe|;
    assert ConnectCommand(adbExe, a)[n + 1] == 'c';
    assert RunServerCommand(adbExe, b)[n + 1] == '-';
  }

  /** `systemthread`: clear the record's flag, hand the connect command and
      then the run-server command to `system()`, and set the flag again,
      whatever the commands did. `system()` itself is not modelled: the
      commands handed to it come back as `commands`, in order, and `busy`
      records the record's flag at each hand-over. Only this record's flag
      changes. */
  method SystemThread(d: DeviceInfo, adbExe: string)
      returns (commands: seq<string>, ghost busy: seq<bool>)
    modifies d
    ensures d.done
    ensures commands == WorkerCommands(adbExe, d.name)
    ensures busy == [false, false]
  {
    d.done := false;
    var connectCmd := ConnectCommand(adbExe, d.name);
    var runServer := RunServerCommand(adbExe, d.name);
    commands := [connectCmd];
    busy := [d.done];
    commands := commands + [runServer];
    busy := busy + [d.done];
    d.done := true;
  }

  /** The flags of the records, in registry order. */
  function Flags(devices: seq<DeviceInfo>): (flags: seq<bool>)
    reads devices
    ensures |flags| == |devices|
    ensures forall k :: 0 <= k < |devices| ==> flags[k] == devices[k].done
  {
    seq(|devices|, k requires 0 <= k < |devices| reads devices => devices[k].done)
  }

  /** The positions whose flag is set, in increasing order: the records one
      scan dispatches a worker for. */
  function IdleIndices(flags: seq<bool>): (idx: seq<nat>)
    ensures |idx| <= |flags|
    ensures forall j :: 0 <= j < |idx| ==> idx[j] < |flags|
  {
    if flags == [] then []
    else
      var last := |flags| - 1;
      IdleIndices(flags[..last]) + (if flags[last] then [last] else [])
  }

  /** Looking at one more flag dispatches that record when it is set. */
  lemma IdleIndicesSnoc(flags: seq<bool>, i: nat)
    requires i < |flags|
    ensures IdleIndices(flags[..i + 1]) == IdleIndices(flags[..i]) + (if flags[i] then [i] else [])
  {
    assert flags[..i + 1][..i] == flags[..i];
  }

  /** A scan dispatches a worker for a record exactly when its flag is set,
      at most once, and in registry order. */
  lemma {:induction false} IdleIndicesSpec(flags: seq<bool>)
    ensures forall k :: 0 <= k < |flags| ==> (k in IdleIndices(flags) <==> flags[k])
    ensures forall i, j :: 0 <= i < j < |IdleIndices(flags)| ==>
      IdleIndices(flags)[i] < IdleIndices(flags)[j]
  {
    if flags != [] {
      var last := |flags| - 1;
      IdleIndicesSpec(flags[..last]);
    }
  }

  /** The status line the scan prints for one record: its name, a tab, and
      the flag as `std::ostream` prints a `bool` by default (1 or 0). */
  function StatusLine(name: string, done: bool): string {
    name + "\t" + (if done then "1" else "0") + "\n"
  }

  /** A status line is the name, a tab, one digit that is `1` exactly when
      the flag is set and `0` exactly when it is clear, and a newline. */
  lemma StatusLineShape(name: string, done: bool)
    ensures var line := StatusLine(name, done);
      |line| == |name| + 3 && line[..|name|] == name &&
      line[|name|] == '\t' && line[|name| + 2] == '\n' &&
      (line[|name| + 1] == '1' <==> done) && (line[|name| + 1] == '0' <==> !done)
  {
    var line := StatusLine(name, done);
    assert line == name + ("\t" + (if done then "1" else "0") + "\n");
  }

  /** The status lines of a scan, one per record, in registry order. */
  function StatusLines(names: seq<string>, flags: seq<bool>): (lines: seq<string>)
    requires |names| == |flags|
    ensures |lines| == |names|
  {
    if names == [] then []
    else
      var last := |names| - 1;
      StatusLines(names[..last], flags[..last]) + [StatusLine(names[last], flags[last])]
  }

  /** The scan prints one line per record, in registry order. */
  lemma {:induction false} StatusLinesAt(names: seq<string>, flags: seq<bool>, k: nat)
    requires |names| == |flags| && k < |names|
    ensures StatusLines(names, flags)[k] == StatusLine(names[k], flags[k])
  {
    var last := |names| - 1;
    if k < last {
      StatusLinesAt(names[..last], flags[..last], k);
    }
  }

  /** Printing one more record adds its line at the end. */
  lemma StatusLinesSnoc(names: seq<string>, flags: seq<bool>, i: nat)
    requires |names| == |flags| && i < |names|
    ensures StatusLines(names[..i + 1], flags[..i + 1]) ==
      StatusLines(names[..i], flags[..i]) + [StatusLine(names[i], flags[i])]
  {
    assert names[..i + 1][..i] == names[..i] && flags[..i + 1][..i] == flags[..i];
  }

  /** The names of the records whose flag is set, in registry order. */
  function IdleNames(names: seq<string>, flags: seq<bool>): (idle: seq<string>)
    requires |names| == |flags|
    ensures |idle| == |IdleIndices(flags)|
  {
    if names == [] then []
    else
      var last := |names| - 1;
      IdleNames(names[..last], flags[..last]) + (if flags[last] then [names[last]] else [])
  }

  /** The dispatched names are the names at the dispatched positions. */
  lemma {:induction false} IdleNamesAt(names: seq<string>, flags: seq<bool>, j: nat)
    requires |names| == |flags| && j < |IdleIndices(flags)|
    ensures IdleNames(names, flags)[j] == names[IdleIndices(flags)[j]]
  {
    var last := |names| - 1;
    if j < |IdleIndices(flags[..last])| {
      IdleNamesAt(names[..last], flags[..last], j);
    }
  }

  /** Looking at one more record adds its name when its flag is set. */
  lemma IdleNamesSnoc(names: seq<string>, flags: seq<bool>, i: nat)
    requires |names| == |flags| && i < |names|
    ensures IdleNames(names[..i + 1], flags[..i + 1]) ==
      IdleNames(names[..i], flags[..i]) + (if flags[i] then [names[i]] else [])
  {
    assert names[..i + 1][..i] == names[..i] && flags[..i + 1][..i] == flags[..i];
  }

  /** The commands that workers for the devices `names` run, one worker
      after the other. */
  function WorkerBatch(adbExe: string, names: seq<string>): (cmds: seq<string>)
    ensures |cmds| == 2 * |names|
  {
    if names == [] then []
    else
      var last := |names| - 1;
      WorkerBatch(adbExe, names[..last]) + WorkerCommands(adbExe, names[last])
  }

  /** One more worker adds its two commands at the end. */
  lemma WorkerBatchSnoc(adbExe: string, names: seq<string>, name: string)
    ensures WorkerBatch(adbExe, names + [name]) == WorkerBatch(adbExe, names) + WorkerCommands(adbExe, name)
  {
    assert (names + [name])[..|names|] == names;
  }

  /** Each worker's two commands sit side by side, connect first, in
      dispatch order. */
  lemma {:induction false} WorkerBatchAt(adbExe: string, names: seq<string>, j: nat)
    requires j < |names|
    ensures WorkerBatch(adbExe, names)[2 * j] == ConnectCommand(adbExe, names[j])
    ensures WorkerBatch(adbExe, names)[2 * j + 1] == RunServerCommand(adbExe, names[j])
  {
    var last := |names| - 1;
    if j < last {
      WorkerBatchAt(adbExe, names[..last], j);
    }
  }

  /** When every flag is set, a scan dispatches every record, in registry
      order. */
  lemma {:induction false} AllIdleDispatchesAll(flags: seq<bool>)
    requires forall k :: 0 <= k < |flags| ==> flags[k]
    ensures |IdleIndices(flags)| == |flags|
    ensures forall k :: 0 <= k < |flags| ==> IdleIndices(flags)[k] == k
  {
    if flags != [] {
      AllIdleDispatchesAll(flags[..|flags| - 1]);
    }
  }

  /** When every flag is set, every record's name is dispatched. */
  lemma {:induction false} IdleNamesAllSet(names: seq<string>, flags: seq<bool>)
    requires |names| == |flags|
    requires forall k :: 0 <= k < |flags| ==> flags[k]
    ensures IdleNames(names, flags) == names
  {
    if names != [] {
      var last := |names| - 1;
      IdleNamesAllSet(names[..last], flags[..last]);
      assert names == names[..last] + [names[last]];
    }
  }

  /** Scanning one more record adds its status line, and its index and its
      worker's commands when its flag is set. */
  lemma ScanStep(adbExe: string, names: seq<string>, flags: seq<bool>, i: nat)
    requires |names| == |flags| && i < |names|
    ensures StatusLines(names[..i + 1], flags[..i + 1]) ==
      StatusLines(names[..i], flags[..i]) + [StatusLine(names[i], flags[i])]
    ensures IdleIndices(flags[..i + 1]) ==
      IdleIndices(flags[..i]) + (if flags[i] then [i] else [])
    ensures WorkerBatch(adbExe, IdleNames(names[..i + 1], flags[..i + 1])) ==
      WorkerBatch(adbExe, IdleNames(names[..i], flags[..i])) +
      (if flags[i] then WorkerCommands(adbExe, names[i]) else [])
  {
    StatusLinesSnoc(names, flags, i);
    IdleIndicesSnoc(flags, i);
    IdleNamesSnoc(names, flags, i);
    var before := IdleNames(names[..i], flags[..i]);
    if flags[i] {
      WorkerBatchSnoc(adbExe, before, names[i]);
    } else {
      assert before + [] == before;
    }
  }

  /** The body of the poll loop for the record at `i`: print its status
      line and, when its flag is set, run a worker for it. The worker
      leaves the flag set, so no flag changes. */
  method Visit(devices: seq<DeviceInfo>, i: nat, adbExe: string)
      returns (idle: bool, line: string, ran: seq<string>)
    requires i < |devices|
    modifies devices[i]
    ensures idle == old(devices[i].done)
    ensures Flags(devices) == old(Flags(devices))
    ensures line == StatusLine(devices[i].name, idle)
    ensures ran == if idle then WorkerCommands(adbExe, devices[i].name) else []
  {
    var d := devices[i];
    idle := d.done;
    line := StatusLine(d.name, idle);
    if idle {
      ghost var flags := Flags(devices);
      assert forall k :: 0 <= k < |devices| && devices[k] == d ==> flags[k];
      ghost var busy;
      ran, busy := SystemThread(d, adbExe);
      forall k | 0 <= k < |devices|
        ensures devices[k].done == flags[k]
      {
        assert old(devices[k].done) == flags[k];
      }
    } else {
      ran := [];
    }
  }

  /** One scan of the poll loop: every record in registry order gets its
      status line, and a worker exactly when its flag is set. A worker
      leaves its own flag set, so the scan leaves every flag as it found
      it, and each record's dispatch depends only on its own flag.
      `commands` is what the workers hand to `system()`, worker by worker. */
  method Scan(devices: seq<DeviceInfo>, adbExe: string)
      returns (dispatched: seq<nat>, output: seq<string>, commands: seq<string>)
    modifies devices
    ensures dispatched == IdleIndices(old(Flags(devices)))
    ensures Flags(devices) == old(Flags(devices))
    ensures output == StatusLines(Names(devices), old(Flags(devices)))
    ensures commands == WorkerBatch(adbExe, IdleNames(Names(devices), old(Flags(devices))))
  {
    ghost var flags := Flags(devices);
    ghost var names := Names(devices);
    dispatched, output, commands := [], [], [];
    var i: nat := 0;
    while i < |devices|
      invariant i <= |devices|
      invariant Flags(devices) == flags
      invariant dispatched == IdleIndices(flags[..i])
      invariant output == StatusLines(names[..i], flags[..i])
      invariant commands == WorkerBatch(adbExe, IdleNames(names[..i], flags[..i]))
    {
      ScanStep(adbExe, names, flags, i);
      var idle, line, ran := Visit(devices, i, adbExe);
      output := output + [line];
      commands := commands + ran;
      if idle {
        dispatched := dispatched + [i];
      }
      i := i + 1;
    }
    assert flags[..i] == flags && names[..i] == names;
  }
}
