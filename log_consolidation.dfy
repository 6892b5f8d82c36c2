/**
  Consolidation of the transfer logs of a package into its provenance log
  (`consolidate_logs`): every line of every input log, in the order the
  logs are given, is appended to `<package>/logs/<uuid>_sip_log.log`.

  Files are modelled as a map from path to the lines `readlines` returns.
  The destination is tracked separately (`None` while it does not exist),
  since an input log that is the destination itself is read as it stands.
 */
module LogConsolidation {
  import opened Wrappers
  import opened PosixPath

  /** Why a consolidation stops early. */
  datatype LogError =
    | MissingLog(name: string)   // `open(log, 'r')` raises IOError
    | BytesRequired              // Python 3: writing a `str` to a file opened with 'ab' raises TypeError

  /** The destination log afterwards (`None`: never created) and the error that ended the run, if any. */
  datatype LogOutcome = LogOutcome(destination: Option<seq<string>>, error: Option<LogError>)

  /** The package's provenance log: `<path>/logs/<uuid>_sip_log.log` with `uuid` the basename of `path`. */
  function SipLogPath(path: string): string {
    Join(path, "logs" + "/" + Basename(path) + "_sip_log.log")
  }

  /** The contents of a file: `None` when it does not exist. */
  function Lookup(files: map<string, seq<string>>, name: string): Option<seq<string>> {
    if name in files then Some(files[name]) else None
  }

  /** What reading `name` yields while the destination holds `current`. */
  function ReadLog(files: map<string, seq<string>>, dest: string, current: Option<seq<string>>, name: string)
    : Option<seq<string>>
  {
    if name == dest then current else Lookup(files, name)
  }

  /** The outcome of appending the logs `names`, in order, to a destination holding `current`. */
  function Appended(files: map<string, seq<string>>, dest: string, names: seq<string>, current: Option<seq<string>>)
    : LogOutcome
    decreases |names|
  {
    if names == [] then LogOutcome(current, None)
    else match ReadLog(files, dest, current, names[0])
      case None => LogOutcome(current, Some(MissingLog(names[0])))
      case Some(lines) => Appended(files, dest, names[1..], Some(current.GetOr([]) + lines))
  }

  /** The lines of the logs `names`, one log after the other. */
  function ConcatLogs(files: map<string, seq<string>>, names: seq<string>): seq<string>
    requires forall i | 0 <= i < |names| :: names[i] in files
    decreases |names|
  {
    if names == [] then [] else files[names[0]] + ConcatLogs(files, names[1..])
  }

  /** The total number of lines of the logs `names`. */
  function TotalLines(files: map<string, seq<string>>, names: seq<string>): nat
    requires forall i | 0 <= i < |names| :: names[i] in files
    decreases |names|
  {
    if names == [] then 0 else |files[names[0]]| + TotalLines(files, names[1..])
  }

  /**
    Appends every input log to the package's provenance log. Stops at the
    first input log that cannot be opened, after the ones before it have
    been appended.
   */
  method ConsolidateLogs(lognames: seq<string>, path: string, files: map<string, seq<string>>)
    returns (dest: string, outcome: LogOutcome)
    ensures dest == SipLogPath(path)
    ensures outcome == Appended(files, dest, lognames, Lookup(files, dest))
  {
    var uuid := Basename(path);
    dest := Join(path, "logs" + "/" + uuid + "_sip_log.log");
    var current := Lookup(files, dest);
    var i := 0;
    while i < |lognames|
      invariant 0 <= i <= |lognames|
      invariant Appended(files, dest, lognames, Lookup(files, dest)) == Appended(files, dest, lognames[i..], current)
    {
      var log := lognames[i];
      var read := ReadLog(files, dest, current, log);
      if read.None? {
        outcome := LogOutcome(current, Some(MissingLog(log)));
        return;
      }
      var logLines := read.value;
      var destLines := current.GetOr([]);
      var k := 0;
      while k < |logLines|
        invariant 0 <= k <= |logLines|
        invariant destLines == current.GetOr([]) + logLines[..k]
      {
        destLines := destLines + [logLines[k]];
        k := k + 1;
      }
      assert logLines[..k] == logLines;
      assert lognames[i..][1..] == lognames[i + 1..];
      current := Some(destLines);
      i := i + 1;
    }
    outcome := LogOutcome(current, None);
  }

  /**
    When every input log exists and none is the destination itself, the
    destination gains exactly the lines of the input logs, log after log,
    and nothing goes wrong.
   */
  lemma {:induction false} AppendedAllPresent(files: map<string, seq<string>>, dest: string,
                                              names: seq<string>, current: Option<seq<string>>)
    requires forall i | 0 <= i < |names| :: names[i] in files && names[i] != dest
    ensures Appended(files, dest, names, current)
         == LogOutcome(if names == [] then current else Some(current.GetOr([]) + ConcatLogs(files, names)), None)
    decreases |names|
  {
    if names != [] {
      var next := Some(current.GetOr([]) + files[names[0]]);
      assert ReadLog(files, dest, current, names[0]) == Some(files[names[0]]);
      AppendedAllPresent(files, dest, names[1..], next);
      if names[1..] == [] {
        assert ConcatLogs(files, names) == files[names[0]];
      } else {
        assert ConcatLogs(files, names) == files[names[0]] + ConcatLogs(files, names[1..]);
        assert next.value + ConcatLogs(files, names[1..]) == current.GetOr([]) + ConcatLogs(files, names);
      }
    }
  }

  /** The number of lines added is the sum of the input logs' line counts. */
  lemma {:induction false} ConcatLogsLength(files: map<string, seq<string>>, names: seq<string>)
    requires forall i | 0 <= i < |names| :: names[i] in files
    ensures |ConcatLogs(files, names)| == TotalLines(files, names)
    decreases |names|
  {
    if names != [] {
      ConcatLogsLength(files, names[1..]);
    }
  }

  /**
    Line `j` of input log `i` lands right after the lines of the logs before
    it: the order within each log and the order of the logs are kept.
   */
  lemma ConcatLogsAt(files: map<string, seq<string>>, names: seq<string>, i: nat, j: nat)
    requires forall k | 0 <= k < |names| :: names[k] in files
    requires i < |names| && j < |files[names[i]]|
    ensures TotalLines(files, names[..i]) + j < |ConcatLogs(files, names)|
    ensures ConcatLogs(files, names)[TotalLines(files, names[..i]) + j] == files[names[i]][j]
    decreases i
  {
    ConcatLogsLength(files, names[..i]);
    if i > 0 {
      assert names[1..][..i - 1] == names[..i][1..];
      ConcatLogsAt(files, names[1..], i - 1, j);
    }
  }

  /**
    A missing input log ends the run: the logs before it have been appended,
    and the error names it.
   */
  lemma {:induction false} AppendedStopsAtMissing(files: map<string, seq<string>>, dest: string,
                                                  names: seq<string>, current: Option<seq<string>>, k: nat)
    requires k < |names| && names[k] !in files && names[k] != dest
    requires forall i | 0 <= i < k :: names[i] in files && names[i] != dest
    ensures Appended(files, dest, names, current)
         == LogOutcome(if k == 0 then current else Some(current.GetOr([]) + ConcatLogs(files, names[..k])),
                       Some(MissingLog(names[k])))
    decreases k
  {
    if k > 0 {
      var next := Some(current.GetOr([]) + files[names[0]]);
      assert ReadLog(files, dest, current, names[0]) == Some(files[names[0]]);
      AppendedStopsAtMissing(files, dest, names[1..], next, k - 1);
      assert names[1..][..k - 1] == names[..k][1..];
      if k == 1 {
        assert ConcatLogs(files, names[..k]) == files[names[0]];
      } else {
        assert ConcatLogs(files, names[..k]) == files[names[0]] + ConcatLogs(files, names[1..][..k - 1]);
        assert next.value + ConcatLogs(files, names[1..][..k - 1]) == current.GetOr([]) + ConcatLogs(files, names[..k]);
      }
    }
  }

  /** Whatever the inputs, the destination's earlier contents stay a prefix of its new contents. */
  lemma {:induction false} AppendedKeepsPrefix(files: map<string, seq<string>>, dest: string,
                                               names: seq<string>, current: Option<seq<string>>)
    ensures var d := Appended(files, dest, names, current).destination;
      current.Some? ==> d.Some? && current.value <= d.value
    decreases |names|
  {
    if names != [] {
      var read := ReadLog(files, dest, current, names[0]);
      if read.Some? {
        var next := Some(current.GetOr([]) + read.value);
        AppendedKeepsPrefix(files, dest, names[1..], next);
      }
    }
  }

  /**
    `consolidate_logs` as written, run by Python 3: the destination is opened
    with 'ab' (which creates it), and the first `str` line written to it
    raises TypeError, so no line is ever copied.
   */
  function AppendedBinaryMode(files: map<string, seq<string>>, dest: string, names: seq<string>,
                              current: Option<seq<string>>): LogOutcome
    decreases |names|
  {
    if names == [] then LogOutcome(current, None)
    else match ReadLog(files, dest, current, names[0])
      case None => LogOutcome(current, Some(MissingLog(names[0])))
      case Some(lines) =>
        var created := Some(current.GetOr([]));
        if lines != [] then LogOutcome(created, Some(BytesRequired))
        else AppendedBinaryMode(files, dest, names[1..], created)
  }

  /** As written, the destination never gains a line. */
  lemma {:induction false} BinaryModeCopiesNothing(files: map<string, seq<string>>, dest: string,
                                                   names: seq<string>, current: Option<seq<string>>)
    ensures AppendedBinaryMode(files, dest, names, current).destination.GetOr([]) == current.GetOr([])
    decreases |names|
  {
    if names != [] && ReadLog(files, dest, current, names[0]).Some? {
      BinaryModeCopiesNothing(files, dest, names[1..], Some(current.GetOr([])));
    }
  }

  /**
    The input that shows it: one existing input log with at least one line.
    As written, the run fails with TypeError and the line is lost; the text
    append copies it.
   */
  lemma BinaryModeLosesLines(files: map<string, seq<string>>, dest: string, log: string, current: Option<seq<string>>)
    requires log in files && log != dest && files[log] != []
    ensures AppendedBinaryMode(files, dest, [log], current)
         == LogOutcome(Some(current.GetOr([])), Some(BytesRequired))
    ensures Appended(files, dest, [log], current)
         == LogOutcome(Some(current.GetOr([]) + files[log]), None)
  {
  }
}
