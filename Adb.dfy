/** The text side of the adb bridge (adb_copy/core/adb_manager.py): the
    parser of `adb devices -l` output, the shell command lines for delete,
    create-directory, rename and existence checks, and how their results
    and failures are reported. Running a command is an oracle from the
    command line to its outcome. */
module Adb {
  import opened Text

  /** A connected device: its serial, its state ("device", "offline",
      "unauthorized", ...) and, when listed, its model. */
  datatype AdbDevice = AdbDevice(serial: string, state: string, model: Option<string>)

  /** What running a shell command yields: its standard output, the
      message of the failed subprocess (timeout or non-zero exit), or the
      message of the failure to start the adb executable at all. The
      bridge converts only the first kind of failure into a subprocess
      error; the second escapes every `except SubprocessError`. */
  datatype ShellResult = Output(text: string) | ShellError(message: string) | AdbMissing(message: string)

  /** A helper that returns nothing on success and re-raises a failure. */
  datatype Outcome = Done | Error(message: string)

  // ---------------------------------------------------------------------
  // `adb devices -l`

  /** `s.split(c, 1)[1]`: the text after the first `c`. */
  function AfterFirst(s: string, c: char): (r: string)
    requires c in s
    ensures |r| < |s| && r == s[|s| - |r|..]
    ensures s[|s| - |r| - 1] == c && c !in s[..|s| - |r| - 1]
  {
    if s[0] == c then s[1..] else AfterFirst(s[1..], c)
  }

  predicate IsModelToken(t: string) {
    StartsWith(t, "model:")
  }

  /** The model named by the first `model:` token, if any. */
  function FirstModel(tokens: seq<string>): Option<string> {
    if |tokens| == 0 then None
    else if IsModelToken(tokens[0]) then
      assert tokens[0][5] == ':';
      Some(AfterFirst(tokens[0], ':'))
    else FirstModel(tokens[1..])
  }

  /** The device one listed line describes, if any: the first two
      whitespace tokens are the serial and the state. */
  function DeviceOfLine(rawLine: string): Option<AdbDevice> {
    var line := Strip(rawLine);
    if line == [] then None
    else
      var parts := Words(line);
      if |parts| >= 2 then Some(AdbDevice(parts[0], parts[1], FirstModel(parts[2..])))
      else None
  }

  /** The lines after the header "List of devices attached". */
  function DeviceLines(stdout: string): seq<string> {
    Split(Strip(stdout), '\n')[1..]
  }

  /** What one line adds to the device list: its device, or nothing. */
  function LineDevices(line: string): seq<AdbDevice> {
    if DeviceOfLine(line).Some? then [DeviceOfLine(line).value] else []
  }

  /** The devices of the accepted lines, in line order. */
  function DevicesOf(lines: seq<string>): seq<AdbDevice> {
    if |lines| == 0 then []
    else DevicesOf(lines[..|lines| - 1]) + LineDevices(lines[|lines| - 1])
  }

  /** The `for part in parts[2:]` search with its `break`. */
  method FindModel(candidates: seq<string>) returns (model: Option<string>)
    ensures model == FirstModel(candidates)
  {
    model := None;
    var k := 0;
    while k < |candidates|
      invariant 0 <= k <= |candidates|
      invariant FirstModel(candidates) == FirstModel(candidates[k..])
    {
      if StartsWith(candidates[k], "model:") {
        assert candidates[k][5] == ':';
        model := Some(AfterFirst(candidates[k], ':'));
        return;
      }
      assert candidates[k..][1..] == candidates[k + 1..];
      k := k + 1;
    }
  }

  lemma DevicesOfStep(lines: seq<string>, i: nat)
    requires i < |lines|
    ensures DevicesOf(lines[..i + 1]) == DevicesOf(lines[..i]) + LineDevices(lines[i])
  {
    var pre := lines[..i + 1];
    assert pre[..|pre| - 1] == lines[..i];
    assert pre[|pre| - 1] == lines[i];
  }

  /** The parsing half of `get_devices`. */
  method ParseDevices(stdout: string) returns (devices: seq<AdbDevice>)
    ensures devices == DevicesOf(DeviceLines(stdout))
  {
    var lines := DeviceLines(stdout);
    devices := [];
    for i := 0 to |lines|
      invariant devices == DevicesOf(lines[..i])
    {
      DevicesOfStep(lines, i);
      var line := Strip(lines[i]);
      if line == [] {
        continue;
      }
      var parts := Words(line);
      if |parts| >= 2 {
        var model := FindModel(parts[2..]);
        devices := devices + [AdbDevice(parts[0], parts[1], model)];
      }
    }
    assert lines[..|lines|] == lines;
  }

  /** A `model:` token names the text after its colon. */
  lemma ModelAfterColon(t: string)
    requires IsModelToken(t)
    ensures ':' in t && AfterFirst(t, ':') == t[6..]
  {
    assert t[5] == ':';
  }

  /** `FirstModel` is the text after the colon of the earliest `model:`
      token, and None exactly when there is no such token. */
  lemma {:induction false} FirstModelSpec(tokens: seq<string>)
    ensures FirstModel(tokens).None? <==> forall k :: 0 <= k < |tokens| ==> !IsModelToken(tokens[k])
    ensures FirstModel(tokens).Some? ==>
      exists k :: 0 <= k < |tokens| && IsModelToken(tokens[k])
        && FirstModel(tokens).value == tokens[k][6..]
        && forall j :: 0 <= j < k ==> !IsModelToken(tokens[j])
  {
    if |tokens| > 0 {
      FirstModelSpec(tokens[1..]);
      if IsModelToken(tokens[0]) {
        ModelAfterColon(tokens[0]);
      } else if FirstModel(tokens).Some? {
        var k :| 0 <= k < |tokens[1..]| && IsModelToken(tokens[1..][k])
          && FirstModel(tokens[1..]).value == tokens[1..][k][6..]
          && forall j :: 0 <= j < k ==> !IsModelToken(tokens[1..][j]);
        assert IsModelToken(tokens[k + 1]);
        assert forall j :: 0 <= j < k + 1 ==> !IsModelToken(tokens[j]) by {
          forall j | 0 <= j < k + 1 ensures !IsModelToken(tokens[j]) {
            if j > 0 {
              assert tokens[j] == tokens[1..][j - 1];
            }
          }
        }
      } else {
        forall j | 0 <= j < |tokens| ensures !IsModelToken(tokens[j]) {
          if j > 0 {
            assert tokens[j] == tokens[1..][j - 1];
          }
        }
      }
    }
  }

  /** A line yields a device exactly when it holds at least two whitespace
      tokens; the serial and the state are those tokens verbatim. Blank
      lines yield nothing. */
  lemma DeviceLineFields(line: string)
    ensures DeviceOfLine(line).Some? <==> |Words(line)| >= 2
    ensures DeviceOfLine(line).Some? ==>
      DeviceOfLine(line) == Some(AdbDevice(Words(line)[0], Words(line)[1], FirstModel(Words(line)[2..])))
  {
    WordsOfStrip(line);
    if Strip(line) == [] {
      StripEmpty(line);
      WordsOfBlank(line);
    }
  }

  /** The header line never yields a device: the devices come from the
      lines after the first one of the stripped output. */
  lemma HeaderSkipped(stdout: string, header: string, body: string)
    requires Strip(stdout) == header + "\n" + body && '\n' !in header
    ensures DeviceLines(stdout) == Split(body, '\n')
  {
    SplitAround(header, body, '\n');
    SplitNoSep(header, '\n');
  }

  /** Output of a single line (the header alone) lists no device. */
  lemma HeaderOnly(stdout: string)
    requires '\n' !in Strip(stdout)
    ensures DevicesOf(DeviceLines(stdout)) == []
  {
    SplitNoSep(Strip(stdout), '\n');
  }

  /** Devices appear in line order, one per accepted line: the devices of
      two runs of lines are those of the first run followed by those of the
      second. */
  lemma {:induction false} DevicesInLineOrder(a: seq<string>, b: seq<string>)
    ensures DevicesOf(a + b) == DevicesOf(a) + DevicesOf(b)
    decreases |b|
  {
    if |b| == 0 {
      assert a + b == a;
    } else {
      var b0 := b[..|b| - 1];
      DevicesOfAppendStep(a, b);
      DevicesInLineOrder(a, b0);
      Associative(DevicesOf(a), DevicesOf(b0), LineDevices(b[|b| - 1]));
    }
  }

  /** Both `a + b` and `b` end in the last line of `b`. */
  lemma DevicesOfAppendStep(a: seq<string>, b: seq<string>)
    requires |b| > 0
    ensures DevicesOf(a + b) == DevicesOf(a + b[..|b| - 1]) + LineDevices(b[|b| - 1])
    ensures DevicesOf(b) == DevicesOf(b[..|b| - 1]) + LineDevices(b[|b| - 1])
  {
    var ab := a + b;
    var init := ab[..|ab| - 1];
    var line := ab[|ab| - 1];
    assert DevicesOf(ab) == DevicesOf(init) + LineDevices(line);
    assert init == a + b[..|b| - 1];
    assert line == b[|b| - 1];
  }

  /** One line gives its own device, or none. */
  lemma DevicesOfOne(line: string)
    ensures DevicesOf([line]) == (if DeviceOfLine(line).Some? then [DeviceOfLine(line).value] else [])
  {
    assert [line][..0] == [];
  }

  /** Every device comes from some accepted line, and no accepted line
      means no device. */
  lemma {:induction false} DevicesOrigin(lines: seq<string>)
    ensures |DevicesOf(lines)| <= |lines|
    ensures forall d :: d in DevicesOf(lines) ==> exists k :: 0 <= k < |lines| && DeviceOfLine(lines[k]) == Some(d)
    ensures (forall k :: 0 <= k < |lines| ==> DeviceOfLine(lines[k]).None?) ==> DevicesOf(lines) == []
  {
    if |lines| > 0 {
      var init := lines[..|lines| - 1];
      var last := lines[|lines| - 1];
      DevicesOrigin(init);
      forall d | d in DevicesOf(lines)
        ensures exists k :: 0 <= k < |lines| && DeviceOfLine(lines[k]) == Some(d)
      {
        if d in DevicesOf(init) {
          FromPrefixLine(init, lines, d);
        } else {
          assert d in LineDevices(last);
          assert DeviceOfLine(last) == Some(d);
        }
      }
      if forall k :: 0 <= k < |lines| ==> DeviceOfLine(lines[k]).None? {
        assert forall k :: 0 <= k < |init| ==> init[k] == lines[k];
      }
    }
  }

  /** A device read from a line of the prefix was read from a line of the
      whole run. */
  lemma FromPrefixLine(init: seq<string>, lines: seq<string>, d: AdbDevice)
    requires |lines| > 0 && init == lines[..|lines| - 1]
    requires exists k :: 0 <= k < |init| && DeviceOfLine(init[k]) == Some(d)
    ensures exists k :: 0 <= k < |lines| && DeviceOfLine(lines[k]) == Some(d)
  {
    var k :| 0 <= k < |init| && DeviceOfLine(init[k]) == Some(d);
    assert init[k] == lines[k];
  }

  // ---------------------------------------------------------------------
  // Shell command lines

  /** `rm -rf '<p>'` for a directory, `rm '<p>'` for a file. */
  function DeleteCommand(remotePath: string, isDir: bool): string {
    if isDir then "rm -rf '" + remotePath + "'" else "rm '" + remotePath + "'"
  }

  function MkdirCommand(remotePath: string): string {
    "mkdir -p '" + remotePath + "'"
  }

  function RenameCommand(oldPath: string, newPath: string): string {
    "mv '" + oldPath + "' '" + newPath + "'"
  }

  function ExistsCommand(remotePath: string): string {
    "test -e '" + remotePath + "' && echo 'YES' || echo 'NO'"
  }

  /** The path and the kind of deletion can be read back from the command
      line: it is `rm -rf '` or `rm '`, the path, then a closing quote. */
  lemma DeleteCommandDecodes(remotePath: string, isDir: bool)
    ensures var c := DeleteCommand(remotePath, isDir);
      (isDir <==> StartsWith(c, "rm -rf '"))
      && c[|c| - 1] == '\''
      && (isDir ==> c[8..|c| - 1] == remotePath)
      && (!isDir ==> c[4..|c| - 1] == remotePath)
  {
    var c := DeleteCommand(remotePath, isDir);
    if !isDir {
      assert c[3] == '\'';
    }
  }

  lemma DeleteCommandInjective(p1: string, d1: bool, p2: string, d2: bool)
    requires DeleteCommand(p1, d1) == DeleteCommand(p2, d2)
    ensures p1 == p2 && d1 == d2
  {
    DeleteCommandDecodes(p1, d1);
    DeleteCommandDecodes(p2, d2);
  }

  lemma MkdirCommandDecodes(remotePath: string)
    ensures var c := MkdirCommand(remotePath);
      StartsWith(c, "mkdir -p '") && c[|c| - 1] == '\'' && c[10..|c| - 1] == remotePath
  {
  }

  /** For an old path without a single quote, the rename command line
      determines both paths. */
  lemma RenameCommandDecodes(oldPath: string, newPath: string)
    requires '\'' !in oldPath
    ensures var c := RenameCommand(oldPath, newPath);
      StartsWith(c, "mv '") && c[|c| - 1] == '\''
      && c[4 + |oldPath|..4 + |oldPath| + 3] == "' '"
      && c[4..4 + |oldPath|] == oldPath
      && c[4 + |oldPath| + 3..|c| - 1] == newPath
  {
  }

  lemma RenameCommandInjective(o1: string, n1: string, o2: string, n2: string)
    requires '\'' !in o1 && '\'' !in o2
    requires RenameCommand(o1, n1) == RenameCommand(o2, n2)
    ensures o1 == o2 && n1 == n2
  {
    var c := RenameCommand(o1, n1);
    RenameCommandDecodes(o1, n1);
    RenameCommandDecodes(o2, n2);
    forall k | 4 <= k < 4 + |o1| ensures c[k] != '\'' {
      assert c[k] == c[4..4 + |o1|][k - 4];
    }
    forall k | 4 <= k < 4 + |o2| ensures c[k] != '\'' {
      assert c[k] == c[4..4 + |o2|][k - 4];
    }
    QuoteIndexIs(c, 4, 4 + |o1|);
    QuoteIndexIs(c, 4, 4 + |o2|);
  }

  /** The first single quote at or after `i`, or the length. */
  function QuoteIndex(c: string, i: nat): nat
    decreases |c| - i
  {
    if i >= |c| || c[i] == '\'' then i else QuoteIndex(c, i + 1)
  }

  lemma {:induction false} QuoteIndexIs(c: string, i: nat, j: nat)
    requires i <= j < |c| && c[j] == '\''
    requires forall k :: i <= k < j ==> c[k] != '\''
    ensures QuoteIndex(c, i) == j
    decreases j - i
  {
    if i < j {
      QuoteIndexIs(c, i + 1, j);
    }
  }

  /** Paths are put between quotes without escaping: an old path holding a
      quote makes two different renames share one command line. */
  lemma RenameCommandAmbiguous()
    ensures RenameCommand("a' 'b", "c") == RenameCommand("a", "b' 'c")
  {
  }

  // ---------------------------------------------------------------------
  // Running the commands

  /** `file_exists`: present exactly when the command ran and its stripped
      output is `YES`; a failed command counts as absent; a missing adb
      executable is not caught and escapes as `None`. */
  function FileExists(remotePath: string, run: string -> ShellResult): (present: Option<bool>)
    ensures present.None? <==> run(ExistsCommand(remotePath)).AdbMissing?
    ensures run(ExistsCommand(remotePath)).ShellError? ==> present == Some(false)
  {
    match run(ExistsCommand(remotePath))
    case Output(text) => Some(Strip(text) == "YES")
    case ShellError(_) => Some(false)
    case AdbMissing(_) => None
  }

  /** The check's output decides it: present exactly when the output is
      `YES` padded with whitespace on either side, absent otherwise. */
  lemma FileExistsDecision(remotePath: string, run: string -> ShellResult)
    ensures run(ExistsCommand(remotePath)).Output? ==>
      (FileExists(remotePath, run) == Some(true) <==>
         exists a, b :: AllSpace(a) && AllSpace(b) && run(ExistsCommand(remotePath)).text == a + "YES" + b)
    ensures run(ExistsCommand(remotePath)).Output? ==>
      (FileExists(remotePath, run) == Some(false) <==> Strip(run(ExistsCommand(remotePath)).text) != "YES")
  {
    var result := run(ExistsCommand(remotePath));
    if result.Output? {
      StripIsPadded(result.text, "YES");
    }
  }

  /** The answers the command prints: `"YES\n"`, and the `"YES\r\n"` of a
      pty shell, mean present; `"NO\n"` and any output without a `Y` mean
      absent. */
  lemma FileExistsAnswers(remotePath: string, run: string -> ShellResult)
    ensures run(ExistsCommand(remotePath)) == Output("YES\n") ==> FileExists(remotePath, run) == Some(true)
    ensures run(ExistsCommand(remotePath)) == Output("YES\r\n") ==> FileExists(remotePath, run) == Some(true)
    ensures run(ExistsCommand(remotePath)) == Output("NO\n") ==> FileExists(remotePath, run) == Some(false)
    ensures (run(ExistsCommand(remotePath)).Output? && !('Y' in run(ExistsCommand(remotePath)).text))
            ==> FileExists(remotePath, run) == Some(false)
  {
    var result := run(ExistsCommand(remotePath));
    if result == Output("YES\n") {
      PaddedStrip([], "YES", "\n");
      assert [] + "YES" + "\n" == "YES\n";
    }
    if result == Output("YES\r\n") {
      PaddedStrip([], "YES", "\r\n");
      assert [] + "YES" + "\r\n" == "YES\r\n";
    }
    if result.Output? && Strip(result.text) == "YES" {
      var a, b := StripPadding(result.text);
      assert result.text[|a|] == 'Y';
    }
  }

  /** Runs `command` and re-raises a subprocess failure behind `prefix`;
      a missing executable passes through with its own message. */
  function RunReporting(command: string, prefix: string, run: string -> ShellResult): (r: Outcome)
    ensures r.Done? <==> run(command).Output?
    ensures run(command).ShellError? ==> r == Error(prefix + run(command).message)
    ensures run(command).AdbMissing? ==> r == Error(run(command).message)
  {
    match run(command)
    case Output(_) => Done
    case ShellError(m) => Error(prefix + m)
    case AdbMissing(m) => Error(m)
  }

  /** `delete_file`: runs `rm` and reports a subprocess failure as a
      deletion failure. */
  function DeleteFile(remotePath: string, isDir: bool, run: string -> ShellResult): (r: Outcome)
    ensures r.Done? <==> run(DeleteCommand(remotePath, isDir)).Output?
    ensures run(DeleteCommand(remotePath, isDir)).ShellError? ==> r == Error("Deletion failed: " + run(DeleteCommand(remotePath, isDir)).message)
    ensures run(DeleteCommand(remotePath, isDir)).AdbMissing? ==> r == Error(run(DeleteCommand(remotePath, isDir)).message)
  {
    RunReporting(DeleteCommand(remotePath, isDir), "Deletion failed: ", run)
  }

  /** `create_directory`: runs `mkdir -p` and reports a subprocess failure as
      a creation failure. */
  function CreateDirectory(remotePath: string, run: string -> ShellResult): (r: Outcome)
    ensures r.Done? <==> run(MkdirCommand(remotePath)).Output?
    ensures run(MkdirCommand(remotePath)).ShellError? ==> r == Error("Directory creation failed: " + run(MkdirCommand(remotePath)).message)
    ensures run(MkdirCommand(remotePath)).AdbMissing? ==> r == Error(run(MkdirCommand(remotePath)).message)
  {
    RunReporting(MkdirCommand(remotePath), "Directory creation failed: ", run)
  }

  /** `rename_file`: runs `mv` and reports a subprocess failure as a
      rename failure. */
  function RenameFile(oldPath: string, newPath: string, run: string -> ShellResult): (r: Outcome)
    ensures r.Done? <==> run(RenameCommand(oldPath, newPath)).Output?
    ensures run(RenameCommand(oldPath, newPath)).ShellError? ==> r == Error("Rename failed: " + run(RenameCommand(oldPath, newPath)).message)
    ensures run(RenameCommand(oldPath, newPath)).AdbMissing? ==> r == Error(run(RenameCommand(oldPath, newPath)).message)
  {
    RunReporting(RenameCommand(oldPath, newPath), "Rename failed: ", run)
  }

  /** Each helper fails exactly when its command does not run; a
      subprocess failure carries the helper's own prefix, and a missing
      executable carries its message unchanged. */
  lemma FailuresArePrefixed(remotePath: string, isDir: bool, newPath: string, run: string -> ShellResult)
    ensures var c, r := run(DeleteCommand(remotePath, isDir)), DeleteFile(remotePath, isDir, run);
      (r.Error? <==> !c.Output?)
      && (c.ShellError? ==> StartsWith(r.message, "Deletion failed: "))
      && (c.AdbMissing? ==> r.message == c.message)
    ensures var c, r := run(MkdirCommand(remotePath)), CreateDirectory(remotePath, run);
      (r.Error? <==> !c.Output?)
      && (c.ShellError? ==> StartsWith(r.message, "Directory creation failed: "))
      && (c.AdbMissing? ==> r.message == c.message)
    ensures var c, r := run(RenameCommand(remotePath, newPath)), RenameFile(remotePath, newPath, run);
      (r.Error? <==> !c.Output?)
      && (c.ShellError? ==> StartsWith(r.message, "Rename failed: "))
      && (c.AdbMissing? ==> r.message == c.message)
  {
    var r1 := DeleteFile(remotePath, isDir, run);
    if run(DeleteCommand(remotePath, isDir)).ShellError? {
      assert r1.message[..|"Deletion failed: "|] == "Deletion failed: ";
    }
    var r2 := CreateDirectory(remotePath, run);
    if run(MkdirCommand(remotePath)).ShellError? {
      assert r2.message[..|"Directory creation failed: "|] == "Directory creation failed: ";
    }
    var r3 := RenameFile(remotePath, newPath, run);
    if run(RenameCommand(remotePath, newPath)).ShellError? {
      assert r3.message[..|"Rename failed: "|] == "Rename failed: ";
    }
  }
}
