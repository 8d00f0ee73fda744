/**
 * The size-rotating logger of src/logger.c.
 *
 * The global logger_t becomes the class Logger. Its fields mirror the
 * struct, the file handle is the flag `open`, and the file system is an
 * abstract map from path to the entries written there. A failing fopen or
 * rename is a boolean parameter and the strftime timestamp is a string
 * parameter. Each call is atomic; the mutex is modelled only to exhibit the
 * self-deadlock of the rotation notice (EmitAsWritten). Every method is proved
 * against a pure step function on the value type LoggerState, and the
 * lemmas about those functions carry the rotation and formatting rules.
 */
module Logging {
  import opened Wrappers
  import opened Text
  import Config

  /** logger.c:33, 10 MiB. */
  const MaxFileSize: nat := 10 * 1024 * 1024
  /** The size of backup_file at logger.c:107. */
  const BackupNameCapacity: nat := 1024
  /** The name logger.c:114 falls back to. */
  const FallbackBackupName: string := "access.log.backup"
  /** The size estimates of logger.c:171 and logger.c:208. */
  const LevelEntryEstimate: nat := 100
  const AccessEntryEstimate: nat := 200

  // ---------------------------------------------------------------------------
  // Levels and entry formats
  // ---------------------------------------------------------------------------

  /** log_level_t; OutOfRange stands for any other value of the enum type. */
  datatype Level = Debug | Info | Warning | Error | Access | OutOfRange(code: int)

  /** logger_level_to_string */
  function LevelName(level: Level): (name: string)
    ensures name == "UNKNOWN" <==> level.OutOfRange?
    ensures ']' !in name
  {
    match level
    case Debug => "DEBUG"
    case Info => "INFO"
    case Warning => "WARNING"
    case Error => "ERROR"
    case Access => "ACCESS"
    case OutOfRange(_) => "UNKNOWN"
  }

  /** Distinct levels of the enum have distinct names. */
  lemma LevelNamesDistinct(a: Level, b: Level)
    requires !a.OutOfRange? && !b.OutOfRange? && a != b
    ensures LevelName(a) != LevelName(b)
  {
  }

  /** The entry logger_log writes (logger.c:156-160), with the message already formatted; the newline ends the entry. */
  function LevelEntry(ts: string, level: Level, msg: string): string {
    "[" + ts + "] [" + LevelName(level) + "] " + msg
  }

  /** A null argument of logger_log_access printed as "-". */
  function OrDash(s: Option<string>): string {
    s.GetOr("-")
  }

  /** The part of an access entry after the timestamp. */
  function AccessFields(m: string, url: string, status: int, size: nat,
                        referer: Option<string>, userAgent: Option<string>): string
  {
    "] \"" + m + " " + url + " HTTP/1.1\" " + IntToString(status) + " " + NatToString(size)
    + " \"" + OrDash(referer) + "\" \"" + OrDash(userAgent) + "\""
  }

  /** The Combined Log Format entry of logger.c:197-199; the request line always names HTTP/1.1. */
  function AccessEntry(ip: string, ts: string, httpMethod: string, url: string, status: int, size: nat,
                       referer: Option<string>, userAgent: Option<string>): string
  {
    ip + " - - [" + ts + AccessFields(httpMethod, url, status, size, referer, userAgent)
  }

  function NotBracket(c: char): bool { c != ']' }

  /** Two texts that agree, each with a bracket-free part before a ']', agree in both parts. */
  lemma SplitAtBracket(a: string, x: string, b: string, y: string)
    requires ']' !in a && ']' !in b
    requires a + "]" + x == b + "]" + y
    ensures a == b && x == y
  {
    var s := a + "]" + x;
    assert forall i :: 0 <= i < |a| ==> NotBracket(a[i]) by {
      forall i | 0 <= i < |a| ensures NotBracket(a[i]) { assert a[i] in a; }
    }
    assert forall i :: 0 <= i < |b| ==> NotBracket(b[i]) by {
      forall i | 0 <= i < |b| ensures NotBracket(b[i]) { assert b[i] in b; }
    }
    assert s == a + ("]" + x) && s == b + ("]" + y);
    PrefixWhileStopsAt(a, "]" + x, NotBracket);
    PrefixWhileStopsAt(b, "]" + y, NotBracket);
    assert |a| == |b|;
    assert a == s[..|a|] == b;
    assert x == s[|a| + 1..] == y;
  }

  lemma LevelEntryShape(ts: string, level: Level, msg: string)
    ensures LevelEntry(ts, level, msg) == ("[" + ts + "] [") + (LevelName(level) + "]" + (" " + msg))
  {
  }

  /**
   * For one timestamp, a leveled entry determines its level's name and its
   * message: a reader splitting at the first "] " after the timestamp gets both back.
   */
  lemma LevelEntryInjective(ts: string, l1: Level, m1: string, l2: Level, m2: string)
    requires LevelEntry(ts, l1, m1) == LevelEntry(ts, l2, m2)
    ensures LevelName(l1) == LevelName(l2) && m1 == m2
  {
    var head := "[" + ts + "] [";
    LevelEntryShape(ts, l1, m1);
    LevelEntryShape(ts, l2, m2);
    var t1 := LevelName(l1) + "]" + (" " + m1);
    var t2 := LevelName(l2) + "]" + (" " + m2);
    assert head + t1 == head + t2;
    assert t1 == (head + t1)[|head|..];
    assert t2 == (head + t2)[|head|..];
    SplitAtBracket(LevelName(l1), " " + m1, LevelName(l2), " " + m2);
    assert m1 == (" " + m1)[1..];
    assert m2 == (" " + m2)[1..];
  }

  lemma RenderedStatus200()
    ensures IntToString(200) == "200"
  {
    assert NatToString(2) == "2";
    assert NatToString(20) == "20";
  }

  lemma RenderedSize2048()
    ensures NatToString(2048) == "2048"
  {
    assert NatToString(2) == "2";
    assert NatToString(20) == "20";
    assert NatToString(204) == "204";
  }

  lemma ExampleAccessFields()
    ensures AccessFields("GET", "/index.html", 200, 2048, Some("-"), Some("Mozilla/5.0"))
         == "] \"GET /index.html HTTP/1.1\" 200 2048 \"-\" \"Mozilla/5.0\""
  {
    RenderedStatus200();
    RenderedSize2048();
    ExampleRequestPart();
    ExampleClientPart();
  }

  lemma ExampleRequestPart()
    ensures "] \"" + "GET" + " " + "/index.html" + " HTTP/1.1\" " + "200"
         == "] \"GET /index.html HTTP/1.1\" 200"
  {
    assert "] \"" + "GET" + " " + "/index.html" == "] \"GET /index.html";
  }

  lemma ExampleClientPart()
    ensures "] \"GET /index.html HTTP/1.1\" 200" + " " + "2048" + " \"" + "-" + "\" \"" + "Mozilla/5.0" + "\""
         == "] \"GET /index.html HTTP/1.1\" 200 2048 \"-\" \"Mozilla/5.0\""
  {
    assert "] \"GET /index.html HTTP/1.1\" 200" + " " + "2048" == "] \"GET /index.html HTTP/1.1\" 200 2048";
    assert "] \"GET /index.html HTTP/1.1\" 200 2048" + " \"" + "-" == "] \"GET /index.html HTTP/1.1\" 200 2048 \"-";
  }

  /** The first access entry of src/main.c:110. */
  lemma AccessEntryExample(ts: string)
    ensures AccessEntry("127.0.0.1", ts, "GET", "/index.html", 200, 2048, Some("-"), Some("Mozilla/5.0"))
         == "127.0.0.1 - - [" + ts + "] \"GET /index.html HTTP/1.1\" 200 2048 \"-\" \"Mozilla/5.0\""
  {
    ExampleAccessFields();
  }

  /** A missing referer and a missing user agent are both written "-". */
  lemma AccessEntryMissingFields(ip: string, ts: string, m: string, url: string, status: int, size: nat)
    ensures AccessEntry(ip, ts, m, url, status, size, None, None)
         == AccessEntry(ip, ts, m, url, status, size, Some("-"), Some("-"))
  {
  }

  // ---------------------------------------------------------------------------
  // The file system
  // ---------------------------------------------------------------------------

  /** Path to the entries written there, each ended by a newline. */
  type Files = map<string, seq<string>>

  /** The size stat reports for a file: every entry and its newline, one byte per character. */
  function FileBytes(entries: seq<string>): nat
    decreases |entries|
  {
    if entries == [] then 0 else FileBytes(entries[..|entries| - 1]) + |entries[|entries| - 1]| + 1
  }

  /** fopen in mode "a": the file is created empty when it does not exist. */
  function OpenAppend(files: Files, path: string): Files {
    if path in files then files else files[path := []]
  }

  /** One fprintf and fflush of an entry to the open file. */
  function AppendEntry(files: Files, path: string, entry: string): Files {
    files[path := (if path in files then files[path] else []) + [entry]]
  }

  /** A successful rename. */
  function RenameFile(files: Files, from: string, to: string): Files
    requires from in files
  {
    (files - {from})[to := files[from]]
  }

  // ---------------------------------------------------------------------------
  // The logger state and its steps
  // ---------------------------------------------------------------------------

  /** logger_t; open stands for log_fp != NULL. */
  datatype LoggerState = LoggerState(
    logFile: string,
    open: bool,
    maxFileSize: nat,
    currentFileSize: nat,
    rotationCount: nat,
    files: Files)

  /** The static logger before logger_init: zeroed, no handle. */
  function Unset(files: Files): LoggerState {
    LoggerState("", false, 0, 0, 0, files)
  }

  /** An open handle refers to a file that exists, and the threshold is the fixed 10 MiB. */
  predicate Valid(s: LoggerState) {
    s.open ==> s.logFile in s.files && s.maxFileSize == MaxFileSize
  }

  /** The backup name of logger.c:107-116: "<path>.<count>", or the fixed fallback when that needs 1024 bytes or more. */
  function BackupName(path: string, count: nat): string {
    var written := |path| + 1 + |NatToString(count)|;
    if written >= BackupNameCapacity then FallbackBackupName else path + "." + NatToString(count)
  }

  /** The backup name always fits the 1024-byte buffer with its terminator. */
  lemma BackupNameFits(path: string, count: nat)
    ensures |BackupName(path, count)| < BackupNameCapacity
  {
  }

  /** The fallback is used exactly when "<path>.<count>" does not fit. */
  lemma BackupNameFallback(path: string, count: nat)
    ensures BackupName(path, count) == path + "." + NatToString(count)
        <==> |path| + 1 + |NatToString(count)| < BackupNameCapacity
  {
    if |path| + 1 + |NatToString(count)| >= BackupNameCapacity {
      assert |FallbackBackupName| < |path| + 1 + |NatToString(count)|;
    }
  }

  lemma DottedNameInjective(path: string, m: nat, n: nat)
    requires path + "." + NatToString(m) == path + "." + NatToString(n)
    ensures m == n
  {
    var p := path + ".";
    assert NatToString(m) == (p + NatToString(m))[|p|..];
    assert NatToString(n) == (p + NatToString(n))[|p|..];
    NatToStringInjective(m, n);
  }

  /** Successive rotations of a path short enough for its names produce distinct backups, so none overwrites another. */
  lemma BackupNamesDistinct(path: string, m: nat, n: nat)
    requires m != n
    requires |path| + 1 + |NatToString(m)| < BackupNameCapacity
    requires |path| + 1 + |NatToString(n)| < BackupNameCapacity
    ensures BackupName(path, m) != BackupName(path, n)
  {
    if BackupName(path, m) == BackupName(path, n) {
      DottedNameInjective(path, m, n);
    }
  }

  /** A backup name differs from the log path unless the path is the fallback name itself. */
  lemma BackupNameDiffersFromPath(path: string, count: nat)
    requires path != FallbackBackupName
    ensures BackupName(path, count) != path
  {
    if |path| + 1 + |NatToString(count)| < BackupNameCapacity {
      assert |path + "." + NatToString(count)| > |path|;
    }
  }

  /**
   * With a count that fits C's int (at most 10 digits) the backup is never the
   * log's own name, for every path: access.log.backup falls back to itself only
   * with a count of 1006 digits or more.
   */
  lemma BackupNameNeverThePath(path: string, count: nat)
    requires count < 0x8000_0000
    ensures BackupName(path, count) != path
  {
    if path == FallbackBackupName {
      MachineWordDigits(count);
      assert |path| + 1 + |NatToString(count)| < BackupNameCapacity;
      assert |path + "." + NatToString(count)| > |path|;
    } else {
      BackupNameDiffersFromPath(path, count);
    }
  }

  /** logger.c:100-132, the file work of a rotation once the threshold is reached: close, rename, reopen. */
  function RotateFile(s: LoggerState, renameFails: bool, reopenFails: bool): LoggerState {
    var backup := BackupName(s.logFile, s.rotationCount);
    var moved := if !renameFails && s.logFile in s.files then RenameFile(s.files, s.logFile, backup) else s.files;
    if reopenFails then s.(open := false, files := moved)
    else s.(open := true, files := OpenAppend(moved, s.logFile), currentFileSize := 0,
             rotationCount := s.rotationCount + 1)
  }

  /** The entry written to the open file with its size estimate added. */
  function WriteEntry(s: LoggerState, entry: string, estimate: nat): LoggerState {
    s.(files := AppendEntry(s.files, s.logFile, entry), currentFileSize := s.currentFileSize + estimate)
  }

  /** The notice of logger.c:133. */
  function RotationNotice(ts: string, backup: string): string {
    LevelEntry(ts, Info, "Log file rotated to " + backup)
  }

  /**
   * logger_rotate_if_needed. The notice of logger.c:133 is written directly
   * to the new file, as a logger_log that does not take the held mutex again
   * would write it (see LogAsWritten for the code as written).
   */
  function Rotate(s: LoggerState, ts: string, renameFails: bool, reopenFails: bool): LoggerState {
    if s.currentFileSize < s.maxFileSize then s
    else
      var r := RotateFile(s, renameFails, reopenFails);
      if r.open then WriteEntry(r, RotationNotice(ts, BackupName(s.logFile, s.rotationCount)), LevelEntryEstimate)
      else r
  }

  /** How a logging call ends: nothing to do, entry written, or a write through the null handle left by a failed reopen. */
  datatype Outcome = Skipped | Written | NullHandleWrite

  datatype StepResult = StepResult(state: LoggerState, outcome: Outcome)

  /** The common shape of logger_log and logger_log_access. */
  function Emit(s: LoggerState, entry: string, estimate: nat, ts: string, renameFails: bool, reopenFails: bool): StepResult {
    if !s.open then StepResult(s, Skipped)
    else
      var r := Rotate(s, ts, renameFails, reopenFails);
      if !r.open then StepResult(r, NullHandleWrite)
      else StepResult(WriteEntry(r, entry, estimate), Written)
  }

  /** logger_log */
  function LogStep(s: LoggerState, level: Level, msg: string, ts: string, renameFails: bool, reopenFails: bool): StepResult {
    Emit(s, LevelEntry(ts, level, msg), LevelEntryEstimate, ts, renameFails, reopenFails)
  }

  /** logger_log_access; None stands for a null referer or user agent. */
  function AccessStep(s: LoggerState, ip: string, httpMethod: string, url: string, status: int, size: nat,
                      referer: Option<string>, userAgent: Option<string>,
                      ts: string, renameFails: bool, reopenFails: bool): StepResult
  {
    Emit(s, AccessEntry(ip, ts, httpMethod, url, status, size, referer, userAgent), AccessEntryEstimate,
         ts, renameFails, reopenFails)
  }

  /** logger.c:30-48: the fields set and the file opened, before the startup message. */
  function InitOpen(s: LoggerState, path: string, openFails: bool): LoggerState {
    var base := s.(logFile := path, maxFileSize := MaxFileSize, currentFileSize := 0, rotationCount := 0);
    if openFails then base.(open := false)
    else
      var files := OpenAppend(s.files, path);
      base.(open := true, files := files, currentFileSize := FileBytes(files[path]))
  }

  function StartupMessage(path: string): string {
    "Logger initialized - Log file: " + path
  }

  datatype InitResult = InitResult(state: LoggerState, rc: int, outcome: Outcome)

  /** logger_init; None stands for a null config. */
  function InitStep(s: LoggerState, config: Option<Config.ConfigRecord>, ts: string,
                    openFails: bool, renameFails: bool, reopenFails: bool): InitResult
  {
    if config.None? then InitResult(s, -1, Skipped)
    else
      var o := InitOpen(s, config.value.logFile, openFails);
      if !o.open then InitResult(o, -1, Skipped)
      else
        var r := LogStep(o, Info, StartupMessage(o.logFile), ts, renameFails, reopenFails);
        InitResult(r.state, 0, r.outcome)
  }

  /** logger_close */
  function CloseStep(s: LoggerState, ts: string, renameFails: bool, reopenFails: bool): StepResult {
    var r := LogStep(s, Info, "Logger shutting down", ts, renameFails, reopenFails);
    StepResult(r.state.(open := false), r.outcome)
  }

  // ---------------------------------------------------------------------------
  // Properties of the steps
  // ---------------------------------------------------------------------------

  /** Below the threshold a rotation check changes nothing. */
  lemma RotateBelowThreshold(s: LoggerState, ts: string, renameFails: bool, reopenFails: bool)
    requires s.currentFileSize < s.maxFileSize
    ensures Rotate(s, ts, renameFails, reopenFails) == s
  {
  }

  /**
   * At the threshold with a successful reopen the counter restarts at 0 and
   * the rotation count grows by one; a successful rename moves the old
   * entries to the backup and leaves a new empty file, a failed one leaves
   * them at the path. Nothing else changes.
   */
  lemma RotateFileReopened(s: LoggerState, renameFails: bool)
    requires s.currentFileSize >= s.maxFileSize
    ensures var r := RotateFile(s, renameFails, false);
      var backup := BackupName(s.logFile, s.rotationCount);
      && r.open && r.currentFileSize == 0 && r.rotationCount == s.rotationCount + 1
      && r.logFile == s.logFile && r.maxFileSize == s.maxFileSize
      && s.logFile in r.files
      && (!renameFails && s.logFile in s.files && backup != s.logFile ==>
            backup in r.files && r.files[backup] == s.files[s.logFile] && r.files[s.logFile] == []
            && forall p :: p in s.files && p != s.logFile && p != backup ==> p in r.files && r.files[p] == s.files[p])
      && (renameFails && s.logFile in s.files ==> r.files == s.files)
  {
  }

  /**
   * A successful rename replaces whatever was stored under the backup name:
   * after it the backup holds the log's entries, whether or not that name
   * existed. Since logger_init restarts the count at 0, the first rotation
   * after a restart replaces the "<path>.0" of an earlier run.
   */
  lemma RotateFileReplacesBackup(s: LoggerState, reopenFails: bool)
    requires s.logFile in s.files
    ensures var backup := BackupName(s.logFile, s.rotationCount);
      var r := RotateFile(s, false, reopenFails);
      backup in r.files && r.files[backup] == s.files[s.logFile]
  {
  }

  /**
   * The first rotation after a logger_init moves the log to "<path>.0",
   * whatever an earlier run left under that name.
   */
  lemma RestartReusesFirstBackup(s: LoggerState, path: string)
    requires |path| + 2 < BackupNameCapacity
    ensures var o := InitOpen(s, path, false);
      var r := RotateFile(o, false, false);
      path + ".0" in r.files && r.files[path + ".0"] == o.files[path]
  {
    var o := InitOpen(s, path, false);
    InitOpenFields(s, path, false);
    assert NatToString(0) == "0";
    assert BackupName(path, 0) == path + "." + "0" == path + ".0";
    RotateFileReplacesBackup(o, false);
  }

  /** After a reopened rotation the new file holds the notice, and the counter is the notice's estimate. */
  lemma RotateNotice(s: LoggerState, ts: string, renameFails: bool)
    requires s.currentFileSize >= s.maxFileSize
    ensures var r := Rotate(s, ts, renameFails, false);
      var f := RotateFile(s, renameFails, false);
      && r.open && r.currentFileSize == LevelEntryEstimate && r.rotationCount == s.rotationCount + 1
      && r.files[s.logFile] == f.files[s.logFile] + [RotationNotice(ts, BackupName(s.logFile, s.rotationCount))]
  {
  }

  /** A failed reopen leaves no handle and the counter and rotation count as they were. */
  lemma RotateReopenFailed(s: LoggerState, ts: string, renameFails: bool)
    requires s.currentFileSize >= s.maxFileSize
    ensures var r := Rotate(s, ts, renameFails, true);
      && !r.open && r.currentFileSize == s.currentFileSize && r.rotationCount == s.rotationCount
      && r.logFile == s.logFile && r.maxFileSize == s.maxFileSize
  {
  }

  /** Without a handle logger_log and logger_log_access change nothing. */
  lemma EmitWithoutHandle(s: LoggerState, entry: string, estimate: nat, ts: string, renameFails: bool, reopenFails: bool)
    requires !s.open
    ensures Emit(s, entry, estimate, ts, renameFails, reopenFails) == StepResult(s, Skipped)
  {
  }

  lemma LogWithoutHandle(s: LoggerState, level: Level, msg: string, ts: string, renameFails: bool, reopenFails: bool)
    requires !s.open
    ensures LogStep(s, level, msg, ts, renameFails, reopenFails) == StepResult(s, Skipped)
  {
    EmitWithoutHandle(s, LevelEntry(ts, level, msg), LevelEntryEstimate, ts, renameFails, reopenFails);
  }

  /** An entry below the threshold is appended to the log file and its estimate added; nothing else changes. */
  lemma EmitBelowThreshold(s: LoggerState, entry: string, estimate: nat, ts: string, renameFails: bool, reopenFails: bool)
    requires s.open && s.logFile in s.files && s.currentFileSize < s.maxFileSize
    ensures var r := Emit(s, entry, estimate, ts, renameFails, reopenFails);
      && r.outcome == Written
      && r.state.files[s.logFile] == s.files[s.logFile] + [entry]
      && r.state.files.Keys == s.files.Keys
      && (forall p :: p in s.files && p != s.logFile ==> r.state.files[p] == s.files[p])
      && r.state.currentFileSize == s.currentFileSize + estimate
      && r.state.rotationCount == s.rotationCount && r.state.open
      && r.state.logFile == s.logFile && r.state.maxFileSize == s.maxFileSize
  {
    RotateBelowThreshold(s, ts, renameFails, reopenFails);
  }

  /** A leveled message appends "[ts] [LEVEL] msg" and adds 100. */
  lemma LogAppends(s: LoggerState, level: Level, msg: string, ts: string, renameFails: bool, reopenFails: bool)
    requires s.open && s.logFile in s.files && s.currentFileSize < s.maxFileSize
    ensures var r := LogStep(s, level, msg, ts, renameFails, reopenFails);
      && r.outcome == Written
      && r.state.files[s.logFile] == s.files[s.logFile] + ["[" + ts + "] [" + LevelName(level) + "] " + msg]
      && r.state.currentFileSize == s.currentFileSize + 100
      && r.state.rotationCount == s.rotationCount
  {
    EmitBelowThreshold(s, LevelEntry(ts, level, msg), LevelEntryEstimate, ts, renameFails, reopenFails);
  }

  /** An access entry appends the Combined Log Format line and adds 200. */
  lemma AccessAppends(s: LoggerState, ip: string, m: string, url: string, status: int, size: nat,
                      referer: Option<string>, userAgent: Option<string>,
                      ts: string, renameFails: bool, reopenFails: bool)
    requires s.open && s.logFile in s.files && s.currentFileSize < s.maxFileSize
    ensures var r := AccessStep(s, ip, m, url, status, size, referer, userAgent, ts, renameFails, reopenFails);
      && r.outcome == Written
      && r.state.files[s.logFile] == s.files[s.logFile] + [AccessEntry(ip, ts, m, url, status, size, referer, userAgent)]
      && r.state.currentFileSize == s.currentFileSize + 200
      && r.state.rotationCount == s.rotationCount
  {
    EmitBelowThreshold(s, AccessEntry(ip, ts, m, url, status, size, referer, userAgent), AccessEntryEstimate,
                       ts, renameFails, reopenFails);
  }

  /**
   * A message at the threshold is written after the rotation notice, in the
   * new file: the counter is the two estimates and the rotation count has grown by one.
   */
  lemma LogAfterRotation(s: LoggerState, level: Level, msg: string, ts: string, renameFails: bool)
    requires s.open && s.currentFileSize >= s.maxFileSize
    ensures var r := LogStep(s, level, msg, ts, renameFails, false);
      var f := RotateFile(s, renameFails, false);
      && r.outcome == Written
      && r.state.files[s.logFile]
         == f.files[s.logFile] + [RotationNotice(ts, BackupName(s.logFile, s.rotationCount)), LevelEntry(ts, level, msg)]
      && r.state.currentFileSize == 2 * LevelEntryEstimate
      && r.state.rotationCount == s.rotationCount + 1
  {
    RotateNotice(s, ts, renameFails);
  }

  /** After a failed reopen the caller's write goes through the null handle, and nothing is appended anywhere. */
  lemma EmitAfterFailedReopen(s: LoggerState, entry: string, estimate: nat, ts: string, renameFails: bool)
    requires s.open && s.currentFileSize >= s.maxFileSize
    ensures var r := Emit(s, entry, estimate, ts, renameFails, true);
      && r.outcome == NullHandleWrite
      && r.state == RotateFile(s, renameFails, true)
  {
  }

  /** logger_init with a null config returns -1 and changes nothing. */
  lemma InitNullConfig(s: LoggerState, ts: string, openFails: bool, renameFails: bool, reopenFails: bool)
    ensures InitStep(s, None, ts, openFails, renameFails, reopenFails) == InitResult(s, -1, Skipped)
  {
  }

  /**
   * logger_init sets the path, the 10 MiB threshold and a zero rotation
   * count; a failed open returns -1 with no handle, a successful one seeds the
   * counter with the size of the file as it exists.
   */
  lemma InitOpenFields(s: LoggerState, path: string, openFails: bool)
    ensures var o := InitOpen(s, path, openFails);
      && o.logFile == path && o.maxFileSize == MaxFileSize && o.rotationCount == 0
      && (openFails ==> !o.open && o.files == s.files && o.currentFileSize == 0)
      && (!openFails ==>
            && o.open && path in o.files
            && o.files[path] == (if path in s.files then s.files[path] else [])
            && o.currentFileSize == FileBytes(o.files[path]))
  {
  }

  lemma InitOpenFails(s: LoggerState, c: Config.ConfigRecord, ts: string, renameFails: bool, reopenFails: bool)
    ensures var r := InitStep(s, Some(c), ts, true, renameFails, reopenFails);
      r.rc == -1 && !r.state.open && r.state.files == s.files
  {
  }

  /**
   * A successful logger_init on a file below the threshold returns 0 and
   * appends the startup message to the existing entries, each counted at its size.
   */
  lemma InitWritesStartup(s: LoggerState, c: Config.ConfigRecord, ts: string, renameFails: bool, reopenFails: bool)
    requires c.logFile in s.files ==> FileBytes(s.files[c.logFile]) < MaxFileSize
    ensures var r := InitStep(s, Some(c), ts, false, renameFails, reopenFails);
      var old_entries := if c.logFile in s.files then s.files[c.logFile] else [];
      && r.rc == 0 && r.outcome == Written && r.state.open
      && r.state.files[c.logFile] == old_entries + [LevelEntry(ts, Info, StartupMessage(c.logFile))]
      && r.state.currentFileSize == FileBytes(old_entries) + LevelEntryEstimate
      && r.state.rotationCount == 0 && r.state.maxFileSize == MaxFileSize
  {
    var o := InitOpen(s, c.logFile, false);
    InitOpenFields(s, c.logFile, false);
    LogAppends(o, Info, StartupMessage(c.logFile), ts, renameFails, reopenFails);
  }

  /** logger_close leaves no handle, whatever happened to its final message. */
  lemma CloseLeavesNoHandle(s: LoggerState, ts: string, renameFails: bool, reopenFails: bool)
    ensures !CloseStep(s, ts, renameFails, reopenFails).state.open
  {
  }

  /** logger_close below the threshold writes exactly one "Logger shutting down" entry. */
  lemma CloseWritesFinalMessage(s: LoggerState, ts: string, renameFails: bool, reopenFails: bool)
    requires s.open && s.logFile in s.files && s.currentFileSize < s.maxFileSize
    ensures var r := CloseStep(s, ts, renameFails, reopenFails);
      r.outcome == Written && r.state.files[s.logFile] == s.files[s.logFile] + [LevelEntry(ts, Info, "Logger shutting down")]
  {
    LogAppends(s, Info, "Logger shutting down", ts, renameFails, reopenFails);
  }

  /** A second logger_close writes nothing and changes nothing. */
  lemma CloseTwice(s: LoggerState, ts: string, ts2: string, renameFails: bool, reopenFails: bool, renameFails2: bool, reopenFails2: bool)
    ensures var once := CloseStep(s, ts, renameFails, reopenFails).state;
      CloseStep(once, ts2, renameFails2, reopenFails2) == StepResult(once, Skipped)
  {
    var once := CloseStep(s, ts, renameFails, reopenFails).state;
    CloseLeavesNoHandle(s, ts, renameFails, reopenFails);
    LogWithoutHandle(once, Info, "Logger shutting down", ts2, renameFails2, reopenFails2);
  }

  // The invariant Valid: the zeroed logger has it and every operation keeps it.

  lemma UnsetValid(files: Files)
    ensures Valid(Unset(files))
  {
  }

  lemma RotatePreservesValid(s: LoggerState, ts: string, renameFails: bool, reopenFails: bool)
    requires Valid(s) && s.open
    ensures Valid(Rotate(s, ts, renameFails, reopenFails))
  {
  }

  lemma EmitPreservesValid(s: LoggerState, entry: string, estimate: nat, ts: string, renameFails: bool, reopenFails: bool)
    requires Valid(s)
    ensures Valid(Emit(s, entry, estimate, ts, renameFails, reopenFails).state)
  {
    if s.open {
      RotatePreservesValid(s, ts, renameFails, reopenFails);
    }
  }

  lemma InitPreservesValid(s: LoggerState, config: Option<Config.ConfigRecord>, ts: string,
                           openFails: bool, renameFails: bool, reopenFails: bool)
    requires Valid(s)
    ensures Valid(InitStep(s, config, ts, openFails, renameFails, reopenFails).state)
  {
    if config.Some? && !openFails {
      var o := InitOpen(s, config.value.logFile, openFails);
      EmitPreservesValid(o, LevelEntry(ts, Info, StartupMessage(o.logFile)), LevelEntryEstimate,
                         ts, renameFails, reopenFails);
    }
  }

  lemma ClosePreservesValid(s: LoggerState, ts: string, renameFails: bool, reopenFails: bool)
    ensures Valid(CloseStep(s, ts, renameFails, reopenFails).state)
  {
  }

  // ---------------------------------------------------------------------------
  // The rotation notice as written: a nested logger_log under the held mutex
  // ---------------------------------------------------------------------------

  /** The default (non-recursive) pthread mutex of logger.c:22. */
  datatype Mutex = Unlocked | Locked

  /** How a call as written ends: it returns with a result, or it never returns. */
  datatype Run = Completed(result: StepResult) | SelfDeadlock

  /**
   * The shared body of logger_log and logger_log_access as written, following
   * the mutex: the call locks at logger.c:138 (logger.c:178), and a rotation
   * that reopens the file calls logger_log again at logger.c:133 with the mutex
   * still held, which locks it a second time. With the default mutex type that
   * second lock never returns. A failed reopen goes on to the write through the
   * null handle at logger.c:156 (logger.c:197), reported as NullHandleWrite.
   */
  function EmitAsWritten(lock: Mutex, s: LoggerState, entry: string, estimate: nat, ts: string,
                         renameFails: bool, reopenFails: bool): Run
    decreases if lock == Locked then 0 else 1
  {
    if lock == Locked then SelfDeadlock
    else if !s.open then Completed(StepResult(s, Skipped))
    else if s.currentFileSize < s.maxFileSize then Completed(StepResult(WriteEntry(s, entry, estimate), Written))
    else
      var r := RotateFile(s, renameFails, reopenFails);
      if r.open then EmitAsWritten(Locked, r, RotationNotice(ts, BackupName(s.logFile, s.rotationCount)),
                                   LevelEntryEstimate, ts, renameFails, reopenFails)
      else Completed(StepResult(r, NullHandleWrite))
  }

  /** logger_log as written. */
  function LogAsWritten(lock: Mutex, s: LoggerState, level: Level, msg: string, ts: string,
                        renameFails: bool, reopenFails: bool): Run
  {
    EmitAsWritten(lock, s, LevelEntry(ts, level, msg), LevelEntryEstimate, ts, renameFails, reopenFails)
  }

  /** logger_log_access as written. */
  function AccessAsWritten(lock: Mutex, s: LoggerState, ip: string, httpMethod: string, url: string,
                           status: int, size: nat, referer: Option<string>, userAgent: Option<string>,
                           ts: string, renameFails: bool, reopenFails: bool): Run
  {
    EmitAsWritten(lock, s, AccessEntry(ip, ts, httpMethod, url, status, size, referer, userAgent),
                  AccessEntryEstimate, ts, renameFails, reopenFails)
  }

  /** As written, every logger_log that rotates and reopens the file deadlocks the logging thread. */
  lemma RotationNoticeDeadlocks(s: LoggerState, level: Level, msg: string, ts: string, renameFails: bool)
    requires s.open && s.currentFileSize >= s.maxFileSize
    ensures LogAsWritten(Unlocked, s, level, msg, ts, renameFails, false) == SelfDeadlock
  {
  }

  /** logger_log_access deadlocks the same way. */
  lemma AccessRotationDeadlocks(s: LoggerState, ip: string, httpMethod: string, url: string,
                                status: int, size: nat, referer: Option<string>, userAgent: Option<string>,
                                ts: string, renameFails: bool)
    requires s.open && s.currentFileSize >= s.maxFileSize
    ensures AccessAsWritten(Unlocked, s, ip, httpMethod, url, status, size, referer, userAgent,
                            ts, renameFails, false) == SelfDeadlock
  {
  }

  /**
   * Where no rotation reopens the file, logger_log as written and LogStep
   * agree on the state and on the outcome, including the null-handle write
   * after a failed reopen.
   */
  lemma LogAsWrittenAgrees(s: LoggerState, level: Level, msg: string, ts: string, renameFails: bool, reopenFails: bool)
    requires !s.open || s.currentFileSize < s.maxFileSize || reopenFails
    ensures LogAsWritten(Unlocked, s, level, msg, ts, renameFails, reopenFails)
         == Completed(LogStep(s, level, msg, ts, renameFails, reopenFails))
  {
  }

  /** The same for logger_log_access and AccessStep. */
  lemma AccessAsWrittenAgrees(s: LoggerState, ip: string, httpMethod: string, url: string,
                              status: int, size: nat, referer: Option<string>, userAgent: Option<string>,
                              ts: string, renameFails: bool, reopenFails: bool)
    requires !s.open || s.currentFileSize < s.maxFileSize || reopenFails
    ensures AccessAsWritten(Unlocked, s, ip, httpMethod, url, status, size, referer, userAgent,
                            ts, renameFails, reopenFails)
         == Completed(AccessStep(s, ip, httpMethod, url, status, size, referer, userAgent, ts, renameFails, reopenFails))
  {
  }

  // ---------------------------------------------------------------------------
  // The logger object
  // ---------------------------------------------------------------------------

  /** The global logger_t, with the file system it writes to. */
  class Logger {
    var logFile: string
    var open: bool
    var maxFileSize: nat
    var currentFileSize: nat
    var rotationCount: nat
    var files: Files

    function State(): LoggerState
      reads this
    {
      LoggerState(logFile, open, maxFileSize, currentFileSize, rotationCount, files)
    }

    /** The zero-initialised static logger over an existing file system. */
    constructor (existing: Files)
      ensures State() == Unset(existing)
      ensures Valid(State())
    {
      logFile, open, maxFileSize, currentFileSize, rotationCount := "", false, 0, 0, 0;
      files := existing;
    }

    /** logger_rotate_if_needed */
    method RotateIfNeeded(ts: string, renameFails: bool, reopenFails: bool)
      modifies this
      ensures State() == Rotate(old(State()), ts, renameFails, reopenFails)
      ensures Valid(old(State())) && old(open) ==> Valid(State())
    {
      ghost var s0 := State();
      if Valid(s0) && open {
        RotatePreservesValid(s0, ts, renameFails, reopenFails);
      }
      if currentFileSize < maxFileSize {
        return;
      }
      open := false;
      var backup: string;
      var written := |logFile| + 1 + |NatToString(rotationCount)|;
      if written >= BackupNameCapacity {
        backup := FallbackBackupName;
      } else {
        backup := logFile + "." + NatToString(rotationCount);
      }
      if !renameFails && logFile in files {
        files := RenameFile(files, logFile, backup);
      }
      if reopenFails {
        return;
      }
      files := OpenAppend(files, logFile);
      open := true;
      currentFileSize := 0;
      rotationCount := rotationCount + 1;
      files := AppendEntry(files, logFile, RotationNotice(ts, backup));
      currentFileSize := currentFileSize + LevelEntryEstimate;
    }

    /** The body shared by Log and LogAccess. */
    method Write(entry: string, estimate: nat, ts: string, renameFails: bool, reopenFails: bool) returns (outcome: Outcome)
      modifies this
      ensures StepResult(State(), outcome) == Emit(old(State()), entry, estimate, ts, renameFails, reopenFails)
      ensures Valid(old(State())) ==> Valid(State())
    {
      ghost var s0 := State();
      if Valid(s0) {
        EmitPreservesValid(s0, entry, estimate, ts, renameFails, reopenFails);
      }
      if !open {
        return Skipped;
      }
      RotateIfNeeded(ts, renameFails, reopenFails);
      if !open {
        return NullHandleWrite;
      }
      files := AppendEntry(files, logFile, entry);
      currentFileSize := currentFileSize + estimate;
      return Written;
    }

    /** logger_log */
    method Log(level: Level, msg: string, ts: string, renameFails: bool, reopenFails: bool) returns (outcome: Outcome)
      modifies this
      ensures StepResult(State(), outcome) == LogStep(old(State()), level, msg, ts, renameFails, reopenFails)
      ensures Valid(old(State())) ==> Valid(State())
    {
      outcome := Write(LevelEntry(ts, level, msg), LevelEntryEstimate, ts, renameFails, reopenFails);
    }

    /** logger_log_access */
    method LogAccess(ip: string, httpMethod: string, url: string, status: int, size: nat,
                     referer: Option<string>, userAgent: Option<string>,
                     ts: string, renameFails: bool, reopenFails: bool) returns (outcome: Outcome)
      modifies this
      ensures StepResult(State(), outcome)
           == AccessStep(old(State()), ip, httpMethod, url, status, size, referer, userAgent, ts, renameFails, reopenFails)
      ensures Valid(old(State())) ==> Valid(State())
    {
      var entry := AccessEntry(ip, ts, httpMethod, url, status, size, referer, userAgent);
      outcome := Write(entry, AccessEntryEstimate, ts, renameFails, reopenFails);
    }

    /** logger_init */
    method Init(config: Config.ServerConfig?, ts: string, openFails: bool, renameFails: bool, reopenFails: bool)
      returns (rc: int, outcome: Outcome)
      modifies this
      ensures var r := InitStep(old(State()), if config == null then None else Some(config.Record()),
                                ts, openFails, renameFails, reopenFails);
        State() == r.state && rc == r.rc && outcome == r.outcome
      ensures Valid(old(State())) ==> Valid(State())
    {
      ghost var s0 := State();
      if Valid(s0) {
        InitPreservesValid(s0, if config == null then None else Some(config.Record()),
                           ts, openFails, renameFails, reopenFails);
      }
      if config == null {
        return -1, Skipped;
      }
      logFile := Config.ServerConfig.GetLogFile(config).value;
      maxFileSize := MaxFileSize;
      currentFileSize := 0;
      rotationCount := 0;
      if openFails {
        open := false;
        return -1, Skipped;
      }
      files := OpenAppend(files, logFile);
      open := true;
      currentFileSize := FileBytes(files[logFile]);
      outcome := Log(Info, StartupMessage(logFile), ts, renameFails, reopenFails);
      rc := 0;
    }

    /** logger_close */
    method Close(ts: string, renameFails: bool, reopenFails: bool) returns (outcome: Outcome)
      modifies this
      ensures StepResult(State(), outcome) == CloseStep(old(State()), ts, renameFails, reopenFails)
      ensures Valid(State())
    {
      ClosePreservesValid(State(), ts, renameFails, reopenFails);
      outcome := Log(Info, "Logger shutting down", ts, renameFails, reopenFails);
      open := false;
    }
  }
}
