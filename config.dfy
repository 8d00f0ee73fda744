/**
 * The server configuration record of src/config.c: defaults, validating setters,
 * the KEY=VALUE file loader and config_validate.
 *
 * The record is a class whose fields the setters update in place; every method
 * is proved against pure functions on the value type ConfigRecord, and the
 * lemmas about those functions carry the properties: the defaults are valid,
 * every accepted update keeps a valid record valid, the last accepted
 * assignment to a key wins, and a loaded file therefore always validates.
 */
module Config {
  import opened Wrappers
  import opened Text

  /** MAX_PATH_LENGTH of config.h (that header is not part of this model). */
  const MaxPathLength: nat := 1024

  const MinPort: int := 1
  const MaxPort: int := 65535

  datatype ConfigRecord = ConfigRecord(
    port: int,
    documentRoot: string,
    numWorkers: int,
    threadsPerWorker: int,
    maxQueueSize: int,
    logFile: string,
    cacheSizeMb: int,
    timeoutSeconds: int)

  /** The values config_init_defaults writes. */
  function Defaults(): (c: ConfigRecord)
    ensures IsValid(c)
  {
    ConfigRecord(8080, "/var/www/html", 4, 10, 100, "access.log", 10, 30)
  }

  /** What config_validate checks; a missing document root only prints a warning. */
  predicate IsValid(c: ConfigRecord) {
    MinPort <= c.port <= MaxPort && c.numWorkers >= 1 && c.threadsPerWorker >= 1 && c.maxQueueSize >= 1
  }

  // ---------------------------------------------------------------------------
  // Guarded updates: one per setter, and one per direct assignment in the loader
  // ---------------------------------------------------------------------------

  /** The fields of the record, as the loader's keys name them. */
  datatype Key =
    | PortKey | DocumentRootKey | NumWorkersKey | ThreadsPerWorkerKey
    | MaxQueueSizeKey | LogFileKey | CacheSizeKey | TimeoutKey

  /** A request to change one field; a string argument may be NULL (None). */
  datatype Update =
    | SetPort(port: int)
    | SetDocumentRoot(root: Option<string>)
    | SetNumWorkers(workers: int)
    | SetThreadsPerWorker(threads: int)
    | SetMaxQueueSize(queue: int)
    | SetLogFile(file: Option<string>)
    | SetCacheSize(cache: int)
    | SetTimeout(timeout: int)

  function KeyOf(u: Update): Key {
    match u
    case SetPort(_) => PortKey
    case SetDocumentRoot(_) => DocumentRootKey
    case SetNumWorkers(_) => NumWorkersKey
    case SetThreadsPerWorker(_) => ThreadsPerWorkerKey
    case SetMaxQueueSize(_) => MaxQueueSizeKey
    case SetLogFile(_) => LogFileKey
    case SetCacheSize(_) => CacheSizeKey
    case SetTimeout(_) => TimeoutKey
  }

  /** The guard each setter (or each guarded assignment in the loader) applies. */
  predicate Accepts(u: Update) {
    match u
    case SetPort(p) => MinPort <= p <= MaxPort
    case SetDocumentRoot(r) => r.Some? && |r.value| < MaxPathLength
    case SetNumWorkers(n) => n >= 1
    case SetThreadsPerWorker(n) => n >= 1
    case SetMaxQueueSize(n) => n > 0
    case SetLogFile(f) => f.Some? && |f.value| < MaxPathLength
    case SetCacheSize(n) => n > 0
    case SetTimeout(n) => n > 0
  }

  /** The record after an update: the field changes when the guard accepts, nothing changes otherwise. */
  function Apply(c: ConfigRecord, u: Update): (r: ConfigRecord)
    ensures !Accepts(u) ==> r == c
    ensures Accepts(u) ==> Field(r, KeyOf(u)) == u
    ensures forall k :: k != KeyOf(u) ==> Field(r, k) == Field(c, k)
  {
    if !Accepts(u) then c
    else match u
      case SetPort(p) => c.(port := p)
      case SetDocumentRoot(r) => c.(documentRoot := r.value)
      case SetNumWorkers(n) => c.(numWorkers := n)
      case SetThreadsPerWorker(n) => c.(threadsPerWorker := n)
      case SetMaxQueueSize(n) => c.(maxQueueSize := n)
      case SetLogFile(f) => c.(logFile := f.value)
      case SetCacheSize(n) => c.(cacheSizeMb := n)
      case SetTimeout(n) => c.(timeoutSeconds := n)
  }

  /** The current value of one field, written as the update that would set it. */
  function Field(c: ConfigRecord, k: Key): Update {
    match k
    case PortKey => SetPort(c.port)
    case DocumentRootKey => SetDocumentRoot(Some(c.documentRoot))
    case NumWorkersKey => SetNumWorkers(c.numWorkers)
    case ThreadsPerWorkerKey => SetThreadsPerWorker(c.threadsPerWorker)
    case MaxQueueSizeKey => SetMaxQueueSize(c.maxQueueSize)
    case LogFileKey => SetLogFile(Some(c.logFile))
    case CacheSizeKey => SetCacheSize(c.cacheSizeMb)
    case TimeoutKey => SetTimeout(c.timeoutSeconds)
  }

  /** Two records with equal fields are equal. */
  lemma FieldsDetermineRecord(c: ConfigRecord, d: ConfigRecord)
    requires forall k :: Field(c, k) == Field(d, k)
    ensures c == d
  {
    assert Field(c, PortKey) == Field(d, PortKey);
    assert Field(c, DocumentRootKey) == Field(d, DocumentRootKey);
    assert Field(c, NumWorkersKey) == Field(d, NumWorkersKey);
    assert Field(c, ThreadsPerWorkerKey) == Field(d, ThreadsPerWorkerKey);
    assert Field(c, MaxQueueSizeKey) == Field(d, MaxQueueSizeKey);
    assert Field(c, LogFileKey) == Field(d, LogFileKey);
    assert Field(c, CacheSizeKey) == Field(d, CacheSizeKey);
    assert Field(c, TimeoutKey) == Field(d, TimeoutKey);
  }

  /** Assignments to different keys commute: the order of such lines in the file does not matter. */
  lemma ApplyCommutes(c: ConfigRecord, u: Update, v: Update)
    requires KeyOf(u) != KeyOf(v)
    ensures Apply(Apply(c, u), v) == Apply(Apply(c, v), u)
  {
    var x, y := Apply(Apply(c, u), v), Apply(Apply(c, v), u);
    forall k ensures Field(x, k) == Field(y, k) {
    }
    FieldsDetermineRecord(x, y);
  }

  /** Repeating an assignment changes nothing more. */
  lemma ApplyIdempotent(c: ConfigRecord, u: Update)
    ensures Apply(Apply(c, u), u) == Apply(c, u)
  {
    var x, y := Apply(Apply(c, u), u), Apply(c, u);
    forall k ensures Field(x, k) == Field(y, k) {
    }
    FieldsDetermineRecord(x, y);
  }

  /** An accepted update never makes a valid record invalid; a rejected one changes nothing. */
  lemma ApplyPreservesValid(c: ConfigRecord, u: Update)
    requires IsValid(c)
    ensures IsValid(Apply(c, u))
  {
  }

  /** A sequence of updates applied in order. */
  function ApplyAll(c: ConfigRecord, us: seq<Update>): ConfigRecord
    decreases |us|
  {
    if us == [] then c else Apply(ApplyAll(c, us[..|us| - 1]), us[|us| - 1])
  }

  lemma {:induction false} ApplyAllPreservesValid(c: ConfigRecord, us: seq<Update>)
    requires IsValid(c)
    ensures IsValid(ApplyAll(c, us))
    decreases |us|
  {
    if us != [] {
      ApplyAllPreservesValid(c, us[..|us| - 1]);
      ApplyPreservesValid(ApplyAll(c, us[..|us| - 1]), us[|us| - 1]);
    }
  }

  /** Starting from the defaults, any sequence of setter calls leaves a record that validates. */
  lemma UpdatesFromDefaultsAreValid(us: seq<Update>)
    ensures IsValid(ApplyAll(Defaults(), us))
  {
    ApplyAllPreservesValid(Defaults(), us);
  }

  /** Updates to other fields, and rejected updates, leave a field as it was. */
  lemma {:induction false} UntouchedFieldKept(c: ConfigRecord, us: seq<Update>, k: Key)
    requires forall j :: 0 <= j < |us| && KeyOf(us[j]) == k ==> !Accepts(us[j])
    ensures Field(ApplyAll(c, us), k) == Field(c, k)
    decreases |us|
  {
    if us != [] {
      UntouchedFieldKept(c, us[..|us| - 1], k);
    }
  }

  /** The last accepted assignment to a field is the one that stays. */
  lemma LastAcceptedWins(c: ConfigRecord, before: seq<Update>, u: Update, after: seq<Update>)
    requires Accepts(u)
    requires forall j :: 0 <= j < |after| && KeyOf(after[j]) == KeyOf(u) ==> !Accepts(after[j])
    ensures Field(ApplyAll(c, before + [u] + after), KeyOf(u)) == u
  {
    var mid := ApplyAll(c, before + [u]);
    assert (before + [u])[..|before|] == before;
    ApplyAllAppend(c, before + [u], after);
    UntouchedFieldKept(mid, after, KeyOf(u));
  }

  lemma {:induction false} ApplyAllAppend(c: ConfigRecord, xs: seq<Update>, ys: seq<Update>)
    ensures ApplyAll(c, xs + ys) == ApplyAll(ApplyAll(c, xs), ys)
    decreases |ys|
  {
    if ys != [] {
      assert (xs + ys)[..|xs + ys| - 1] == xs + ys[..|ys| - 1];
      assert (xs + ys)[|xs + ys| - 1] == ys[|ys| - 1];
      ApplyAllAppend(c, xs, ys[..|ys| - 1]);
    } else {
      assert xs + ys == xs;
    }
  }

  // ---------------------------------------------------------------------------
  // trim_whitespace and the line format of the configuration file
  // ---------------------------------------------------------------------------

  /**
   * [lo, hi) is what trim_whitespace leaves of s: only spaces before lo and
   * from hi on, no space at either end of the rest, and when nothing is left,
   * the returned position is the end of the string.
   */
  predicate IsTrimBounds(s: string, lo: nat, hi: nat) {
    && lo <= hi <= |s|
    && (forall i :: 0 <= i < lo ==> IsSpace(s[i]))
    && (forall i :: hi <= i < |s| ==> IsSpace(s[i]))
    && (lo < hi ==> !IsSpace(s[lo]) && !IsSpace(s[hi - 1]))
    && (lo == hi ==> lo == |s|)
  }

  lemma TrimBoundsUnique(s: string, a: nat, b: nat, c: nat, d: nat)
    requires IsTrimBounds(s, a, b) && IsTrimBounds(s, c, d)
    ensures a == c && b == d
  {
  }

  /** The index just past the last non-space character of s (0 when there is none). */
  function TrailingEnd(s: string): (k: nat)
    ensures k <= |s| && forall i :: k <= i < |s| ==> IsSpace(s[i])
    ensures k > 0 ==> !IsSpace(s[k - 1])
    decreases |s|
  {
    if s == [] || !IsSpace(s[|s| - 1]) then |s|
    else
      var k := TrailingEnd(s[..|s| - 1]);
      assert forall i :: k <= i < |s| - 1 ==> s[..|s| - 1][i] == s[i];
      k
  }

  function TrimBounds(s: string): (b: (nat, nat))
    ensures IsTrimBounds(s, b.0, b.1)
  {
    var lo := PrefixWhile(s, IsSpace);
    if lo == |s| then (lo, lo)
    else
      var hi := TrailingEnd(s);
      (lo, hi)
  }

  /** The string trim_whitespace returns. */
  function Trim(s: string): (r: string)
    ensures |r| <= |s|
    ensures r == [] || (!IsSpace(r[0]) && !IsSpace(r[|r| - 1]))
  {
    s[TrimBounds(s).0..TrimBounds(s).1]
  }

  /** Trimming twice gives the same result as trimming once. */
  lemma TrimIdempotent(s: string)
    ensures Trim(Trim(s)) == Trim(s)
  {
    var r := Trim(s);
    var b := TrimBounds(r);
    if r == [] {
      TrimBoundsUnique(r, b.0, b.1, 0, 0);
    } else {
      assert r[..0] == [] && r[|r|..] == [];
      TrimBoundsUnique(r, b.0, b.1, 0, |r|);
      assert r[0..|r|] == r;
    }
  }

  /** trim_whitespace(str): skip leading isspace, then step back over trailing isspace. */
  method TrimWhitespace(s: string) returns (start: nat, end: nat)
    ensures IsTrimBounds(s, start, end)
    ensures (start, end) == TrimBounds(s)
  {
    start := 0;
    while start < |s| && IsSpace(s[start])
      invariant start <= |s|
      invariant forall i :: 0 <= i < start ==> IsSpace(s[i])
    {
      start := start + 1;
    }
    if start == |s| {
      end := start;
    } else {
      var last := |s| - 1;
      while last > start && IsSpace(s[last])
        invariant start <= last < |s|
        invariant forall i :: last < i < |s| ==> IsSpace(s[i])
      {
        last := last - 1;
      }
      end := last + 1;
    }
    var b := TrimBounds(s);
    TrimBoundsUnique(s, start, end, b.0, b.1);
  }

  /** strchr: the first position of c in s. */
  function FindChar(s: string, c: char): (r: Option<nat>)
    ensures r.None? <==> c !in s
    ensures r.Some? ==> r.value < |s| && s[r.value] == c && c !in s[..r.value]
  {
    var k := PrefixWhile(s, x => x != c);
    if k == |s| then None else Some(k)
  }

  /** line[strcspn(line, "\n")] = 0: the line up to its first newline. */
  function CutAtNewline(s: string): (r: string)
    ensures '\n' !in r
    ensures |r| <= |s| && r == s[..|r|]
    ensures |r| < |s| ==> s[|r|] == '\n'
  {
    s[..PrefixWhile(s, x => x != '\n')]
  }

  /** The update a trimmed KEY and VALUE stand for; unknown keys stand for none. */
  function EntryUpdate(key: string, value: string): (r: Option<Update>)
    ensures r.Some? <==> key in {"PORT", "DOCUMENT_ROOT", "NUM_WORKERS", "THREADS_PER_WORKER",
                                 "MAX_QUEUE_SIZE", "LOG_FILE", "CACHE_SIZE_MB", "TIMEOUT_SECONDS"}
  {
    if key == "PORT" then Some(SetPort(Atoi(value)))
    else if key == "DOCUMENT_ROOT" then Some(SetDocumentRoot(Some(value)))
    else if key == "NUM_WORKERS" then Some(SetNumWorkers(Atoi(value)))
    else if key == "THREADS_PER_WORKER" then Some(SetThreadsPerWorker(Atoi(value)))
    else if key == "MAX_QUEUE_SIZE" then Some(SetMaxQueueSize(Atoi(value)))
    else if key == "LOG_FILE" then Some(SetLogFile(Some(value)))
    else if key == "CACHE_SIZE_MB" then Some(SetCacheSize(Atoi(value)))
    else if key == "TIMEOUT_SECONDS" then Some(SetTimeout(Atoi(value)))
    else None
  }

  /**
   * The update one line of the file stands for: none for a blank line, a
   * comment, a line without '=' or an unknown key; otherwise the line is
   * split at its first '=' and both halves are trimmed.
   */
  function LineUpdate(raw: string): Option<Update> {
    var t := Trim(CutAtNewline(raw));
    if t == [] || t[0] == '#' then None
    else match FindChar(t, '=')
      case None => None
      case Some(eq) => EntryUpdate(Trim(t[..eq]), Trim(t[eq + 1..]))
  }

  /** The updates a whole file stands for, in file order. */
  function LineUpdates(lines: seq<string>): (us: seq<Update>)
    ensures |us| <= |lines|
    decreases |lines|
  {
    if lines == [] then []
    else
      var front := LineUpdates(lines[..|lines| - 1]);
      match LineUpdate(lines[|lines| - 1])
      case None => front
      case Some(u) => front + [u]
  }

  /** The last line contributes its update, if any, after those of the lines before it. */
  lemma LineUpdatesSnoc(lines: seq<string>)
    requires lines != []
    ensures var init := lines[..|lines| - 1];
      var last := LineUpdate(lines[|lines| - 1]);
      LineUpdates(lines) == LineUpdates(init) + (if last.Some? then [last.value] else [])
  {
  }

  /** Every update of a file comes from one of its lines. */
  lemma {:induction false} LineUpdatesHaveSources(lines: seq<string>)
    ensures forall u :: u in LineUpdates(lines) ==> exists i :: 0 <= i < |lines| && LineUpdate(lines[i]) == Some(u)
    decreases |lines|
  {
    if lines != [] {
      var n := |lines| - 1;
      var init := lines[..n];
      var last := LineUpdate(lines[n]);
      LineUpdatesHaveSources(init);
      LineUpdatesSnoc(lines);
      forall u | u in LineUpdates(lines)
        ensures exists i :: 0 <= i < |lines| && LineUpdate(lines[i]) == Some(u)
      {
        if last.Some? {
          assert LineUpdates(lines) == LineUpdates(init) + [last.value];
        } else {
          assert LineUpdates(lines) == LineUpdates(init);
        }
        if u in LineUpdates(init) {
          var i :| 0 <= i < n && LineUpdate(init[i]) == Some(u);
          assert init[i] == lines[i];
        } else {
          assert last == Some(u);
        }
      }
    }
  }

  /** A line that stands for an update contributes it to the file's updates. */
  lemma {:induction false} LineUpdateCollected(lines: seq<string>, i: nat)
    requires i < |lines| && LineUpdate(lines[i]).Some?
    ensures LineUpdate(lines[i]).value in LineUpdates(lines)
    decreases |lines|
  {
    var n := |lines| - 1;
    var init := lines[..n];
    LineUpdatesSnoc(lines);
    var u := LineUpdate(lines[i]).value;
    if i < n {
      assert init[i] == lines[i];
      LineUpdateCollected(init, i);
      assert u in LineUpdates(init);
      if LineUpdate(lines[n]).Some? {
        assert LineUpdates(lines) == LineUpdates(init) + [LineUpdate(lines[n]).value];
      } else {
        assert LineUpdates(lines) == LineUpdates(init);
      }
    } else {
      assert i == n && LineUpdate(lines[n]) == Some(u);
      assert LineUpdates(lines) == LineUpdates(init) + [u];
    }
  }

  /** Every line of a file that stands for an update contributes it. */
  lemma LineUpdatesCollect(lines: seq<string>)
    ensures forall i :: 0 <= i < |lines| && LineUpdate(lines[i]).Some? ==> LineUpdate(lines[i]).value in LineUpdates(lines)
  {
    forall i | 0 <= i < |lines| && LineUpdate(lines[i]).Some?
      ensures LineUpdate(lines[i]).value in LineUpdates(lines)
    {
      LineUpdateCollected(lines, i);
    }
  }

  /** The record config_load_from_file leaves: the defaults, then every line's update in order. */
  function Loaded(lines: seq<string>): ConfigRecord {
    ApplyAll(Defaults(), LineUpdates(lines))
  }

  /** Every file the loader can read yields a record that passes config_validate. */
  lemma LoadedIsValid(lines: seq<string>)
    ensures IsValid(Loaded(lines))
  {
    UpdatesFromDefaultsAreValid(LineUpdates(lines));
  }

  /** A string without space at either end is its own trim. */
  lemma TrimOfTrimmed(s: string)
    requires s == [] || (!IsSpace(s[0]) && !IsSpace(s[|s| - 1]))
    ensures Trim(s) == s
  {
    var b := TrimBounds(s);
    TrimBoundsUnique(s, b.0, b.1, if s == [] then 0 else 0, |s|);
    assert s[0..|s|] == s;
  }

  /** A line with no newline is kept whole. */
  lemma CutAtNewlineKeeps(s: string)
    requires '\n' !in s
    ensures CutAtNewline(s) == s
  {
  }

  /**
   * A well-formed entry KEY=VALUE, with no space around either half, no '=' in
   * the key and no newline, stands for the update its key names.
   */
  lemma EntryLine(key: string, value: string)
    requires key != [] && key[0] != '#' && '=' !in key
    requires !IsSpace(key[0]) && !IsSpace(key[|key| - 1])
    requires value == [] || (!IsSpace(value[0]) && !IsSpace(value[|value| - 1]))
    requires '\n' !in key + "=" + value
    ensures LineUpdate(key + "=" + value) == EntryUpdate(key, value)
  {
    var line := key + "=" + value;
    CutAtNewlineKeeps(line);
    assert line[0] == key[0];
    assert line[|line| - 1] == if value == [] then '=' else value[|value| - 1];
    TrimOfTrimmed(line);
    assert line[..|key|] == key;
    assert line[|key|] == '=';
    assert FindChar(line, '=') == Some(|key|);
    assert line[|key| + 1..] == value;
    TrimOfTrimmed(key);
    TrimOfTrimmed(value);
  }

  /**
   * A line that is blank before its newline, or whose first non-space
   * character is '#', changes nothing.
   */
  lemma CommentLineIgnored(text: string)
    requires Trim(CutAtNewline(text)) == [] || Trim(CutAtNewline(text))[0] == '#'
    ensures LineUpdate(text) == None
  {
  }

  /** The comment "  # x", indented. */
  lemma IndentedCommentIgnored()
    ensures LineUpdate("  # x") == None
  {
    var t := "  # x";
    CutAtNewlineKeeps(t);
    assert "  " + "# x" == t;
    PrefixWhileStopsAt("  ", "# x", IsSpace);
    var b := TrimBounds(t);
    assert !IsSpace(t[4]);
    assert b.0 == 2 && b.1 == 5;
    assert Trim(t)[0] == t[2];
    CommentLineIgnored(t);
  }

  /**
   * A value with no digit where atoi starts reading is 0, and every numeric
   * entry rejects 0, so such a line leaves the record as it was.
   */
  lemma NonNumericValueRejected(key: string, value: string)
    requires key in {"PORT", "NUM_WORKERS", "THREADS_PER_WORKER", "MAX_QUEUE_SIZE", "CACHE_SIZE_MB", "TIMEOUT_SECONDS"}
    requires value == [] || !(IsDigit(value[0]) || IsSpace(value[0]) || value[0] == '+' || value[0] == '-')
    ensures EntryUpdate(key, value).Some? && !Accepts(EntryUpdate(key, value).value)
    ensures forall c :: Apply(c, EntryUpdate(key, value).value) == c
  {
    AtoiOfNonNumeric(value);
  }

  /** Example: the entry PORT with value 9090 sets the port to 9090. */
  lemma PortEntryExample()
    ensures EntryUpdate("PORT", "9090") == Some(SetPort(9090))
  {
    assert NatToString(9090) == "9090";
    AtoiIntToString(9090);
  }

  // ---------------------------------------------------------------------------
  // The mutable record: server_config_t
  // ---------------------------------------------------------------------------

  class ServerConfig {
    var port: int
    var documentRoot: string
    var numWorkers: int
    var threadsPerWorker: int
    var maxQueueSize: int
    var logFile: string
    var cacheSizeMb: int
    var timeoutSeconds: int

    /** The value the fields hold. */
    function Record(): ConfigRecord
      reads this
    {
      ConfigRecord(port, documentRoot, numWorkers, threadsPerWorker, maxQueueSize, logFile, cacheSizeMb, timeoutSeconds)
    }

    /** A record holding arbitrary values, as malloc leaves one before it is initialised. */
    constructor (r: ConfigRecord)
      ensures Record() == r
    {
      port, documentRoot, numWorkers, threadsPerWorker := r.port, r.documentRoot, r.numWorkers, r.threadsPerWorker;
      maxQueueSize, logFile, cacheSizeMb, timeoutSeconds := r.maxQueueSize, r.logFile, r.cacheSizeMb, r.timeoutSeconds;
    }

    /** config_init_defaults */
    method InitDefaults()
      modifies this
      ensures Record() == Defaults()
    {
      port := 8080;
      documentRoot := "/var/www/html";
      numWorkers := 4;
      threadsPerWorker := 10;
      maxQueueSize := 100;
      logFile := "access.log";
      cacheSizeMb := 10;
      timeoutSeconds := 30;
    }

    /** config_set_port: 0 and the new port when 1 <= port <= 65535, -1 and no change otherwise. */
    method SetPort(p: int) returns (rc: int)
      modifies this
      ensures rc == 0 <==> MinPort <= p <= MaxPort
      ensures rc == 0 || rc == -1
      ensures Record() == Apply(old(Record()), Update.SetPort(p))
    {
      if p < MinPort || p > MaxPort {
        return -1;
      }
      port := p;
      return 0;
    }

    /** config_set_document_root: rejects NULL and strings of MAX_PATH_LENGTH characters or more. */
    method SetDocumentRoot(root: Option<string>) returns (rc: int)
      modifies this
      ensures rc == 0 <==> root.Some? && |root.value| < MaxPathLength
      ensures rc == 0 || rc == -1
      ensures Record() == Apply(old(Record()), Update.SetDocumentRoot(root))
    {
      if root.None? || |root.value| >= MaxPathLength {
        return -1;
      }
      documentRoot := root.value;
      return 0;
    }

    /** config_set_num_workers: accepts values of at least 1. */
    method SetNumWorkers(n: int) returns (rc: int)
      modifies this
      ensures rc == 0 <==> n >= 1
      ensures rc == 0 || rc == -1
      ensures Record() == Apply(old(Record()), Update.SetNumWorkers(n))
    {
      if n < 1 {
        return -1;
      }
      numWorkers := n;
      return 0;
    }

    /** config_set_threads_per_worker: accepts values of at least 1. */
    method SetThreadsPerWorker(n: int) returns (rc: int)
      modifies this
      ensures rc == 0 <==> n >= 1
      ensures rc == 0 || rc == -1
      ensures Record() == Apply(old(Record()), Update.SetThreadsPerWorker(n))
    {
      if n < 1 {
        return -1;
      }
      threadsPerWorker := n;
      return 0;
    }

    /** config_set_log_file: rejects NULL and strings of MAX_PATH_LENGTH characters or more. */
    method SetLogFile(file: Option<string>) returns (rc: int)
      modifies this
      ensures rc == 0 <==> file.Some? && |file.value| < MaxPathLength
      ensures rc == 0 || rc == -1
      ensures Record() == Apply(old(Record()), Update.SetLogFile(file))
    {
      if file.None? || |file.value| >= MaxPathLength {
        return -1;
      }
      logFile := file.value;
      return 0;
    }

    /** One KEY=VALUE entry of the loader, by the setters or the guarded assignments they use. */
    method ApplyEntry(key: string, value: string)
      modifies this
      ensures Record() == match EntryUpdate(key, value)
                          case None => old(Record())
                          case Some(u) => Apply(old(Record()), u)
    {
      var rc: int;
      if key == "PORT" {
        rc := SetPort(Atoi(value));
      } else if key == "DOCUMENT_ROOT" {
        rc := SetDocumentRoot(Some(value));
      } else if key == "NUM_WORKERS" {
        rc := SetNumWorkers(Atoi(value));
      } else if key == "THREADS_PER_WORKER" {
        rc := SetThreadsPerWorker(Atoi(value));
      } else if key == "MAX_QUEUE_SIZE" {
        var queueSize := Atoi(value);
        if queueSize > 0 { maxQueueSize := queueSize; }
      } else if key == "LOG_FILE" {
        rc := SetLogFile(Some(value));
      } else if key == "CACHE_SIZE_MB" {
        var cacheSize := Atoi(value);
        if cacheSize > 0 { cacheSizeMb := cacheSize; }
      } else if key == "TIMEOUT_SECONDS" {
        var timeout := Atoi(value);
        if timeout > 0 { timeoutSeconds := timeout; }
      }
    }

    /** The body of the loader's line loop: trim, skip blank and comment lines, split at '=', apply. */
    method ProcessLine(raw: string)
      modifies this
      ensures Record() == match LineUpdate(raw)
                          case None => old(Record())
                          case Some(u) => Apply(old(Record()), u)
    {
      var line := CutAtNewline(raw);
      var lo, hi := TrimWhitespace(line);
      var trimmed := line[lo..hi];
      assert trimmed == Trim(line);
      if trimmed == [] || trimmed[0] == '#' {
        assert LineUpdate(raw) == None;
        return;
      }
      var equals := FindChar(trimmed, '=');
      if equals.None? {
        assert LineUpdate(raw) == None;
        return;
      }
      var key := trimmed[..equals.value];
      var value := trimmed[equals.value + 1..];
      var k1, k2 := TrimWhitespace(key);
      var v1, v2 := TrimWhitespace(value);
      assert key[k1..k2] == Trim(key) && value[v1..v2] == Trim(value);
      assert LineUpdate(raw) == EntryUpdate(key[k1..k2], value[v1..v2]);
      ApplyEntry(key[k1..k2], value[v1..v2]);
    }

    /**
     * config_load_from_file. The file is given as its lines; None stands for a
     * NULL file name or a file that cannot be opened, which returns -1 and
     * leaves the record alone. Otherwise the record is reset to the defaults,
     * each line is applied in order, and config_validate decides the result,
     * which is always 0 because no accepted update breaks validity.
     */
    method LoadFromFile(file: Option<seq<string>>) returns (rc: int)
      modifies this
      ensures file.None? ==> rc == -1 && Record() == old(Record())
      ensures file.Some? ==> Record() == Loaded(file.value) && rc == 0
    {
      if file.None? {
        return -1;
      }
      var lines := file.value;
      InitDefaults();
      var i := 0;
      while i < |lines|
        invariant i <= |lines|
        invariant Record() == ApplyAll(Defaults(), LineUpdates(lines[..i]))
      {
        ProcessLine(lines[i]);
        assert lines[..i + 1][..i] == lines[..i];
        i := i + 1;
      }
      assert lines[..i] == lines;
      LoadedIsValid(lines);
      rc := Validate(this);
    }

    /** config_validate: 0 exactly when the record is present and passes IsValid. */
    static function Validate(c: ServerConfig?): (rc: int)
      reads c
      ensures rc == 0 <==> c != null && IsValid(c.Record())
      ensures rc == 0 || rc == -1
    {
      if c == null then -1
      else if c.port < MinPort || c.port > MaxPort then -1
      else if c.numWorkers < 1 then -1
      else if c.threadsPerWorker < 1 then -1
      else if c.maxQueueSize < 1 then -1
      else 0
    }

    // Getters: the field, or 0 / NULL for a NULL record.

    static function GetPort(c: ServerConfig?): (r: int)
      reads c
      ensures c == null ==> r == 0
      ensures c != null && IsValid(c.Record()) ==> MinPort <= r <= MaxPort
    {
      if c == null then 0 else c.port
    }

    static function GetDocumentRoot(c: ServerConfig?): (r: Option<string>)
      reads c
      ensures r.None? <==> c == null
    {
      if c == null then None else Some(c.documentRoot)
    }

    static function GetNumWorkers(c: ServerConfig?): (r: int)
      reads c
      ensures c == null ==> r == 0
      ensures c != null && IsValid(c.Record()) ==> r >= 1
    {
      if c == null then 0 else c.numWorkers
    }

    static function GetThreadsPerWorker(c: ServerConfig?): (r: int)
      reads c
      ensures c == null ==> r == 0
      ensures c != null && IsValid(c.Record()) ==> r >= 1
    {
      if c == null then 0 else c.threadsPerWorker
    }

    static function GetMaxQueueSize(c: ServerConfig?): (r: int)
      reads c
      ensures c == null ==> r == 0
      ensures c != null && IsValid(c.Record()) ==> r >= 1
    {
      if c == null then 0 else c.maxQueueSize
    }

    static function GetLogFile(c: ServerConfig?): (r: Option<string>)
      reads c
      ensures r.None? <==> c == null
    {
      if c == null then None else Some(c.logFile)
    }

    static function GetCacheSize(c: ServerConfig?): (r: int)
      reads c
      ensures c == null ==> r == 0
    {
      if c == null then 0 else c.cacheSizeMb
    }

    static function GetTimeout(c: ServerConfig?): (r: int)
      reads c
      ensures c == null ==> r == 0
    {
      if c == null then 0 else c.timeoutSeconds
    }
  }

  /**
   * Setter calls of the kind src/main.c makes, applied here to the defaults
   * rather than to a loaded file: 9090 is accepted, 70000 rejected, and the
   * record still validates.
   */
  method SetterExample(c: ServerConfig)
    modifies c
    ensures c.Record() == Defaults().(port := 9090, documentRoot := "/custom/path")
    ensures ServerConfig.Validate(c) == 0
  {
    c.InitDefaults();
    var ok := c.SetPort(9090);
    assert ok == 0;
    var rejected := c.SetPort(70000);
    assert rejected == -1;
    var root := c.SetDocumentRoot(Some("/custom/path"));
    assert root == 0;
  }
}
