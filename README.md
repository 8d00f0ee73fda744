# Concurrent-HTTP-Server core, modelled in Dafny

This project models three sequential components of a small C web server and proves their properties:

- **The size-rotating access logger** (`src/logger.c`). The global `logger_t` becomes the class `Logging.Logger`. Its fields are the log path, the file handle (`open`), the 10 MiB threshold, the estimated byte counter and the rotation count. It also holds an abstract file system: a map from path to the entries written there. `fopen` and `rename` failures are boolean parameters, and the `strftime` timestamp is a string parameter. Every method is proved against a pure step function on `Logging.LoggerState` (`Rotate`, `LogStep`, `AccessStep`, `InitStep`, `CloseStep`). The lemmas about those functions cover the following:
  - the threshold test;
  - backup naming, `<path>.<N>` with the fixed fallback name;
  - the counter reset and the rotation-count increment;
  - the behaviour when a reopen fails;
  - the exact leveled and Combined Log Format entries;
  - the close lifecycle;
  - an invariant every operation keeps: an open handle names an existing file and the threshold is 10 MiB.
- **The HTTP helpers** (`src/http.c`):
  - the request-line parser: three whitespace-separated tokens, shaped like section 3 of RFC 9112, with the method and version classified;
  - the `%20` and `+` decoder, as a pure function plus the in-place array loop `Http.UrlDecodeInPlace`;
  - the MIME table and the status-phrase table;
  - the response-header builder, whose status line follows section 4 of RFC 9112, with the Date value as a parameter;
  - the `..` traversal check.
- **The configuration record** (`src/config.c`). `server_config_t` becomes the class `Config.ServerConfig`, and its setters are proved against the pure guarded update `Config.Apply`. The module also models:
  - `trim_whitespace`, as a scanning method;
  - the `KEY=VALUE` line loader, as a while loop over the file's lines;
  - `config_validate` and the getters.

  The main invariant is that any sequence of accepted updates from the defaults leaves a record that validates, so a loaded file always does.

Shared pieces:
- `wrappers.dfy` holds `Option`, which stands for a C argument or result that may be NULL.
- `text.dfy` holds `isspace`, decimal rendering (`%d`, `%zu`) and `atoi` on simple decimal input.

Where the documented design and the code differ, the model follows the code:
- `logger_init` resets `rotation_count` to 0 (`src/logger.c:35`), so backup numbering restarts at every initialisation.
- After a failed reopen during rotation, the same call goes on to write through a null handle (`src/logger.c:156`, `src/logger.c:197`). The model returns the outcome `NullHandleWrite` and writes nothing. Only later calls are skipped.
- The rotation notice at `src/logger.c:133` cannot be written as coded (see Findings).
- A successful rename replaces whatever file already has the backup name (`src/logger.c:119`). Because the count restarts at 0 at every initialisation, the first rotation after a restart replaces the `<path>.0` an earlier run left, and the later ones replace `<path>.1`, `<path>.2` and so on in turn.
- Within one run, distinct counts give distinct names, so a rotation replaces no backup of the same run, except in these cases:
  - when the fallback name `access.log.backup` is used twice;
  - when the log path is itself that name. This needs a count of 1006 digits or more, so it cannot happen with C's `int` count of at most 10 digits; only the model's unbounded count reaches it.

  When the rename fails, no backup is made: the entries stay at the log path, new entries follow them, and the counter restarts at 0 anyway.

## Model

| member | source | states |
|---|---|---|
| Config.IsValid | src/config.c:160-187 | what config_validate accepts: a port in 1..65535 and workers, threads and queue size all at least 1 |
| Config.Defaults | src/config.c:36-46 | the default record (8080, /var/www/html, 4, 10, 100, access.log, 10, 30) passes validation |
| Config.Apply | src/config.c:253-286 | a rejected update leaves the record unchanged; an accepted one sets exactly its own field and keeps every other field |
| Config.ApplyPreservesValid | src/config.c:253-279 | an update applied to a valid record leaves it valid, whether accepted or rejected |
| Config.ApplyAllPreservesValid | src/config.c:86-111 | any sequence of updates keeps a valid record valid |
| Config.UpdatesFromDefaultsAreValid | src/config.c:36-46 | every sequence of updates applied to the defaults yields a record that validates |
| Config.UntouchedFieldKept | src/config.c:86-111 | a field that no accepted update names keeps its value |
| Config.LastAcceptedWins | src/config.c:86-111 | for each key, the last accepted assignment is the value that stays |
| Config.TrimWhitespace | src/config.c:15-27 | the loops return bounds with only whitespace outside them and none at either end inside, equal to the reference bounds TrimBounds |
| Config.Trim | src/config.c:15-27 | the trimmed string is no longer than the input and starts and ends with non-whitespace |
| Config.TrimIdempotent | src/config.c:15-27 | trimming twice equals trimming once |
| Config.TrimOfTrimmed | src/config.c:15-27 | a string with no whitespace at either end is its own trim |
| Config.FindChar | src/config.c:74 | the result is the first position of the character, or None exactly when it does not occur |
| Config.CutAtNewline | src/config.c:68 | the result is a prefix of the line that holds no newline, and is either the whole line or stops exactly at a newline, so it is the prefix before the first newline |
| Config.CutAtNewlineKeeps | src/config.c:68 | a line without a newline is kept whole |
| Config.EntryUpdate | src/config.c:86-115 | an entry stands for an update exactly when its key is one of the eight known keys, matched exactly |
| Config.EntryLine | src/config.c:70-84 | a well-formed KEY=VALUE line is split at its first '=' and stands for the update its key names |
| Config.LineUpdate | src/config.c:68-84 | the update one line stands for: cut at the first newline and trimmed; none for a blank line, a comment or a line without '='; otherwise the trimmed key and value on either side of the first '=' |
| Config.CommentLineIgnored | src/config.c:68-71 | a line that is blank before its newline, or whose first non-space character is '#', changes nothing |
| Config.IndentedCommentIgnored | src/config.c:70-71 | the indented comment "  # x" changes nothing |
| Config.NonNumericValueRejected | src/config.c:86-111 | for every numeric key, a value with no digit, space or sign where atoi starts reads as 0; the update is rejected and leaves every record unchanged |
| Config.ApplyCommutes | src/config.c:86-111 | assignments to different keys commute, so the order of such lines does not matter |
| Config.ApplyIdempotent | src/config.c:86-111 | repeating an assignment changes nothing more |
| Config.PortEntryExample | src/config.c:86-88 | the entry PORT with value 9090 sets the port to 9090 |
| Config.LineUpdatesSnoc | src/config.c:65-116 | the last line read adds its update, if any, after those of the lines before it |
| Config.LineUpdatesHaveSources | src/config.c:65-116 | every update the loader applies comes from one line of the file |
| Config.LineUpdateCollected | src/config.c:65-116 | a line that stands for an update has that update applied |
| Config.LineUpdatesCollect | src/config.c:65-116 | every line of the file that stands for an update contributes it |
| Config.LoadedIsValid | src/config.c:59-126 | every file the loader reads yields a record that passes validation |
| Config.ServerConfig.InitDefaults | src/config.c:36-46 | the record becomes exactly the defaults |
| Config.ServerConfig.SetPort | src/config.c:253-257 | returns 0 exactly when 1 <= port <= 65535 and -1 otherwise; the record after the call is the guarded update of the record before it |
| Config.ServerConfig.SetDocumentRoot | src/config.c:260-265 | returns 0 exactly for a non-NULL root shorter than MAX_PATH_LENGTH; on -1 nothing changes |
| Config.ServerConfig.SetNumWorkers | src/config.c:268-272 | returns 0 exactly for values >= 1; on -1 nothing changes |
| Config.ServerConfig.SetThreadsPerWorker | src/config.c:275-279 | returns 0 exactly for values >= 1; on -1 nothing changes |
| Config.ServerConfig.SetLogFile | src/config.c:282-287 | returns 0 exactly for a non-NULL path shorter than MAX_PATH_LENGTH; on -1 nothing changes |
| Config.ServerConfig.ApplyEntry | src/config.c:86-115 | one entry changes the record as its update prescribes, and an unknown key changes nothing |
| Config.ServerConfig.ProcessLine | src/config.c:66-84 | one loop iteration changes the record as the line's update prescribes |
| Config.ServerConfig.LoadFromFile | src/config.c:49-127 | a missing file returns -1 and changes nothing; otherwise the record is the defaults with every line applied in order, and the result is 0 |
| Config.ServerConfig.Validate | src/config.c:160-187 | returns 0 exactly when the record is present, the port is in 1..65535 and workers, threads and queue are all >= 1; it returns -1 otherwise |
| Config.ServerConfig.GetPort | src/config.c:210-212 | NULL gives 0; a valid record gives a port in 1..65535 |
| Config.ServerConfig.GetDocumentRoot | src/config.c:215-217 | NULL exactly for a NULL record |
| Config.ServerConfig.GetNumWorkers | src/config.c:220-222 | NULL gives 0; a valid record gives at least 1 |
| Config.ServerConfig.GetThreadsPerWorker | src/config.c:225-227 | NULL gives 0; a valid record gives at least 1 |
| Config.ServerConfig.GetMaxQueueSize | src/config.c:230-232 | NULL gives 0; a valid record gives at least 1 |
| Config.ServerConfig.GetLogFile | src/config.c:235-237 | NULL exactly for a NULL record |
| Config.ServerConfig.GetCacheSize | src/config.c:240-242 | NULL gives 0 |
| Config.ServerConfig.GetTimeout | src/config.c:245-247 | NULL gives 0 |
| Config.SetterExample | src/main.c:50-66 | applied to the defaults rather than to a loaded file, 9090 is accepted, 70000 is rejected and /custom/path is set; the record still validates |
| Text.Atoi | src/config.c:87 | atoi on decimal input: leading whitespace, an optional sign, then the longest run of digits |
| Text.AtoiIntToString | src/config.c:87 | atoi reads back every rendered integer |
| Text.AtoiStopsAtNonDigit | src/config.c:87 | atoi stops at the first non-digit |
| Text.AtoiOfNonNumeric | src/config.c:99-100 | text that starts with neither space, sign nor digit, and a sign not followed by a digit, read as 0 |
| Text.NatToStringInjective | src/logger.c:108 | distinct counts render as distinct decimal strings |
| Text.NatToStringLength | src/logger.c:108 | a number below 10^k renders in at most k digits |
| Text.MachineWordDigits | src/http.c:143 | the largest values of C's int and size_t render in at most 10 and 20 digits |
| Http.ClassifyMethod | src/http.c:45-51 | HTTP_GET exactly for "GET" and HTTP_HEAD exactly for "HEAD"; everything else is unsupported |
| Http.ClassifyVersion | src/http.c:61-67 | HTTP_1_0 exactly for "HTTP/1.0" and HTTP_1_1 exactly for "HTTP/1.1"; everything else is unknown |
| Http.FirstLine | src/http.c:31-35 | None exactly when the buffer holds only CR and LF; otherwise a non-empty run without line breaks |
| Http.FirstLineIsFirstRun | src/http.c:31 | the line is the first maximal run of non-break characters after any leading breaks, ending at the next break or at the end |
| Http.Tokens | src/http.c:38-42 | every token is non-empty and holds no whitespace |
| Http.TokensOfSpaces | src/http.c:39 | text of nothing but whitespace holds no token |
| Http.TokensSplit | src/http.c:39 | whitespace, a token, then whitespace or the end: the token comes first and the rest is split the same way, which fixes the tokens of every input |
| Http.TokensOfRequestLine | src/http.c:39 | "M P V" splits into exactly the three tokens |
| Http.ParseRequest | src/http.c:15-74 | -1 (None) exactly for a NULL buffer, a buffer of only line breaks, or a first line with fewer than three tokens |
| Http.ParseRequestLine | src/http.c:31-67 | a request whose first line is METHOD SP TARGET SP VERSION CRLF parses into the classified method, the decoded target and the classified version, 0 even for an unsupported method |
| Http.UrlDecode | src/http.c:165-186 | the decoder: "%20" and '+' become one space each, every other character is copied |
| Http.UrlDecodeShrinks | src/http.c:165-186 | the decoded string is never longer than the input |
| Http.UrlDecodeIdentity | src/http.c:165-186 | a string with neither '%' nor '+' decodes to itself |
| Http.UrlDecodeNoPlus | src/http.c:178-180 | a decoded string holds no '+' |
| Http.UrlDecodeSpace | src/http.c:170-174 | %20 decodes to one space |
| Http.DecodePlainPrefix | src/http.c:181-183 | a prefix without '%' or '+' is copied verbatim |
| Http.UrlDecodeExample | src/main.c:166-173 | /path%20with%20spaces.html decodes to /path with spaces.html |
| Http.UrlDecodeInPlace | src/http.c:165-186 | the in-place loop leaves the decoding of the original string in the array's prefix, returns a length no larger than before and leaves the rest of the array alone |
| Http.LastIndexOf | src/http.c:88 | the last position of the character, or None exactly when it does not occur |
| Http.MimeOf | src/http.c:91-109 | text/plain exactly for suffixes outside the table |
| Http.MimeType | src/http.c:85-110 | NULL gives application/octet-stream, a name without a dot gives text/plain, otherwise the type of the suffix from the last dot |
| Http.MimeTypeOfExtension | src/http.c:88-109 | any stem followed by an extension gets that extension's type |
| Http.MimeTypeHtmlExample | src/main.c:196 | index.html is text/html |
| Http.MimeTypeCssExample | src/main.c:197 | style.css is text/css |
| Http.MimeTypeJsExample | src/main.c:198 | script.js is application/javascript |
| Http.MimeTypePngExample | src/main.c:199 | image.png is image/png |
| Http.MimeTypeJpegExample | src/main.c:200 | photo.jpg is image/jpeg |
| Http.MimeTypeJsonExample | src/main.c:201 | data.json is application/json |
| Http.MimeTypeUnknownExample | src/main.c:202 | unknown.xyz is text/plain |
| Http.StatusMessage | src/http.c:152-162 | "Unknown" exactly for codes other than 200, 400, 403, 404, 500 and 501 |
| Http.StatusMessagesDistinct | src/http.c:152-162 | the six known codes have pairwise different phrases |
| Http.StatusLine | src/http.c:129 | the status line "HTTP/1.1 <code> <phrase>" |
| Http.HeaderFields | src/http.c:128-145 | the header fields in the order they are written: status line, Server, Date, Connection, then Content-Type when a type is given and Content-Length when the length is positive |
| Http.ResponseHeader | src/http.c:113-148 | the fixed fields, each ended by CR LF, then the Content-Type text as it survives the 512-byte buffer, then the Content-Length text as it survives the 128-byte buffer, then the empty line |
| Http.Snprintf | src/http.c:137 | the written text is shorter than the buffer, is a prefix of the formatted text, and is all of it when it fits |
| Http.TypeChunkWhole | src/http.c:136-138 | a content type of at most 495 characters yields the whole "Content-Type: <type>" line with its CR LF |
| Http.TypeChunkTruncated | src/http.c:136-137 | a longer type keeps only the first 511 bytes: a 496-character type loses the LF and keeps the CR, a 497-character type loses both CR and LF, and a longer one also loses the type after its 497th character; a type without CR therefore never ends its line in CR LF |
| Http.LengthChunkWhole | src/http.c:141-145 | every size_t length renders in at most 20 digits, so the whole "Content-Length: <n>" line with its CR LF fits in the 128-byte buffer |
| Http.CrlfLinesAppend | src/http.c:128-147 | joining two lists of CR LF lines is the concatenation of their joins |
| Http.OptionalLine | src/http.c:135-145 | an optional field of zero or one lines contributes nothing or that line with its CR LF |
| Http.ResponseHeaderWhole | src/http.c:113-148 | with a content type of at most 495 characters, the header is exactly the intended fields, each ended by CR LF, then the empty line |
| Http.ResponseHeaderTypeTruncated | src/http.c:135-147 | with a longer type, the header is the fixed lines, the first 511 bytes of the Content-Type line, the whole Content-Length line when the length is positive, then CR LF |
| Http.ResponseHeaderFraming | src/http.c:128-147 | the header begins with the status line and CR LF and ends with "\r\n\r\n", for a content type of at most 495 characters |
| Http.LinesOfCrlfLines | src/http.c:128-147 | lines each ended by CR LF, then an empty line, split back into exactly those lines |
| Http.ResponseHeaderLines | src/http.c:128-147 | split at CR LF, the header is the status line, Server, Date and Connection: close, then the optional fields in order, then the empty line, for a content type of at most 495 characters |
| Http.ResponseHeaderTypeField | src/http.c:135-139 | a Content-Type line appears exactly when a type is given, and every Content-Type line names that type, for a content type of at most 495 characters |
| Http.ResponseHeaderLengthField | src/http.c:141-145 | a Content-Length line appears exactly when the length is positive, and every Content-Length line names that length, for a content type of at most 495 characters |
| Http.ContainsDotDot | src/http.c:193 | the scan is true exactly when ".." occurs somewhere in the path |
| Http.IsSafePath | src/http.c:189-203 | returns 0 exactly for NULL or a path containing ".." and 1 otherwise, including absolute paths |
| Http.IsSafePathExamples | src/main.c:238-242 | /index.html is safe; /../etc/passwd and /images/../logo.png are not |
| Logging.LevelName | src/logger.c:83-92 | "UNKNOWN" exactly for values outside the five levels; no name holds ']' |
| Logging.LevelNamesDistinct | src/logger.c:83-92 | the five levels have pairwise different names |
| Logging.LevelEntry | src/logger.c:156-160 | the leveled entry "[ts] [LEVEL] msg" |
| Logging.AccessEntry | src/logger.c:193-199 | the Combined Log Format entry, with "-" for a NULL referer or user agent and the request line naming HTTP/1.1 |
| Logging.LevelEntryInjective | src/logger.c:156-160 | for one timestamp, a leveled entry determines its level's name and its message |
| Logging.AccessEntryExample | src/main.c:110 | the first access call of the test driver writes exactly 127.0.0.1 - - [ts] "GET /index.html HTTP/1.1" 200 2048 "-" "Mozilla/5.0" |
| Logging.AccessEntryMissingFields | src/logger.c:193-194 | a NULL referer and a NULL user agent are written as "-" |
| Logging.BackupName | src/logger.c:107-116 | "<path>.<count>", or access.log.backup when that needs 1024 bytes or more |
| Logging.BackupNameFits | src/logger.c:107-116 | the backup name always fits the 1024-byte buffer |
| Logging.BackupNameFallback | src/logger.c:107-116 | the name is "<path>.<count>" exactly when that fits in 1024 bytes; otherwise it is access.log.backup |
| Logging.BackupNamesDistinct | src/logger.c:108-109 | different rotation counts give different backup names when the names fit |
| Logging.BackupNameDiffersFromPath | src/logger.c:108-119 | the backup never has the log's own name unless the log is named access.log.backup, and that exception needs a count wider than C's int |
| Logging.BackupNameNeverThePath | src/logger.c:108-119 | with a count that fits C's int, the backup never has the log's own name, for every path |
| Logging.RotateFile | src/logger.c:100-132 | the file work of a rotation: close, rename to the backup unless the rename fails, reopen; a reopen resets the counter and counts the rotation |
| Logging.Rotate | src/logger.c:95-134 | below the threshold nothing; otherwise the file work, then the rotation notice when the reopen succeeded |
| Logging.Emit | src/logger.c:140-173 | the shared body of the logging calls: skipped without a handle, otherwise rotate, then write the entry, or report the null-handle write after a failed reopen |
| Logging.LogStep | src/logger.c:137-174 | logger_log: Emit of the leveled entry with the 100-byte estimate |
| Logging.AccessStep | src/logger.c:177-211 | logger_log_access: Emit of the access entry with the 200-byte estimate |
| Logging.InitOpen | src/logger.c:30-48 | the fields logger_init sets and the open of the log file in append mode |
| Logging.InitStep | src/logger.c:25-54 | logger_init: -1 for a NULL config or a failed open, otherwise the startup message and 0 |
| Logging.CloseStep | src/logger.c:57-73 | logger_close: the final message, then no handle |
| Logging.RotateBelowThreshold | src/logger.c:96-98 | below the threshold, a rotation check changes nothing |
| Logging.RotateFileReopened | src/logger.c:100-132 | with a successful reopen, the counter is 0 and the count has grown by one, for every path. A successful rename to a backup other than the log's own name moves the old entries there and leaves an empty log; the other files are kept as they were. A failed rename leaves the files as they were |
| Logging.RotateFileReplacesBackup | src/logger.c:118-119 | after a successful rename the backup holds the log's entries, whatever was stored under that name before |
| Logging.RestartReusesFirstBackup | src/logger.c:35-132 | after logger_init, the first rotation moves the log to "<path>.0", replacing whatever an earlier run left there |
| Logging.RotateNotice | src/logger.c:131-133 | after a reopened rotation, the new log ends with the rotation notice and the counter is its 100-byte estimate |
| Logging.RotateReopenFailed | src/logger.c:124-129 | a failed reopen leaves no handle, and the counter and count unchanged |
| Logging.EmitWithoutHandle | src/logger.c:180-183 | without a handle, a logging call changes nothing and writes nothing |
| Logging.LogWithoutHandle | src/logger.c:140-143 | without a handle, logger_log changes nothing |
| Logging.EmitBelowThreshold | src/logger.c:145-173 | below the threshold, the entry is appended to the log alone, the estimate is added, and nothing else changes |
| Logging.LogAppends | src/logger.c:156-171 | a leveled message appends "[ts] [LEVEL] msg" and adds 100 |
| Logging.AccessAppends | src/logger.c:193-208 | an access call appends the Combined Log Format entry and adds 200 |
| Logging.LogAfterRotation | src/logger.c:145-171 | at the threshold, the message follows the rotation notice in the new log; the counter is 200 and the count has grown by one |
| Logging.EmitAfterFailedReopen | src/logger.c:145-160 | after a failed reopen, the same call writes through the null handle and nothing is appended |
| Logging.InitNullConfig | src/logger.c:26-28 | a NULL config returns -1 and changes nothing |
| Logging.InitOpenFields | src/logger.c:31-48 | init sets the path, the 10 MiB threshold and a zero count; a failed open leaves no handle, and a successful one seeds the counter with the existing file's size |
| Logging.InitOpenFails | src/logger.c:38-42 | a failed open returns -1 with no handle and no file created |
| Logging.InitWritesStartup | src/logger.c:44-53 | below the threshold, a successful init returns 0, appends the startup message after the existing entries and counts them |
| Logging.CloseLeavesNoHandle | src/logger.c:57-69 | close always leaves the handle absent |
| Logging.CloseWritesFinalMessage | src/logger.c:57-59 | close writes exactly one "Logger shutting down" entry |
| Logging.CloseTwice | src/logger.c:57-69 | a second close writes nothing and changes nothing |
| Logging.UnsetValid | src/logger.c:21 | the zeroed static logger satisfies the invariant |
| Logging.RotatePreservesValid | src/logger.c:95-134 | rotation keeps the invariant: an open handle names an existing file and the threshold is 10 MiB |
| Logging.EmitPreservesValid | src/logger.c:137-211 | both logging calls keep the invariant |
| Logging.InitPreservesValid | src/logger.c:25-54 | init keeps the invariant |
| Logging.ClosePreservesValid | src/logger.c:57-69 | close keeps the invariant |
| Logging.EmitAsWritten | src/logger.c:133-160 | the logging calls as written, following the mutex: a relock of the held mutex never returns, and a failed reopen ends in the null-handle write |
| Logging.LogAsWritten | src/logger.c:137-174 | logger_log as written |
| Logging.AccessAsWritten | src/logger.c:177-211 | logger_log_access as written |
| Logging.RotationNoticeDeadlocks | src/logger.c:133-138 | as written, every logger_log that rotates and reopens the file locks the held mutex again and never returns |
| Logging.AccessRotationDeadlocks | src/logger.c:178-186 | as written, every logger_log_access that rotates and reopens the file deadlocks the same way |
| Logging.LogAsWrittenAgrees | src/logger.c:137-174 | where no rotation reopens the file, logger_log as written and the model agree on the state and the outcome, including the null-handle write after a failed reopen |
| Logging.AccessAsWrittenAgrees | src/logger.c:177-211 | the same agreement for logger_log_access |
| Logging.Logger.constructor | src/logger.c:21 | the logger starts zeroed and without a handle, so the invariant holds |
| Logging.Logger.RotateIfNeeded | src/logger.c:95-134 | the fields and files after the call are the rotation step of the state before it; rotating an open logger keeps the invariant |
| Logging.Logger.Write | src/logger.c:140-173 | the shared body of the logging calls follows the step function Emit and keeps the invariant |
| Logging.Logger.Log | src/logger.c:137-174 | the fields and files after the call are the logger_log step, and the outcome is returned; the invariant is kept |
| Logging.Logger.LogAccess | src/logger.c:177-211 | the fields and files after the call are the logger_log_access step; the invariant is kept |
| Logging.Logger.Init | src/logger.c:25-54 | the state, return code and outcome are those of the init step for the given config; the invariant is kept |
| Logging.Logger.Close | src/logger.c:57-73 | the state and outcome are those of the close step, after which the invariant holds |

## Left out

- Concurrency: `pthread_mutex_*` and the 100 ms `usleep` of logger_close are not modelled. Each call is atomic; the mutex appears only in `Logging.EmitAsWritten`, to exhibit the deadlock.
- Console output: the `printf` mirror of every log entry and the `fprintf(stderr, …)` diagnostics are not modelled, since they produce no state.
- Clocks: `time`, `localtime`, `gmtime` and `strftime` are replaced by timestamp and Date string parameters. One call uses the same timestamp for the rotation notice and for its own entry.
- `vfprintf` format expansion: the message of logger_log is taken as already formatted.
- `stat` is not modelled as a failure; it is assumed to succeed after a successful `fopen`. Sizes count one byte per character.
- `Logging.EmitAsWritten`: the nested `logger_log` of `src/logger.c:133` is modelled only on glibc's default mutex, which deadlocks; POSIX leaves a relock of the default type undefined.
- `Logging.Rotate`: the notice does not re-run the rotation check inside the nested call. With the 10 MiB threshold and a counter of 0 that check never rotates.
- logger.h and config.h are not part of this model. MAX_PATH_LENGTH is taken as 1024. The `log_file` buffer of `logger_t` is assumed never to truncate the configured path (`strncpy` at `src/logger.c:31`). `log_level_t` values other than the five named ones are `Level.OutOfRange`.
- `rotation_count` and the other C `int` fields are unbounded, so `int` overflow is not modelled.
- `logger_log_access` takes the client address, method and URL as non-NULL strings, as the callers in `src/main.c` pass them.
- `Config.ServerConfig.SetPort`, the other setters and `Config.ServerConfig.LoadFromFile` are instance methods, so their NULL-config branch (returning -1, `src/config.c:50` for config_load_from_file) is not modelled. `config_validate` and the getters do model NULL.
- `Config.ServerConfig.Validate`: the document-root existence check (`directory_exists`) only prints a warning and is not modelled.
- `Config.ServerConfig.LoadFromFile`: `fgets` splitting of lines longer than MAX_CONFIG_LINE is not modelled, because the file is given as its lines. `config_create` and `config_destroy` are not modelled, since they only allocate.
- `Config.EntryUpdate`: `atoi` is modelled on decimal input (leading whitespace, optional sign, digits). Values outside the C `int` range are not truncated.
- Strings stand for C byte strings with one byte per character and no NUL byte. The length limits therefore count characters as bytes: `strlen(...) >= MAX_PATH_LENGTH` at `src/config.c:261` and `src/config.c:283` (`Config.Accepts`, `Config.ServerConfig.SetDocumentRoot`, `Config.ServerConfig.SetLogFile`), the 1024-byte `backup_file` at `src/logger.c:107` (`Logging.BackupName`) and the `temp` buffers at `src/http.c:136` and `src/http.c:142` (`Http.Snprintf`). A multi-byte UTF-8 character, which C counts as several bytes, or an embedded NUL, where `strlen`, `strcspn` and `strtok` stop, is outside the model.
- `Http.ParseRequest`: the `sscanf` width caps (15, 1023, 15) and the truncation to `request->path` are not modelled. A method or version token longer than 15 characters would be split by the real parser.
- `Http.ParseRequest`: the `headers` field is left out because `src/http.c:70` can read past the end of the buffer. `memset`, `strdup` allocation failure and `http_free_request` are not modelled.
- `Http.ResponseHeader`: the `malloc` of `header_size` bytes is not modelled. It never truncates: the fixed part is at most 166 bytes with the 63-character Date buffer, the whole header at most 223 bytes plus the type's length, and 256 plus the type's length is reserved. Allocation failure is not modelled either. The cut that can happen, at the 512-byte `temp` buffer, is modelled.
- `Http.ResponseHeaderFraming`, `Http.ResponseHeaderLines`, `Http.ResponseHeaderTypeField` and `Http.ResponseHeaderLengthField` hold only for content types of at most 495 characters. With a longer type, `snprintf` cuts the Content-Type line at 511 bytes: 496 characters lose its LF, 497 lose its CR LF, and 498 or more also lose the type after its 497th character. The header is then not a list of CR LF lines; `Http.ResponseHeaderTypeTruncated` states what it is instead.

## Findings

| source | as written | input that shows it | evidently intended | confidence | as-written member | corrected member |
|---|---|---|---|---|---|---|
| src/logger.c:133 | logger_rotate_if_needed runs with log_mutex held by logger_log or logger_log_access, and after a successful reopen it calls logger_log, which locks log_mutex again | any logging call when current_file_size has reached 10 MiB and the reopen succeeds | the notice "Log file rotated to <backup>" is written to the new file under the lock already held, and the caller's entry follows | not executed | Logging.RotationNoticeDeadlocks | Logging.RotateNotice |
