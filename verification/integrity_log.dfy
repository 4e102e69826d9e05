/**
 The variable log of the marker tool.

 Each call of `CheckAndUpdateLog` hashes a watched file, loads the ordered log
 kept in `<log_path>/.variables.log`, compares the fresh hash with the hash of
 the LAST entry only, and appends exactly one entry recording the variable, the
 hash and the verdict ("Not Tampered" / "Tampered").  Entries do not commit to
 one another, so edits to the log file itself go undetected.

 Everything outside the program is a parameter:
 - the file system is a finite map from paths to byte contents (a path that is
   not a key is a missing file);
 - SHA-256 hex digests, JSON decoding and JSON encoding are the uninterpreted
   functions of an `Env`;
 - the formatted UTC timestamp is an opaque string.
*/
module IntegrityLog {
  import opened Wrappers

  type Byte = bv8
  type Bytes = seq<Byte>
  type Path = string

  /** A hex-encoded content digest. */
  type Digest = string

  /** The verdict stored in each entry: "Not Tampered" or "Tampered". */
  datatype Status = NotTampered | Tampered

  /** One log record; `hash` is `None` when the watched file was missing. */
  datatype Entry = Entry(
    timestamp: string,
    file: Path,
    logPath: Path,
    variableName: string,
    value: string,
    hash: Option<Digest>,
    status: Status
  )

  /** The log: entries in append order. */
  type Log = seq<Entry>

  /** File contents by path; a path that is not a key does not exist.
      Paths are compared as strings: two different strings are two files. */
  type FileSystem = map<Path, Bytes>

  /** The collaborators the program calls but that are not modelled:
      the content digest, the JSON decoder (`None` for text that is not valid JSON)
      and the JSON encoder. */
  datatype Env = Env(
    digest: Bytes -> Digest,
    parse: Bytes -> Option<Log>,
    serialize: Log -> Bytes
  )

  /** Decoding what was encoded gives back the same entries in the same order. */
  ghost predicate CodecRoundTrips(env: Env) {
    forall logs: Log :: env.parse(env.serialize(logs)) == Some(logs)
  }

  const LogFileName: string := ".variables.log"

  /** `os.path.join(log_path, ".variables.log")` with POSIX rules: an empty
      directory gives the bare name, and no separator is doubled. */
  function LogFilePath(logPath: Path): (p: Path)
    ensures |logPath| + |LogFileName| <= |p| <= |logPath| + 1 + |LogFileName|
    ensures p[..|logPath|] == logPath && p[|p| - |LogFileName|..] == LogFileName
    ensures var sep := p[|logPath|..|p| - |LogFileName|];
            sep == (if logPath == [] || logPath[|logPath| - 1] == '/' then "" else "/")
  {
    if logPath == [] || logPath[|logPath| - 1] == '/' then logPath + LogFileName
    else logPath + "/" + LogFileName
  }

  /** `calculate_hash`: the digest of the file's bytes, or `None` for a missing file. */
  function CalculateHash(env: Env, fs: FileSystem, path: Path): (h: Option<Digest>)
    ensures h.None? <==> path !in fs
    ensures h.Some? ==> h.value == env.digest(fs[path])
  {
    if path in fs then Some(env.digest(fs[path])) else None
  }

  /** `read_log`: a missing log file, or one that is not valid JSON, loads as the empty log. */
  function ReadLog(env: Env, fs: FileSystem, path: Path): (logs: Log)
    ensures path !in fs ==> logs == []
    ensures path in fs ==> logs == env.parse(fs[path]).GetOr([])
  {
    if path in fs then env.parse(fs[path]).GetOr([]) else []
  }

  /** `write_log`: replaces (or creates) one file and touches nothing else. */
  function WriteLog(env: Env, fs: FileSystem, path: Path, logs: Log): (fs': FileSystem)
    ensures fs'.Keys == fs.Keys + {path}
    ensures fs'[path] == env.serialize(logs)
    ensures forall p :: p in fs && p != path ==> fs'[p] == fs[p]
  {
    fs[path := env.serialize(logs)]
  }

  /** The status rule: the first entry is never tampered; afterwards only the
      last entry's hash is compared with the current one. */
  function NextStatus(logs: Log, current: Option<Digest>): (s: Status)
    ensures logs == [] ==> s == NotTampered
    ensures logs != [] ==> (s == NotTampered <==> logs[|logs| - 1].hash == current)
  {
    if logs != [] then
      var lastHash := logs[|logs| - 1].hash;
      if lastHash == current then NotTampered else Tampered
    else
      NotTampered
  }

  /** The pure part of `check_and_update_log`: append one entry whose fields
      are the inputs, the current hash and the computed status. */
  function AppendEntry(logs: Log, current: Option<Digest>, timestamp: string, filePath: Path,
                       logPath: Path, variableName: string, value: string): (r: Log)
    ensures |r| == |logs| + 1
    ensures r[..|logs|] == logs
    ensures forall i :: 0 <= i < |logs| ==> r[i] == logs[i]
    ensures var e := r[|logs|];
            && e.timestamp == timestamp
            && e.file == filePath
            && e.logPath == logPath
            && e.variableName == variableName
            && e.value == value
            && e.hash == current
    ensures logs == [] ==> r[0].status == NotTampered
    ensures logs != [] ==> (r[|logs|].status == NotTampered <==> logs[|logs| - 1].hash == current)
  {
    var status := NextStatus(logs, current);
    logs + [Entry(timestamp, filePath, logPath, variableName, value, current, status)]
  }

  /** `check_and_update_log`: the file system after one recording.
      Only the log file under `logPath` changes, and it now holds the encoding
      of the old log with the new entry appended. */
  function CheckAndUpdateLog(env: Env, fs: FileSystem, filePath: Path, logPath: Path,
                             variableName: string, value: string, timestamp: string): (fs': FileSystem)
    ensures fs'.Keys == fs.Keys + {LogFilePath(logPath)}
    ensures forall p :: p in fs && p != LogFilePath(logPath) ==> fs'[p] == fs[p]
    ensures exists e: Entry ::
              && fs'[LogFilePath(logPath)] == env.serialize(ReadLog(env, fs, LogFilePath(logPath)) + [e])
              && e.hash == CalculateHash(env, fs, filePath)
  {
    var logFilePath := LogFilePath(logPath);
    var logs := ReadLog(env, fs, logFilePath);
    var currentHash := CalculateHash(env, fs, filePath);
    var logs' := AppendEntry(logs, currentHash, timestamp, filePath, logPath, variableName, value);
    assert logs' == logs + [logs'[|logs|]];
    WriteLog(env, fs, logFilePath, logs')
  }

  /** The entry `CheckAndUpdateLog` appends, read back from its log file. */
  function LastEntry(env: Env, fs: FileSystem, logPath: Path): (e: Option<Entry>)
    ensures e.Some? <==> ReadLog(env, fs, LogFilePath(logPath)) != []
  {
    var logs := ReadLog(env, fs, LogFilePath(logPath));
    if logs == [] then None else Some(logs[|logs| - 1])
  }

  /** Reading back a written log gives the same entries in the same order. */
  lemma ReadAfterWrite(env: Env, fs: FileSystem, path: Path, logs: Log)
    requires CodecRoundTrips(env)
    ensures ReadLog(env, WriteLog(env, fs, path, logs), path) == logs
  {
    assert env.parse(env.serialize(logs)) == Some(logs);
  }

  /** A missing log file, or one whose content is not valid JSON, loads as
      the empty log instead of stopping the recording. */
  lemma CorruptLogLoadsEmpty(env: Env, fs: FileSystem, path: Path)
    requires path !in fs || env.parse(fs[path]).None?
    ensures ReadLog(env, fs, path) == []
  {
  }

  /** Only the last entry's hash is consulted: two logs whose last entries
      carry the same hash give the same status, whatever their earlier
      entries, their lengths, or the last entries' own status. */
  lemma StatusIgnoresEarlierEntries(logs1: Log, logs2: Log, current: Option<Digest>)
    requires logs1 != [] && logs2 != []
    requires logs1[|logs1| - 1].hash == logs2[|logs2| - 1].hash
    ensures NextStatus(logs1, current) == NextStatus(logs2, current)
  {
  }

  /** Replacing any entry before the last one never changes the status. */
  lemma EditingEarlierEntryKeepsStatus(logs: Log, k: nat, e: Entry, current: Option<Digest>)
    requires k + 1 < |logs|
    ensures NextStatus(logs[k := e], current) == NextStatus(logs, current)
  {
    StatusIgnoresEarlierEntries(logs[k := e], logs, current);
  }

  /** One recording, seen through the log file: with a faithful codec, the log
      read back afterwards is the log read before with exactly one entry
      appended, whose fields are the call's inputs, the current hash and the
      status rule's verdict. */
  lemma RecordAppendsOneEntry(env: Env, fs: FileSystem, filePath: Path, logPath: Path,
                              variableName: string, value: string, timestamp: string)
    requires CodecRoundTrips(env)
    ensures var before := ReadLog(env, fs, LogFilePath(logPath));
            var after := ReadLog(env, CheckAndUpdateLog(env, fs, filePath, logPath, variableName, value, timestamp),
                                 LogFilePath(logPath));
            var current := CalculateHash(env, fs, filePath);
            && |after| == |before| + 1
            && after[..|before|] == before
            && after[|before|] == Entry(timestamp, filePath, logPath, variableName, value, current,
                                        if before == [] || before[|before| - 1].hash == current then NotTampered else Tampered)
  {
    var path := LogFilePath(logPath);
    var before := ReadLog(env, fs, path);
    var current := CalculateHash(env, fs, filePath);
    var logs' := AppendEntry(before, current, timestamp, filePath, logPath, variableName, value);
    ReadAfterWrite(env, fs, path, logs');
  }

  /** Two recordings of the same watched file with no other change to the log
      in between: the second verdict is "Not Tampered" exactly when the file's
      hash (or its absence) is the same at both times.  `fsMid` is the file
      system at the second call; it may differ from the first call's result
      anywhere except the log file. */
  lemma SecondRecordStatus(env: Env, fs: FileSystem, fsMid: FileSystem, filePath: Path, logPath: Path,
                           name1: string, value1: string, time1: string,
                           name2: string, value2: string, time2: string)
    requires CodecRoundTrips(env)
    requires var fs1 := CheckAndUpdateLog(env, fs, filePath, logPath, name1, value1, time1);
             LogFilePath(logPath) in fsMid && fsMid[LogFilePath(logPath)] == fs1[LogFilePath(logPath)]
    ensures var fs2 := CheckAndUpdateLog(env, fsMid, filePath, logPath, name2, value2, time2);
            var e := LastEntry(env, fs2, logPath);
            && e.Some?
            && (e.value.status == NotTampered <==> CalculateHash(env, fsMid, filePath) == CalculateHash(env, fs, filePath))
  {
    var path := LogFilePath(logPath);
    var fs1 := CheckAndUpdateLog(env, fs, filePath, logPath, name1, value1, time1);
    RecordAppendsOneEntry(env, fs, filePath, logPath, name1, value1, time1);
    var log1 := ReadLog(env, fs1, path);
    assert ReadLog(env, fsMid, path) == log1;
    assert log1[|log1| - 1].hash == CalculateHash(env, fs, filePath);
    RecordAppendsOneEntry(env, fsMid, filePath, logPath, name2, value2, time2);
  }

  /** A watched file that is missing at two consecutive recordings is recorded
      with no hash both times, and the second verdict is "Not Tampered",
      because the two absent hashes compare equal. */
  lemma MissingFileRecordedTwice(env: Env, fs: FileSystem, filePath: Path, logPath: Path,
                                 name1: string, value1: string, time1: string,
                                 name2: string, value2: string, time2: string)
    requires CodecRoundTrips(env)
    requires filePath !in fs && filePath != LogFilePath(logPath)
    ensures var fs1 := CheckAndUpdateLog(env, fs, filePath, logPath, name1, value1, time1);
            var fs2 := CheckAndUpdateLog(env, fs1, filePath, logPath, name2, value2, time2);
            var e := LastEntry(env, fs2, logPath);
            e.Some? && e.value.hash.None? && e.value.status == NotTampered
  {
    var fs1 := CheckAndUpdateLog(env, fs, filePath, logPath, name1, value1, time1);
    SecondRecordStatus(env, fs, fs1, filePath, logPath, name1, value1, time1, name2, value2, time2);
    RecordAppendsOneEntry(env, fs1, filePath, logPath, name2, value2, time2);
  }

  /** A watched file whose bytes change between two recordings, to contents
      with a different digest, gets the verdict "Tampered" the second time. */
  lemma ChangedFileRecordedAsTampered(env: Env, fs: FileSystem, filePath: Path, logPath: Path, newBytes: Bytes,
                                      name1: string, value1: string, time1: string,
                                      name2: string, value2: string, time2: string)
    requires CodecRoundTrips(env)
    requires filePath in fs && filePath != LogFilePath(logPath)
    requires env.digest(newBytes) != env.digest(fs[filePath])
    ensures var fs1 := CheckAndUpdateLog(env, fs, filePath, logPath, name1, value1, time1);
            var fs2 := CheckAndUpdateLog(env, fs1[filePath := newBytes], filePath, logPath, name2, value2, time2);
            var e := LastEntry(env, fs2, logPath);
            e.Some? && e.value.status == Tampered
  {
    var fs1 := CheckAndUpdateLog(env, fs, filePath, logPath, name1, value1, time1);
    SecondRecordStatus(env, fs, fs1[filePath := newBytes], filePath, logPath, name1, value1, time1, name2, value2, time2);
  }
}
