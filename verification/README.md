# Variable log and edit distance, modelled in Dafny

This project models two independent pieces of the backup/migration tooling.

- **The variable log** (`create/create_marker.py`) is in module `IntegrityLog`, file `integrity_log.dfy`.
  - `check_and_update_log` hashes a watched file. A missing file has no hash (`None`).
  - It loads the JSON log at `<log_path>/.variables.log`. A missing log, or one that is not valid JSON, loads as empty.
  - It compares the fresh hash with the hash of the *last* entry only. Entries do not commit to each other: no entry stores a digest of an earlier entry or of the log. So edits to the log file itself, such as rewriting an earlier entry's hash or status, are not detected (IntegrityLog.EditingEarlierEntryKeepsStatus).
  - It appends one entry with the timestamp, file, log path, variable name, value, hash and status. The status is "Not Tampered" or "Tampered".
  - In the model, the file system is a finite map from paths to bytes, and a path that is not a key is a missing file. SHA-256, `json.load` and `json.dump` are uninterpreted functions, carried by an `Env` value. The timestamp is an opaque string.
- **Levenshtein distance** (`functions/levenshtein.py`) is in module `Levenshtein`, file `levenshtein.dfy`.
  - `EditDistance` is the unit-cost recurrence on prefixes.
  - `Apply`/`Cost` describe edit scripts. The lemmas prove that `EditDistance` is exactly the cost of a cheapest script.
  - `LevenshteinDistance` is the program's two-row dynamic programme. It keeps the argument swap and the empty-string shortcut, and it is proved to compute `EditDistance`.

`wrappers.dfy` holds the shared `Option` type.

Lemmas that read back a log that was written take one hypothesis, `CodecRoundTrips(env)`: decoding an encoded log gives back the same entries.

## Model

| member | source | states |
|---|---|---|
| IntegrityLog.LogFilePath | create/create_marker.py:31 | The log file is `.variables.log` under `log_path`, joined as `os.path.join` does. The path begins with `log_path` and ends with the file name. A `/` is inserted only when `log_path` is non-empty and has no trailing `/`. The watched file plays no part. |
| IntegrityLog.CalculateHash | create/create_marker.py:7-14 | A missing file gives `None` rather than an error. A present file gives the digest of its bytes. |
| IntegrityLog.ReadLog | create/create_marker.py:16-24 | A non-existent log file loads as the empty log. So does one whose text is not valid JSON. Otherwise the decoded entries are returned. |
| IntegrityLog.WriteLog | create/create_marker.py:26-28 | Writing the log creates or replaces that one file with the encoded entries. Every other file is unchanged. |
| IntegrityLog.NextStatus | create/create_marker.py:35-40 | With no previous entry the status is "Not Tampered". Otherwise it is "Not Tampered" exactly when the last entry's hash equals the current hash, and "Tampered" otherwise. |
| IntegrityLog.AppendEntry | create/create_marker.py:42-51 | The new log is the old log plus exactly one entry. Earlier entries are unchanged and in order. The new entry's fields are the timestamp, file path, log path, variable name, value and current hash. Its status follows the last-hash rule. |
| IntegrityLog.CheckAndUpdateLog | create/create_marker.py:30-52 | One recording changes only the log file under `log_path`, creating it if needed. That file then encodes the previously loaded log followed by one entry carrying the watched file's current hash. |
| IntegrityLog.ReadAfterWrite | create/create_marker.py:16-28 | With a faithful codec, loading a log that was just written gives the same entries in the same order. |
| IntegrityLog.CorruptLogLoadsEmpty | create/create_marker.py:16-24 | A missing log file, or one whose text is not valid JSON, is treated as the empty log rather than stopping the recording. |
| IntegrityLog.StatusIgnoresEarlierEntries | create/create_marker.py:35-38 | Only the last entry's hash is consulted. Two logs whose last hashes agree give the same status, whatever their earlier entries, lengths or last status. |
| IntegrityLog.EditingEarlierEntryKeepsStatus | create/create_marker.py:36-38 | Replacing any entry before the last one never changes the computed status. |
| IntegrityLog.RecordAppendsOneEntry | create/create_marker.py:30-52 | Read back from disk, a recording grows the log by exactly one entry and keeps the prior entries in order. The new entry has the given fields, the current hash, and "Not Tampered" iff the log was empty or its last hash equals the current hash. |
| IntegrityLog.SecondRecordStatus | create/create_marker.py:33-38 | Take two recordings of one file with the log untouched in between. The second is "Not Tampered" exactly when the file's hash, or its absence, is the same at both times. |
| IntegrityLog.MissingFileRecordedTwice | create/create_marker.py:13-14 | A file that is missing at two consecutive recordings is recorded with no hash, not as an error. The second verdict is "Not Tampered" because `None == None`. |
| IntegrityLog.ChangedFileRecordedAsTampered | create/create_marker.py:38 | Suppose the watched file changes between two recordings to bytes with a different digest. Then the second entry is "Tampered". |
| Levenshtein.LevenshteinDistance | functions/levenshtein.py:3-20 | The result is the unit-cost edit distance of the two strings, in either argument order. It lies between the length difference and the longer length. |
| Levenshtein.NextRow | functions/levenshtein.py:11-18 | Given the row for the prefix `s1[..i]`, each cell `j` of the row built is the distance from `s1[..i+1]` to `s2[..j]`. The row has length `len(s2)+1` and its first cell is `i+1`. |
| Levenshtein.FirstRow | functions/levenshtein.py:10 | The initial row has `len(s2)+1` cells, and cell `k` is the edit distance from the empty prefix of `s1` to `s2[..k]`. |
| Levenshtein.PrefixStep | functions/levenshtein.py:14-17 | A cell is the minimum of insertion+1, deletion+1 and substitution+(c1 != c2), read at the prefixes the loops visit. |
| Levenshtein.Symmetric | functions/levenshtein.py:4-5 | The distance does not depend on argument order, which justifies the swap. |
| Levenshtein.EmptyDistance | functions/levenshtein.py:7-8 | If one string is empty, the distance is the length of the other. |
| Levenshtein.SelfDistanceZero | functions/levenshtein.py:16 | A string is at distance 0 from itself. |
| Levenshtein.Bounds | functions/levenshtein.py:7-20 | `abs(len(s1)-len(s2)) <= d <= max(len(s1), len(s2))`. |
| Levenshtein.DistanceIsAchieved | functions/levenshtein.py:10-20 | Some edit script turns `s1` into `s2` at a cost equal to the distance, with unit-cost insert, delete and substitute and free keeps. |
| Levenshtein.NoCheaperScript | functions/levenshtein.py:10-20 | Every edit script that turns `s1` into some string costs at least the distance between the two. So the distance is the minimum edit cost. |

## Left out

- File I/O is replaced by the finite map. This covers `open`/`read`, `os.path.exists` and the `json.dump` write. Errors other than a missing file are not modelled: permission denied, a directory at the path, a failing write. The Python raises on those.
- SHA-256 is an uninterpreted digest function. Tamper detection is stated in terms of digests, so "changed bytes" means "bytes with a different digest".
- The JSON format with `indent=4` is abstract. Decoding is an uninterpreted `parse` that yields a log or `None`, and encoding is an uninterpreted `serialize`. The program checks only what it reads with `logs[-1]['hash']` (create/create_marker.py:36-37). It raises only when the decoded value is not a list, or when its last element has no `"hash"` key. The program carries through unchanged any other elements of any JSON shape, and any extra keys in any entry (create/create_marker.py:51-52). The model's `parse` yields only logs of typed entries, so the model does not represent such elements or keys.
- The timestamp from `time.strftime`/`time.gmtime` is a caller-supplied string, because it is a clock read.
- The `__main__` block (create/create_marker.py:54-56) is command-line plumbing. It would also fail as written, because it passes five arguments to the four-parameter `check_and_update_log`.
- The module-level `sys.argv` read and `print` in functions/levenshtein.py:22-24 are I/O.
- Marker-file generation, commitments, entropy tokens and a separate verify operation do not appear in create/create_marker.py. They are not part of this model.
- Concurrent writers and atomic replacement of the log file are not modelled. The code rewrites the whole file with no lock or temporary file, and a race is a property of the environment.
- Missing files are stored with hash `None` (JSON `null`). There is no other sentinel value.
- The code rewrites the log file in place. The model treats a write as a single step, so a crash in the middle of a write is not modelled.
- Paths are not normalised. `.`, `..`, repeated `/`, symbolic links, and relative against absolute paths are all ignored. Two different path strings stand for two different files. So `filePath != LogFilePath(logPath)` in IntegrityLog.MissingFileRecordedTwice and IntegrityLog.ChangedFileRecordedAsTampered is a string inequality. Watching `d/./.variables.log` with log directory `d` watches the log file itself in the program, but not in the model.
- IntegrityLog.ReadLog: `parse` returning `None` stands only for content that decodes as text but is not valid JSON, the `json.JSONDecodeError` case caught at create/create_marker.py:21. In the program, a log whose bytes are not valid text in the locale encoding raises `UnicodeDecodeError`. That error leaves `check_and_update_log` and the file is not rewritten. The model does not promise that this case stops the recording.
- IntegrityLog.CheckAndUpdateLog: its own contract states the new log content only up to the appended entry's hash. The complete entry, read back through the codec, is stated by IntegrityLog.RecordAppendsOneEntry.
