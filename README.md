# sipcreator: manifest and log consolidation

This project is a Dafny model of the part of `sipcreator.py` that assembles
a Submission Information Package (SIP) in a package directory
`<output>/<object entry>/<uuid>`, or `<-o>/<uuid>` in special-collections
mode. The modelled parts are:

- **Package context.** `get_object_entry` validates the `oe` number (`oe`
  followed by four or five digits). `make_folder_path` builds the package
  path. `determine_uuid` settles the package UUID and its
  identifier-assignment event.
- **Manifest consolidation.** `consolidate_manifests` handles every
  checksum manifest in `<package>/<directory>`. Each line
  `<32-character MD5 digest><two spaces><path>` is rewritten so that its
  path becomes `<uuid>/<directory>/<path>`. The rewritten lines are appended
  to the canonical manifest `<parent>/<uuid>_manifest.md5`. The old manifest
  is moved into `<package>/logs`, and two provenance events are logged for
  it.
- **Log consolidation.** `consolidate_logs` appends every line of every
  transfer log, in order, to the provenance log
  `<package>/logs/<uuid>_sip_log.log`.
- **Log recovery.** When `log_report` cannot find a transfer log, a log in
  the desktop logs directory may stand in for it. It qualifies when its name
  contains the missing log's name without the seconds and `.log`, and its
  timestamp (`name[-12:-4]`, underscores removed) is strictly later.
- **Objects-manifest normalisation.** In a root-copy package,
  `normalise_objects_manifest` replaces every `"  objects/"` in
  `<sip>/objects_manifest.md5` with `"  "`. It then moves the file into
  `<sip>/objects`.

The Python these functions depend on is written out in the modules `PyStr`
and `PosixPath`. `PyStr` covers slicing with negative and out-of-range
bounds, `str.replace`, `in` on strings, `isdigit` and `int`. `PosixPath`
covers `os.path.join`, `basename` and `dirname`.

The model works on values. A file is the list of lines `readlines` returns.
A directory listing is a sequence of names with their files' lines.
`consolidate_manifests`, `consolidate_logs` and `normalise_objects_manifest`
are methods with loops. `ConsolidateManifests` returns the canonical
manifest's path and new contents, the moves it would make and the events it
would log. `ConsolidateLogs` returns the provenance log's path and a
`LogOutcome`: the log's new contents and the error that ended the run, if
any. `NormaliseObjectsManifest` returns the relocated manifest, its new path
and its lines, or nothing when there is no objects manifest. Each method's result is stated through a
specification function: recursive ones for the collected lines, the moves,
the events and the appended log, and a per-line rewrite for a single
manifest and for the objects manifest. The properties are lemmas about those
functions. The fallback selection of `log_report` is the recursive function
`FallbackLogs`.

The model follows the code as written:

- Manifest lines are cut at the literal offsets 32 and 34, the MD5 layout.
  There is no digest-length lookup keyed by algorithm. No line is rejected
  as malformed: a short or odd line is still rewritten, and
  `RewriteKeepsLeadingCharacters` states what survives.
- Log recovery selects every qualifying later log, in listing order, not
  only the most recent one.
- A missing log stops `consolidate_logs` with an error after the logs before
  it have been appended. It is not skipped.

## Model

| member | source | states |
|---|---|---|
| ManifestConsolidation.ConsolidateManifests | sipcreator.py:45-82 | the canonical manifest is `<dirname>/<uuid>_manifest.md5`; its new contents are the old contents followed by every line of every recognised manifest, rewritten, in listing order; the moves and events are one move and two events per recognised manifest, in listing order |
| ManifestConsolidation.RewriteManifest | sipcreator.py:63-70 | the lines of one manifest are rewritten one for one, in their order |
| ManifestConsolidation.RewriteKeepsDigest | sipcreator.py:67-70 | on a well-formed line the digest is kept, the line stays well-formed, and the new path is the old path under `<uuid>/<directory>/` |
| ManifestConsolidation.RewriteKeepsLeadingCharacters | sipcreator.py:67-70 | on any line, even a short or malformed one, the first 32 characters survive the rewrite |
| ManifestConsolidation.RewriteShortLine | sipcreator.py:67-70 | a line shorter than 34 characters no longer ends with its newline: the rewritten line ends with the `/` of the inserted prefix; a line shorter than 32 characters, such as a bare newline, is kept whole with the inserted text after it, and a character at index 32 or 33, a newline there included, is dropped |
| ManifestConsolidation.RewriteKeepsTrailingNewline | sipcreator.py:67-70 | a well-formed line (at least 35 characters with its newline) that ends with a newline still ends with it after the rewrite |
| ManifestConsolidation.RewriteRoundTrip | sipcreator.py:67-70 | stripping the inserted `<uuid>/<directory>/` from a rewritten well-formed line gives back the original line |
| ManifestConsolidation.CanonicalManifestIsSibling | sipcreator.py:51-55 | the canonical manifest sits in the package's parent directory and is named `<uuid>_manifest.md5` |
| ManifestConsolidation.CollectedLength | sipcreator.py:56-70 | one collected line per line of each recognised manifest, and none for other files |
| ManifestConsolidation.CollectedAt | sipcreator.py:57-70 | line `j` of the manifest at listing position `i` appears, rewritten, right after the lines of the recognised manifests before it |
| ManifestConsolidation.EventCount | sipcreator.py:59-62 | two provenance events per recognised manifest |
| ManifestConsolidation.MovesOfRecognised | sipcreator.py:72-74 | the k-th move takes the k-th recognised manifest from `<objects_dir>/<name>` into `<package>/logs` |
| ManifestConsolidation.NothingRecognised | sipcreator.py:57-58 | a listing with no manifest adds no line, makes no move and logs no event |
| ManifestConsolidation.Remaining | sipcreator.py:72-74 | after the moves, no recognised manifest is left in the subtree, every other entry is still there, and the subtree has lost exactly the recognised manifests |
| ManifestConsolidation.ConsolidationAppendsOnly | sipcreator.py:79-81 | the canonical manifest is opened for append: it grows by exactly the recognised line count and is unchanged when nothing is recognised (its old contents staying a prefix comes from the shape `ConsolidateManifests` ensures) |
| ManifestConsolidation.SecondConsolidationIsNoOp | sipcreator.py:56-81 | a second run on what the first left behind adds no line, makes no move and logs no event |
| ManifestConsolidation.ListingStep | sipcreator.py:57-78 | handling one more listing entry extends the lines, moves and events by exactly that entry's share |
| LogConsolidation.ConsolidateLogs | sipcreator.py:85-98 | the provenance log is `<path>/logs/<uuid>_sip_log.log`; the outcome is the logs appended in order, stopping at the first log that cannot be opened |
| LogConsolidation.AppendedAllPresent | sipcreator.py:93-98 | when every log exists and none is the destination, the destination gains exactly the concatenation of the logs and no error occurs |
| LogConsolidation.ConcatLogsLength | sipcreator.py:93-98 | the number of lines added is the sum of the logs' line counts |
| LogConsolidation.ConcatLogsAt | sipcreator.py:93-98 | line `j` of log `i` lands right after the lines of the logs before it |
| LogConsolidation.AppendedStopsAtMissing | sipcreator.py:93-95 | a missing log ends the run with an error naming it, after the logs before it have been appended |
| LogConsolidation.AppendedKeepsPrefix | sipcreator.py:96-98 | the destination is only appended to: its earlier contents are a prefix of its new contents |
| LogConsolidation.BinaryModeCopiesNothing | sipcreator.py:96-98 | as written, the destination never gains a line |
| LogConsolidation.BinaryModeLosesLines | sipcreator.py:96-98 | as written, one non-empty log makes the run fail and its lines are lost, where a text append copies them |
| LogRecovery.FallbackLogsDefined | sipcreator.py:127-134 | the selection fails exactly when some candidate that names the item has an unreadable timestamp |
| LogRecovery.FallbackLogsExact | sipcreator.py:127-140 | the selected paths are exactly the candidates that name the item and are strictly later, joined onto the logs directory, and there are no more of them than candidates |
| LogRecovery.FallbackLogsInOrder | sipcreator.py:127-140 | the selection keeps listing order: its k-th path is the qualifying candidate at the k-th of a strictly increasing sequence of listing positions, and every qualifying position is among them |
| PyStr.ParseInt | sipcreator.py:131-134 | `int` of a timestamp succeeds exactly on a non-empty string of decimal digits |
| ObjectsManifest.NormaliseObjectsManifest | sipcreator.py:220-241 | with no objects manifest nothing happens; otherwise every line is normalised one for one, and the manifest ends up in `<sip>/objects` under its own name |
| ObjectsManifest.NormaliseLineUnchanged | sipcreator.py:233 | a line without `"  objects/"` is left as it is |
| ObjectsManifest.NormaliseLineAtFirst | sipcreator.py:233 | text before the first `"  objects/"` is kept, that occurrence becomes `"  "`, and the scan goes on after it |
| ObjectsManifest.NormaliseSkipsSpaceFree | sipcreator.py:233 | a leading run without spaces is copied unchanged |
| ObjectsManifest.NormaliseRecordLine | sipcreator.py:231-234 | on `<digest>  objects/<path>` the digest is kept and the leading `objects/` of the path is dropped |
| ObjectsManifest.NormaliseNotIdempotent | sipcreator.py:231-234 | a path that itself starts with `objects/` still contains the pattern after one pass |
| PyStr.ReplaceAbsent | sipcreator.py:233 | `str.replace` leaves a string without the pattern unchanged |
| PyStr.ReplaceAtFirst | sipcreator.py:233 | `str.replace` copies the text before the first occurrence, replaces that occurrence, and resumes right after it |
| PackageContext.ObjectEntryAccepted | sipcreator.py:242-264 | special-collections mode gives `not_applicable`; otherwise `-oe` is used, unchanged, exactly when it is `oe` followed by four or five digits, and the user is asked in every other case |
| PackageContext.DetermineUuidAccepted | sipcreator.py:267-288 | a UUID is settled exactly when `-u` is absent or valid: `-u` itself, or else the last component of the package path; its event is the identifier-assignment event for it |
| PackageContext.PackageUuidNamesEverything | sipcreator.py:24-42 | the package directory lies directly under its object-entry directory and is named after the UUID that `make_folder_path` uses; `determine_uuid` (sipcreator.py:267-288) gives back that UUID exactly when `-u` is absent or valid; the canonical manifest and the provenance log are then named after it |
| PosixPath.BasenameOfJoin | sipcreator.py:40 | the basename of `<dir>/<name>` is `name` |
| PosixPath.DirnameOfJoin | sipcreator.py:40 | the dirname of `<dir>/<name>` is `dir` when `dir` has the shape a dirname has |

## Left out

- Argument parsing, `main`, printing, the interactive prompts and `sys.exit` are left out. A prompt for the object entry (`ififuncs.get_object_entry`) is `None` in `GetObjectEntry`. Exiting on an invalid UUID is `None` in `DetermineUuid`.
- The external helpers `ififuncs.check_if_manifest`, `ififuncs.validate_uuid4` and `ififuncs.create_uuid` are parameters. `ififuncs.make_folder_structure`, `ififuncs.make_desktop_logs_dir`, `copyit.main` and `analyze_log` are not part of this model.
- `ififuncs.generate_log` is modelled by the event texts it is given, in order. Its timestamps and its writes to the log file are not modelled.
- `shutil.move` is modelled by the move it would make (`Move`, `Relocated`). Its failures are not modelled: an existing file of the same name in `logs`, or a missing `objects` directory.
- Files are lists of lines, and writing is concatenation of lines. A last line without a newline, which would run into the next one in a real file, is not modelled. Character encodings are not modelled.
- ManifestConsolidation.RewriteLine: a manifest line shorter than 34 characters (a blank line, or a digest with no path) no longer ends with its newline: a newline at index 32 or 33 is dropped, and a line shorter than 32 characters keeps its newline but has the inserted text after it. In the written canonical manifest such a line runs into the next one. `RewriteShortLine` states this on the list of lines.
- ManifestConsolidation.CollectedLength: the count is of elements of the collected list. It is the number of lines in the written canonical manifest only when every recognised manifest line is well-formed (so at least 35 characters long) and ends with a newline, as `RewriteKeepsTrailingNewline` states.
- The directory listing is given as a sequence in the order `os.listdir` returns it. That order is arbitrary in the source.
- PackageContext.DetermineUuid: the truthiness of `args.u` is modelled as the empty string for "absent" (`None` and `''` are both falsy).
- PyStr.IsDigitString: only ASCII digits count. Python's `isdigit` also accepts other Unicode digits, so `-oe` with such digits is rejected here and accepted by the source.
- PyStr.ParseInt: only non-empty strings of ASCII digits parse. Python's `int` also accepts surrounding whitespace, a sign, underscores between digits and other Unicode decimal digits. So a timestamp slice such as `-1234567` or ` 123456` makes `FallbackLogs` fail, where the source would compare the numbers.
- LogRecovery.FallbackLogs: `log_report` removes the missing name from the list it is iterating over and appends the stand-ins to it. The effect of that on the iteration is not modelled. The `os.path.isfile` test that sends a log to recovery, and the report printed for each log, are also not modelled.
- ObjectsManifest.NormaliseObjectsManifest: the rewrite of the file in place before the move is folded into the relocated result.
- `process_dcp`, the DCP and Clairmeta handling and the rest of `sipcreator.py` are outside this model.

## Findings

| source | as written | input that shows it | evidently intended | confidence | as-written member | corrected member |
|---|---|---|---|---|---|---|
| sipcreator.py:96-98 | the provenance log is opened with `'ab'` (binary append), and the `str` lines read in text mode are written to it; under Python 3 the first write raises TypeError after the file has been created | one existing transfer log with at least one line | append the lines as text, so that the provenance log gains every line of every log | medium, not executed; the code has been converted to Python 3 (`print((...))`, `list(range(4, 6))`), under Python 2 the write succeeds | LogConsolidation.BinaryModeLosesLines | LogConsolidation.ConsolidateLogs |
