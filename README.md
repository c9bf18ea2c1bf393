# barcode.py, modelled in Dafny

`barcode.py` gets an ISBN and records the book's metadata. The ISBN comes
either from a barcode scan or from the command line. For a scan, the
program starts `zbarcam`, with the camera preview overlay turned on for the
official Raspberry Pi camera module. It reads the scanner's output line by
line until a line reports an EAN-13 that starts with 9. It looks the ISBN up in the
National Diet Library OpenSearch catalogue and builds a five-field record
from the XML reply. It stores the record in a shelve database keyed by the
ISBN.

This project models that pipeline:

- `wrappers.dfy`: `Option` and `Result`.
- `isbn_match.dfy` (module `IsbnMatch`): the pattern `^EAN-13:(9\d{12})`
  under `re.match`. `MatchLine` follows the pattern piece by piece (the
  literal, the `9`, twelve `\d`). Its contract proves it accepts exactly
  the lines described by the declarative predicate `IsIsbnLine`, and that
  it returns exactly the 13 characters after the prefix.
- `scanner.dfy` (module `Scanner`): the `while True` / `readline` loop as
  the method `Scan`, proved against the function `FirstMatch`.
- `modes.dfy` (module `Modes`): choosing the mode from `sys.argv`.
- `records.dfy` (module `Records`): building the record from the XML
  lookups, and the store as the class `Store`, whose `Put` is
  `kvs[isbn] = entry`. `ProcessIsbn` is `process_isbn`.
- `session.dfy` (module `Session`): the main script. Each external command
  it runs is one `Event` in a trace: `OverlayOn`, `StartScan(command)`,
  `Lookup(isbn)` (the call of `process_isbn`), `KillScan`, `OverlayOff`.
  `Run` is proved against the functions `RunTrace`, `RunOutcome` and
  `EntriesAfter`. `CameraSession` is proved against `CameraTrace`,
  `FirstMatch`, `LookupOutcome` and `EntriesAfter`. The lemmas then prove
  the ordering and counting properties about those functions.

Inputs from outside the program are parameters:

- the scanner's output is a finite `seq<string>` of lines;
- the catalogue is a `map<string, Document>`, where an ISBN with no entry
  stands for a request or an XML parse that raises;
- a parsed reply (`Document`) maps each field to the `.text` of the first
  element found for it. A field with no element is absent, which is where
  `findall(...)[0]` raises `IndexError`.

The model follows the code as written, including where it is looser than
one might expect:

- Any EAN-13 that starts with `9` is accepted; the pattern does not single
  out the 978 and 979 Bookland prefixes, so a 977 periodical code is
  looked up too (`IssnCodeAccepted`).
- The pattern has no end anchor. A line with more text after the 13 digits
  still matches, and the extra text is dropped (`MatchIgnoresSuffix`,
  `MatchTruncatesTrailingText`).
- The check digit is never checked.
- If `process_isbn` raises during a camera session, the script stops there.
  `killall zbarcam` and `v4l2-ctl --overlay=0` never run
  (`RaisedLookupSkipsCleanup`). The code sets no exit
  status explicitly; a run that raises exits with status 1 (outcome
  `Raised`) and any other with 0. The exit status itself is not modelled.
- An element that exists but has no text gives `.text == None`, and that
  `None` is stored in the record. So the record's fields are `Option<string>`,
  and a missing transcription is `Some("")`.

## Model

| member | source | states |
|---|---|---|
| IsbnMatch.MatchLiteral | py/barcode.py:104 | matching the literal `EAN-13:` succeeds exactly when the line starts with it, and what is left is the rest of the line |
| IsbnMatch.MatchDigits | py/barcode.py:104 | `\d{n}` succeeds exactly when the next n characters are ASCII digits, and it yields those n characters |
| IsbnMatch.MatchLine | py/barcode.py:104-113 | the match succeeds exactly when the line is the prefix then `9` then twelve digits (at least 20 characters); group 1 is then `line[7..20]` |
| IsbnMatch.ExtractedIsbnShape | py/barcode.py:104-113 | every extracted ISBN has 13 characters, all digits, and starts with `9` |
| IsbnMatch.MatchIgnoresSuffix | py/barcode.py:104 | appending anything to a line of at least 20 characters leaves the match unchanged (no end anchor) |
| IsbnMatch.MatchDependsOnFirstTwenty | py/barcode.py:104 | only the first 20 characters of a line decide the match |
| IsbnMatch.DigitsShape | py/barcode.py:104-113 | a line whose first 20 characters are the prefix and an ISBN-shaped string yields that string |
| IsbnMatch.ShortLineNoMatch | py/barcode.py:104 | a line shorter than 20 characters never matches |
| IsbnMatch.MatchReportLine | py/barcode.py:104-113 | the report line `EAN-13:9783161484100` with its newline yields `9783161484100` |
| IsbnMatch.MatchTruncatesTrailingText | py/barcode.py:104 | `EAN-13:9780134685991extra` matches and yields the 13 digits, not a rejection |
| IsbnMatch.IssnCodeAccepted | py/barcode.py:104-113 | a 9-led EAN-13 outside the Bookland range, `9771234567003`, is accepted and yields its 13 digits |
| IsbnMatch.NotNineLedRejected | py/barcode.py:104 | an EAN-13 starting with `4` does not match |
| Scanner.FirstMatch | py/barcode.py:106-116 | the ISBN of the scan, when there is one, is what the pattern extracts from some line of the stream |
| Scanner.Scan | py/barcode.py:106-116 | the loop returns the ISBN of the last line it read, which matches, and every earlier line it read failed to match; with no match it has read every line up to end of file and none matched; it reads nothing past the matching line; its result is `FirstMatch` |
| Scanner.FirstMatchIsFirst | py/barcode.py:106-116 | an ISBN the scan returns comes from a matching line reached before end of file, and every line before it failed to match |
| Scanner.FirstMatchAt | py/barcode.py:106-116 | the first matching line reached before end of file is the one whose ISBN the scan returns |
| Scanner.NoMatchingLine | py/barcode.py:106-109 | a stream in which no line matches ends the scan with no ISBN |
| Scanner.LaterLinesIgnored | py/barcode.py:111-116 | once a prefix of the stream holds a match, the lines after it do not change the result |
| Scanner.EndOfFileStops | py/barcode.py:107-109 | nothing after the end-of-file empty line is read |
| Scanner.StopsAtReportLine | py/barcode.py:106-116 | non-matching status lines followed by a report line give that line's ISBN, whatever follows |
| Modes.CameraModeTable | py/barcode.py:77-86 | no argument gives camera mode with the rpi profile, `rpi` gives the rpi profile, `uvc` gives the uvc profile |
| Modes.ArgvModeTable | py/barcode.py:77-88 | on `sys.argv`: fewer than two entries or `argv[1] == "rpi"` give the rpi camera profile, `"uvc"` the uvc profile, and direct mode is chosen exactly for any other `argv[1]`, which is its ISBN (line 127), as the usage comment at lines 3-10 lists |
| Modes.SelectMode | py/barcode.py:77-88 | direct mode is chosen exactly for a present argument other than `uvc`/`rpi`, with that argument as its ISBN (line 127); the uvc camera profile is chosen exactly for the argument `uvc` |
| Records.BuildRecord | py/barcode.py:29-46 | a record is built exactly when title, creator, pubDate and publisher are all present; otherwise the error names a missing required field |
| Records.BuildRecordFailsAtFirstMissing | py/barcode.py:29-32 | the error names the first missing field in the order title, creator, pubDate, publisher |
| Records.BuildRecordKeepsFields | py/barcode.py:29-46 | each field of the record is the document's text for that field, and a missing transcription becomes `""` without an error |
| Records.BuildRecordFieldsOf | py/barcode.py:40-46 | building a record from a record's own five fields returns that record |
| Records.LookupRecord | py/barcode.py:24-37 | a request or parse that raises fails the lookup; otherwise the lookup succeeds exactly when the four required fields are present |
| Records.StoreAfter | py/barcode.py:48 | a successful lookup maps the ISBN to the new record, overwriting an earlier one, and keeps every other key; a failed lookup changes nothing |
| Records.LastWriteWins | py/barcode.py:48 | two successful writes for one ISBN leave the second record |
| Records.Store.constructor | py/barcode.py:63 | the store opens holding what earlier runs left in it |
| Records.Store.Put | py/barcode.py:48 | `kvs[isbn] = entry`: the new map is the old one with the ISBN set to the entry |
| Records.ProcessIsbn | py/barcode.py:22-48 | `process_isbn`: on success the store gains the built record under the ISBN; on failure it raises before the write and the store is unchanged |
| Session.RunOutcome | py/barcode.py:77-128 | a run ends with no ISBN exactly when it has none to look up; otherwise its outcome is about the run's ISBN, and a stored record is the one built from the catalogue's reply for it |
| Session.CameraTrace | py/barcode.py:96-123 | overlay-on occurs exactly in the rpi profile; the kill occurs exactly when the lookup did not raise; overlay-off exactly in rpi when it did not raise; every lookup is of the ISBN found, and a found ISBN is looked up |
| Session.RunTrace | py/barcode.py:77-128 | every lookup of a run is of the run's ISBN, a run with an ISBN looks it up, and direct mode runs nothing but lookups |
| Session.EntriesAfter | py/barcode.py:48 | a stored record ends up under its ISBN with every other key kept; a run that stores nothing leaves the store as it was |
| Session.ScanAndProcess | py/barcode.py:106-116 | the scan loop finds `FirstMatch`, hands it to `process_isbn`, and ends with that lookup's outcome and store |
| Session.CameraSession | py/barcode.py:90-123 | a camera session's events, outcome and final store are those of `CameraTrace`, the first match and the lookup |
| Session.Run | py/barcode.py:77-128 | the whole script's events, outcome and final store are `RunTrace`, `RunOutcome` and `EntriesAfter` |
| Session.CameraTraceCount | py/barcode.py:96-123 | the number of times each event occurs in a camera session, taken piece by piece |
| Session.CameraTraceCounts | py/barcode.py:96-123 | overlay-on happens once in rpi and never in uvc; the kill, and overlay-off in rpi, happen once unless the lookup raised; the ISBN is looked up once |
| Session.RpiSessionBrackets | py/barcode.py:96-123 | rpi profile on the match and no-match paths: overlay-on first, zbarcam started next, the kill once and second to last, overlay-off once and last |
| Session.UvcSessionHasNoOverlay | py/barcode.py:96-121 | uvc profile: no overlay event; zbarcam starts first and, on a normal end, is killed once, last |
| Session.NoMatchMeansNoLookup | py/barcode.py:106-116 | in camera mode the run ends without an ISBN exactly when the scan finds none, which is so when no line matches; then `process_isbn` is never called and the store is unchanged |
| Session.CameraTraceLookup | py/barcode.py:102-121 | the lookup comes right after zbarcam starts and, on a normal end, right before the kill, and happens once |
| Session.CameraLooksUpFirstMatch | py/barcode.py:102-121 | in camera mode the ISBN looked up is that of the first matching line, looked up once, while zbarcam is still running |
| Session.DirectModeLooksUpArgument | py/barcode.py:125-128 | direct mode runs no camera command; it looks up `argv[1]` as given |
| Session.RaisedLookupSkipsCleanup | py/barcode.py:115-123 | when `process_isbn` raises in a camera session, neither the kill nor overlay-off happens |
| Session.RunStoresBuiltRecord | py/barcode.py:22-48 | a run that stores a record stores the one built from the catalogue's reply for that ISBN, under that ISBN; any other run leaves the store as it was |
| Session.CameraRunStores | py/barcode.py:96-123 | a camera run whose stream yields an ISBN with a complete reply runs overlay-on (rpi), zbarcam start, lookup, kill, overlay-off (rpi), in that order, and the store gains the built record under the ISBN |
| Session.CompletedCameraTrace | py/barcode.py:96-123 | a camera session with a found ISBN whose lookup did not raise runs overlay-on (rpi), zbarcam start, the lookup, the kill and overlay-off (rpi), each once, in that order |
| Session.DirectModeExample | py/barcode.py:125-128 | direct mode for `9780134685991`, given a reply with no transcription, stores the record with transcript `""` |

## Left out

- The HTTP request to `http://iss.ndl.go.jp/api/opensearch?isbn=…`
  (lines 23-24) is network I/O. The reply for each ISBN is a parameter.
- XML parsing, namespace registration and the namespace table (lines 28-35
  and 65-73) belong to an external library. Each `findall(...)[0].text`
  becomes one lookup in an abstract `Document`.
- The bare `except:` on line 36 is modelled as catching only a missing
  element. Other exceptions in that lookup are not modelled.
- Subprocesses (`subprocess.Popen`, `subprocess.call`, `killall`,
  `v4l2-ctl`, the shell, the stderr pipe) are external. They appear only
  as trace events, and the scanner's output is a finite sequence of lines.
  A live stream that never ends is not modelled.
- shelve persistence (`shelve.open` with its file name, `sync`, `close`;
  lines 63 and 130-131) is on-disk storage. The store is an in-memory map.
  The model does not capture that a run which raises never reaches `sync`.
- `print` output (lines 51-55, 91, 110, 114, 126) is not modelled. An
  exception raised by the prints of lines 51-55, after the write at line 48
  (for instance a non-ASCII title printed to a stdout with an ASCII or no
  encoding), is not modelled either: the model has the record written and
  the run ending normally.
- Python 2 details are not modelled. Lines are `seq<char>` rather than
  byte strings.
- Cleanup after an exception is not promised, because the code does not
  provide it. The model records that the script stops at the exception
  (outcome `Raised`) and proves that cleanup is skipped then.
