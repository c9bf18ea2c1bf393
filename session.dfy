/**
 * The main program of barcode.py (lines 62-131): select the mode, run a
 * camera session or take the ISBN literally, then look the ISBN up and store
 * the record.
 *
 * The external commands the program runs are recorded as a trace of events;
 * zbarcam's output is the finite sequence `lines`, and the catalogue is the
 * map `responses` from an ISBN to its parsed response (an ISBN without an
 * entry stands for a request or parse that raises).
 */
module Session {
  import opened Wrappers
  import opened IsbnMatch
  import opened Scanner
  import opened Modes
  import opened Records

  datatype Event =
    | OverlayOn                   // `v4l2-ctl --overlay=1`
    | StartScan(command: string)  // zbarcam started through the shell
    | Lookup(isbn: string)        // `process_isbn(isbn)` entered: the catalogue is queried
    | KillScan                    // `killall zbarcam`
    | OverlayOff                  // `v4l2-ctl --overlay=0`

  /** The zbarcam command lines of the two camera profiles (lines 98 and 100). */
  const RpiScanCommand: string := "zbarcam -v --nodisplay --prescale=640x480"
  const UvcScanCommand: string := "zbarcam"

  function ScanCommand(sub: Submode): string {
    match sub
    case Rpi => RpiScanCommand
    case Uvc => UvcScanCommand
  }

  /** How a run ends: no ISBN seen, a record stored, or process_isbn raised. */
  datatype Outcome =
    | NoIsbn
    | Stored(isbn: string, record: Record)
    | Raised(isbn: string, error: LookupError)

  /** The parsed response for an ISBN, or None when fetching or parsing it raises. */
  function ResponseFor(responses: map<string, Document>, isbn: string): Option<Document> {
    if isbn in responses then Some(responses[isbn]) else None
  }

  /** The result of one `process_isbn(isbn)` call. */
  function LookupOutcome(responses: map<string, Document>, isbn: string): Outcome {
    match LookupRecord(ResponseFor(responses, isbn))
    case Success(record) => Stored(isbn, record)
    case Failure(e) => Raised(isbn, e)
  }

  /** The ISBN the run looks up, if any: the first match in camera mode, the argument otherwise. */
  function IsbnOfRun(argv: seq<string>, lines: seq<string>): Option<string> {
    match SelectMode(FirstArgument(argv))
    case Camera(_) => FirstMatch(lines)
    case Isbn(a) => Some(a)
  }

  /**
   * A run ends without an ISBN exactly when it has none to look up;
   * otherwise its outcome is about that ISBN, and a stored record is the
   * one built from the catalogue's reply.
   */
  function RunOutcome(argv: seq<string>, lines: seq<string>, responses: map<string, Document>): (o: Outcome)
    ensures o.NoIsbn? <==> IsbnOfRun(argv, lines).None?
    ensures !o.NoIsbn? ==> IsbnOfRun(argv, lines) == Some(o.isbn)
    ensures o.Stored? ==> o.isbn in responses && BuildRecord(responses[o.isbn]) == Success(o.record)
  {
    match IsbnOfRun(argv, lines)
    case None => NoIsbn
    case Some(isbn) => LookupOutcome(responses, isbn)
  }

  /**
   * The commands of a camera session: overlay on (rpi only), zbarcam
   * started, the lookup if an ISBN was found, then zbarcam killed and the
   * overlay off (rpi only). When the lookup raises the script stops there
   * and the clean-up commands never run.
   */
  function CameraTrace(sub: Submode, found: Option<string>, outcome: Outcome): (t: seq<Event>)
    ensures OverlayOn in t <==> sub == Rpi
    ensures KillScan in t <==> !outcome.Raised?
    ensures OverlayOff in t <==> sub == Rpi && !outcome.Raised?
    ensures forall i :: 0 <= i < |t| && t[i].Lookup? ==> found == Some(t[i].isbn)
    ensures found.Some? ==> Lookup(found.value) in t
  {
    var lookup := if found.Some? then [Lookup(found.value)] else [];
    if outcome.Raised? then Opening(sub) + lookup else Opening(sub) + lookup + Closing(sub)
  }

  /** The commands before the scan loop: overlay on (rpi only), then zbarcam started. */
  function Opening(sub: Submode): seq<Event> {
    (if sub == Rpi then [OverlayOn] else []) + [StartScan(ScanCommand(sub))]
  }

  /** The commands after the scan loop: zbarcam killed, then overlay off (rpi only). */
  function Closing(sub: Submode): seq<Event> {
    [KillScan] + (if sub == Rpi then [OverlayOff] else [])
  }

  /**
   * Every lookup in a run is of the run's ISBN, and a run with an ISBN
   * looks it up; direct mode runs nothing but the lookup.
   */
  function RunTrace(argv: seq<string>, lines: seq<string>, responses: map<string, Document>): (t: seq<Event>)
    ensures forall i :: 0 <= i < |t| && t[i].Lookup? ==> IsbnOfRun(argv, lines) == Some(t[i].isbn)
    ensures IsbnOfRun(argv, lines).Some? ==> Lookup(IsbnOfRun(argv, lines).value) in t
    ensures SelectMode(FirstArgument(argv)).Isbn? ==> forall i :: 0 <= i < |t| ==> t[i].Lookup?
  {
    match SelectMode(FirstArgument(argv))
    case Camera(sub) => CameraTrace(sub, FirstMatch(lines), RunOutcome(argv, lines, responses))
    case Isbn(a) => [Lookup(a)]
  }

  /**
   * The store at the end of a run: a stored record under its ISBN and
   * every other key kept; any other ending leaves the store as it was.
   */
  function EntriesAfter(entries: map<string, Record>, outcome: Outcome): (after: map<string, Record>)
    ensures outcome.Stored? ==> outcome.isbn in after && after[outcome.isbn] == outcome.record
    ensures outcome.Stored? ==> after.Keys == entries.Keys + {outcome.isbn}
    ensures forall k :: k in entries && (!outcome.Stored? || k != outcome.isbn) ==> k in after && after[k] == entries[k]
    ensures !outcome.Stored? ==> after == entries
  {
    match outcome
    case Stored(isbn, record) => StoreAfter(entries, isbn, Success(record))
    case _ => entries
  }

  /**
   * Lines 106-116 with the call of line 113: the scan loop, which hands
   * the first match to process_isbn. The lookup's exception, if any, is
   * the outcome `Raised`.
   */
  method ScanAndProcess(lines: seq<string>, responses: map<string, Document>, store: Store)
    returns (found: Option<string>, outcome: Outcome)
    modifies store
    ensures found == FirstMatch(lines)
    ensures outcome == (match found
                        case None => NoIsbn
                        case Some(isbn) => LookupOutcome(responses, isbn))
    ensures store.entries == EntriesAfter(old(store.entries), outcome)
  {
    var read;
    found, read := Scan(lines);
    outcome := NoIsbn;
    if found.Some? {
      var isbn := found.value;
      var r := ProcessIsbn(store, isbn, ResponseFor(responses, isbn));
      outcome := if r.Success? then Stored(isbn, r.value) else Raised(isbn, r.error);
    }
  }

  /**
   * Lines 90-123: a camera session. Overlay on for rpi, zbarcam started,
   * the scan loop (which calls process_isbn on the first match), zbarcam
   * killed, overlay off for rpi. An exception from process_isbn ends the
   * script at once.
   */
  method CameraSession(sub: Submode, lines: seq<string>, responses: map<string, Document>, store: Store)
    returns (trace: seq<Event>, outcome: Outcome)
    modifies store
    ensures outcome == (match FirstMatch(lines)
                        case None => NoIsbn
                        case Some(isbn) => LookupOutcome(responses, isbn))
    ensures trace == CameraTrace(sub, FirstMatch(lines), outcome)
    ensures store.entries == EntriesAfter(old(store.entries), outcome)
  {
    trace := [];
    if sub == Rpi {
      trace := trace + [OverlayOn];
    }
    trace := trace + [StartScan(ScanCommand(sub))];
    assert trace == Opening(sub);
    var found;
    found, outcome := ScanAndProcess(lines, responses, store);
    if found.Some? {
      trace := trace + [Lookup(found.value)];
    }
    if outcome.Raised? {
      return;
    }
    trace := trace + [KillScan];
    if sub == Rpi {
      trace := trace + [OverlayOff];
    }
  }

  /**
   * The script itself: the events it causes, how it ends and what it
   * leaves in the store.
   */
  method Run(argv: seq<string>, lines: seq<string>, responses: map<string, Document>, store: Store)
    returns (trace: seq<Event>, outcome: Outcome)
    modifies store
    ensures outcome == RunOutcome(argv, lines, responses)
    ensures trace == RunTrace(argv, lines, responses)
    ensures store.entries == EntriesAfter(old(store.entries), outcome)
  {
    match SelectMode(FirstArgument(argv)) {
      case Camera(sub) =>
        trace, outcome := CameraSession(sub, lines, responses, store);
      case Isbn(isbn) =>
        trace := [Lookup(isbn)];
        var r := ProcessIsbn(store, isbn, ResponseFor(responses, isbn));
        outcome := if r.Success? then Stored(isbn, r.value) else Raised(isbn, r.error);
    }
  }

  /** How many times `e` occurs in the trace `t`. */
  function Count(t: seq<Event>, e: Event): nat {
    if t == [] then 0 else (if t[0] == e then 1 else 0) + Count(t[1..], e)
  }

  lemma {:induction false} CountAppend(a: seq<Event>, b: seq<Event>, e: Event)
    ensures Count(a + b, e) == Count(a, e) + Count(b, e)
  {
    if a == [] {
      assert a + b == b;
    } else {
      assert (a + b)[1..] == a[1..] + b;
      CountAppend(a[1..], b, e);
    }
  }

  lemma CountSingle(x: Event, e: Event)
    ensures Count([x], e) == if x == e then 1 else 0
  {
  }

  /** The count of one event in a camera session, piece by piece. */
  lemma CameraTraceCount(sub: Submode, found: Option<string>, outcome: Outcome, e: Event)
    ensures Count(CameraTrace(sub, found, outcome), e)
         == (if sub == Rpi && e == OverlayOn then 1 else 0)
          + (if e == StartScan(ScanCommand(sub)) then 1 else 0)
          + (if found.Some? && e == Lookup(found.value) then 1 else 0)
          + (if outcome.Raised? then 0
             else (if e == KillScan then 1 else 0) + (if sub == Rpi && e == OverlayOff then 1 else 0))
  {
    var pre := if sub == Rpi then [OverlayOn] else [];
    var scan := [StartScan(ScanCommand(sub))];
    var lookup := if found.Some? then [Lookup(found.value)] else [];
    var post := if sub == Rpi then [OverlayOff] else [];
    assert Count([], e) == 0;
    CountSingle(OverlayOn, e);
    CountSingle(StartScan(ScanCommand(sub)), e);
    CountSingle(KillScan, e);
    CountSingle(OverlayOff, e);
    if found.Some? {
      CountSingle(Lookup(found.value), e);
    }
    CountAppend(pre, scan, e);
    CountAppend(pre + scan, lookup, e);
    CountAppend([KillScan], post, e);
    CountAppend(pre + scan + lookup, [KillScan] + post, e);
  }

  /**
   * How often each command occurs in a camera session: overlay on once in
   * rpi and never in uvc; zbarcam killed once, and overlay off once in rpi,
   * unless the lookup raised; the found ISBN looked up once.
   */
  lemma CameraTraceCounts(sub: Submode, found: Option<string>, outcome: Outcome)
    ensures var t := CameraTrace(sub, found, outcome);
      && Count(t, OverlayOn) == (if sub == Rpi then 1 else 0)
      && Count(t, OverlayOff) == (if sub == Rpi && !outcome.Raised? then 1 else 0)
      && Count(t, KillScan) == (if outcome.Raised? then 0 else 1)
      && (found.Some? ==> Count(t, Lookup(found.value)) == 1)
  {
    CameraTraceCount(sub, found, outcome, OverlayOn);
    CameraTraceCount(sub, found, outcome, OverlayOff);
    CameraTraceCount(sub, found, outcome, KillScan);
    if found.Some? {
      CameraTraceCount(sub, found, outcome, Lookup(found.value));
    }
  }

  /**
   * rpi profile, normal end (match or no match): the overlay goes on first
   * and zbarcam starts next; zbarcam is killed once, and the overlay goes
   * off once, last, after the kill.
   */
  lemma RpiSessionBrackets(argv: seq<string>, lines: seq<string>, responses: map<string, Document>)
    requires SelectMode(FirstArgument(argv)) == Camera(Rpi)
    requires !RunOutcome(argv, lines, responses).Raised?
    ensures var t := RunTrace(argv, lines, responses);
      && |t| >= 4
      && t[0] == OverlayOn && t[1] == StartScan(RpiScanCommand)
      && t[|t| - 2] == KillScan && t[|t| - 1] == OverlayOff
      && Count(t, OverlayOn) == 1 && Count(t, KillScan) == 1 && Count(t, OverlayOff) == 1
  {
    var found := FirstMatch(lines);
    var outcome := RunOutcome(argv, lines, responses);
    CameraTraceCounts(Rpi, found, outcome);
    assert RunTrace(argv, lines, responses) == CameraTrace(Rpi, found, outcome);
  }

  /** uvc profile: no overlay command at all; zbarcam starts first and, on a normal end, is killed once, last. */
  lemma UvcSessionHasNoOverlay(argv: seq<string>, lines: seq<string>, responses: map<string, Document>)
    requires SelectMode(FirstArgument(argv)) == Camera(Uvc)
    ensures var t := RunTrace(argv, lines, responses);
      && OverlayOn !in t && OverlayOff !in t
      && |t| >= 1 && t[0] == StartScan(UvcScanCommand)
      && (!RunOutcome(argv, lines, responses).Raised? ==> t[|t| - 1] == KillScan && Count(t, KillScan) == 1)
  {
    var found := FirstMatch(lines);
    var outcome := RunOutcome(argv, lines, responses);
    CameraTraceCounts(Uvc, found, outcome);
    assert RunTrace(argv, lines, responses) == CameraTrace(Uvc, found, outcome);
  }

  /**
   * In camera mode process_isbn is called exactly when the scan finds an
   * ISBN. When it finds none, and in particular when no line of the stream
   * matches, there is no lookup and the store is unchanged.
   */
  lemma NoMatchMeansNoLookup(argv: seq<string>, lines: seq<string>, responses: map<string, Document>,
                             entries: map<string, Record>)
    requires SelectMode(FirstArgument(argv)).Camera?
    ensures RunOutcome(argv, lines, responses) == NoIsbn <==> FirstMatch(lines).None?
    ensures (forall k :: 0 <= k < |lines| ==> MatchLine(lines[k]).None?) ==> FirstMatch(lines).None?
    ensures FirstMatch(lines).None? ==>
      forall i :: 0 <= i < |RunTrace(argv, lines, responses)| ==> !RunTrace(argv, lines, responses)[i].Lookup?
    ensures FirstMatch(lines).None? ==> EntriesAfter(entries, RunOutcome(argv, lines, responses)) == entries
  {
  }

  /** Where the lookup sits in a camera session's trace. */
  lemma CameraTraceLookup(sub: Submode, isbn: string, outcome: Outcome)
    ensures var t := CameraTrace(sub, Some(isbn), outcome);
      var at := if sub == Rpi then 2 else 1;
      && |t| > at && t[at - 1] == StartScan(ScanCommand(sub)) && t[at] == Lookup(isbn)
      && Count(t, Lookup(isbn)) == 1
      && (!outcome.Raised? ==> |t| > at + 1 && t[at + 1] == KillScan)
  {
    CameraTraceCounts(sub, Some(isbn), outcome);
  }

  /**
   * In camera mode the ISBN looked up is that of the first matching line,
   * looked up once, while zbarcam is still running: right after it starts
   * and, on a normal end, right before it is killed.
   */
  lemma CameraLooksUpFirstMatch(argv: seq<string>, lines: seq<string>, responses: map<string, Document>, k: nat)
    requires SelectMode(FirstArgument(argv)).Camera?
    requires k < |lines| && Skipped(lines, k) && MatchLine(lines[k]).Some?
    ensures var t := RunTrace(argv, lines, responses);
      var sub := SelectMode(FirstArgument(argv)).submode;
      var at := if sub == Rpi then 2 else 1;
      && |t| > at && t[at - 1] == StartScan(ScanCommand(sub)) && t[at] == Lookup(MatchLine(lines[k]).value)
      && Count(t, Lookup(MatchLine(lines[k]).value)) == 1
      && (!RunOutcome(argv, lines, responses).Raised? ==> |t| > at + 1 && t[at + 1] == KillScan)
  {
    var isbn := MatchLine(lines[k]).value;
    FirstMatchAt(lines, k);
    CameraTraceLookup(SelectMode(FirstArgument(argv)).submode, isbn, RunOutcome(argv, lines, responses));
  }

  /** Direct mode runs no camera command: the argument is looked up as it is. */
  lemma DirectModeLooksUpArgument(argv: seq<string>, lines: seq<string>, responses: map<string, Document>)
    requires SelectMode(FirstArgument(argv)).Isbn?
    ensures RunTrace(argv, lines, responses) == [Lookup(argv[1])]
    ensures RunOutcome(argv, lines, responses) == LookupOutcome(responses, argv[1])
  {
  }

  /**
   * When process_isbn raises in a camera session nothing after it runs:
   * zbarcam is not killed and the overlay is not turned off.
   */
  lemma RaisedLookupSkipsCleanup(argv: seq<string>, lines: seq<string>, responses: map<string, Document>)
    requires SelectMode(FirstArgument(argv)).Camera?
    requires RunOutcome(argv, lines, responses).Raised?
    ensures KillScan !in RunTrace(argv, lines, responses)
    ensures OverlayOff !in RunTrace(argv, lines, responses)
  {
  }

  /**
   * A run that stores a record stores the one built from the catalogue's
   * response for that ISBN; a run that ends any other way leaves the store
   * as it was.
   */
  lemma RunStoresBuiltRecord(argv: seq<string>, lines: seq<string>, responses: map<string, Document>,
                             entries: map<string, Record>)
    ensures var o := RunOutcome(argv, lines, responses);
      o.Stored? ==>
        && o.isbn in responses && BuildRecord(responses[o.isbn]) == Success(o.record)
        && EntriesAfter(entries, o) == entries[o.isbn := o.record]
    ensures var o := RunOutcome(argv, lines, responses);
      !o.Stored? ==> EntriesAfter(entries, o) == entries
  {
  }

  /**
   * A camera run whose stream yields an ISBN the catalogue answers fully:
   * the full command sequence runs and the built record is stored under
   * the ISBN.
   */
  lemma CameraRunStores(sub: Submode, argv: seq<string>, lines: seq<string>, isbn: string, doc: Document,
                        entries: map<string, Record>)
    requires SelectMode(FirstArgument(argv)) == Camera(sub)
    requires FirstMatch(lines) == Some(isbn) && HasRequiredFields(doc)
    ensures RunTrace(argv, lines, map[isbn := doc])
         == (if sub == Rpi then [OverlayOn] else []) + [StartScan(ScanCommand(sub)), Lookup(isbn), KillScan]
            + (if sub == Rpi then [OverlayOff] else [])
    ensures EntriesAfter(entries, RunOutcome(argv, lines, map[isbn := doc])) == entries[isbn := BuildRecord(doc).value]
  {
    var outcome := RunOutcome(argv, lines, map[isbn := doc]);
    assert outcome == Stored(isbn, BuildRecord(doc).value);
    CompletedCameraTrace(sub, isbn, outcome);
  }

  /** A camera session whose lookup did not raise runs every command once, in order. */
  lemma CompletedCameraTrace(sub: Submode, isbn: string, outcome: Outcome)
    requires !outcome.Raised?
    ensures CameraTrace(sub, Some(isbn), outcome)
         == (if sub == Rpi then [OverlayOn] else []) + [StartScan(ScanCommand(sub)), Lookup(isbn), KillScan]
            + (if sub == Rpi then [OverlayOff] else [])
  {
  }

  /** Direct mode with a response lacking a transcription stores the record with transcript "". */
  lemma DirectModeExample(entries: map<string, Record>)
    ensures var doc := map[Title := Some("Effective Modern C++"), Creator := Some("Scott Meyers"),
                           PubDate := Some("2014"), Publisher := Some("O'Reilly")];
      var o := RunOutcome(["barcode.py", "9780134685991"], [], map["9780134685991" := doc]);
      EntriesAfter(entries, o) == entries["9780134685991" :=
        Record(Some("Effective Modern C++"), Some("Scott Meyers"), Some("2014"), Some("O'Reilly"), Some(""))]
  {
  }
}
