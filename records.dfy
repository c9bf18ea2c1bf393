/**
 * Record construction and the record store of barcode.py (`process_isbn`,
 * lines 22-48).
 *
 * The parsed OpenSearch response is abstracted to what the five
 * ElementTree lookups see: for each field, the `.text` of the first element
 * found under its qualified name. A field with no element is absent from the
 * document; `findall(...)[0]` then raises IndexError. `.text` is itself
 * None for an element without character data, and that None is stored.
 */
module Records {
  import opened Wrappers

  /** dc:title, dc:creator, pubDate, dc:publisher, dcndl:titleTranscription. */
  datatype Field = Title | Creator | PubDate | Publisher | TitleTranscription

  /** ElementTree's `.text` of an element. */
  type Text = Option<string>

  /** The first element text found for each field of a parsed response. */
  type Document = map<Field, Text>

  /** The five-field dictionary stored under an ISBN (lines 40-46). */
  datatype Record = Record(title: Text, author: Text, pubDate: Text, publisher: Text, transcript: Text)

  /** Why `process_isbn` raised. */
  datatype LookupError =
    | FetchFailed             // requests.get or ElementTree.fromstring raised
    | MissingField(field: Field)  // findall found no element: IndexError

  /** The fields whose absence makes the lookup fail, in the order they are looked up. */
  const RequiredFields: seq<Field> := [Title, Creator, PubDate, Publisher]

  predicate HasRequiredFields(doc: Document) {
    forall f :: f in RequiredFields ==> f in doc
  }

  /**
   * Lines 29-46: the four required lookups in order, then the optional
   * transcription, which defaults to "" when no element exists.
   */
  function BuildRecord(doc: Document): (r: Result<Record, LookupError>)
    ensures r.Success? <==> HasRequiredFields(doc)
    ensures r.Failure? ==> r.error.MissingField? && r.error.field in RequiredFields && r.error.field !in doc
  {
    if Title !in doc then Failure(MissingField(Title))
    else if Creator !in doc then Failure(MissingField(Creator))
    else if PubDate !in doc then Failure(MissingField(PubDate))
    else if Publisher !in doc then Failure(MissingField(Publisher))
    else
      var transcript := if TitleTranscription in doc then doc[TitleTranscription] else Some("");
      Success(Record(doc[Title], doc[Creator], doc[PubDate], doc[Publisher], transcript))
  }

  /** A record as a document: each field's text under the field it came from. */
  function FieldsOf(r: Record): Document {
    map[Title := r.title, Creator := r.author, PubDate := r.pubDate,
        Publisher := r.publisher, TitleTranscription := r.transcript]
  }

  /** Building from a record's own fields gives the record back. */
  lemma BuildRecordFieldsOf(r: Record)
    ensures BuildRecord(FieldsOf(r)) == Success(r)
  {
  }

  /**
   * A built record carries each field's text exactly as the document has
   * it, and an absent transcription becomes "" and does not fail the lookup.
   */
  lemma BuildRecordKeepsFields(doc: Document)
    requires HasRequiredFields(doc)
    ensures BuildRecord(doc).Success?
    ensures forall f :: f in doc ==> f in FieldsOf(BuildRecord(doc).value) && FieldsOf(BuildRecord(doc).value)[f] == doc[f]
    ensures TitleTranscription !in doc ==> BuildRecord(doc).value.transcript == Some("")
  {
    var fields := FieldsOf(BuildRecord(doc).value);
    forall f | f in doc ensures f in fields && fields[f] == doc[f] {
      match f
      case Title =>
      case Creator =>
      case PubDate =>
      case Publisher =>
      case TitleTranscription =>
    }
  }

  /** The error names the first required field that is missing, in lookup order. */
  lemma BuildRecordFailsAtFirstMissing(doc: Document, i: nat)
    requires i < |RequiredFields| && RequiredFields[i] !in doc
    requires forall j :: 0 <= j < i ==> RequiredFields[j] in doc
    ensures BuildRecord(doc) == Failure(MissingField(RequiredFields[i]))
  {
  }

  /**
   * The whole of process_isbn apart from the store write: `response` is the
   * parsed response, or None when the request or the parse raised.
   */
  function LookupRecord(response: Option<Document>): (r: Result<Record, LookupError>)
    ensures response.None? ==> r == Failure(FetchFailed)
    ensures response.Some? ==> (r.Success? <==> HasRequiredFields(response.value))
  {
    match response
    case None => Failure(FetchFailed)
    case Some(doc) => BuildRecord(doc)
  }

  /**
   * The store after a lookup. A successful one maps its ISBN to the new
   * record, overwriting an earlier one, and leaves every other key as it
   * was; a failed one changes nothing.
   */
  function StoreAfter(entries: map<string, Record>, isbn: string, r: Result<Record, LookupError>): (after: map<string, Record>)
    ensures r.Success? ==> isbn in after && after[isbn] == r.value
    ensures r.Success? ==> after.Keys == entries.Keys + {isbn}
    ensures forall k :: k in entries && k != isbn ==> k in after && after[k] == entries[k]
    ensures r.Failure? ==> after == entries
  {
    match r
    case Success(record) => entries[isbn := record]
    case Failure(_) => entries
  }

  /** Last write wins: a second successful lookup for an ISBN replaces the first. */
  lemma LastWriteWins(entries: map<string, Record>, isbn: string, first: Record, second: Record)
    ensures StoreAfter(StoreAfter(entries, isbn, Success(first)), isbn, Success(second))
         == StoreAfter(entries, isbn, Success(second))
  {
  }

  /** The shelve database `kvs`, held in memory as a map from ISBN to record. */
  class Store {
    var entries: map<string, Record>

    /** The store as opened, holding whatever earlier runs wrote. */
    constructor (initial: map<string, Record>)
      ensures entries == initial
    {
      entries := initial;
    }

    /** `kvs[isbn] = entry` (line 48). */
    method Put(isbn: string, entry: Record)
      modifies this
      ensures entries == old(entries)[isbn := entry]
    {
      entries := entries[isbn := entry];
    }
  }

  /**
   * `process_isbn(isbn)` with the parsed response as a parameter: on
   * success the record is written under the ISBN; when the request, the
   * parse or a required lookup fails, the call raises before the write and
   * the store is untouched. The prints after the write are not modelled.
   */
  method ProcessIsbn(store: Store, isbn: string, response: Option<Document>) returns (r: Result<Record, LookupError>)
    modifies store
    ensures r == LookupRecord(response)
    ensures r.Success? ==> store.entries == old(store.entries)[isbn := r.value]
    ensures r.Failure? ==> store.entries == old(store.entries)
  {
    r := LookupRecord(response);
    if r.Success? {
      store.Put(isbn, r.value);
    }
  }
}
