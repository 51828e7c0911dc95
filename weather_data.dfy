/**
 * The shared data model of the weather loader: the rows DictReader produces,
 * the column names, a directory listing, the exceptions the code raises, the
 * responses the routes return, and the document collection the rows go into.
 */
module WeatherData {

  /** One data row of a CSV file, as csv.DictReader yields it: column name to text. */
  type Row = map<string, string>

  // Column names of the CSV files.
  const LATITUDE: string := "Latitude"
  const LONGITUDE: string := "Longitude"
  const TIME: string := "forecast_time"
  const TEMP_CELSIUS: string := "Temperature Celsius"
  const PRECIPITATION_MM: string := "Precipitation Rate mm/hr"
  const PRECIPITATION_IN: string := "Precipitation Rate in/hr"

  const NO_CSV_FILES: string := "No CSV files found in the folder"

  /** An entry of the data directory: its name and, once parsed, its data rows (header excluded). */
  datatype DirEntry = DirEntry(name: string, rows: seq<Row>)

  /** Python's name.endswith('.csv'): a case-sensitive suffix test. */
  predicate IsCsvName(name: string)
  {
    |name| >= 4 && name[|name| - 4..] == ".csv"
  }

  /** The list comprehension that keeps the `.csv` names of a listing, in listing order. */
  function CsvFiles(listing: seq<DirEntry>): (files: seq<DirEntry>)
    ensures forall f :: f in files ==> f in listing && IsCsvName(f.name)
    ensures forall f :: f in listing && IsCsvName(f.name) ==> f in files
    ensures |files| <= |listing|
  {
    if listing == [] then []
    else if IsCsvName(listing[0].name) then [listing[0]] + CsvFiles(listing[1..])
    else CsvFiles(listing[1..])
  }

  /** Filtering two runs of a listing filters each, in order: the listing order is kept. */
  lemma {:induction false} CsvFilesAppend(p: seq<DirEntry>, q: seq<DirEntry>)
    ensures CsvFiles(p + q) == CsvFiles(p) + CsvFiles(q)
  {
    if p == [] {
      assert p + q == q;
    } else {
      assert (p + q)[0] == p[0];
      assert (p + q)[1..] == p[1..] + q;
      CsvFilesAppend(p[1..], q);
    }
  }

  /**
   * A document matches a query when it has every field of the query with
   * exactly the query's value (MongoDB equality on string fields).
   */
  predicate Matches(doc: Row, query: Row)
  {
    forall key :: key in query ==> key in doc && doc[key] == query[key]
  }

  /** The matching documents in their order in `docs`; a document stored twice is found twice. */
  function Select(docs: seq<Row>, query: Row): (found: seq<Row>)
    ensures forall d :: d in found <==> d in docs && Matches(d, query)
    ensures |found| <= |docs|
  {
    if docs == [] then []
    else if Matches(docs[0], query) then [docs[0]] + Select(docs[1..], query)
    else Select(docs[1..], query)
  }

  /** Selecting from two runs of documents selects from each, in order. */
  lemma {:induction false} SelectAppend(p: seq<Row>, q: seq<Row>, query: Row)
    ensures Select(p + q, query) == Select(p, query) + Select(q, query)
  {
    if p == [] {
      assert p + q == q;
    } else {
      assert (p + q)[0] == p[0];
      assert (p + q)[1..] == p[1..] + q;
      SelectAppend(p[1..], q, query);
    }
  }

  /** When every document matches, find returns all of them in store order. */
  lemma {:induction false} SelectAll(docs: seq<Row>, query: Row)
    requires forall i :: 0 <= i < |docs| ==> Matches(docs[i], query)
    ensures Select(docs, query) == docs
  {
    if docs != [] {
      assert forall i :: 0 <= i < |docs[1..]| ==> docs[1..][i] == docs[i + 1];
      SelectAll(docs[1..], query);
      assert [docs[0]] + docs[1..] == docs;
    }
  }

  /** The exceptions the modelled code can raise. */
  datatype Exception =
    | RuntimeError   // a generator that lets StopIteration escape (PEP 479)
    | PyMongoError   // the store refused an operation
    | KeyError(key: string)
    | ValueError(text: string)

  /** A value, or the exception raised while computing it. */
  datatype Result<T> = Ok(value: T) | Raise(error: Exception) {
    predicate IsFailure() { Raise? }
    function PropagateFailure<U>(): Result<U>
      requires Raise?
    {
      Raise(error)
    }
    function Extract(): T
      requires Ok?
    {
      value
    }
  }

  /** What a route hands to jsonify: a body with status 200, or an error message with its status. */
  datatype Response<T> = Success(body: T) | Failure(status: nat, message: string)

  /** An operation that took effect on the collection, in the order it took effect. */
  datatype Event =
    | Insert(batch: seq<Row>)               // one insert_many call
    | CreateIndex(keys: seq<string>)        // one create_index call, every key ascending

  /**
   * The document collection. Documents are only ever appended (there is no
   * update or delete); `trace` records each operation that took effect.
   * Whether the store refuses a batch (connectivity, malformed documents) is
   * its own decision, given once as `refused`; likewise for a query
   * (`refusedQueries`) and for building the index (`refusesIndex`).
   */
  class Collection {
    var docs: seq<Row>
    var trace: seq<Event>
    const refused: set<seq<Row>>
    const refusedQueries: set<Row>
    const refusesIndex: bool

    constructor (refused: set<seq<Row>>, refusedQueries: set<Row>, refusesIndex: bool)
      ensures docs == [] && trace == []
      ensures this.refused == refused && this.refusedQueries == refusedQueries
      ensures this.refusesIndex == refusesIndex
    {
      docs := [];
      trace := [];
      this.refused := refused;
      this.refusedQueries := refusedQueries;
      this.refusesIndex := refusesIndex;
    }

    /**
     * find: the documents that match the query, in store order, or
     * PyMongoError when the store refuses the query. Nothing changes.
     */
    method Find(query: Row) returns (r: Result<seq<Row>>)
      ensures r.Ok? <==> query !in refusedQueries
      ensures r.Raise? ==> r.error == PyMongoError
      ensures r.Ok? ==> r.value == Select(docs, query)
    {
      if query in refusedQueries {
        r := Raise(PyMongoError);
      } else {
        r := Ok(Select(docs, query));
      }
    }

    /** insert_many: appends the whole batch, or raises and changes nothing. */
    method InsertMany(batch: seq<Row>) returns (r: Result<()>)
      modifies this
      ensures r.Ok? <==> batch !in refused
      ensures r.Raise? ==> r.error == PyMongoError
      ensures r.Ok? ==> docs == old(docs) + batch && trace == old(trace) + [Insert(batch)]
      ensures r.Raise? ==> docs == old(docs) && trace == old(trace)
    {
      if batch in refused {
        r := Raise(PyMongoError);
      } else {
        docs := docs + batch;
        trace := trace + [Insert(batch)];
        r := Ok(());
      }
    }

    /**
     * create_index with the given keys, all ascending, or PyMongoError when
     * the store refuses to build it. The documents are untouched either way.
     */
    method CreateIndexOn(keys: seq<string>) returns (r: Result<()>)
      modifies this
      ensures r.Ok? <==> !refusesIndex
      ensures r.Raise? ==> r.error == PyMongoError
      ensures docs == old(docs)
      ensures r.Ok? ==> trace == old(trace) + [CreateIndex(keys)]
      ensures r.Raise? ==> trace == old(trace)
    {
      if refusesIndex {
        r := Raise(PyMongoError);
      } else {
        trace := trace + [CreateIndex(keys)];
        r := Ok(());
      }
    }
  }
}
