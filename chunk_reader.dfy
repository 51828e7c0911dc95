/**
 * Reading one chunk of a CSV file and writing it to the collection
 * (read_csv_from_row and read_csv_and_write_to_db of app.py).
 */
module ChunkReader {
  import opened WeatherData
  import opened Arith
  import opened SeqFacts

  /**
   * What the generator read_csv_from_row(path, start) produces: the data rows
   * from `start` on, or, when there are fewer than `start` rows to skip, the
   * RuntimeError that PEP 479 makes of the StopIteration escaping the skip loop.
   */
  function RowsFrom(rows: seq<Row>, start: nat): Result<seq<Row>>
  {
    if start <= |rows| then Ok(rows[start..]) else Raise(RuntimeError)
  }

  /** The rows one chunk task holds: at most b rows from `start`, in file order. */
  function ChunkRows(rows: seq<Row>, start: nat, b: nat): (c: seq<Row>)
    requires start <= |rows|
    ensures |c| <= b
    ensures |c| == Min(b, |rows| - start)
    ensures forall i :: 0 <= i < |c| ==> c[i] == rows[start + i]
  {
    rows[start..Min(start + b, |rows|)]
  }

  /** What one call next(generator) does. */
  datatype Step = Yield(row: Row) | StopIteration | Fail(error: Exception)

  /**
   * The generator object read_csv_from_row returns. Nothing runs when it is
   * created; the first Next() skips `start` rows of the reader, and every
   * Next() then yields the reader's next row until the reader is exhausted.
   */
  class CsvRowGenerator {
    const rows: seq<Row>
    const start: nat
    var started: bool
    var finished: bool
    var pos: nat    // the DictReader's position in `rows`

    ghost predicate Valid()
      reads this
    {
      pos <= |rows| &&
      (!started ==> pos == 0 && !finished) &&
      (started && !finished ==> start <= pos)
    }

    /** The rows this generator will still yield, or the exception it will raise next. */
    ghost function Pending(): Result<seq<Row>>
      reads this
      requires Valid()
    {
      if finished then Ok([])
      else if !started then RowsFrom(rows, start)
      else Ok(rows[pos..])
    }

    constructor (rows: seq<Row>, start: nat)
      ensures Valid() && this.rows == rows && this.start == start
      ensures Pending() == RowsFrom(rows, start)
    {
      this.rows := rows;
      this.start := start;
      started, finished, pos := false, false, 0;
    }

    method Next() returns (step: Step)
      requires Valid()
      modifies this
      ensures Valid()
      ensures old(Pending()).Raise? ==> step == Fail(old(Pending()).error) && Pending() == Ok([])
      ensures old(Pending()) == Ok([]) ==> step == StopIteration && Pending() == Ok([])
      ensures old(Pending()).Ok? && old(Pending()).value != [] ==>
                step == Yield(old(Pending()).value[0]) && Pending() == Ok(old(Pending()).value[1..])
    {
      if finished {
        return StopIteration;
      }
      if !started {
        started := true;
        // for _ in range(start_row): next(reader)
        var i := 0;
        while i < start
          invariant 0 <= i <= start && pos == i && i <= |rows|
          invariant started && !finished
        {
          if pos == |rows| {
            // StopIteration escapes the generator body and becomes RuntimeError.
            finished := true;
            return Fail(RuntimeError);
          }
          pos := pos + 1;
          i := i + 1;
        }
      }
      // for row in reader: yield row
      if pos < |rows| {
        step := Yield(rows[pos]);
        pos := pos + 1;
      } else {
        finished := true;
        step := StopIteration;
      }
    }
  }

  /**
   * The row-collecting part of read_csv_and_write_to_db: a fresh generator at
   * `start`, at most b calls of next(), stopping at StopIteration; any other
   * exception propagates.
   */
  method CollectChunk(rows: seq<Row>, start: nat, b: nat) returns (r: Result<seq<Row>>)
    requires b >= 1
    ensures start <= |rows| ==> r == Ok(rows[start..Min(start + b, |rows|)])
    ensures start > |rows| ==> r == Raise(RuntimeError)
  {
    var generator := new CsvRowGenerator(rows, start);
    var collected: seq<Row> := [];
    var i := 0;
    while i < b
      invariant 0 <= i <= b
      invariant generator.Valid() && generator.rows == rows && generator.start == start
      invariant start > |rows| ==> i == 0 && generator.Pending() == Raise(RuntimeError)
      invariant start <= |rows| ==>
                  start + i <= |rows| && collected == rows[start..start + i] &&
                  generator.Pending() == Ok(rows[start + i..])
    {
      var step := generator.Next();
      match step
      case Yield(row) =>
        SliceExtend(rows, start, start + i);
        collected := collected + [row];
        i := i + 1;
      case StopIteration =>
        assert start + i == |rows| by {
          assert |rows[start + i..]| == 0;
        }
        break;
      case Fail(e) =>
        assert start > |rows| && e == RuntimeError;
        return Raise(e);
    }
    assert start + i == Min(start + b, |rows|);
    r := Ok(collected);
  }

  /**
   * read_csv_and_write_to_db without its semaphore: collect the chunk, then one
   * insert_many of it, also when it is empty.
   */
  method ReadCsvAndWriteToDb(store: Collection, rows: seq<Row>, start: nat, b: nat) returns (r: Result<()>)
    requires b >= 1
    modifies store
    ensures start > |rows| ==>
              r == Raise(RuntimeError) && store.docs == old(store.docs) && store.trace == old(store.trace)
    ensures start <= |rows| && ChunkRows(rows, start, b) in store.refused ==>
              r == Raise(PyMongoError) &&
              store.docs == old(store.docs) && store.trace == old(store.trace)
    ensures start <= |rows| && ChunkRows(rows, start, b) !in store.refused ==>
              r == Ok(()) &&
              store.docs == old(store.docs) + ChunkRows(rows, start, b) &&
              store.trace == old(store.trace) + [Insert(ChunkRows(rows, start, b))]
  {
    var chunk := CollectChunk(rows, start, b);
    if chunk.Raise? {
      return Raise(chunk.error);
    }
    r := store.InsertMany(chunk.value);
    assert r.Ok? ==> r.value == ();
  }
}
