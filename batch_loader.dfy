/**
 * The buffered loader of load_data.py (load_csvs_to_db): each `.csv` file is
 * streamed row by row into a buffer that is written with insert_many whenever
 * it holds b rows and once more at the end of the file if it is not empty;
 * after all files the coordinate index is created.
 */
module BatchLoader {
  import opened WeatherData
  import opened Arith
  import opened SeqFacts

  const BUFFER_SIZE: nat := 100000

  const STORED: string := "Weather data stored in db successfully"
  const WRITE_ERROR: string := "Error writing to database"

  /** The batches one file is written in: full batches of b rows, then the rest if any. */
  function Batches(rows: seq<Row>, b: nat): seq<seq<Row>>
    requires b >= 1
    decreases |rows|
  {
    if |rows| == 0 then []
    else if |rows| <= b then [rows]
    else [rows[..b]] + Batches(rows[b..], b)
  }

  function Flatten(batches: seq<seq<Row>>): seq<Row>
  {
    if batches == [] then [] else batches[0] + Flatten(batches[1..])
  }

  /** The batches of a whole load: each file's batches, file after file. */
  function AllBatches(files: seq<DirEntry>, b: nat): seq<seq<Row>>
    requires b >= 1
  {
    if files == [] then [] else Batches(files[0].rows, b) + AllBatches(files[1..], b)
  }

  /** The rows of all files, file after file. */
  function AllRows(files: seq<DirEntry>): seq<Row>
  {
    if files == [] then [] else files[0].rows + AllRows(files[1..])
  }

  /** The batches written before the first one the store refuses. */
  function AcceptedPrefix(batches: seq<seq<Row>>, refused: set<seq<Row>>): seq<seq<Row>>
  {
    if batches == [] || batches[0] in refused then [] else [batches[0]] + AcceptedPrefix(batches[1..], refused)
  }

  /** The store refuses none of the batches: all of them get written. */
  predicate AllAccepted(batches: seq<seq<Row>>, refused: set<seq<Row>>)
  {
    AcceptedPrefix(batches, refused) == batches
  }

  /** The trace events of inserting the batches in order. */
  function Inserts(batches: seq<seq<Row>>): (events: seq<Event>)
    ensures |events| == |batches|
    ensures forall i :: 0 <= i < |batches| ==> events[i] == Insert(batches[i])
  {
    seq(|batches|, i requires 0 <= i < |batches| => Insert(batches[i]))
  }

  /** The log of two runs of inserts is the log of the first followed by that of the second. */
  lemma InsertsAppend(p: seq<seq<Row>>, q: seq<seq<Row>>)
    ensures Inserts(p + q) == Inserts(p) + Inserts(q)
  {
    var whole := Inserts(p + q);
    var parts := Inserts(p) + Inserts(q);
    forall i | 0 <= i < |whole|
      ensures whole[i] == parts[i]
    {
      if i < |p| {
        assert (p + q)[i] == p[i];
      } else {
        assert (p + q)[i] == q[i - |p|];
      }
    }
  }

  lemma {:induction false} FlattenAppend(p: seq<seq<Row>>, q: seq<seq<Row>>)
    ensures Flatten(p + q) == Flatten(p) + Flatten(q)
  {
    if p == [] {
      assert p + q == q;
    } else {
      assert (p + q)[0] == p[0];
      assert (p + q)[1..] == p[1..] + q;
      FlattenAppend(p[1..], q);
    }
  }

  /** The batches of a file, concatenated, are the file's rows: none lost, none repeated, order kept. */
  lemma {:induction false} BatchesFlatten(rows: seq<Row>, b: nat)
    requires b >= 1
    ensures Flatten(Batches(rows, b)) == rows
    decreases |rows|
  {
    if |rows| > b {
      BatchesFlatten(rows[b..], b);
      assert [rows[..b]] + Batches(rows[b..], b) == Batches(rows, b);
      assert Flatten(Batches(rows, b)) == rows[..b] + Flatten(Batches(rows[b..], b));
      assert rows[..b] + rows[b..] == rows;
    } else if |rows| > 0 {
      assert Flatten(Batches(rows, b)) == rows + Flatten([]);
    }
  }

  /** Every batch of a file is non-empty and at most b rows; all but the last have exactly b rows. */
  lemma {:induction false} BatchesBounded(rows: seq<Row>, b: nat)
    requires b >= 1
    ensures forall i :: 0 <= i < |Batches(rows, b)| ==> 0 < |Batches(rows, b)[i]| <= b
    ensures forall i :: 0 <= i < |Batches(rows, b)| - 1 ==> |Batches(rows, b)[i]| == b
    decreases |rows|
  {
    if |rows| > b {
      var bs := Batches(rows, b);
      var rest := Batches(rows[b..], b);
      BatchesBounded(rows[b..], b);
      assert bs == [rows[..b]] + rest;
      forall i | 0 <= i < |bs|
        ensures 0 < |bs[i]| <= b && (i < |bs| - 1 ==> |bs[i]| == b)
      {
        if i > 0 {
          assert bs[i] == rest[i - 1];
          assert 0 < |rest[i - 1]| <= b;
        } else {
          assert bs[0] == rows[..b];
        }
      }
    }
  }

  /**
   * The last batch of a file of n rows has n mod b rows when b does not divide
   * n, and b rows otherwise; there are ceil(n / b) batches, n div b of them full.
   */
  lemma {:induction false} BatchesCount(rows: seq<Row>, b: nat)
    requires b >= 1
    ensures var bs := Batches(rows, b);
            |bs| == CeilDiv(|rows|, b) &&
            |bs| == |rows| / b + (if |rows| % b == 0 then 0 else 1) &&
            (|bs| > 0 ==> |bs[|bs| - 1]| == if |rows| % b == 0 then b else |rows| % b)
    decreases |rows|
  {
    var n := |rows|;
    if n > b {
      BatchesCount(rows[b..], b);
      DivModSub(n, b);
      var rest := Batches(rows[b..], b);
      assert Batches(rows, b) == [rows[..b]] + rest;
    } else if n > 0 {
      DivModSmall(n, b);
    } else {
      DivModUnique(b - 1, b, 0, b - 1);
    }
  }

  /**
   * With the configured BUFFER_SIZE, a file of 259201 rows (the row count the
   * chunked loader assumes) is written in three inserts, the last of 59201 rows.
   */
  lemma ConfiguredBatches(rows: seq<Row>)
    requires |rows| == 259201
    ensures |Batches(rows, BUFFER_SIZE)| == 3
    ensures |Batches(rows, BUFFER_SIZE)[2]| == 59201
  {
    BatchesCount(rows, BUFFER_SIZE);
  }

  /** A buffer of exactly b rows is written as one batch, ahead of the batches of what follows it. */
  lemma BatchesAfterFullBuffer(buffer: seq<Row>, rest: seq<Row>, b: nat)
    requires b >= 1 && |buffer| == b
    ensures Batches(buffer + rest, b) == [buffer] + Batches(rest, b)
  {
    if rest == [] {
      assert buffer + rest == buffer;
    } else {
      assert (buffer + rest)[..b] == buffer;
      assert (buffer + rest)[b..] == rest;
    }
  }

  /** What is left in the buffer once every row was read is the last batch, if any. */
  lemma TrailingBuffer(done: seq<seq<Row>>, buffer: seq<Row>, rows: seq<Row>, batches: seq<seq<Row>>, b: nat)
    requires b >= 1 && |buffer| < b
    requires done + Batches(buffer + rows[|rows|..], b) == batches
    ensures buffer != [] ==> batches == done + [buffer]
    ensures buffer == [] ==> batches == done
  {
    assert buffer + rows[|rows|..] == buffer;
    if buffer != [] {
      assert Batches(buffer, b) == [buffer];
    } else {
      assert done + [] == done;
    }
  }

  /**
   * The loop's view of the pending batches after a flush of a full buffer:
   * the flushed buffer joins the written batches, and the pending batches are
   * those of the new, empty buffer followed by the rows not yet read (the
   * second ensures is the loop invariant's own shape with `buffer == []`).
   */
  lemma FullBufferStep(done: seq<seq<Row>>, buffer: seq<Row>, rest: seq<Row>, batches: seq<seq<Row>>, b: nat)
    requires b >= 1 && |buffer| == b
    requires done + Batches(buffer + rest, b) == batches
    ensures batches == done + [buffer] + Batches(rest, b)
    ensures batches == (done + [buffer]) + Batches([] + rest, b)
  {
    BatchesAfterFullBuffer(buffer, rest, b);
    assert [] + rest == rest;
  }

  lemma {:induction false} AllBatchesFlatten(files: seq<DirEntry>, b: nat)
    requires b >= 1
    ensures Flatten(AllBatches(files, b)) == AllRows(files)
    decreases |files|
  {
    if files != [] {
      AllBatchesFlatten(files[1..], b);
      BatchesFlatten(files[0].rows, b);
      FlattenAppend(Batches(files[0].rows, b), AllBatches(files[1..], b));
    }
  }

  /** No batch of a load is empty, so no insert_many is ever called with an empty list. */
  lemma {:induction false} AllBatchesNonEmpty(files: seq<DirEntry>, b: nat)
    requires b >= 1
    ensures forall i :: 0 <= i < |AllBatches(files, b)| ==> AllBatches(files, b)[i] != []
    decreases |files|
  {
    if files != [] {
      AllBatchesNonEmpty(files[1..], b);
      BatchesBounded(files[0].rows, b);
      var first := Batches(files[0].rows, b);
      var rest := AllBatches(files[1..], b);
      assert AllBatches(files, b) == first + rest;
      forall i | 0 <= i < |first + rest|
        ensures (first + rest)[i] != []
      {
        if i >= |first| {
          assert (first + rest)[i] == rest[i - |first|];
        } else {
          assert (first + rest)[i] == first[i];
        }
      }
    }
  }

  /** All batches are accepted exactly when the store refuses none of them. */
  lemma {:induction false} AllAcceptedMeans(batches: seq<seq<Row>>, refused: set<seq<Row>>)
    ensures AllAccepted(batches, refused) <==> forall i :: 0 <= i < |batches| ==> batches[i] !in refused
  {
    if batches != [] {
      AllAcceptedMeans(batches[1..], refused);
      if batches[0] !in refused {
        assert AcceptedPrefix(batches, refused) == [batches[0]] + AcceptedPrefix(batches[1..], refused);
        if AllAccepted(batches[1..], refused) {
          assert [batches[0]] + batches[1..] == batches;
          assert forall i :: 0 < i < |batches| ==> batches[i] == batches[1..][i - 1];
        } else {
          assert AcceptedPrefix(batches, refused)[1..] == AcceptedPrefix(batches[1..], refused);
          var i :| 0 <= i < |batches[1..]| && batches[1..][i] in refused;
          assert batches[i + 1] == batches[1..][i];
        }
      }
    }
  }

  lemma {:induction false} AcceptedPrefixAppend(p: seq<seq<Row>>, q: seq<seq<Row>>, refused: set<seq<Row>>)
    requires AllAccepted(p, refused)
    ensures AcceptedPrefix(p + q, refused) == p + AcceptedPrefix(q, refused)
  {
    if p == [] {
      assert p + q == q;
    } else {
      assert p[0] !in refused;
      assert AcceptedPrefix(p, refused) == [p[0]] + AcceptedPrefix(p[1..], refused);
      assert AcceptedPrefix(p[1..], refused) == p[1..];
      assert (p + q)[0] == p[0];
      assert (p + q)[1..] == p[1..] + q;
      AcceptedPrefixAppend(p[1..], q, refused);
    }
  }

  /**
   * The accepted prefix is a prefix of the batches, every batch in it is
   * accepted, and when it is shorter the batch right after it is the one the
   * store refused.
   */
  lemma {:induction false} AcceptedPrefixShape(batches: seq<seq<Row>>, refused: set<seq<Row>>)
    ensures var acc := AcceptedPrefix(batches, refused);
            |acc| <= |batches| && acc == batches[..|acc|] && AllAccepted(acc, refused) &&
            (|acc| < |batches| ==> batches[|acc|] in refused)
  {
    if batches != [] && batches[0] !in refused {
      AcceptedPrefixShape(batches[1..], refused);
      var acc' := AcceptedPrefix(batches[1..], refused);
      assert AcceptedPrefix(batches, refused) == [batches[0]] + acc';
      assert AcceptedPrefix([batches[0]] + acc', refused) == [batches[0]] + AcceptedPrefix(acc', refused) by {
        assert ([batches[0]] + acc')[1..] == acc';
      }
      if |acc'| < |batches[1..]| {
        assert batches[1 + |acc'|] == batches[1..][|acc'|];
      }
    }
  }

  /** Once a batch of p is refused, what follows p is never written. */
  lemma {:induction false} AcceptedPrefixStops(p: seq<seq<Row>>, q: seq<seq<Row>>, refused: set<seq<Row>>)
    requires !AllAccepted(p, refused)
    ensures AcceptedPrefix(p + q, refused) == AcceptedPrefix(p, refused)
    ensures !AllAccepted(p + q, refused)
  {
    assert p != [];
    assert (p + q)[0] == p[0];
    assert (p + q)[1..] == p[1..] + q;
    if p[0] !in refused {
      assert AcceptedPrefix(p, refused) == [p[0]] + AcceptedPrefix(p[1..], refused);
      assert [p[0]] + p[1..] == p;
      AcceptedPrefixStops(p[1..], q, refused);
      assert AcceptedPrefix(p + q, refused) == [p[0]] + AcceptedPrefix(p[1..] + q, refused);
    }
  }

  /**
   * The buffer loop of load_csvs_to_db for one file: rows are appended to a
   * fresh buffer, the buffer is written and reset whenever it holds b rows, and
   * a non-empty rest is written after the last row. A refused write raises
   * PyMongoError and ends the file. `bufferCount` is the loop's buffer_count:
   * after each flush the progress log prints bufferCount * b, the rows
   * written so far, and a file written in full ends with n div b flushes.
   */
  method WriteFileInBatches(store: Collection, rows: seq<Row>, b: nat) returns (r: Result<()>, bufferCount: nat)
    requires b >= 1
    modifies store
    ensures r.Ok? <==> AllAccepted(Batches(rows, b), store.refused)
    ensures r.Raise? ==> r.error == PyMongoError
    ensures r.Ok? ==> FullFlushes(|rows|, b, bufferCount)
    ensures store.docs == old(store.docs) + Flatten(AcceptedPrefix(Batches(rows, b), store.refused))
    ensures store.trace == old(store.trace) + Inserts(AcceptedPrefix(Batches(rows, b), store.refused))
  {
    ghost var batches := Batches(rows, b);
    ghost var done: seq<seq<Row>> := [];
    var buffer: seq<Row> := [];
    bufferCount := 0;
    assert buffer + rows[0..] == rows;
    for ri := 0 to |rows|
      invariant done + Batches(buffer + rows[ri..], b) == batches
      invariant |buffer| < b
      invariant |done| == bufferCount && Times(bufferCount, b) == ri - |buffer|
      invariant AllAccepted(done, store.refused)
      invariant store.docs == old(store.docs) + Flatten(done)
      invariant store.trace == old(store.trace) + Inserts(done)
    {
      ghost var rest := rows[ri + 1..];
      MoveHead(buffer, rows, ri);
      buffer := buffer + [rows[ri]];
      if |buffer| >= b {
        FullBufferStep(done, buffer, rest, batches, b);
        r := store.InsertMany(buffer);
        if r.Raise? {
          WriteFailed(done, buffer, Batches(rest, b), batches, store.refused);
          return;
        }
        Written(old(store.docs), old(store.trace), done, buffer, store.refused);
        done := done + [buffer];
        buffer := [];
        bufferCount := bufferCount + 1;
      }
    }
    TrailingBuffer(done, buffer, rows, batches, b);
    FlushCount(|rows|, b, bufferCount, |buffer|);
    // Insert any remaining rows in the buffer
    if buffer != [] {
      r := store.InsertMany(buffer);
      if r.Raise? {
        WriteFailed(done, buffer, [], batches, store.refused);
        return;
      }
      Written(old(store.docs), old(store.trace), done, buffer, store.refused);
      done := done + [buffer];
    }
    r := Ok(());
  }

  /**
   * load_csvs_to_db over a directory listing, with the route's exception
   * mapping: a store refusal (PyMongoError) stops the load and gives 500, and
   * the index on (Longitude, Latitude) is created once, after every file's
   * inserts, only if none was refused; a refused index gives the same 500.
   */
  method LoadCsvsToDb(store: Collection, listing: seq<DirEntry>, b: nat) returns (reply: Response<string>)
    requires b >= 1
    modifies store
    ensures CsvFiles(listing) == [] ==>
              reply == Failure(400, NO_CSV_FILES) &&
              store.docs == old(store.docs) && store.trace == old(store.trace)
    ensures CsvFiles(listing) != [] ==>
              var batches := AllBatches(CsvFiles(listing), b);
              var written := AcceptedPrefix(batches, store.refused);
              store.docs == old(store.docs) + Flatten(written) &&
              (AllAccepted(batches, store.refused) ==>
                 store.docs == old(store.docs) + AllRows(CsvFiles(listing)) &&
                 (!store.refusesIndex ==>
                    reply == Success(STORED) &&
                    store.trace == old(store.trace) + Inserts(batches) + [CreateIndex([LONGITUDE, LATITUDE])]) &&
                 (store.refusesIndex ==>
                    reply == Failure(500, WRITE_ERROR) &&
                    store.trace == old(store.trace) + Inserts(batches))) &&
              (!AllAccepted(batches, store.refused) ==>
                 reply == Failure(500, WRITE_ERROR) &&
                 store.trace == old(store.trace) + Inserts(written))
  {
    var csvFiles := CsvFiles(listing);
    if csvFiles == [] {
      return Failure(400, NO_CSV_FILES);
    }
    ghost var batches := AllBatches(csvFiles, b);
    ghost var done: seq<seq<Row>> := [];
    assert csvFiles[0..] == csvFiles;
    for fi := 0 to |csvFiles|
      invariant done + AllBatches(csvFiles[fi..], b) == batches
      invariant AllAccepted(done, store.refused)
      invariant store.docs == old(store.docs) + Flatten(done)
      invariant store.trace == old(store.trace) + Inserts(done)
    {
      ghost var fileBatches := Batches(csvFiles[fi].rows, b);
      ghost var later := AllBatches(csvFiles[fi + 1..], b);
      NextFile(done, csvFiles, fi, b, batches);
      var written, _ := WriteFileInBatches(store, csvFiles[fi].rows, b);
      if written.Raise? {
        FileRefused(old(store.docs), old(store.trace), done, fileBatches, later, batches, store.refused);
        return Failure(500, WRITE_ERROR);
      }
      FileAccepted(old(store.docs), old(store.trace), done, fileBatches, store.refused);
      done := done + fileBatches;
    }
    assert csvFiles[|csvFiles|..] == [];
    assert done + [] == done;
    AllBatchesFlatten(csvFiles, b);
    var indexed := store.CreateIndexOn([LONGITUDE, LATITUDE]);
    if indexed.Raise? {
      return Failure(500, WRITE_ERROR);
    }
    reply := Success(STORED);
  }

  /** The loop's view of the batches still to come, one file further on. */
  lemma NextFile(done: seq<seq<Row>>, files: seq<DirEntry>, fi: nat, b: nat, batches: seq<seq<Row>>)
    requires b >= 1 && fi < |files|
    requires done + AllBatches(files[fi..], b) == batches
    ensures done + Batches(files[fi].rows, b) + AllBatches(files[fi + 1..], b) == batches
  {
    assert files[fi..][0] == files[fi] && files[fi..][1..] == files[fi + 1..];
  }

  /** Bookkeeping after a file whose batches were all accepted. */
  lemma FileAccepted(docs0: seq<Row>, trace0: seq<Event>, done: seq<seq<Row>>, fileBatches: seq<seq<Row>>, refused: set<seq<Row>>)
    requires AllAccepted(done, refused) && AllAccepted(fileBatches, refused)
    ensures AllAccepted(done + fileBatches, refused)
    ensures (docs0 + Flatten(done)) + Flatten(AcceptedPrefix(fileBatches, refused)) == docs0 + Flatten(done + fileBatches)
    ensures (trace0 + Inserts(done)) + Inserts(AcceptedPrefix(fileBatches, refused)) == trace0 + Inserts(done + fileBatches)
  {
    AllAcceptedAppend(done, fileBatches, refused);
    FlattenAppend(done, fileBatches);
    Reassociate(docs0, Flatten(done), Flatten(fileBatches), Flatten(done + fileBatches));
    InsertsAppend(done, fileBatches);
    Reassociate(trace0, Inserts(done), Inserts(fileBatches), Inserts(done + fileBatches));
  }

  /**
   * Bookkeeping after a file with a refused batch: what the store holds is the
   * accepted prefix of the whole load, and the load is not all accepted.
   */
  lemma FileRefused(docs0: seq<Row>, trace0: seq<Event>, done: seq<seq<Row>>, fileBatches: seq<seq<Row>>,
                    later: seq<seq<Row>>, batches: seq<seq<Row>>, refused: set<seq<Row>>)
    requires AllAccepted(done, refused) && !AllAccepted(fileBatches, refused)
    requires done + fileBatches + later == batches
    ensures !AllAccepted(batches, refused)
    ensures (docs0 + Flatten(done)) + Flatten(AcceptedPrefix(fileBatches, refused)) == docs0 + Flatten(AcceptedPrefix(batches, refused))
    ensures (trace0 + Inserts(done)) + Inserts(AcceptedPrefix(fileBatches, refused)) == trace0 + Inserts(AcceptedPrefix(batches, refused))
  {
    var acc := AcceptedPrefix(fileBatches, refused);
    var tail := fileBatches + later;
    Reassociate(done, fileBatches, later, tail);
    AcceptedPrefixStops(fileBatches, later, refused);
    AcceptedPrefixAppend(done, tail, refused);
    AllAcceptedAppend(done, tail, refused);
    FlattenAppend(done, acc);
    Reassociate(docs0, Flatten(done), Flatten(acc), Flatten(done + acc));
    InsertsAppend(done, acc);
    Reassociate(trace0, Inserts(done), Inserts(acc), Inserts(done + acc));
  }

  lemma AllAcceptedAppend(p: seq<seq<Row>>, q: seq<seq<Row>>, refused: set<seq<Row>>)
    requires AllAccepted(p, refused)
    ensures AllAccepted(p + q, refused) <==> AllAccepted(q, refused)
  {
    AcceptedPrefixAppend(p, q, refused);
    if AllAccepted(p + q, refused) {
      assert (p + AcceptedPrefix(q, refused))[|p|..] == AcceptedPrefix(q, refused);
      assert (p + q)[|p|..] == q;
    }
  }

  /** After a refused write, the written batches are exactly the ones before it. */
  lemma WriteFailed(done: seq<seq<Row>>, batch: seq<Row>, rest: seq<seq<Row>>, whole: seq<seq<Row>>, refused: set<seq<Row>>)
    requires AllAccepted(done, refused) && batch in refused
    requires whole == done + [batch] + rest
    ensures AcceptedPrefix(whole, refused) == done
    ensures !AllAccepted(whole, refused)
  {
    assert done + [batch] + rest == done + ([batch] + rest);
    AcceptedPrefixAppend(done, [batch] + rest, refused);
    assert done + [] == done;
  }

  /** Bookkeeping after an accepted write. */
  lemma Written(docs0: seq<Row>, trace0: seq<Event>, done: seq<seq<Row>>, batch: seq<Row>, refused: set<seq<Row>>)
    requires AllAccepted(done, refused) && batch !in refused
    ensures AllAccepted(done + [batch], refused)
    ensures (docs0 + Flatten(done)) + batch == docs0 + Flatten(done + [batch])
    ensures (trace0 + Inserts(done)) + [Insert(batch)] == trace0 + Inserts(done + [batch])
  {
    AcceptedPrefixAppend(done, [batch], refused);
    assert AcceptedPrefix([batch], refused) == [batch] + AcceptedPrefix([], refused);
    FlattenAppend(done, [batch]);
    assert Flatten([batch]) == batch + Flatten([]) == batch;
    Reassociate(docs0, Flatten(done), batch, Flatten(done + [batch]));
    InsertsAppend(done, [batch]);
    assert Inserts([batch]) == [Insert(batch)];
    Reassociate(trace0, Inserts(done), [Insert(batch)], Inserts(done + [batch]));
  }
}
