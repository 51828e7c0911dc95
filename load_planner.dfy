/**
 * Planning the chunk tasks of a load (generate_read_and_write_tasks of app.py):
 * every `.csv` file gets one task per start offset 0, b, 2b, ... below the
 * fixed row count r.
 */
module LoadPlanner {
  import opened WeatherData
  import opened Arith
  import opened SeqFacts
  import opened ChunkReader

  const BUFFER_SIZE: nat := 100000
  const CSV_ROW_COUNT: nat := 259201

  /** One read_csv_and_write_to_db task: a file and the row it starts at. */
  datatype ChunkTask = ChunkTask(file: DirEntry, startRow: nat)

  /** The values `start_row` takes in the while loop when it begins at s. */
  function OffsetsFrom(s: nat, b: nat, r: nat): seq<nat>
    requires b >= 1
    decreases r - s
  {
    if s < r then [s] + OffsetsFrom(s + b, b, r) else []
  }

  /** The start offsets of one file's tasks. */
  function Offsets(b: nat, r: nat): seq<nat>
    requires b >= 1
  {
    OffsetsFrom(0, b, r)
  }

  /** The tasks of one file, one per offset, in offset order. */
  function FileTasks(file: DirEntry, offsets: seq<nat>): (tasks: seq<ChunkTask>)
    ensures |tasks| == |offsets|
    ensures forall j :: 0 <= j < |offsets| ==> tasks[j] == ChunkTask(file, offsets[j])
  {
    seq(|offsets|, j requires 0 <= j < |offsets| => ChunkTask(file, offsets[j]))
  }

  /** The task list of a load over `files`: file by file, each file's tasks in offset order. */
  function Plan(files: seq<DirEntry>, b: nat, r: nat): seq<ChunkTask>
    requires b >= 1
  {
    if files == [] then []
    else Plan(files[..|files| - 1], b, r) + FileTasks(files[|files| - 1], Offsets(b, r))
  }

  lemma {:induction false} OffsetsFromAt(s: nat, b: nat, r: nat, j: nat)
    requires b >= 1 && j < |OffsetsFrom(s, b, r)|
    ensures OffsetsFrom(s, b, r)[j] == s + j * b
    decreases r - s
  {
    if j > 0 {
      OffsetsFromAt(s + b, b, r, j - 1);
    }
  }

  lemma {:induction false} OffsetsFromLength(s: nat, b: nat, r: nat)
    requires b >= 1
    ensures var k := |OffsetsFrom(s, b, r)|;
            (s >= r ==> k == 0) && (s < r ==> k >= 1 && s + (k - 1) * b < r <= s + k * b)
    decreases r - s
  {
    if s < r {
      OffsetsFromLength(s + b, b, r);
      var k' := |OffsetsFrom(s + b, b, r)|;
      assert (s + b) + k' * b == s + (k' + 1) * b;
      if k' > 0 {
        assert (s + b) + (k' - 1) * b == s + k' * b;
      }
    }
  }

  /** There are ceil(r / b) offsets per file. */
  lemma OffsetsCount(b: nat, r: nat)
    requires b >= 1
    ensures |Offsets(b, r)| == CeilDiv(r, b)
  {
    OffsetsFromLength(0, b, r);
    CeilDivUnique(r, b, |Offsets(b, r)|);
  }

  /** Offset j is j * b: a multiple of b, and below r. */
  lemma OffsetAt(b: nat, r: nat, j: nat)
    requires b >= 1 && j < |Offsets(b, r)|
    ensures Offsets(b, r)[j] == j * b && Offsets(b, r)[j] % b == 0 && Offsets(b, r)[j] < r
  {
    OffsetsFromAt(0, b, r, j);
    DivModUnique(j * b, b, j, 0);
    OffsetsFromLength(0, b, r);
    MulMonotone(j, |Offsets(b, r)| - 1, b);
  }

  /**
   * The offsets are 0, b, 2b, ...: each a multiple of b below r, strictly
   * increasing, each the previous one plus b, and the ranges [s, s + b) they
   * start are pairwise disjoint.
   */
  lemma OffsetsShape(b: nat, r: nat)
    requires b >= 1
    ensures var offs := Offsets(b, r);
            (forall j :: 0 <= j < |offs| ==> offs[j] == j * b && offs[j] % b == 0 && offs[j] < r) &&
            (forall j :: 0 < j < |offs| ==> offs[j] == offs[j - 1] + b) &&
            (forall i, j :: 0 <= i < j < |offs| ==> offs[i] + b <= offs[j])
  {
    var offs := Offsets(b, r);
    forall j | 0 <= j < |offs|
      ensures offs[j] == j * b && offs[j] % b == 0 && offs[j] < r
    {
      OffsetAt(b, r, j);
    }
    forall j | 0 < j < |offs|
      ensures offs[j] == offs[j - 1] + b
    {
      OffsetAt(b, r, j);
      OffsetAt(b, r, j - 1);
      assert (j - 1) * b + b == j * b;
    }
    forall i, j | 0 <= i < j < |offs|
      ensures offs[i] + b <= offs[j]
    {
      OffsetAt(b, r, i);
      OffsetAt(b, r, j);
      MulMonotone(i + 1, j, b);
    }
  }

  /**
   * The ranges [s, s + b) of the offsets are contiguous: every row index below
   * k * b (k the offset count) is in exactly one of them, none at or above k * b
   * is in any, and k * b reaches r.
   */
  lemma OffsetsCover(b: nat, r: nat, x: nat)
    requires b >= 1
    ensures var offs := Offsets(b, r);
            r <= |offs| * b &&
            (x < |offs| * b <==> exists j :: 0 <= j < |offs| && offs[j] <= x < offs[j] + b) &&
            (forall i, j ::
               0 <= i < |offs| && 0 <= j < |offs| && offs[i] <= x < offs[i] + b && offs[j] <= x < offs[j] + b
               ==> i == j)
  {
    var offs := Offsets(b, r);
    OffsetsFromLength(0, b, r);
    OffsetsShape(b, r);
    if x < |offs| * b {
      var j := x / b;
      assert x == j * b + x % b;
      if j >= |offs| {
        MulMonotone(|offs|, j, b);
      }
      assert offs[j] == j * b;
    }
    if exists j :: 0 <= j < |offs| && offs[j] <= x < offs[j] + b {
      var j :| 0 <= j < |offs| && offs[j] <= x < offs[j] + b;
      MulMonotone(j + 1, |offs|, b);
    }
  }

  /** With the repository's constants, the offsets are 0, 100000 and 200000. */
  lemma ConfiguredOffsets()
    ensures Offsets(BUFFER_SIZE, CSV_ROW_COUNT) == [0, 100000, 200000]
    ensures |Offsets(BUFFER_SIZE, CSV_ROW_COUNT)| == CeilDiv(CSV_ROW_COUNT, BUFFER_SIZE) == 3
  {
    assert OffsetsFrom(300000, BUFFER_SIZE, CSV_ROW_COUNT) == [];
    assert OffsetsFrom(200000, BUFFER_SIZE, CSV_ROW_COUNT) == [200000];
    assert OffsetsFrom(100000, BUFFER_SIZE, CSV_ROW_COUNT) == [100000, 200000];
    OffsetsCount(BUFFER_SIZE, CSV_ROW_COUNT);
  }

  /** The concatenation of the chunks the given offsets read from a file. */
  function LoadedRows(rows: seq<Row>, offsets: seq<nat>, b: nat): seq<Row>
    requires forall j :: 0 <= j < |offsets| ==> offsets[j] <= |rows|
  {
    if offsets == [] then []
    else ChunkRows(rows, offsets[0], b) + LoadedRows(rows, offsets[1..], b)
  }

  /** The chunks at a non-empty run of offsets: the first offset's chunk, then the rest's. */
  lemma LoadedRowsCons(rows: seq<Row>, offsets: seq<nat>, b: nat)
    requires offsets != [] && forall j :: 0 <= j < |offsets| ==> offsets[j] <= |rows|
    ensures forall j :: 0 <= j < |offsets[1..]| ==> offsets[1..][j] <= |rows|
    ensures LoadedRows(rows, offsets, b) == ChunkRows(rows, offsets[0], b) + LoadedRows(rows, offsets[1..], b)
  {
  }

  /** Where the while loop started at s stops: the first value of start_row at or past r. */
  function OffsetsEnd(s: nat, b: nat, r: nat): (e: nat)
    requires b >= 1
    ensures s <= e && r <= e
    decreases r - s
  {
    if s < r then OffsetsEnd(s + b, b, r) else s
  }

  /** The loop stops k steps of b after s, k being the number of offsets it emitted. */
  lemma {:induction false} OffsetsEndIs(s: nat, b: nat, r: nat)
    requires b >= 1
    ensures OffsetsEnd(s, b, r) == s + |OffsetsFrom(s, b, r)| * b
    decreases r - s
  {
    if s < r {
      OffsetsEndIs(s + b, b, r);
      MulSucc(|OffsetsFrom(s + b, b, r)|, b);
    }
  }

  lemma {:induction false} LoadedRowsFrom(rows: seq<Row>, s: nat, b: nat, r: nat)
    requires b >= 1 && s <= |rows|
    requires forall j :: 0 <= j < |OffsetsFrom(s, b, r)| ==> OffsetsFrom(s, b, r)[j] <= |rows|
    ensures LoadedRows(rows, OffsetsFrom(s, b, r), b) == rows[s..Min(OffsetsEnd(s, b, r), |rows|)]
    decreases r - s
  {
    var offs := OffsetsFrom(s, b, r);
    if s < r {
      var rest := OffsetsFrom(s + b, b, r);
      assert offs[0] == s && offs[1..] == rest;
      LoadedRowsCons(rows, offs, b);
      var chunk := ChunkRows(rows, s, b);
      assert chunk == rows[s..Min(s + b, |rows|)];
      if rest == [] {
        assert OffsetsEnd(s, b, r) == s + b;
        assert LoadedRows(rows, rest, b) == [];
        assert chunk + [] == chunk;
      } else {
        assert s + b <= |rows| by {
          assert rest[0] == s + b;
        }
        LoadedRowsFrom(rows, s + b, b, r);
        SliceJoin(rows, s, s + b, Min(OffsetsEnd(s + b, b, r), |rows|));
      }
    } else {
      assert rows[s..s] == [];
    }
  }

  /**
   * When every task of a file finds its start row (the last offset is at most
   * the file's row count n), the chunks the tasks insert are, in task order,
   * exactly the file's first min(k * b, n) rows: no row twice, no gap, and no
   * row at index k * b or beyond.
   */
  lemma FileChunksCover(rows: seq<Row>, b: nat, r: nat)
    requires b >= 1
    requires forall j :: 0 <= j < |Offsets(b, r)| ==> Offsets(b, r)[j] <= |rows|
    ensures LoadedRows(rows, Offsets(b, r), b) == rows[..Min(|Offsets(b, r)| * b, |rows|)]
  {
    assert Offsets(b, r) == OffsetsFrom(0, b, r);
    LoadedRowsFrom(rows, 0, b, r);
    OffsetsEndIs(0, b, r);
  }

  lemma {:induction false} PlanCount(files: seq<DirEntry>, b: nat, r: nat)
    requires b >= 1
    ensures |Plan(files, b, r)| == |files| * |Offsets(b, r)|
    decreases |files|
  {
    if files != [] {
      PlanCount(files[..|files| - 1], b, r);
      assert (|files| - 1) * |Offsets(b, r)| + |Offsets(b, r)| == |files| * |Offsets(b, r)|;
    }
  }

  /**
   * The task at position f * k + j of the plan (k the offset count) is file f's
   * task at offset j: the plan is file-major, each file's offsets in order.
   */
  lemma {:induction false} PlanAt(files: seq<DirEntry>, b: nat, r: nat, f: nat, j: nat)
    requires b >= 1 && f < |files| && j < |Offsets(b, r)|
    ensures f * |Offsets(b, r)| + j < |Plan(files, b, r)|
    ensures Plan(files, b, r)[f * |Offsets(b, r)| + j] == ChunkTask(files[f], Offsets(b, r)[j])
    decreases |files|
  {
    var k := |Offsets(b, r)|;
    var init := files[..|files| - 1];
    PlanCount(init, b, r);
    PlanCount(files, b, r);
    if f < |files| - 1 {
      PlanAt(init, b, r, f, j);
      assert init[f] == files[f];
    } else {
      assert f * k + j == |Plan(init, b, r)| + j;
    }
  }

  /** Every planned task is for a file of the plan, at one of the offsets. */
  lemma {:induction false} PlanMembers(files: seq<DirEntry>, b: nat, r: nat)
    requires b >= 1
    ensures forall t :: t in Plan(files, b, r) ==> t.file in files && t.startRow in Offsets(b, r)
    decreases |files|
  {
    if files != [] {
      var init := files[..|files| - 1];
      PlanMembers(init, b, r);
      forall t | t in Plan(files, b, r)
        ensures t.file in files && t.startRow in Offsets(b, r)
      {
        if t in Plan(init, b, r) {
          assert t.file in init;
        } else {
          var tasks := FileTasks(files[|files| - 1], Offsets(b, r));
          assert t in tasks;
          var j :| 0 <= j < |tasks| && tasks[j] == t;
        }
      }
    }
  }

  /**
   * generate_read_and_write_tasks over a listing: the pair (error, 400) when no
   * name ends in `.csv`; otherwise the tasks of every `.csv` file, in listing
   * order, one per offset.
   */
  method GenerateReadAndWriteTasks(listing: seq<DirEntry>, b: nat, r: nat) returns (reply: Response<seq<ChunkTask>>)
    requires b >= 1
    ensures CsvFiles(listing) == [] <==> reply.Failure?
    ensures reply.Failure? ==> reply == Failure(400, NO_CSV_FILES)
    ensures reply.Success? ==> reply.body == Plan(CsvFiles(listing), b, r)
    ensures reply.Success? ==> |reply.body| == |CsvFiles(listing)| * CeilDiv(r, b)
    ensures reply.Success? ==> forall t :: t in reply.body ==> t.file in listing && IsCsvName(t.file.name)
  {
    var csvFiles := CsvFiles(listing);
    if csvFiles == [] {
      return Failure(400, NO_CSV_FILES);
    }
    var tasks: seq<ChunkTask> := [];
    for fi := 0 to |csvFiles|
      invariant tasks == Plan(csvFiles[..fi], b, r)
    {
      var csvFile := csvFiles[fi];
      var startRow := 0;
      ghost var emitted: seq<nat> := [];
      while startRow < r
        invariant emitted + OffsetsFrom(startRow, b, r) == Offsets(b, r)
        invariant tasks == Plan(csvFiles[..fi], b, r) + FileTasks(csvFile, emitted)
        decreases r - startRow
      {
        tasks := tasks + [ChunkTask(csvFile, startRow)];
        emitted := emitted + [startRow];
        startRow := startRow + b;
      }
      assert emitted == Offsets(b, r);
      assert csvFiles[..fi + 1][..fi] == csvFiles[..fi];
    }
    assert csvFiles[..|csvFiles|] == csvFiles;
    PlanCount(csvFiles, b, r);
    OffsetsCount(b, r);
    PlanMembers(csvFiles, b, r);
    reply := Success(tasks);
  }
}
