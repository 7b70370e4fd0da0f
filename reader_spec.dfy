/**
 * The meaning of one consolidation run of utils/reader.py (`merge_parquet`),
 * stated as functions over an abstract file system.
 *
 * A stored Parquet file is the sequence of record batches its reader delivers,
 * possibly followed by a read that raises.  A directory listing fixes the
 * order in which globbing finds files.  `RouteSpec` says what one route does
 * to the file system and what it reports once its destination exists;
 * `RouteRun` puts the destination's `mkdir` call in front of it, and
 * `MergeSpec` chains the routes and stops at the first one that raises.
 */
module ReaderSpec {
  import opened Wrappers

  /** One column of an Arrow schema: its name, its type and whether it is nullable. */
  datatype Field = Field(name: string, arrowType: string, nullable: bool)

  /** An Arrow schema; two schemas agree only when every field does. */
  type Schema = seq<Field>

  type Record = seq<string>

  /** A record batch: the schema it carries and its rows. */
  datatype Batch = Batch(schema: Schema, rows: seq<Record>)

  /** A stored Parquet file as its batch reader sees it: every batch, or some
      batches followed by a read that raises (a corrupt file). */
  datatype StoredFile = Intact(batches: seq<Batch>) | Damaged(readable: seq<Batch>) {
    /** The batches delivered before the reader stops or raises. */
    function Delivered(): seq<Batch> {
      match this
      case Intact(bs) => bs
      case Damaged(bs) => bs
    }
  }

  /** A directory, as its path components. */
  type Dir = seq<string>

  datatype Path = Path(dir: Dir, name: string)

  /** One entry of the routing map: a source directory and its destination. */
  datatype Route = Route(src: Dir, dest: Dir)

  /** The file system: contents by path, and the order in which listing finds them. */
  datatype FsState = FsState(files: map<Path, StoredFile>, listing: seq<Path>)

  /** The Parquet writer of a route: not yet created (`None` in the source),
      open on the schema of the first batch, or closed. */
  datatype Writer = NoWriter | Open(schema: Schema, written: seq<Batch>) | Closed(schema: Schema, written: seq<Batch>)

  /** The exception a route raises. */
  datatype RouteError =
    | ReadError(file: Path)  // opening or reading a candidate failed
    | SchemaMismatch         // a batch's schema differs from the writer's
    | NotFound(file: Path)   // unlinking a candidate that is already gone
    | MkdirTypeError         // the destination `mkdir` call itself raised

  /** What happened to one route. */
  datatype RouteReport =
    | Skipped
    | Completed(totalRows: nat, fileCount: nat, writer: Writer)
    | Raised(error: RouteError, writer: Writer)

  predicate Distinct<T(==)>(s: seq<T>) {
    forall i, j :: 0 <= i < j < |s| ==> s[i] != s[j]
  }

  /** The listing names every stored file exactly once. */
  predicate WellFormed(fs: FsState) {
    Distinct(fs.listing) && (forall p :: p in fs.listing ==> p in fs.files) && (forall p :: p in fs.files ==> p in fs.listing)
  }

  // ---------------------------------------------------------------------
  // Names and candidate files

  const ParquetExt: string := ".parquet"
  const OutputSuffix: string := "_consolidated" + ParquetExt

  /** The names the pattern `*.parquet` matches. */
  predicate IsParquet(name: string) {
    |name| >= |ParquetExt| && name[|name| - |ParquetExt|..] == ParquetExt
  }

  /** The last component of a directory (`Path.name`). */
  function DirName(d: Dir): string {
    if d == [] then "" else d[|d| - 1]
  }

  /** The consolidated file of a route, named after the source directory. */
  function OutputPath(r: Route): (out: Path)
    ensures out.dir == r.dest && IsParquet(out.name)
  {
    var name := DirName(r.src) + OutputSuffix;
    assert name == (DirName(r.src) + "_consolidated") + ParquetExt;
    assert name[|name| - |ParquetExt|..] == ParquetExt;
    Path(r.dest, name)
  }

  /** Globbing `*.parquet` in `d`: the matching entries, in listing order. */
  function Glob(listing: seq<Path>, d: Dir): (found: seq<Path>)
    ensures forall p :: p in found <==> p in listing && p.dir == d && IsParquet(p.name)
    ensures Distinct(listing) ==> Distinct(found)
  {
    if listing == [] then []
    else
      var rest := Glob(listing[1..], d);
      assert forall p :: p in listing <==> p == listing[0] || p in listing[1..];
      assert Distinct(listing) ==> listing[0] !in listing[1..] && Distinct(listing[1..]);
      if listing[0].dir == d && IsParquet(listing[0].name) then [listing[0]] + rest else rest
  }

  /** `s` without the occurrences of `x`, order kept. */
  function Without(s: seq<Path>, x: Path): (r: seq<Path>)
    ensures forall y :: y in r <==> y in s && y != x
    ensures Distinct(s) ==> Distinct(r)
  {
    if s == [] then []
    else
      var rest := Without(s[1..], x);
      assert forall y :: y in s <==> y == s[0] || y in s[1..];
      assert Distinct(s) ==> s[0] !in s[1..] && Distinct(s[1..]);
      if s[0] != x then [s[0]] + rest else rest
  }

  lemma {:induction false} WithoutAppend(a: seq<Path>, b: seq<Path>, x: Path)
    ensures Without(a + b, x) == Without(a, x) + Without(b, x)
  {
    if a == [] {
      assert a + b == b;
    } else {
      assert (a + b)[0] == a[0];
      assert (a + b)[1..] == a[1..] + b;
      WithoutAppend(a[1..], b, x);
    }
  }

  /** The files a route consumes: the destination's Parquet files, then the
      source's, leaving out the consolidated output itself. */
  function Candidates(listing: seq<Path>, r: Route): (cands: seq<Path>)
    ensures OutputPath(r) !in cands
    ensures forall p :: p in cands <==>
              && p in listing
              && (p.dir == r.dest || p.dir == r.src)
              && IsParquet(p.name)
              && p != OutputPath(r)
  {
    Without(Glob(listing, r.dest) + Glob(listing, r.src), OutputPath(r))
  }

  /** Destination files come first: no source file precedes a destination file. */
  lemma DestinationFilesFirst(listing: seq<Path>, r: Route)
    ensures var cands := Candidates(listing, r);
            forall i, j :: 0 <= i < j < |cands| && cands[j].dir == r.dest ==> cands[i].dir == r.dest
  {
    var out := OutputPath(r);
    var fromDest, fromSrc := Without(Glob(listing, r.dest), out), Without(Glob(listing, r.src), out);
    WithoutAppend(Glob(listing, r.dest), Glob(listing, r.src), out);
    var cands := fromDest + fromSrc;
    forall i, j | 0 <= i < j < |cands| && cands[j].dir == r.dest ensures cands[i].dir == r.dest {
      if i < |fromDest| {
        assert cands[i] in fromDest;
      } else {
        assert cands[i] in fromSrc && cands[j] in fromSrc;
      }
    }
  }

  // ---------------------------------------------------------------------
  // Reading the candidates

  predicate ReadFails(files: map<Path, StoredFile>, p: Path) {
    p !in files || files[p].Damaged?
  }

  /** The batches a candidate yields before its reader stops or raises. */
  function Delivered(files: map<Path, StoredFile>, p: Path): seq<Batch> {
    if p in files then files[p].Delivered() else []
  }

  /** Every batch read from the candidates, file after file and batch after
      batch, up to the first read that raises. */
  function ReadStream(files: map<Path, StoredFile>, cands: seq<Path>): seq<Batch> {
    if cands == [] then []
    else Delivered(files, cands[0]) + (if ReadFails(files, cands[0]) then [] else ReadStream(files, cands[1..]))
  }

  /** The first candidate whose opening or reading raises. */
  function FirstFailure(files: map<Path, StoredFile>, cands: seq<Path>): Option<Path> {
    if cands == [] then None
    else if ReadFails(files, cands[0]) then Some(cands[0])
    else FirstFailure(files, cands[1..])
  }

  /** The first failure is a candidate that fails, and there is none exactly
      when every candidate opens and reads to its end. */
  lemma {:induction false} FirstFailureFound(files: map<Path, StoredFile>, cands: seq<Path>)
    ensures var f := FirstFailure(files, cands);
            && (f.Some? ==> f.value in cands && ReadFails(files, f.value))
            && (f.None? <==> forall p :: p in cands ==> !ReadFails(files, p))
  {
    if cands != [] && !ReadFails(files, cands[0]) {
      FirstFailureFound(files, cands[1..]);
      assert forall p :: p in cands <==> p == cands[0] || p in cands[1..];
    }
  }

  /** The first failure among two runs of candidates read one after the other. */
  lemma {:induction false} FirstFailureAppend(files: map<Path, StoredFile>, a: seq<Path>, b: seq<Path>)
    ensures FirstFailure(files, a + b) == if FirstFailure(files, a).Some? then FirstFailure(files, a) else FirstFailure(files, b)
  {
    if a == [] {
      assert a + b == b;
    } else {
      assert (a + b)[0] == a[0];
      assert (a + b)[1..] == a[1..] + b;
      FirstFailureAppend(files, a[1..], b);
    }
  }

  /** Reading two runs of candidates one after the other: the second is read
      only when the first read to its end. */
  lemma {:induction false} StreamAppend(files: map<Path, StoredFile>, a: seq<Path>, b: seq<Path>)
    ensures FirstFailure(files, a + b) == if FirstFailure(files, a).Some? then FirstFailure(files, a) else FirstFailure(files, b)
    ensures ReadStream(files, a + b) == ReadStream(files, a) + (if FirstFailure(files, a).Some? then [] else ReadStream(files, b))
  {
    FirstFailureAppend(files, a, b);
    if a == [] {
      assert a + b == b;
    } else {
      assert (a + b)[0] == a[0];
      assert (a + b)[1..] == a[1..] + b;
      StreamAppend(files, a[1..], b);
      if !ReadFails(files, a[0]) {
        var tail := if FirstFailure(files, a[1..]).Some? then [] else ReadStream(files, b);
        assert Delivered(files, a[0]) + (ReadStream(files, a[1..]) + tail) ==
               (Delivered(files, a[0]) + ReadStream(files, a[1..])) + tail;
      }
    }
  }

  function RowCount(bs: seq<Batch>): nat {
    if bs == [] then 0 else |bs[0].rows| + RowCount(bs[1..])
  }

  lemma {:induction false} RowCountAppend(a: seq<Batch>, b: seq<Batch>)
    ensures RowCount(a + b) == RowCount(a) + RowCount(b)
  {
    if a == [] {
      assert a + b == b;
    } else {
      assert (a + b)[0] == a[0];
      assert (a + b)[1..] == a[1..] + b;
      RowCountAppend(a[1..], b);
    }
  }

  /** The rows of each candidate, summed file by file. */
  function SumRows(files: map<Path, StoredFile>, cands: seq<Path>): nat {
    if cands == [] then 0 else RowCount(Delivered(files, cands[0])) + SumRows(files, cands[1..])
  }

  /** When no read fails, the stream is every candidate's batches in
      candidate order, and its row count is the sum of the files' row counts. */
  lemma {:induction false} StreamRowCount(files: map<Path, StoredFile>, cands: seq<Path>)
    requires FirstFailure(files, cands).None?
    ensures RowCount(ReadStream(files, cands)) == SumRows(files, cands)
  {
    if cands != [] {
      StreamRowCount(files, cands[1..]);
      RowCountAppend(Delivered(files, cands[0]), ReadStream(files, cands[1..]));
    }
  }

  // ---------------------------------------------------------------------
  // Writing

  /** The length of the longest prefix of `bs` whose batches all carry `s`. */
  function Conforming(bs: seq<Batch>, s: Schema): (k: nat)
    ensures k <= |bs|
    ensures forall i :: 0 <= i < k ==> bs[i].schema == s
    ensures k < |bs| ==> bs[k].schema != s
  {
    if bs == [] || bs[0].schema != s then 0 else 1 + Conforming(bs[1..], s)
  }

  /** What a writer created from the first batch's schema accepts before a
      batch with another schema makes it raise. */
  function Written(bs: seq<Batch>): (w: seq<Batch>)
    ensures w <= bs
    ensures bs != [] ==> w != []
    ensures forall i :: 0 <= i < |w| ==> w[i].schema == bs[0].schema
    ensures |w| < |bs| ==> bs[|w|].schema != bs[0].schema
  {
    if bs == [] then [] else bs[..Conforming(bs, bs[0].schema)]
  }

  // ---------------------------------------------------------------------
  // File system updates

  /** Writing a file: its content replaced; a new file is listed last. */
  function PutFile(fs: FsState, p: Path, f: StoredFile): FsState {
    FsState(fs.files[p := f], if p in fs.listing then fs.listing else fs.listing + [p])
  }

  /** Unlinking an existing file. */
  function Remove(fs: FsState, p: Path): FsState {
    FsState(fs.files - {p}, Without(fs.listing, p))
  }

  /** Unlinking the paths in order; the first one already gone raises. */
  function DeleteAll(fs: FsState, ps: seq<Path>): (FsState, Option<Path>)
    decreases ps
  {
    if ps == [] then (fs, None)
    else if ps[0] !in fs.files then (fs, Some(ps[0]))
    else DeleteAll(Remove(fs, ps[0]), ps[1..])
  }

  // ---------------------------------------------------------------------
  // One route, and the whole run

  /** The exception reading and writing the candidates raises, if any: a
      batch the writer refuses comes before any later read failure. */
  function ReadFailure(files: map<Path, StoredFile>, cands: seq<Path>): Option<RouteError> {
    var stream := ReadStream(files, cands);
    var failure := FirstFailure(files, cands);
    if |Written(stream)| < |stream| then Some(SchemaMismatch)
    else if failure.Some? then Some(ReadError(failure.value))
    else None
  }

  /** What one route does to the file system, and what it reports, once its
      destination directory exists. */
  function RouteSpec(fs: FsState, r: Route): (FsState, RouteReport) {
    var cands := Candidates(fs.listing, r);
    if cands == [] then (fs, Skipped)
    else
      var stream := ReadStream(fs.files, cands);
      var writer := if stream == [] then NoWriter else Closed(stream[0].schema, Written(stream));
      var fs1 := if stream == [] then fs else PutFile(fs, OutputPath(r), Intact(Written(stream)));
      var failure := ReadFailure(fs.files, cands);
      if failure.Some? then (fs1, Raised(failure.value, writer))
      else
        var deleted := DeleteAll(fs1, cands);
        if deleted.1.Some? then (deleted.0, Raised(NotFound(deleted.1.value), writer))
        else (deleted.0, Completed(RowCount(stream), |cands|, writer))
  }

  /** The keyword the destination's `mkdir` call passes: `parents=True`, or
      the misspelt `parens=True`. */
  datatype MkdirCall = Parents | Parens

  /** `Path.mkdir` accepts `mode`, `parents` and `exist_ok` and raises a
      `TypeError` on any other keyword.  Directories themselves are not
      modelled: with an accepted keyword the destination exists afterwards. */
  function Mkdir(call: MkdirCall): Option<RouteError> {
    match call
    case Parents => None
    case Parens => Some(MkdirTypeError)
  }

  /** One route of the run: the destination's `mkdir` call, then the route. */
  function RouteRun(fs: FsState, r: Route, call: MkdirCall): (FsState, RouteReport) {
    var made := Mkdir(call);
    if made.Some? then (fs, Raised(made.value, NoWriter)) else RouteSpec(fs, r)
  }

  /** The routes in order, up to and including the first one that raises. */
  function MergeSpec(fs: FsState, routes: seq<Route>, call: MkdirCall): (FsState, seq<RouteReport>)
    decreases routes
  {
    if routes == [] then (fs, [])
    else
      var step := RouteRun(fs, routes[0], call);
      if step.1.Raised? then (step.0, [step.1])
      else
        var rest := MergeSpec(step.0, routes[1..], call);
        (rest.0, [step.1] + rest.1)
  }
}
