/**
 * `merge_parquet` of utils/reader.py as the loops it is: a store of files
 * updated in place, one route after another, each route reading its
 * candidates batch by batch into one writer and unlinking them only after
 * every read and write succeeded.  Each method is proved to do what
 * `ReaderSpec` says.
 */
module Reader {
  import opened Wrappers
  import opened ReaderSpec

  /** The writer after writing `sofar`, the batches read so far. */
  function OpenOn(sofar: seq<Batch>): Writer {
    if sofar == [] then NoWriter else Open(sofar[0].schema, sofar)
  }

  /** The state of a route that has read `sofar` without raising: every batch
      accepted by the writer and its rows counted. */
  ghost predicate Streaming(sofar: seq<Batch>, writer: Writer, totalRows: nat) {
    Written(sofar) == sofar && writer == OpenOn(sofar) && totalRows == RowCount(sofar)
  }

  /** The stream of a route's first `i + 1` candidates, when the first `i` read cleanly. */
  lemma StreamStep(files: map<Path, StoredFile>, cands: seq<Path>, i: nat)
    requires i < |cands| && FirstFailure(files, cands[..i]).None?
    ensures ReadStream(files, cands[..i + 1]) == ReadStream(files, cands[..i]) + Delivered(files, cands[i])
    ensures FirstFailure(files, cands[..i + 1]) == if ReadFails(files, cands[i]) then Some(cands[i]) else None
  {
    var c := cands[i];
    assert ReadStream(files, [c]) == Delivered(files, c) + [] by {
      assert [c][1..] == [];
    }
    assert cands[..i + 1] == cands[..i] + [c];
    StreamAppend(files, cands[..i], [c]);
  }

  /** Reading candidates that start with `tail[0]`. */
  lemma StreamUnfold(files: map<Path, StoredFile>, tail: seq<Path>)
    requires tail != []
    ensures ReadStream(files, tail) ==
              Delivered(files, tail[0]) + (if ReadFails(files, tail[0]) then [] else ReadStream(files, tail[1..]))
    ensures FirstFailure(files, tail) ==
              if ReadFails(files, tail[0]) then Some(tail[0]) else FirstFailure(files, tail[1..])
  {
  }

  /** The stream of a route, cut at candidate `i` when the earlier ones read cleanly. */
  lemma StreamAt(files: map<Path, StoredFile>, cands: seq<Path>, i: nat)
    requires i < |cands| && FirstFailure(files, cands[..i]).None?
    ensures ReadStream(files, cands) ==
              ReadStream(files, cands[..i]) + Delivered(files, cands[i]) +
              (if ReadFails(files, cands[i]) then [] else ReadStream(files, cands[i + 1..]))
    ensures FirstFailure(files, cands) ==
              if ReadFails(files, cands[i]) then Some(cands[i]) else FirstFailure(files, cands[i + 1..])
  {
    var tail := cands[i..];
    assert tail[0] == cands[i] && tail[1..] == cands[i + 1..];
    StreamUnfold(files, tail);
    assert cands == cands[..i] + tail;
    StreamAppend(files, cands[..i], tail);
  }

  /** Candidate `i` fails to open or to read to its end, after the earlier
      ones and its own batches were all accepted. */
  lemma ReadFailsAt(files: map<Path, StoredFile>, cands: seq<Path>, i: nat)
    requires i < |cands| && FirstFailure(files, cands[..i]).None? && ReadFails(files, cands[i])
    requires var sofar := ReadStream(files, cands[..i]) + Delivered(files, cands[i]); Written(sofar) == sofar
    ensures ReadStream(files, cands) == ReadStream(files, cands[..i]) + Delivered(files, cands[i])
    ensures ReadFailure(files, cands) == Some(ReadError(cands[i]))
  {
    StreamAt(files, cands, i);
    assert ReadStream(files, cands[..i]) + Delivered(files, cands[i]) + [] ==
           ReadStream(files, cands[..i]) + Delivered(files, cands[i]);
  }

  /** The writer refused one of candidate `i`'s batches. */
  lemma RefusedAt(files: map<Path, StoredFile>, cands: seq<Path>, i: nat)
    requires i < |cands| && FirstFailure(files, cands[..i]).None? && cands[i] in files
    requires var sofar := ReadStream(files, cands[..i]) + Delivered(files, cands[i]); |Written(sofar)| < |sofar|
    ensures Written(ReadStream(files, cands)) == Written(ReadStream(files, cands[..i]) + Delivered(files, cands[i]))
    ensures ReadFailure(files, cands) == Some(SchemaMismatch)
  {
    StreamAt(files, cands, i);
    var sofar := ReadStream(files, cands[..i]) + Delivered(files, cands[i]);
    WrittenStable(sofar, if ReadFails(files, cands[i]) then [] else ReadStream(files, cands[i + 1..]));
  }

  /** The conforming prefix is the one that ends at the first batch with another schema. */
  lemma {:induction false} ConformingUnique(z: seq<Batch>, s: Schema, k: nat)
    requires k <= |z| && forall i :: 0 <= i < k ==> z[i].schema == s
    requires k == |z| || z[k].schema != s
    ensures Conforming(z, s) == k
  {
    if k > 0 {
      assert z[0].schema == s;
      assert forall i :: 0 <= i < k - 1 ==> z[1..][i] == z[i + 1];
      ConformingUnique(z[1..], s, k - 1);
    }
  }

  /** A batch with the writer's schema extends what the writer accepts. */
  lemma ConformingExtend(sofar: seq<Batch>, b: Batch)
    requires Written(sofar) == sofar
    requires sofar == [] || b.schema == sofar[0].schema
    ensures Written(sofar + [b]) == sofar + [b]
  {
    var x := sofar + [b];
    forall i | 0 <= i < |x| ensures x[i].schema == x[0].schema {
      if i < |sofar| {
        assert x[i] == Written(sofar)[i];
      }
    }
    ConformingUnique(x, x[0].schema, |x|);
  }

  /** Once the writer refused a batch, later batches change nothing it accepted. */
  lemma WrittenStable(x: seq<Batch>, y: seq<Batch>)
    requires |Written(x)| < |x|
    ensures Written(x + y) == Written(x)
  {
    var k := |Written(x)|;
    var z := x + y;
    forall i | 0 <= i < k ensures z[i].schema == z[0].schema {
      assert z[i] == Written(x)[i];
    }
    ConformingUnique(z, z[0].schema, k);
    assert z[..k] == x[..k];
  }

  /** The writer takes a batch with its schema (or creates itself on the first one). */
  lemma AcceptedBatch(sofar: seq<Batch>, b: Batch, writer: Writer, totalRows: nat)
    requires Streaming(sofar, writer, totalRows)
    requires writer.NoWriter? || b.schema == writer.schema
    ensures var s := if writer.NoWriter? then b.schema else writer.schema;
            Streaming(sofar + [b], Open(s, sofar + [b]), totalRows + |b.rows|)
  {
    ConformingExtend(sofar, b);
    RowCountAppend(sofar, [b]);
  }

  /** The writer refuses a batch with another schema: it keeps what it
      accepted, whatever the stream holds after. */
  lemma RefusedBatch(sofar: seq<Batch>, b: Batch, rest: seq<Batch>, writer: Writer, totalRows: nat)
    requires Streaming(sofar, writer, totalRows)
    requires writer.Open? && b.schema != writer.schema
    ensures Written(sofar + [b] + rest) == sofar && writer == OpenOn(sofar)
  {
    var x := sofar + [b];
    assert x[0] == sofar[0];
    forall k | 0 <= k < |sofar| ensures x[k].schema == sofar[0].schema {
      assert x[k] == Written(sofar)[k];
    }
    ConformingUnique(x, sofar[0].schema, |sofar|);
    assert x[..|sofar|] == sofar;
    WrittenStable(x, rest);
  }

  /** The outcome of a run that already reported `done` and still has `routes` to go. */
  function MergeFrom(fs: FsState, routes: seq<Route>, call: MkdirCall, done: seq<RouteReport>): (FsState, seq<RouteReport>) {
    var rest := MergeSpec(fs, routes, call);
    (rest.0, done + rest.1)
  }

  /** Route `i` of a run, in terms of the outcome still to come. */
  lemma MergeStep(fs: FsState, routes: seq<Route>, call: MkdirCall, i: nat, done: seq<RouteReport>)
    requires i < |routes|
    ensures var step := RouteRun(fs, routes[i], call);
            MergeFrom(fs, routes[i..], call, done) ==
              if step.1.Raised? then (step.0, done + [step.1]) else MergeFrom(step.0, routes[i + 1..], call, done + [step.1])
  {
    assert routes[i..][0] == routes[i] && routes[i..][1..] == routes[i + 1..];
    var step := RouteRun(fs, routes[i], call);
    var rest := MergeSpec(step.0, routes[i + 1..], call);
    assert done + ([step.1] + rest.1) == (done + [step.1]) + rest.1;
  }

  lemma MergeStart(fs: FsState, routes: seq<Route>, call: MkdirCall)
    ensures MergeSpec(fs, routes, call) == MergeFrom(fs, routes[0..], call, [])
  {
    assert routes[0..] == routes;
    assert [] + MergeSpec(fs, routes, call).1 == MergeSpec(fs, routes, call).1;
  }

  lemma MergeEnd(fs: FsState, routes: seq<Route>, call: MkdirCall, done: seq<RouteReport>)
    ensures MergeFrom(fs, routes[|routes|..], call, done) == (fs, done)
  {
    assert routes[|routes|..] == [];
    assert done + [] == done;
  }

  /** The files of the run, in place. */
  class Store {
    var files: map<Path, StoredFile>
    var listing: seq<Path>

    function State(): FsState
      reads this
    {
      FsState(files, listing)
    }

    constructor (fs: FsState)
      ensures State() == fs
    {
      files := fs.files;
      listing := fs.listing;
    }

    /** Writing `f` at `p`, replacing what was there. */
    method WriteFile(p: Path, f: StoredFile)
      modifies this
      ensures State() == PutFile(old(State()), p, f)
    {
      files := files[p := f];
      if p !in listing {
        listing := listing + [p];
      }
    }

    /** `Path.unlink`: removes `p`, or reports that it is gone. */
    method Unlink(p: Path) returns (found: bool)
      modifies this
      ensures found <==> p in old(files)
      ensures State() == if found then Remove(old(State()), p) else old(State())
    {
      found := p in files;
      if found {
        files := files - {p};
        listing := Without(listing, p);
      }
    }

    /** The batches of one file into the writer, which is created on the
        first batch's schema; a batch with another schema makes it raise. */
    method WriteBatches(bs: seq<Batch>, writer0: Writer, totalRows0: nat, ghost prefix: seq<Batch>)
      returns (writer: Writer, totalRows: nat, mismatch: bool)
      requires Streaming(prefix, writer0, totalRows0)
      ensures !mismatch ==> Streaming(prefix + bs, writer, totalRows)
      ensures mismatch ==> |Written(prefix + bs)| < |prefix + bs| && writer == OpenOn(Written(prefix + bs))
    {
      writer, totalRows, mismatch := writer0, totalRows0, false;
      var j := 0;
      while j < |bs|
        invariant 0 <= j <= |bs|
        invariant Streaming(prefix + bs[..j], writer, totalRows)
      {
        var b := bs[j];
        ghost var sofar := prefix + bs[..j];
        assert sofar + [b] == prefix + bs[..j + 1];
        if writer.Open? && b.schema != writer.schema {
          assert prefix + bs == sofar + [b] + bs[j + 1..] by {
            assert bs == bs[..j] + [b] + bs[j + 1..];
          }
          RefusedBatch(sofar, b, bs[j + 1..], writer, totalRows);
          return writer, totalRows, true;
        }
        AcceptedBatch(sofar, b, writer, totalRows);
        if writer.NoWriter? {
          writer := Open(b.schema, []);
        }
        writer := Open(writer.schema, writer.written + [b]);
        totalRows := totalRows + |b.rows|;
        j := j + 1;
      }
      assert bs[..j] == bs;
    }

    /** Reads every batch of the candidates into one writer, stopping at the
        first read or write that raises; the store is left as it was. */
    method ReadAll(cands: seq<Path>) returns (writer: Writer, totalRows: nat, fileCount: nat, failure: Option<RouteError>)
      ensures failure == ReadFailure(files, cands)
      ensures writer == OpenOn(Written(ReadStream(files, cands)))
      ensures failure.None? ==> totalRows == RowCount(ReadStream(files, cands)) && fileCount == |cands|
    {
      writer, totalRows, fileCount, failure := NoWriter, 0, 0, None;
      var i := 0;
      while i < |cands|
        invariant 0 <= i <= |cands|
        invariant FirstFailure(files, cands[..i]).None?
        invariant Streaming(ReadStream(files, cands[..i]), writer, totalRows)
        invariant fileCount == i
      {
        ghost var prefix := ReadStream(files, cands[..i]);
        var p := cands[i];
        if p !in files {
          assert prefix + Delivered(files, p) == prefix;
          ReadFailsAt(files, cands, i);
          return writer, totalRows, fileCount, Some(ReadError(p));
        }
        var mismatch;
        writer, totalRows, mismatch := WriteBatches(files[p].Delivered(), writer, totalRows, prefix);
        if mismatch {
          RefusedAt(files, cands, i);
          return writer, totalRows, fileCount, Some(SchemaMismatch);
        }
        if files[p].Damaged? {
          ReadFailsAt(files, cands, i);
          return writer, totalRows, fileCount, Some(ReadError(p));
        }
        StreamStep(files, cands, i);
        fileCount := fileCount + 1;
        i := i + 1;
      }
      assert cands[..i] == cands;
    }

    /** `Path.unlink` on each candidate in turn: the loop that runs once every
        read and write succeeded. */
    method DeleteCandidates(cands: seq<Path>) returns (missing: Option<Path>)
      modifies this
      ensures (State(), missing) == DeleteAll(old(State()), cands)
    {
      var k := 0;
      while k < |cands|
        invariant 0 <= k <= |cands|
        invariant DeleteAll(old(State()), cands) == DeleteAll(State(), cands[k..])
      {
        assert cands[k..][0] == cands[k] && cands[k..][1..] == cands[k + 1..];
        var found := Unlink(cands[k]);
        if !found {
          return Some(cands[k]);
        }
        k := k + 1;
      }
      return None;
    }

    /** One route: `merge_parquet`'s loop body, with the destination's
        `mkdir` called as `call` says. */
    method MergeRoute(r: Route, call: MkdirCall) returns (report: RouteReport)
      modifies this
      ensures (State(), report) == RouteRun(old(State()), r, call)
    {
      var made := Mkdir(call);
      if made.Some? {
        return Raised(made.value, NoWriter);
      }
      var output := OutputPath(r);
      var cands := Without(Glob(listing, r.dest) + Glob(listing, r.src), output);
      if cands == [] {
        return Skipped;
      }
      var writer, totalRows, fileCount, failure := ReadAll(cands);
      if writer.Open? {
        WriteFile(output, Intact(writer.written));
        writer := Closed(writer.schema, writer.written);
      }
      if failure.Some? {
        return Raised(failure.value, writer);
      }
      var missing := DeleteCandidates(cands);
      if missing.Some? {
        return Raised(NotFound(missing.value), writer);
      }
      report := Completed(totalRows, fileCount, writer);
    }

    /** `merge_parquet`: the routes in order, stopping at the first that
        raises.  With `Parents` this is the run as intended, with `Parens`
        the run as written. */
    method MergeParquet(routes: seq<Route>, call: MkdirCall) returns (reports: seq<RouteReport>)
      modifies this
      ensures (State(), reports) == MergeSpec(old(State()), routes, call)
    {
      reports := [];
      MergeStart(State(), routes, call);
      var i := 0;
      while i < |routes|
        invariant 0 <= i <= |routes|
        invariant MergeSpec(old(State()), routes, call) == MergeFrom(State(), routes[i..], call, reports)
      {
        MergeStep(State(), routes, call, i, reports);
        var report := MergeRoute(routes[i], call);
        reports := reports + [report];
        if report.Raised? {
          return;
        }
        i := i + 1;
      }
      MergeEnd(State(), routes, call, reports);
    }
  }
}
