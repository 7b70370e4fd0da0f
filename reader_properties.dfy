/**
 * What one consolidation route and a whole run promise, proved about the
 * functions of `ReaderSpec`.
 */
module ReaderProperties {
  import opened Wrappers
  import opened ReaderSpec

  lemma DistinctConcat(a: seq<Path>, b: seq<Path>)
    requires Distinct(a) && Distinct(b)
    requires forall p :: p in a ==> p !in b
    ensures Distinct(a + b)
  {
    var c := a + b;
    forall i, j | 0 <= i < j < |c| ensures c[i] != c[j] {
      if j < |a| {
      } else if i >= |a| {
        assert c[i] == b[i - |a|] && c[j] == b[j - |a|];
      } else {
        assert c[i] in a && c[j] in b;
      }
    }
  }

  /** Writing a file keeps the listing in step with the stored files. */
  lemma PutFileWellFormed(fs: FsState, p: Path, f: StoredFile)
    requires WellFormed(fs)
    ensures WellFormed(PutFile(fs, p, f))
  {
    if p !in fs.listing {
      DistinctConcat(fs.listing, [p]);
    }
  }

  /** Unlinking the paths in order: the paths unlinked are gone and nothing
      else changes; the run raises exactly when a path is already gone by its
      turn, which happens whenever a path is absent or repeated. */
  lemma {:induction false} DeleteAllEffect(fs: FsState, ps: seq<Path>)
    ensures var res := DeleteAll(fs, ps);
            && (forall p :: p !in ps ==> (p in res.0.files <==> p in fs.files))
            && (forall p :: p !in ps && p in fs.files ==> res.0.files[p] == fs.files[p])
            && (res.1.Some? ==> res.1.value in ps)
            && (res.1.None? ==> forall p :: p in ps ==> p in fs.files && p !in res.0.files)
            && (res.1.None? ==> forall p :: p in res.0.listing <==> p in fs.listing && p !in ps)
            && (res.1.None? ==> Distinct(ps))
            && (Distinct(ps) && (forall p :: p in ps ==> p in fs.files) ==> res.1.None?)
            && (WellFormed(fs) ==> WellFormed(res.0))
    decreases ps
  {
    if ps != [] && ps[0] in fs.files {
      var fs1 := Remove(fs, ps[0]);
      DeleteAllEffect(fs1, ps[1..]);
      assert forall p :: p in ps <==> p == ps[0] || p in ps[1..];
      var res := DeleteAll(fs, ps);
      assert res == DeleteAll(fs1, ps[1..]);
      if res.1.None? {
        assert ps[0] !in ps[1..];
        forall i, j | 0 <= i < j < |ps| ensures ps[i] != ps[j] {
          if i == 0 {
            assert ps[j] in ps[1..];
          } else {
            assert ps[1..][i - 1] == ps[i] && ps[1..][j - 1] == ps[j];
          }
        }
      }
      if Distinct(ps) {
        assert ps[0] !in ps[1..];
        assert Distinct(ps[1..]) by {
          forall i, j | 0 <= i < j < |ps[1..]| ensures ps[1..][i] != ps[1..][j] {
            assert ps[1..][i] == ps[i + 1] && ps[1..][j] == ps[j + 1];
          }
        }
      }
    }
  }

  /** The consolidated output: a route that skips changes nothing; once a
      writer was created the output holds exactly what it wrote, even when
      the route later raises; and a previous output survives a route that
      read nothing, for the output is never a candidate. */
  lemma RouteOutput(fs: FsState, r: Route)
    ensures var res := RouteSpec(fs, r);
            var out := OutputPath(r);
            && (res.1.Skipped? <==> Candidates(fs.listing, r) == [])
            && (res.1.Skipped? ==> res.0 == fs)
            && (!res.1.Skipped? ==> !res.1.writer.Open?)
            && (!res.1.Skipped? ==> (res.1.writer.NoWriter? <==> ReadStream(fs.files, Candidates(fs.listing, r)) == []))
            && (!res.1.Skipped? && res.1.writer.Closed? ==>
                  && res.1.writer.schema == ReadStream(fs.files, Candidates(fs.listing, r))[0].schema
                  && res.1.writer.written == Written(ReadStream(fs.files, Candidates(fs.listing, r)))
                  && out in res.0.files && res.0.files[out] == Intact(res.1.writer.written))
            && (!res.1.Skipped? && res.1.writer.NoWriter? ==>
                  ReadStream(fs.files, Candidates(fs.listing, r)) == [] &&
                  (out in res.0.files <==> out in fs.files) &&
                  (out in fs.files ==> res.0.files[out] == fs.files[out]))
  {
    var cands := Candidates(fs.listing, r);
    if cands != [] {
      var stream := ReadStream(fs.files, cands);
      var fs1 := if stream == [] then fs else PutFile(fs, OutputPath(r), Intact(Written(stream)));
      DeleteAllEffect(fs1, cands);
    }
  }

  /** A route that raises while reading or writing deletes nothing: every
      file other than the output keeps its content. */
  lemma FailedRouteDeletesNothing(fs: FsState, r: Route)
    requires RouteSpec(fs, r).1.Raised? && !RouteSpec(fs, r).1.error.NotFound?
    ensures var after := RouteSpec(fs, r).0;
            forall p :: p != OutputPath(r) ==>
              (p in after.files <==> p in fs.files) && (p in fs.files ==> after.files[p] == fs.files[p])
  {
  }

  /** A route that completes read every candidate in full, wrote all their
      batches in candidate order, counted their rows and files, deleted every
      candidate and touched nothing else. */
  lemma CompletedRoute(fs: FsState, r: Route)
    requires RouteSpec(fs, r).1.Completed?
    ensures var res := RouteSpec(fs, r);
            var cands := Candidates(fs.listing, r);
            var out := OutputPath(r);
            && FirstFailure(fs.files, cands).None?
            && Written(ReadStream(fs.files, cands)) == ReadStream(fs.files, cands)
            && res.1.totalRows == SumRows(fs.files, cands)
            && res.1.fileCount == |cands|
            && Distinct(cands)
            && (forall p :: p in cands ==> p in fs.files && p !in res.0.files)
            && (ReadStream(fs.files, cands) != [] ==> out in res.0.files && res.0.files[out] == Intact(ReadStream(fs.files, cands)))
            && (forall p :: p !in cands && p != out ==>
                  (p in res.0.files <==> p in fs.files) && (p in fs.files ==> res.0.files[p] == fs.files[p]))
  {
    var cands := Candidates(fs.listing, r);
    var stream := ReadStream(fs.files, cands);
    var fs1 := if stream == [] then fs else PutFile(fs, OutputPath(r), Intact(Written(stream)));
    DeleteAllEffect(fs1, cands);
    StreamRowCount(fs.files, cands);
    assert Written(stream) == stream;
  }

  lemma EmptyWhenNoMember(s: seq<Path>)
    ensures (forall p :: p !in s) ==> s == []
  {
    if s != [] {
      assert s[0] in s;
    }
  }

  /** A listing that keeps none of a route's candidates, and gains at most
      its output, offers the route no candidates. */
  lemma NoCandidatesLeft(before: seq<Path>, after: seq<Path>, r: Route)
    requires forall p :: p in after ==> (p in before && p !in Candidates(before, r)) || p == OutputPath(r)
    ensures Candidates(after, r) == []
  {
    var again := Candidates(after, r);
    assert forall p :: p !in again;
    EmptyWhenNoMember(again);
  }

  /** Running a route again right after it completed finds nothing to do:
      its candidates are gone and its own output is never a candidate. */
  lemma RerunAfterCompletionSkips(fs: FsState, r: Route)
    requires RouteSpec(fs, r).1.Completed?
    ensures var after := RouteSpec(fs, r).0;
            Candidates(after.listing, r) == [] && RouteSpec(after, r) == (after, Skipped)
  {
    var cands := Candidates(fs.listing, r);
    var stream := ReadStream(fs.files, cands);
    var fs1 := if stream == [] then fs else PutFile(fs, OutputPath(r), Intact(Written(stream)));
    var after := RouteSpec(fs, r).0;
    assert after == DeleteAll(fs1, cands).0 && DeleteAll(fs1, cands).1.None?;
    assert forall p :: p in after.listing ==> (p in fs.listing && p !in cands) || p == OutputPath(r) by {
      DeleteAllEffect(fs1, cands);
    }
    NoCandidatesLeft(fs.listing, after.listing, r);
  }

  /** A route keeps the listing in step with the stored files. */
  lemma RoutePreservesWellFormed(fs: FsState, r: Route)
    requires WellFormed(fs)
    ensures WellFormed(RouteSpec(fs, r).0)
  {
    var cands := Candidates(fs.listing, r);
    if cands != [] {
      var stream := ReadStream(fs.files, cands);
      if stream != [] {
        PutFileWellFormed(fs, OutputPath(r), Intact(Written(stream)));
      }
      var fs1 := if stream == [] then fs else PutFile(fs, OutputPath(r), Intact(Written(stream)));
      DeleteAllEffect(fs1, cands);
    }
  }

  /** With distinct source and destination every candidate is listed once and
      stored, so deleting them never finds one already gone. */
  lemma DistinctDirsDeleteCleanly(fs: FsState, r: Route)
    requires WellFormed(fs) && r.src != r.dest
    ensures !(RouteSpec(fs, r).1.Raised? && RouteSpec(fs, r).1.error.NotFound?)
  {
    var cands := Candidates(fs.listing, r);
    if cands != [] {
      var globbed := Glob(fs.listing, r.dest) + Glob(fs.listing, r.src);
      DistinctConcat(Glob(fs.listing, r.dest), Glob(fs.listing, r.src));
      assert Distinct(cands);
      var stream := ReadStream(fs.files, cands);
      var fs1 := if stream == [] then fs else PutFile(fs, OutputPath(r), Intact(Written(stream)));
      assert forall p :: p in cands ==> p in fs1.files;
      DeleteAllEffect(fs1, cands);
    }
  }

  /** A route whose source is its destination finds each file twice, so it
      never completes: at best the second unlink of a file raises. */
  lemma SameDirNeverCompletes(fs: FsState, r: Route)
    requires r.src == r.dest
    ensures !RouteSpec(fs, r).1.Completed?
  {
    var cands := Candidates(fs.listing, r);
    if cands != [] {
      var g := Glob(fs.listing, r.dest);
      var once := Without(g, OutputPath(r));
      WithoutAppend(g, g, OutputPath(r));
      assert cands == once + once;
      assert cands[0] == cands[|once|];
      var stream := ReadStream(fs.files, cands);
      var fs1 := if stream == [] then fs else PutFile(fs, OutputPath(r), Intact(Written(stream)));
      DeleteAllEffect(fs1, cands);
    }
  }

  /** A run reports one route after another and stops at the first route
      that raises: every report before the last is not a raise, and a run
      that reports fewer routes than it was given ends with a raise. */
  lemma {:induction false} MergeStopsAtFirstRaise(fs: FsState, routes: seq<Route>, call: MkdirCall)
    ensures var reports := MergeSpec(fs, routes, call).1;
            && |reports| <= |routes|
            && (routes != [] ==> reports != [])
            && (forall k :: 0 <= k < |reports| - 1 ==> !reports[k].Raised?)
            && (|reports| < |routes| ==> reports[|reports| - 1].Raised?)
    decreases routes
  {
    if routes != [] {
      var step := RouteRun(fs, routes[0], call);
      if !step.1.Raised? {
        MergeStopsAtFirstRaise(step.0, routes[1..], call);
      }
    }
  }

  /** A whole run keeps the listing in step with the stored files. */
  lemma {:induction false} MergePreservesWellFormed(fs: FsState, routes: seq<Route>, call: MkdirCall)
    requires WellFormed(fs)
    ensures WellFormed(MergeSpec(fs, routes, call).0)
    decreases routes
  {
    if routes != [] {
      RoutePreservesWellFormed(fs, routes[0]);
      MergePreservesWellFormed(RouteRun(fs, routes[0], call).0, routes[1..], call);
    }
  }

  /** With `mkdir` called as intended the destination is created and the
      route goes on: it does what `RouteSpec` says and does not raise there. */
  lemma RouteNeverRaisesAtMkdir(fs: FsState, r: Route)
    ensures RouteRun(fs, r, Parents) == RouteSpec(fs, r)
    ensures !(RouteRun(fs, r, Parents).1.Raised? && RouteRun(fs, r, Parents).1.error == MkdirTypeError)
  {
  }

  /** With the misspelt keyword every route raises at `mkdir`, before it
      globs, reads, writes or deletes anything. */
  lemma RouteRaisesAtMkdirAsWritten(fs: FsState, r: Route)
    ensures RouteRun(fs, r, Parens) == (fs, Raised(MkdirTypeError, NoWriter))
  {
  }

  /** No route of the run as intended raises at `mkdir`. */
  lemma {:induction false} MergeNeverRaisesAtMkdir(fs: FsState, routes: seq<Route>)
    ensures forall rep :: rep in MergeSpec(fs, routes, Parents).1 ==> !(rep.Raised? && rep.error == MkdirTypeError)
    decreases routes
  {
    if routes != [] {
      RouteNeverRaisesAtMkdir(fs, routes[0]);
      MergeNeverRaisesAtMkdir(RouteSpec(fs, routes[0]).0, routes[1..]);
    }
  }

  /** The run as written changes no file, and a non-empty routing map ends
      at once with the `mkdir` error of its first route. */
  lemma MergeAsWrittenRaisesAtOnce(fs: FsState, routes: seq<Route>)
    ensures MergeSpec(fs, routes, Parens).0 == fs
    ensures routes == [] ==> MergeSpec(fs, routes, Parens).1 == []
    ensures routes != [] ==> MergeSpec(fs, routes, Parens).1 == [Raised(MkdirTypeError, NoWriter)]
  {
    if routes != [] {
      RouteRaisesAtMkdirAsWritten(fs, routes[0]);
    }
  }

  // The run of one Parquet file of two rows in `silver`, routed to `gold`.

  const ExampleFile := Path(["silver"], "a.parquet")
  const ExampleSchema: Schema := [Field("pedido", "string", true)]
  const ExampleBatch := Batch(ExampleSchema, [["1"], ["2"]])
  const ExampleRoute := Route(["silver"], ["gold"])
  /** `gold/silver_consolidated.parquet` */
  const ExampleOutput := OutputPath(ExampleRoute)
  const ExampleStore := FsState(map[ExampleFile := Intact([ExampleBatch])], [ExampleFile])

  lemma ExampleGlob()
    ensures Glob([ExampleFile], ["gold"]) + Glob([ExampleFile], ["silver"]) == [ExampleFile]
  {
    var a := ExampleFile;
    assert IsParquet(a.name) by {
      assert a.name[|a.name| - |ParquetExt|..] == ParquetExt;
    }
    assert Glob([a], ["gold"]) == [];
    assert Glob([a], ["silver"]) == [a] + Glob([], ["silver"]);
  }

  lemma ExampleCandidates()
    ensures Candidates(ExampleStore.listing, ExampleRoute) == [ExampleFile]
  {
    ExampleGlob();
    assert ExampleFile != ExampleOutput;
    assert Without([ExampleFile], ExampleOutput) == [ExampleFile] + Without([], ExampleOutput);
  }

  lemma ExampleRead()
    ensures ReadStream(ExampleStore.files, [ExampleFile]) == [ExampleBatch]
    ensures ReadFailure(ExampleStore.files, [ExampleFile]) == None
    ensures RowCount([ExampleBatch]) == 2
  {
    var files, a := ExampleStore.files, ExampleFile;
    assert [a][1..] == [];
    assert ReadStream(files, [a]) == [ExampleBatch] + [];
    assert FirstFailure(files, [a]) == None;
    assert Conforming([ExampleBatch], ExampleBatch.schema) == 1;
    assert Written([ExampleBatch]) == [ExampleBatch];
  }

  lemma ExampleDelete()
    ensures var fs1 := PutFile(ExampleStore, ExampleOutput, Intact([ExampleBatch]));
            DeleteAll(fs1, [ExampleFile]) == (FsState(map[ExampleOutput := Intact([ExampleBatch])], [ExampleOutput]), None)
  {
    var a, out := ExampleFile, ExampleOutput;
    var fs1 := PutFile(ExampleStore, out, Intact([ExampleBatch]));
    assert fs1.listing == [a, out];
    assert [out][1..] == [] && [a, out][1..] == [out];
    assert Without([out], a) == [out] + Without([], a) == [out];
    assert Without([a, out], a) == Without([out], a);
    assert fs1.files - {a} == map[out := Intact([ExampleBatch])];
    assert [a][1..] == [];
    assert Remove(fs1, a) == FsState(map[out := Intact([ExampleBatch])], [out]);
    assert DeleteAll(fs1, [a]) == DeleteAll(Remove(fs1, a), []);
  }

  /** As written the run raises at `mkdir` and leaves the file where it is;
      the corrected run writes `gold/silver_consolidated.parquet`, counts two
      rows in one file and deletes the source file. */
  lemma MkdirTypoMergesNothing()
    ensures MergeSpec(ExampleStore, [ExampleRoute], Parens) == (ExampleStore, [Raised(MkdirTypeError, NoWriter)])
    ensures MergeSpec(ExampleStore, [ExampleRoute], Parents).1 == [Completed(2, 1, Closed(ExampleSchema, [ExampleBatch]))]
    ensures MergeSpec(ExampleStore, [ExampleRoute], Parents).0.files == map[ExampleOutput := Intact([ExampleBatch])]
  {
    MergeAsWrittenRaisesAtOnce(ExampleStore, [ExampleRoute]);
    ExampleCandidates();
    ExampleRead();
    ExampleDelete();
    assert RouteSpec(ExampleStore, ExampleRoute) ==
             (FsState(map[ExampleOutput := Intact([ExampleBatch])], [ExampleOutput]),
              Completed(2, 1, Closed(ExampleSchema, [ExampleBatch])));
    assert [ExampleRoute][1..] == [];
  }
}
