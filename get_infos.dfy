/**
 * The penultimate-date scan of utils/get_infos.py.
 *
 * The column is read batch by batch; nulls are skipped and two optional
 * candidates, the largest value seen and the largest value seen strictly below
 * it, are the whole working state.  The answer is the second-largest DISTINCT
 * value, or nothing when the file is missing, a read fails, or fewer than two
 * distinct values occur.  Timestamps are integers; formatting the answer as
 * text is not modelled, the raw value is returned.
 */
module GetInfos {
  import opened Wrappers

  /** One record batch of the column as the reader delivers it, or a read that raises. */
  datatype Chunk = Batch(values: seq<Option<int>>) | Unreadable

  /** The column file: absent from disk, or stored as a stream of batches. */
  datatype ColumnFile = Missing | Stored(chunks: seq<Chunk>)

  // ---------------------------------------------------------------------
  // Reference definitions

  /** The values of every readable batch, in stream order, nulls included. */
  function Flat(chunks: seq<Chunk>): seq<Option<int>> {
    if chunks == [] then []
    else (if chunks[0].Batch? then chunks[0].values else []) + Flat(chunks[1..])
  }

  /** The non-null values, in order. */
  function NonNull(vals: seq<Option<int>>): seq<int> {
    if vals == [] then []
    else if vals[0].Some? then [vals[0].value] + NonNull(vals[1..])
    else NonNull(vals[1..])
  }

  predicate AllReadable(chunks: seq<Chunk>) {
    forall k :: 0 <= k < |chunks| ==> chunks[k].Batch?
  }

  /** Index of the first batch whose read raises, or |chunks| when none does. */
  function FirstUnreadable(chunks: seq<Chunk>): (k: nat)
    ensures k <= |chunks|
    ensures forall i :: 0 <= i < k ==> chunks[i].Batch?
    ensures k < |chunks| ==> chunks[k].Unreadable?
  {
    if chunks == [] || chunks[0].Unreadable? then 0 else 1 + FirstUnreadable(chunks[1..])
  }

  /** `m` is the largest of `vals`. */
  ghost predicate IsMaximum(vals: seq<int>, m: int) {
    m in vals && forall v :: v in vals ==> v <= m
  }

  /** The largest of a non-empty sequence of values. */
  function MaxOf(vals: seq<int>): (m: int)
    requires vals != []
    ensures IsMaximum(vals, m)
  {
    if |vals| == 1 then vals[0]
    else
      var rest := MaxOf(vals[1..]);
      assert forall v :: v in vals ==> v == vals[0] || v in vals[1..];
      if vals[0] > rest then vals[0] else rest
  }

  /** The values strictly below `m`, in order. */
  function StrictlyBelow(vals: seq<int>, m: int): (r: seq<int>)
    ensures forall v :: v in r <==> v in vals && v < m
  {
    if vals == [] then []
    else
      var rest := StrictlyBelow(vals[1..], m);
      assert forall v :: v in vals <==> v == vals[0] || v in vals[1..];
      if vals[0] < m then [vals[0]] + rest else rest
  }

  /** The largest value strictly below the maximum: the second-largest
      distinct value, absent when fewer than two distinct values occur. */
  function SecondDistinctMax(vals: seq<int>): (r: Option<int>)
    ensures r.None? <==> forall a, b :: a in vals && b in vals ==> a == b
    ensures r.Some? ==> vals != [] && IsMaximum(StrictlyBelow(vals, MaxOf(vals)), r.value)
  {
    if vals == [] then None
    else
      var top := MaxOf(vals);
      var below := StrictlyBelow(vals, top);
      if below == [] then
        assert forall a, b :: a in vals && b in vals ==> a == b by {
          forall a, b | a in vals && b in vals ensures a == b {
            assert a !in below && b !in below;
          }
        }
        None
      else
        assert below[0] in vals && top in vals && below[0] != top;
        Some(MaxOf(below))
  }

  /** What the scan answers for a file. */
  function PenultimateSpec(file: ColumnFile): Option<int> {
    match file
    case Missing => None
    case Stored(chunks) => if AllReadable(chunks) then SecondDistinctMax(NonNull(Flat(chunks))) else None
  }

  /** The two candidates of the scan describe the values seen so far: `maxDate`
      is their maximum and `secondMaxDate` the largest of them strictly below it. */
  ghost predicate TopTwo(seen: seq<int>, maxDate: Option<int>, secondMaxDate: Option<int>) {
    && (maxDate.None? <==> seen == [])
    && (maxDate.Some? ==> IsMaximum(seen, maxDate.value))
    && (secondMaxDate.Some? ==>
          && maxDate.Some?
          && secondMaxDate.value in seen
          && secondMaxDate.value < maxDate.value
          && forall v :: v in seen && v < maxDate.value ==> v <= secondMaxDate.value)
    && (secondMaxDate.None? && maxDate.Some? ==> forall v :: v in seen ==> v == maxDate.value)
  }

  // ---------------------------------------------------------------------
  // Lemmas about the reference definitions

  lemma {:induction false} FlatAppend(a: seq<Chunk>, b: seq<Chunk>)
    ensures Flat(a + b) == Flat(a) + Flat(b)
  {
    if a == [] {
      assert a + b == b;
    } else {
      assert (a + b)[0] == a[0];
      assert (a + b)[1..] == a[1..] + b;
      FlatAppend(a[1..], b);
    }
  }

  /** The non-null values are exactly the values present. */
  lemma {:induction false} NonNullMembers(vals: seq<Option<int>>)
    ensures forall v :: v in NonNull(vals) <==> Some(v) in vals
  {
    if vals != [] {
      NonNullMembers(vals[1..]);
      assert forall o :: o in vals <==> o == vals[0] || o in vals[1..];
    }
  }

  lemma {:induction false} NonNullAppend(a: seq<Option<int>>, b: seq<Option<int>>)
    ensures NonNull(a + b) == NonNull(a) + NonNull(b)
  {
    if a == [] {
      assert a + b == b;
    } else {
      assert (a + b)[0] == a[0];
      assert (a + b)[1..] == a[1..] + b;
      NonNullAppend(a[1..], b);
    }
  }

  /** Two sequences holding the same values have the same maximum. */
  lemma SameValuesSameMax(a: seq<int>, b: seq<int>)
    requires a != [] && b != []
    requires forall v :: v in a <==> v in b
    ensures MaxOf(a) == MaxOf(b)
  {
    var ma, mb := MaxOf(a), MaxOf(b);
    assert ma in b;
    assert mb in a;
  }

  /** The answer depends only on which values occur, not on order or repetition. */
  lemma SameValuesSameAnswer(a: seq<int>, b: seq<int>)
    requires forall v :: v in a <==> v in b
    ensures SecondDistinctMax(a) == SecondDistinctMax(b)
  {
    if a != [] && b != [] {
      SameValuesSameMax(a, b);
      var top := MaxOf(a);
      var ba, bb := StrictlyBelow(a, top), StrictlyBelow(b, top);
      assert forall v :: v in ba <==> v in bb;
      if ba != [] && bb != [] {
        SameValuesSameMax(ba, bb);
      }
    } else if a != [] {
      assert a[0] in a;
    } else if b != [] {
      assert b[0] in b;
    }
  }

  /** The two candidates determine the answer: at the end of the scan `maxDate`
      is the maximum value seen and `secondMaxDate` the second-largest distinct one. */
  lemma TopTwoDetermines(seen: seq<int>, maxDate: Option<int>, secondMaxDate: Option<int>)
    requires TopTwo(seen, maxDate, secondMaxDate)
    ensures maxDate == if seen == [] then None else Some(MaxOf(seen))
    ensures secondMaxDate == SecondDistinctMax(seen)
  {
    if seen != [] {
      var top := MaxOf(seen);
      assert maxDate.value == top;
      var below := StrictlyBelow(seen, top);
      var r := SecondDistinctMax(seen);
      if secondMaxDate.Some? {
        var s := secondMaxDate.value;
        assert s in below;
        assert IsMaximum(below, s);
        assert r.Some? by {
          assert s in seen && top in seen && s != top;
        }
        assert IsMaximum(below, r.value);
      } else {
        assert r.None?;
      }
    }
  }

  /** A value above the current maximum (or the first value) becomes the new
      maximum and the old maximum becomes the runner-up. */
  lemma ObserveNewMaximum(seen: seq<int>, maxDate: Option<int>, secondMaxDate: Option<int>, value: int)
    requires TopTwo(seen, maxDate, secondMaxDate)
    requires maxDate.None? || value > maxDate.value
    ensures TopTwo(seen + [value], Some(value), maxDate)
  {
  }

  /** A value strictly between the runner-up and the maximum becomes the runner-up. */
  lemma ObserveNewRunnerUp(seen: seq<int>, maxDate: Option<int>, secondMaxDate: Option<int>, value: int)
    requires TopTwo(seen, maxDate, secondMaxDate)
    requires maxDate.Some? && value < maxDate.value
    requires secondMaxDate.None? || value > secondMaxDate.value
    ensures TopTwo(seen + [value], maxDate, Some(value))
  {
  }

  /** Any other value (a copy of the maximum, or one not above the runner-up)
      changes neither candidate. */
  lemma ObserveNoChange(seen: seq<int>, maxDate: Option<int>, secondMaxDate: Option<int>, value: int)
    requires TopTwo(seen, maxDate, secondMaxDate)
    requires maxDate.Some? && value <= maxDate.value
    requires value == maxDate.value || (secondMaxDate.Some? && value <= secondMaxDate.value)
    ensures TopTwo(seen + [value], maxDate, secondMaxDate)
  {
  }

  lemma AllReadableInsert(before: seq<Chunk>, after: seq<Chunk>, c: Chunk)
    requires c.Batch?
    ensures AllReadable(before + [c] + after) <==> AllReadable(before + after)
  {
    var with := before + [c] + after;
    if AllReadable(before + after) {
      forall k | 0 <= k < |with| ensures with[k].Batch? {
        if k < |before| { assert with[k] == (before + after)[k]; }
        else if k > |before| { assert with[k] == (before + after)[k - 1]; }
      }
    }
    if AllReadable(with) {
      forall k | 0 <= k < |before + after| ensures (before + after)[k].Batch? {
        if k < |before| { assert with[k] == (before + after)[k]; }
        else { assert with[k + 1] == (before + after)[k]; }
      }
    }
  }

  /** Inserting a batch whose non-null values all occur elsewhere (a batch of
      nulls, another copy of the maximum, ...) does not change the answer. */
  lemma RedundantBatchIrrelevant(before: seq<Chunk>, after: seq<Chunk>, extra: seq<Option<int>>)
    requires forall o :: o in extra && o.Some? ==> o in Flat(before + after)
    ensures PenultimateSpec(Stored(before + [Batch(extra)] + after)) == PenultimateSpec(Stored(before + after))
  {
    var with := before + [Batch(extra)] + after;
    assert Flat(with) == Flat(before) + extra + Flat(after) by {
      FlatAppend(before + [Batch(extra)], after);
      FlatAppend(before, [Batch(extra)]);
      assert Flat([Batch(extra)]) == extra by {
        assert [Batch(extra)][1..] == [];
      }
    }
    FlatAppend(before, after);
    NonNullMembers(Flat(with));
    NonNullMembers(Flat(before + after));
    forall v ensures v in NonNull(Flat(with)) <==> v in NonNull(Flat(before + after)) {
      assert Some(v) in Flat(with) <==> Some(v) in Flat(before) || Some(v) in extra || Some(v) in Flat(after);
    }
    SameValuesSameAnswer(NonNull(Flat(with)), NonNull(Flat(before + after)));
    AllReadableInsert(before, after, Batch(extra));
  }

  /** Reordering the values or cutting them into batches differently does not
      change the answer. */
  lemma ReorderIrrelevant(a: seq<Chunk>, b: seq<Chunk>)
    requires AllReadable(a) && AllReadable(b)
    requires multiset(Flat(a)) == multiset(Flat(b))
    ensures PenultimateSpec(Stored(a)) == PenultimateSpec(Stored(b))
  {
    NonNullMembers(Flat(a));
    NonNullMembers(Flat(b));
    forall v ensures v in NonNull(Flat(a)) <==> v in NonNull(Flat(b)) {
      assert Some(v) in Flat(a) <==> Some(v) in multiset(Flat(a));
      assert Some(v) in Flat(b) <==> Some(v) in multiset(Flat(b));
    }
    SameValuesSameAnswer(NonNull(Flat(a)), NonNull(Flat(b)));
  }

  // ---------------------------------------------------------------------
  // The scan

  /** The non-null values of one more entry of a batch. */
  lemma NonNullStep(values: seq<Option<int>>, j: nat)
    requires j < |values|
    ensures NonNull(values[..j + 1]) == NonNull(values[..j]) + if values[j].Some? then [values[j].value] else []
  {
    assert values[..j + 1] == values[..j] + [values[j]];
    NonNullAppend(values[..j], [values[j]]);
    assert [values[j]][1..] == [];
  }

  /** One non-null value against the two candidates, branch for branch as the
      scan compares it. */
  method Observe(value: int, maxDate0: Option<int>, secondMaxDate0: Option<int>, ghost seen: seq<int>)
    returns (maxDate: Option<int>, secondMaxDate: Option<int>)
    requires TopTwo(seen, maxDate0, secondMaxDate0)
    ensures TopTwo(seen + [value], maxDate, secondMaxDate)
  {
    maxDate, secondMaxDate := maxDate0, secondMaxDate0;
    if maxDate.None? || value > maxDate.value {
      ObserveNewMaximum(seen, maxDate, secondMaxDate, value);
      if maxDate != Some(value) {
        secondMaxDate := maxDate;
      }
      maxDate := Some(value);
    } else if Some(value) != maxDate && (secondMaxDate.None? || value > secondMaxDate.value) {
      ObserveNewRunnerUp(seen, maxDate, secondMaxDate, value);
      secondMaxDate := Some(value);
    } else {
      ObserveNoChange(seen, maxDate, secondMaxDate, value);
    }
  }

  /**
   * The inner loop of penultimate_date over the values of one batch: nulls are
   * skipped, every other value updates the two candidates.
   */
  method ObserveBatch(values: seq<Option<int>>, maxDate0: Option<int>, secondMaxDate0: Option<int>, ghost seen0: seq<int>)
    returns (maxDate: Option<int>, secondMaxDate: Option<int>)
    requires TopTwo(seen0, maxDate0, secondMaxDate0)
    ensures TopTwo(seen0 + NonNull(values), maxDate, secondMaxDate)
  {
    maxDate, secondMaxDate := maxDate0, secondMaxDate0;
    var j := 0;
    assert NonNull(values[..j]) == [];
    while j < |values|
      invariant 0 <= j <= |values|
      invariant TopTwo(seen0 + NonNull(values[..j]), maxDate, secondMaxDate)
    {
      ghost var seen := seen0 + NonNull(values[..j]);
      NonNullStep(values, j);
      if values[j].Some? {
        maxDate, secondMaxDate := Observe(values[j].value, maxDate, secondMaxDate, seen);
        assert seen0 + NonNull(values[..j + 1]) == seen + [values[j].value];
      } else {
        assert seen0 + NonNull(values[..j + 1]) == seen;
      }
      j := j + 1;
    }
    assert values[..j] == values;
  }

  /** The values read after one more chunk: those before it, then its own. */
  lemma ReadOneMore(chunks: seq<Chunk>, i: nat)
    requires i < |chunks| && chunks[i].Batch?
    ensures NonNull(Flat(chunks[..i + 1])) == NonNull(Flat(chunks[..i])) + NonNull(chunks[i].values)
  {
    var values := chunks[i].values;
    assert Flat(chunks[..i + 1]) == Flat(chunks[..i]) + values by {
      FlatAppend(chunks[..i], [chunks[i]]);
      assert chunks[..i + 1] == chunks[..i] + [chunks[i]];
      assert [chunks[i]][1..] == [];
      assert Flat([chunks[i]]) == values + Flat([]);
      assert values + [] == values;
    }
    NonNullAppend(Flat(chunks[..i]), values);
  }

  /** The scan meets an unreadable chunk after `i` readable ones: the answer is absent. */
  lemma ScanStops(chunks: seq<Chunk>, i: nat)
    requires i < |chunks| && chunks[i].Unreadable?
    requires forall k :: 0 <= k < i ==> chunks[k].Batch?
    ensures FirstUnreadable(chunks) == i && PenultimateSpec(Stored(chunks)).None?
  {
  }

  /** The scan read every chunk: its runner-up is the answer. */
  lemma ScanCompletes(chunks: seq<Chunk>, maxDate: Option<int>, secondMaxDate: Option<int>)
    requires forall k :: 0 <= k < |chunks| ==> chunks[k].Batch?
    requires TopTwo(NonNull(Flat(chunks)), maxDate, secondMaxDate)
    ensures FirstUnreadable(chunks) == |chunks| && secondMaxDate == PenultimateSpec(Stored(chunks))
  {
    TopTwoDetermines(NonNull(Flat(chunks)), maxDate, secondMaxDate);
  }

  /**
   * penultimate_date: the second-largest distinct non-null value of the column.
   * `batchesRead` counts the batches pulled from the reader: none for a missing
   * file, up to and including the one that raised otherwise.
   */
  method PenultimateDate(file: ColumnFile) returns (r: Option<int>, batchesRead: nat)
    ensures r == PenultimateSpec(file)
    ensures file.Missing? ==> batchesRead == 0
    ensures file.Stored? ==>
              batchesRead == var k := FirstUnreadable(file.chunks);
                             if k < |file.chunks| then k + 1 else k
  {
    if file.Missing? {
      return None, 0;
    }
    var chunks := file.chunks;
    var maxDate: Option<int> := None;
    var secondMaxDate: Option<int> := None;
    var i := 0;
    while i < |chunks|
      invariant 0 <= i <= |chunks|
      invariant forall k :: 0 <= k < i ==> chunks[k].Batch?
      invariant TopTwo(NonNull(Flat(chunks[..i])), maxDate, secondMaxDate)
    {
      if chunks[i].Unreadable? {
        ScanStops(chunks, i);
        return None, i + 1;
      }
      var values := chunks[i].values;
      maxDate, secondMaxDate := ObserveBatch(values, maxDate, secondMaxDate, NonNull(Flat(chunks[..i])));
      ReadOneMore(chunks, i);
      i := i + 1;
    }
    assert chunks[..i] == chunks;
    ScanCompletes(chunks, maxDate, secondMaxDate);
    r, batchesRead := secondMaxDate, |chunks|;
  }

  // ---------------------------------------------------------------------
  // The scan as written

  /** The scan as written: null values are dropped through the Parquet
      module, which has no such function, so reading any batch through that
      call raises.  The file the scan sees is the stored one with every
      batch replaced by a read that raises. */
  function PenultimateAsWritten(file: ColumnFile): Option<int> {
    match file
    case Missing => None
    case Stored(chunks) => PenultimateSpec(Stored(seq(|chunks|, _ => Unreadable)))
  }

  /** As written, the scan never answers: a missing file and a file with no
      batch give nothing, and any batch raises and the handler gives nothing. */
  lemma AsWrittenNeverAnswers(file: ColumnFile)
    ensures PenultimateAsWritten(file).None?
  {
    if file.Stored? && file.chunks != [] {
      var raising: seq<Chunk> := seq(|file.chunks|, _ => Unreadable);
      ScanStops(raising, 0);
    }
  }

  /** A file whose one batch holds the dates 1 and 2: as written the scan
      answers `None`; dropping the nulls with the compute module gives 1. */
  lemma DropNullTypoHidesAnswer()
    ensures PenultimateAsWritten(Stored([Batch([Some(1), Some(2)])])) == None
    ensures PenultimateSpec(Stored([Batch([Some(1), Some(2)])])) == Some(1)
  {
    AsWrittenNeverAnswers(Stored([Batch([Some(1), Some(2)])]));
    var chunks := [Batch([Some(1), Some(2)])];
    assert [Some(1), Some(2)][1..] == [Some(2)] && [Some(2)][1..] == [];
    assert chunks[1..] == [];
    assert Flat(chunks) == [Some(1), Some(2)];
    assert NonNull([Some(1), Some(2)]) == [1, 2];
    var vals := [1, 2];
    assert vals[1..] == [2];
    assert MaxOf(vals) == 2;
    assert StrictlyBelow(vals, 2) == [1];
  }
}
