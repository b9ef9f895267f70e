/**
  Facts that join the two scripts: the generator stamps every row's `mock_id` with
  the whole seconds of its `mock_created_at`, and the selector groups on that id.
 */
module Pipeline {
  import Time
  import Seed
  import Selector

  /** The two columns of a generated row that the selector reads. */
  function AsRow(t: Seed.TableInfo): Selector.Row {
    Selector.Row(t.mockId, t.mockCreatedAt)
  }

  function AsRows(ts: seq<Seed.TableInfo>): (rows: seq<Selector.Row>)
    ensures |rows| == |ts|
    ensures forall i :: 0 <= i < |ts| ==> rows[i] == AsRow(ts[i])
  {
    seq(|ts|, i requires 0 <= i < |ts| => AsRow(ts[i]))
  }

  /**
    Every row's batch id is the whole epoch seconds of its stored stamp, where the stored
    stamp is local wall-clock time running `off` microseconds ahead of the epoch. The
    generator as modelled writes `off == 0`; a zone with a fixed UTC offset has a fixed `off`.
   */
  ghost predicate StampedBySecond(rows: seq<Selector.Row>, off: int) {
    forall r :: r in rows ==> r.mockId == Time.WholeSeconds(r.mockCreatedAt - off)
  }

  /**
    When ids are whole epoch seconds of the stamps shifted by one fixed offset, a valid
    selection is strictly increasing in `mock_id`, and no two selected batches tie on
    their earliest timestamp.
   */
  lemma SecondIdsStrictlyIncrease(rows: seq<Selector.Row>, ref: Selector.Reference, ids: seq<int>, off: int)
    requires StampedBySecond(rows, off)
    requires Selector.SelectionSpec(rows, ref, ids)
    ensures forall i, j :: 0 <= i < j < |ids| ==> ids[i] < ids[j]
    ensures forall i, j, mi, mj ::
      (0 <= i < j < |ids| && Selector.IsFirstCreated(rows, ref, ids[i], mi)
       && Selector.IsFirstCreated(rows, ref, ids[j], mj)) ==> mi < mj
  {
    forall i, j | 0 <= i < j < |ids|
      ensures ids[i] < ids[j]
    {
      assert Selector.HasFirstCreated(rows, ref, ids[i]);
      assert Selector.HasFirstCreated(rows, ref, ids[j]);
      var mi :| Selector.IsFirstCreated(rows, ref, ids[i], mi);
      var mj :| Selector.IsFirstCreated(rows, ref, ids[j], mj);
      StampOrder(rows, ref, ids[i], mi, ids[j], mj, off);
    }
    forall i, j, mi, mj |
      0 <= i < j < |ids| && Selector.IsFirstCreated(rows, ref, ids[i], mi)
      && Selector.IsFirstCreated(rows, ref, ids[j], mj)
      ensures mi < mj
    {
      StampOrder(rows, ref, ids[i], mi, ids[j], mj, off);
    }
  }

  /** Batches ordered by earliest stamp are ordered by id, and distinct ids have distinct stamps. */
  lemma StampOrder(rows: seq<Selector.Row>, ref: Selector.Reference, a: int, ma: int, b: int, mb: int,
                   off: int)
    requires StampedBySecond(rows, off)
    requires Selector.IsFirstCreated(rows, ref, a, ma) && Selector.IsFirstCreated(rows, ref, b, mb)
    requires ma <= mb && a != b
    ensures a < b && ma < mb
  {
    var ra :| ra in rows && Selector.Qualifies(ra, ref) && ra.mockId == a && ra.mockCreatedAt == ma;
    var rb :| rb in rows && Selector.Qualifies(rb, ref) && rb.mockId == b && rb.mockCreatedAt == mb;
    Time.WholeSecondsMonotone(ma - off, mb - off);
  }

  /**
    The selector's answer is strictly increasing in `mock_id` for generated rows, provided
    every row's stored stamp runs the same `off` ahead of the epoch: `off == 0` for the
    generator as modelled, any fixed value for a zone whose UTC offset did not change
    between runs. Across a daylight-saving change the offset differs and this can fail.
   */
  lemma SelectedGeneratedIdsIncrease(ts: seq<Seed.TableInfo>, ref: Selector.Reference, off: int)
    requires forall i :: 0 <= i < |ts| ==> ts[i].mockId == Time.WholeSeconds(ts[i].mockCreatedAt - off)
    ensures var o := Selector.SelectMockIds(AsRows(ts), ref);
      o.Ids? ==> forall i, j :: 0 <= i < j < |o.ids| ==> o.ids[i] < o.ids[j]
  {
    var rows := AsRows(ts);
    forall r | r in rows
      ensures r.mockId == Time.WholeSeconds(r.mockCreatedAt - off)
    {
      var k :| 0 <= k < |rows| && rows[k] == r;
    }
    var o := Selector.SelectMockIds(rows, ref);
    if o.Ids? {
      SecondIdsStrictlyIncrease(rows, ref, o.ids, off);
    }
  }

  /** A sequence without repeats has as many elements as its set of elements. */
  lemma {:induction false} DistinctCard(ids: seq<int>)
    requires Selector.Distinct(ids)
    ensures |set y | y in ids| == |ids|
    decreases |ids|
  {
    if |ids| > 0 {
      var tail := ids[1..];
      DistinctCard(tail);
      assert ids[0] !in tail by {
        forall k | 0 <= k < |tail|
          ensures tail[k] != ids[0]
        {
          assert tail[k] == ids[k + 1];
        }
      }
      assert (set y | y in ids) == {ids[0]} + (set y | y in tail) by {
        assert ids == [ids[0]] + tail;
      }
    }
  }

  /** A distinct sequence whose elements are all `x`, and which holds `x`, is `[x]`. */
  lemma SingletonIds(ids: seq<int>, x: int)
    requires Selector.Distinct(ids)
    requires forall y :: y in ids <==> y == x
    ensures ids == [x]
  {
    DistinctCard(ids);
    assert (set y | y in ids) == {x};
    assert ids[0] in ids;
  }

  /** The rows of one run all read back as the same (id, stamp) pair. */
  lemma SharedBatchRows(ts: seq<Seed.TableInfo>)
    requires |ts| > 0 && Seed.SharedBatch(ts)
    ensures forall r :: r in AsRows(ts) ==> r == AsRow(ts[0])
  {
    var rows := AsRows(ts);
    forall r | r in rows
      ensures r == AsRow(ts[0])
    {
      var k :| 0 <= k < |rows| && rows[k] == r;
    }
  }

  /** When every row belongs to batch `x` and one of them qualifies, the answer is `[x]`. */
  lemma OnlyBatchSelected(rows: seq<Selector.Row>, ref: Selector.Reference, x: int)
    requires !ref.PresentNull?
    requires forall r :: r in rows ==> r.mockId == x
    requires exists r :: r in rows && Selector.Qualifies(r, ref)
    ensures Selector.SelectMockIds(rows, ref) == Selector.Ids([x])
  {
    var o := Selector.SelectMockIds(rows, ref);
    assert o.Ids?;
    forall y
      ensures y in o.ids <==> y == x
    {
      assert Selector.Selected(rows, ref, y) <==> y == x;
    }
    SingletonIds(o.ids, x);
  }

  /**
    One generator run read back with no reference table: the selector reports that
    run's single `mock_id`, once.
   */
  lemma OneRunSelectsItsId(ts: seq<Seed.TableInfo>)
    requires |ts| > 0 && Seed.SharedBatch(ts)
    ensures Selector.SelectMockIds(AsRows(ts), Selector.Absent) == Selector.Ids([ts[0].mockId])
  {
    SharedBatchRows(ts);
    assert AsRows(ts)[0] in AsRows(ts);
    OnlyBatchSelected(AsRows(ts), Selector.Absent, ts[0].mockId);
  }

  /**
    One generator run against a reference table whose latest analysis is `t`: the run
    is reported exactly when its stamp is later than `t`.
   */
  lemma OneRunAgainstReference(ts: seq<Seed.TableInfo>, t: int)
    requires |ts| > 0 && Seed.SharedBatch(ts)
    ensures var o := Selector.SelectMockIds(AsRows(ts), Selector.Present(t));
      if ts[0].mockCreatedAt > t then o == Selector.Ids([ts[0].mockId]) else o == Selector.NoNewMocks
  {
    SharedBatchRows(ts);
    var rows := AsRows(ts);
    assert rows[0] in rows;
    if ts[0].mockCreatedAt > t {
      OnlyBatchSelected(rows, Selector.Present(t), ts[0].mockId);
    }
  }

  /**
    The time filter applies to rows before grouping: a batch with one row before the
    reference time and one after it is reported, although its earliest row is not
    later than the reference time.
   */
  lemma StraddlingBatchIsSelected()
    ensures Selector.SelectMockIds([Selector.Row(1, 5), Selector.Row(1, 20)], Selector.Present(10))
         == Selector.Ids([1])
  {
    var rows := [Selector.Row(1, 5), Selector.Row(1, 20)];
    assert rows[1] in rows && Selector.Qualifies(rows[1], Selector.Present(10));
    OnlyBatchSelected(rows, Selector.Present(10), 1);
  }

  /** A distinct sequence holding exactly `a` and `b` lists them in one order or the other. */
  lemma PairIds(ids: seq<int>, a: int, b: int)
    requires a != b && Selector.Distinct(ids)
    requires forall y :: y in ids <==> y == a || y == b
    ensures ids == [a, b] || ids == [b, a]
  {
    DistinctCard(ids);
    assert (set y | y in ids) == {a, b};
    assert ids[0] in ids && ids[1] in ids;
  }

  /** Three rows in two batches: batch 1 straddles the reference time 10, batch 2 is after it. */
  const Interleaved: seq<Selector.Row> :=
    [Selector.Row(1, 5), Selector.Row(1, 20), Selector.Row(2, 15)]

  /** Both batches of `Interleaved` have a row after time 10, so both are selected. */
  lemma InterleavedSelected(ids: seq<int>)
    requires Selector.SelectionSpec(Interleaved, Selector.Present(10), ids)
    ensures ids == [1, 2] || ids == [2, 1]
  {
    var ref := Selector.Present(10);
    assert Interleaved[1] in Interleaved && Selector.Qualifies(Interleaved[1], ref);
    assert Interleaved[2] in Interleaved && Selector.Qualifies(Interleaved[2], ref);
    forall y
      ensures y in ids <==> y == 1 || y == 2
    {
      if Selector.Selected(Interleaved, ref, y) {
        var r :| r in Interleaved && Selector.Qualifies(r, ref) && r.mockId == y;
      }
    }
    PairIds(ids, 1, 2);
  }

  /**
    Rows at or before the reference time do not count toward a batch's minimum: batch 1
    is ordered by its row at 20, not its row at 5, so it follows batch 2 (first row at 15).
   */
  lemma EarlyRowsDoNotOrderBatches(ids: seq<int>)
    requires Selector.SelectionSpec(Interleaved, Selector.Present(10), ids)
    ensures ids == [2, 1]
  {
    var ref := Selector.Present(10);
    InterleavedSelected(ids);
    assert Selector.IsFirstCreated(Interleaved, ref, 1, 20);
    assert Selector.IsFirstCreated(Interleaved, ref, 2, 15);
    var m0, m1 := if ids[0] == 1 then 20 else 15, if ids[1] == 1 then 20 else 15;
    assert Selector.IsFirstCreated(Interleaved, ref, ids[0], m0);
    assert Selector.IsFirstCreated(Interleaved, ref, ids[1], m1);
    assert m0 <= m1;
  }
}
