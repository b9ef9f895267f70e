/**
  The mock batch selector: which `mock_id`s of the destination table are newer
  than the last analysis recorded in the reference table, in first-created order,
  and the text of the file that lists them.

  The two SQL queries are modelled as one pure function over the destination rows.
  SQL leaves the order of groups with equal minima unspecified, so the result is
  specified by `SelectionSpec` (distinct, complete, ordered by group minimum) rather
  than as one fixed sequence.
 */
module Selector {
  import opened Wrappers
  import Decimal

  /** One destination row, reduced to the two columns the selector reads. */
  datatype Row = Row(mockId: int, mockCreatedAt: int)

  /** The reference table: missing, present but empty (`MAX` is NULL), or present with a maximum. */
  datatype Reference = Absent | PresentNull | Present(maxAnalyzedAt: int)

  /** What one run of the selector reports. */
  datatype Outcome = NoReferenceData | NoNewMocks | Ids(ids: seq<int>)

  /** One row of the `GROUP BY mock_id` subquery. */
  datatype Group = Group(mockId: int, firstCreatedAt: int)

  /* ---------------- The specification ---------------- */

  /** The `WHERE mock_created_at > %s` filter; without a reference table every row counts. */
  predicate Qualifies(r: Row, ref: Reference) {
    match ref
    case Present(t) => r.mockCreatedAt > t
    case _ => true
  }

  predicate Distinct(xs: seq<int>) {
    forall i, j :: 0 <= i < j < |xs| ==> xs[i] != xs[j]
  }

  /** Some qualifying row carries `id`. */
  ghost predicate Selected(rows: seq<Row>, ref: Reference, id: int) {
    exists r :: r in rows && Qualifies(r, ref) && r.mockId == id
  }

  /** `m` is the earliest `mock_created_at` among the qualifying rows of batch `id`. */
  ghost predicate IsFirstCreated(rows: seq<Row>, ref: Reference, id: int, m: int) {
    && (exists r :: r in rows && Qualifies(r, ref) && r.mockId == id && r.mockCreatedAt == m)
    && (forall r :: r in rows && Qualifies(r, ref) && r.mockId == id ==> m <= r.mockCreatedAt)
  }

  ghost predicate HasFirstCreated(rows: seq<Row>, ref: Reference, id: int) {
    exists m :: IsFirstCreated(rows, ref, id, m)
  }

  /**
    `ids` is a valid answer of the grouped query: each selected batch exactly once,
    nothing else, ordered non-decreasingly by the batch's earliest qualifying row.
   */
  ghost predicate SelectionSpec(rows: seq<Row>, ref: Reference, ids: seq<int>) {
    && Distinct(ids)
    && (forall x :: x in ids <==> Selected(rows, ref, x))
    && (forall i :: 0 <= i < |ids| ==> HasFirstCreated(rows, ref, ids[i]))
    && (forall i, j, mi, mj ::
          (0 <= i < j < |ids| && IsFirstCreated(rows, ref, ids[i], mi)
           && IsFirstCreated(rows, ref, ids[j], mj)) ==> mi <= mj)
  }

  /* ---------------- Filter ---------------- */

  function Qualifying(rows: seq<Row>, ref: Reference): (q: seq<Row>)
    ensures forall r :: r in q <==> r in rows && Qualifies(r, ref)
  {
    if |rows| == 0 then []
    else (if Qualifies(rows[0], ref) then [rows[0]] else []) + Qualifying(rows[1..], ref)
  }

  /* ---------------- GROUP BY mock_id, MIN(mock_created_at) ---------------- */

  /** Some row of `rows` belongs to batch `id`. */
  predicate HasRow(rows: seq<Row>, id: int) {
    exists r :: r in rows && r.mockId == id
  }

  /** The distinct `mock_id`s of `rows`. */
  function DistinctIds(rows: seq<Row>): (ids: seq<int>)
    ensures Distinct(ids)
    ensures forall x :: x in ids <==> HasRow(rows, x)
  {
    if |rows| == 0 then []
    else
      var rest := DistinctIds(rows[1..]);
      if rows[0].mockId in rest then rest else [rows[0].mockId] + rest
  }

  /** `MIN(mock_created_at)` over the rows of batch `id`. */
  function FirstCreated(rows: seq<Row>, id: int): (m: int)
    requires HasRow(rows, id)
    ensures exists r :: r in rows && r.mockId == id && r.mockCreatedAt == m
    ensures forall r :: r in rows && r.mockId == id ==> m <= r.mockCreatedAt
  {
    var r0 := rows[0];
    if r0.mockId != id then
      FirstCreated(rows[1..], id)
    else if HasRow(rows[1..], id) then
      var m := FirstCreated(rows[1..], id);
      if r0.mockCreatedAt <= m then r0.mockCreatedAt else m
    else
      r0.mockCreatedAt
  }

  /** `m` is the minimum `mock_created_at` of the rows of batch `id`. */
  ghost predicate IsMin(rows: seq<Row>, id: int, m: int) {
    && (exists r :: r in rows && r.mockId == id && r.mockCreatedAt == m)
    && (forall r :: r in rows && r.mockId == id ==> m <= r.mockCreatedAt)
  }

  function Keys(gs: seq<Group>): (ks: seq<int>)
    ensures |ks| == |gs|
    ensures forall i :: 0 <= i < |gs| ==> ks[i] == gs[i].mockId
  {
    seq(|gs|, i requires 0 <= i < |gs| => gs[i].mockId)
  }

  /** One group per id of `ids`, carrying the id's earliest row. */
  function MakeGroups(rows: seq<Row>, ids: seq<int>): (gs: seq<Group>)
    requires forall i :: 0 <= i < |ids| ==> HasRow(rows, ids[i])
    ensures Keys(gs) == ids
    ensures forall g :: g in gs ==> IsMin(rows, g.mockId, g.firstCreatedAt)
  {
    if |ids| == 0 then []
    else
      var gs := [Group(ids[0], FirstCreated(rows, ids[0]))] + MakeGroups(rows, ids[1..]);
      KeysTail(gs);
      assert gs[1..] == MakeGroups(rows, ids[1..]);
      assert ids == [ids[0]] + ids[1..];
      gs
  }

  /** The grouped subquery: one group per distinct id, carrying the id's earliest row. */
  function GroupBy(rows: seq<Row>): (gs: seq<Group>)
    ensures Distinct(Keys(gs))
    ensures forall x :: x in Keys(gs) <==> HasRow(rows, x)
    ensures forall g :: g in gs ==> IsMin(rows, g.mockId, g.firstCreatedAt)
  {
    var ids := DistinctIds(rows);
    assert forall i :: 0 <= i < |ids| ==> ids[i] in ids;
    MakeGroups(rows, ids)
  }

  /* ---------------- ORDER BY first_created_at ---------------- */

  predicate SortedByFirst(gs: seq<Group>) {
    forall i, j :: 0 <= i < j < |gs| ==> gs[i].firstCreatedAt <= gs[j].firstCreatedAt
  }

  function InsertByFirst(g: Group, s: seq<Group>): (r: seq<Group>)
    requires SortedByFirst(s)
    ensures SortedByFirst(r)
    ensures multiset(r) == multiset(s) + multiset{g}
  {
    if |s| == 0 || g.firstCreatedAt <= s[0].firstCreatedAt then
      [g] + s
    else
      var rest := InsertByFirst(g, s[1..]);
      InsertStep(g, s, rest);
      [s[0]] + rest
  }

  lemma InsertStep(g: Group, s: seq<Group>, rest: seq<Group>)
    requires SortedByFirst(s) && |s| > 0 && s[0].firstCreatedAt < g.firstCreatedAt
    requires SortedByFirst(rest) && multiset(rest) == multiset(s[1..]) + multiset{g}
    ensures SortedByFirst([s[0]] + rest)
    ensures multiset([s[0]] + rest) == multiset(s) + multiset{g}
  {
    assert s == [s[0]] + s[1..];
    forall j | 0 <= j < |rest|
      ensures s[0].firstCreatedAt <= rest[j].firstCreatedAt
    {
      assert rest[j] in multiset(rest);
      if rest[j] != g {
        assert rest[j] in s[1..];
      }
    }
  }

  /** Insertion sort by first-created timestamp: a sorted permutation. */
  function SortByFirst(gs: seq<Group>): (s: seq<Group>)
    ensures SortedByFirst(s)
    ensures multiset(s) == multiset(gs)
  {
    if |gs| == 0 then []
    else
      assert gs == [gs[0]] + gs[1..];
      InsertByFirst(gs[0], SortByFirst(gs[1..]))
  }

  /* ---------------- Keys stay distinct through the sort ---------------- */

  lemma KeysMembership(gs: seq<Group>, x: int)
    ensures x in Keys(gs) <==> exists g :: g in gs && g.mockId == x
  {
    if x in Keys(gs) {
      var i :| 0 <= i < |gs| && Keys(gs)[i] == x;
      assert gs[i] in gs;
    }
    if exists g :: g in gs && g.mockId == x {
      var g :| g in gs && g.mockId == x;
      var i :| 0 <= i < |gs| && gs[i] == g;
      assert Keys(gs)[i] == x;
    }
  }

  lemma KeysTail(s: seq<Group>)
    requires |s| > 0
    ensures Keys(s) == [s[0].mockId] + Keys(s[1..])
  {
  }

  /** With distinct keys, no later group shares the first group's key. */
  lemma HeadKeyUnique(s: seq<Group>, x: Group)
    requires |s| > 0 && Distinct(Keys(s)) && x in s[1..]
    ensures x.mockId != s[0].mockId
  {
    var ks := Keys(s);
    var t := s[1..];
    var k :| 0 <= k < |t| && t[k] == x;
    assert s[k + 1] == x;
    assert ks[k + 1] == x.mockId && ks[0] == s[0].mockId;
  }

  lemma DistinctCons(x: int, xs: seq<int>)
    requires Distinct(xs) && x !in xs
    ensures Distinct([x] + xs)
  {
  }

  /** The first group's key is not among the other groups, with `g` inserted. */
  lemma HeadKeyAbsent(g: Group, s: seq<Group>, rest: seq<Group>)
    requires |s| > 0 && Distinct(Keys(s)) && g.mockId != s[0].mockId
    requires multiset(rest) == multiset(s[1..]) + multiset{g}
    ensures s[0].mockId !in Keys(rest)
  {
    forall x | x in rest
      ensures x.mockId != s[0].mockId
    {
      assert x in multiset(rest);
      if x != g {
        HeadKeyUnique(s, x);
      }
    }
    KeysMembership(rest, s[0].mockId);
  }

  lemma {:induction false} InsertKeepsKeysDistinct(g: Group, s: seq<Group>)
    requires SortedByFirst(s) && Distinct(Keys(s)) && g.mockId !in Keys(s)
    ensures Distinct(Keys(InsertByFirst(g, s)))
    decreases |s|
  {
    if |s| == 0 || g.firstCreatedAt <= s[0].firstCreatedAt {
      KeysTail([g] + s);
      assert ([g] + s)[1..] == s;
      DistinctCons(g.mockId, Keys(s));
    } else {
      var rest := InsertByFirst(g, s[1..]);
      KeysTail(s);
      InsertKeepsKeysDistinct(g, s[1..]);
      HeadKeyAbsent(g, s, rest);
      KeysTail([s[0]] + rest);
      assert ([s[0]] + rest)[1..] == rest;
      DistinctCons(s[0].mockId, Keys(rest));
    }
  }

  lemma {:induction false} SortKeepsKeysDistinct(gs: seq<Group>)
    requires Distinct(Keys(gs))
    ensures Distinct(Keys(SortByFirst(gs)))
    decreases |gs|
  {
    if |gs| > 0 {
      var tail := SortByFirst(gs[1..]);
      KeysTail(gs);
      SortKeepsKeysDistinct(gs[1..]);
      forall x | x in tail
        ensures x.mockId != gs[0].mockId
      {
        assert x in multiset(gs[1..]);
        HeadKeyUnique(gs, x);
      }
      KeysMembership(tail, gs[0].mockId);
      InsertKeepsKeysDistinct(gs[0], tail);
    }
  }

  /* ---------------- The selector ---------------- */

  /** The minimum over the filtered rows is the minimum over the qualifying rows. */
  lemma QualifyingMin(rows: seq<Row>, ref: Reference, id: int, m: int)
    ensures IsMin(Qualifying(rows, ref), id, m) <==> IsFirstCreated(rows, ref, id, m)
  {
    var q := Qualifying(rows, ref);
    if IsMin(q, id, m) {
      var r :| r in q && r.mockId == id && r.mockCreatedAt == m;
      assert r in rows && Qualifies(r, ref);
    }
    if IsFirstCreated(rows, ref, id, m) {
      var r :| r in rows && Qualifies(r, ref) && r.mockId == id && r.mockCreatedAt == m;
      assert r in q;
    }
  }

  /**
    The time filter applies to rows before grouping: answering with a reference time
    `t` is answering without a reference over only the rows later than `t`.
   */
  lemma WhereBeforeGroupBy(rows: seq<Row>, t: int, ids: seq<int>)
    ensures SelectionSpec(rows, Present(t), ids) <==> SelectionSpec(Qualifying(rows, Present(t)), Absent, ids)
  {
    var ref := Present(t);
    var q := Qualifying(rows, ref);
    forall x
      ensures Selected(rows, ref, x) <==> Selected(q, Absent, x)
    {
      if Selected(rows, ref, x) {
        var r :| r in rows && Qualifies(r, ref) && r.mockId == x;
        assert r in q;
      }
      if Selected(q, Absent, x) {
        var r :| r in q && r.mockId == x;
        assert r in rows && Qualifies(r, ref);
      }
    }
    forall id, m
      ensures IsFirstCreated(rows, ref, id, m) <==> IsFirstCreated(q, Absent, id, m)
    {
      QualifyingMin(rows, ref, id, m);
    }
    forall id
      ensures HasFirstCreated(rows, ref, id) <==> HasFirstCreated(q, Absent, id)
    {
      if HasFirstCreated(rows, ref, id) {
        var m :| IsFirstCreated(rows, ref, id, m);
        assert IsFirstCreated(q, Absent, id, m);
      }
      if HasFirstCreated(q, Absent, id) {
        var m :| IsFirstCreated(q, Absent, id, m);
        assert IsFirstCreated(rows, ref, id, m);
      }
    }
  }

  /** The sorted groups of the qualifying rows. */
  function SortedGroups(rows: seq<Row>, ref: Reference): (s: seq<Group>)
    ensures SortedByFirst(s)
    ensures Distinct(Keys(s))
    ensures forall g :: g in s ==> IsFirstCreated(rows, ref, g.mockId, g.firstCreatedAt)
    ensures forall x :: x in Keys(s) <==> Selected(rows, ref, x)
  {
    var q := Qualifying(rows, ref);
    var gs := GroupBy(q);
    SortKeepsKeysDistinct(gs);
    SortedGroupsFacts(rows, ref, gs, SortByFirst(gs));
    SortByFirst(gs)
  }

  lemma SortedGroupsFacts(rows: seq<Row>, ref: Reference, gs: seq<Group>, s: seq<Group>)
    requires gs == GroupBy(Qualifying(rows, ref)) && multiset(s) == multiset(gs)
    ensures forall g :: g in s ==> IsFirstCreated(rows, ref, g.mockId, g.firstCreatedAt)
    ensures forall x :: x in Keys(s) <==> Selected(rows, ref, x)
  {
    var q := Qualifying(rows, ref);
    forall g | g in s
      ensures IsFirstCreated(rows, ref, g.mockId, g.firstCreatedAt)
    {
      assert g in multiset(gs);
      QualifyingMin(rows, ref, g.mockId, g.firstCreatedAt);
    }
    forall x
      ensures x in Keys(s) <==> Selected(rows, ref, x)
    {
      KeysMembership(s, x);
      KeysMembership(gs, x);
      if x in Keys(s) {
        var g :| g in s && g.mockId == x;
        assert g in multiset(gs);
      }
      if x in Keys(gs) {
        var g :| g in gs && g.mockId == x;
        assert g in multiset(s);
      }
      if Selected(rows, ref, x) {
        var r :| r in rows && Qualifies(r, ref) && r.mockId == x;
        assert r in q;
      }
    }
  }

  /** The ids of sorted, distinct groups of the qualifying rows meet the specification. */
  lemma KeysMeetSpec(rows: seq<Row>, ref: Reference, s: seq<Group>)
    requires SortedByFirst(s) && Distinct(Keys(s))
    requires forall g :: g in s ==> IsFirstCreated(rows, ref, g.mockId, g.firstCreatedAt)
    requires forall x :: x in Keys(s) <==> Selected(rows, ref, x)
    ensures SelectionSpec(rows, ref, Keys(s))
  {
    var ids := Keys(s);
    forall i | 0 <= i < |ids|
      ensures HasFirstCreated(rows, ref, ids[i])
    {
      assert s[i] in s;
      assert IsFirstCreated(rows, ref, ids[i], s[i].firstCreatedAt);
    }
    forall i, j, mi, mj |
      0 <= i < j < |ids| && IsFirstCreated(rows, ref, ids[i], mi)
      && IsFirstCreated(rows, ref, ids[j], mj)
      ensures mi <= mj
    {
      assert s[i] in s && s[j] in s;
      FirstCreatedUnique(rows, ref, ids[i], mi, s[i].firstCreatedAt);
      FirstCreatedUnique(rows, ref, ids[j], mj, s[j].firstCreatedAt);
    }
  }

  /** A batch has one earliest qualifying timestamp. */
  lemma FirstCreatedUnique(rows: seq<Row>, ref: Reference, id: int, a: int, b: int)
    requires IsFirstCreated(rows, ref, id, a) && IsFirstCreated(rows, ref, id, b)
    ensures a == b
  {
    var ra :| ra in rows && Qualifies(ra, ref) && ra.mockId == id && ra.mockCreatedAt == a;
    var rb :| rb in rows && Qualifies(rb, ref) && rb.mockId == id && rb.mockCreatedAt == b;
  }

  /** The `mock_id` column of the grouped, ordered query. */
  function OrderedIds(rows: seq<Row>, ref: Reference): (ids: seq<int>)
    ensures SelectionSpec(rows, ref, ids)
  {
    var s := SortedGroups(rows, ref);
    KeysMeetSpec(rows, ref, s);
    Keys(s)
  }

  /**
    `check_new_mocks` after the database reads: no file when the reference table is
    empty, no file when nothing qualifies, otherwise the ids in first-created order.
   */
  function SelectMockIds(rows: seq<Row>, ref: Reference): (o: Outcome)
    ensures o.NoReferenceData? <==> ref.PresentNull?
    ensures o.NoNewMocks? <==> !ref.PresentNull? && forall r :: r in rows ==> !Qualifies(r, ref)
    ensures o.Ids? ==> |o.ids| > 0 && SelectionSpec(rows, ref, o.ids)
  {
    if ref.PresentNull? then NoReferenceData
    else
      var ids := OrderedIds(rows, ref);
      if |ids| == 0 then NoNewMocks else Ids(ids)
  }

  /* ---------------- The output file ---------------- */

  /** The temporary file's content: each id followed by a newline, in result order. */
  function FileContent(ids: seq<int>): (s: string)
    ensures |ids| == 0 <==> |s| == 0
    ensures |s| > 0 ==> s[|s| - 1] == '\n'
  {
    if |ids| == 0 then "" else Decimal.Show(ids[0]) + "\n" + FileContent(ids[1..])
  }

  /** Splits off the first line: the text before the first newline and the text after it. */
  function SplitLine(s: string): (r: Option<(string, string)>)
    ensures r.Some? ==> |r.value.1| < |s|
  {
    if |s| == 0 then None
    else if s[0] == '\n' then Some(("", s[1..]))
    else
      match SplitLine(s[1..])
      case None => None
      case Some((line, rest)) => Some(([s[0]] + line, rest))
  }

  /** Reads a file of newline-terminated integers back into the id sequence. */
  function ReadIds(s: string): Option<seq<int>>
    decreases |s|
  {
    if |s| == 0 then Some([])
    else
      match SplitLine(s)
      case None => None
      case Some((line, rest)) =>
        match Decimal.Parse(line)
        case None => None
        case Some(id) =>
          match ReadIds(rest)
          case None => None
          case Some(ids) => Some([id] + ids)
  }

  lemma {:induction false} SplitLineAt(a: string, b: string)
    requires '\n' !in a
    ensures SplitLine(a + "\n" + b) == Some((a, b))
    decreases |a|
  {
    if |a| == 0 {
      assert a + "\n" + b == ['\n'] + b;
    } else {
      assert (a + "\n" + b)[1..] == a[1..] + "\n" + b;
      SplitLineAt(a[1..], b);
      assert [a[0]] + a[1..] == a;
    }
  }

  /** The file lists exactly the selected ids, in order. */
  lemma {:induction false} ReadFileContent(ids: seq<int>)
    ensures ReadIds(FileContent(ids)) == Some(ids)
    decreases |ids|
  {
    if |ids| > 0 {
      var line, rest := Decimal.Show(ids[0]), FileContent(ids[1..]);
      var content := FileContent(ids);
      assert content == line + "\n" + rest;
      assert '\n' !in line;
      SplitLineAt(line, rest);
      Decimal.ParseShow(ids[0]);
      ReadFileContent(ids[1..]);
      assert ReadIds(content) == Some([ids[0]] + ids[1..]);
      assert [ids[0]] + ids[1..] == ids;
    }
  }
}
