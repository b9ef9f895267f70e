/**
  The mock row generator: one synthetic `svv_table_info` row per source table.

  Every pseudo-random draw of `TableInfo.from_mock_info` is a field of a `Draws`
  record, constrained by `ValidDraws` to the range the generator passes to
  `random`; `random.choice` becomes the index of the chosen list element. The
  CRC-32 checksum and Python's process-salted `hash` are opaque function
  parameters, and the wall clock is an explicit timestamp argument.
 */
module Seed {
  import opened Wrappers
  import Decimal
  import Time

  /* ---------------- Constants of the generator ---------------- */

  const EncodedChoices: seq<Option<string>> := [None, Some("Y"), Some("N")]
  const AutoEncodeChoices: seq<Option<string>> := [None, Some(AutoEncode)]
  /** The automatic-encoding marker and the separator `", ".join` puts between parts. */
  const AutoEncode: string := "AUTO(ENCODE)"
  const Separator: string := ", "
  const DistStyles: seq<string> :=
    ["EVEN", "KEY(column)", "ALL", "AUTO(ALL)", "AUTO(EVEN)", "AUTO(KEY(column))"]
  const SortKeys: seq<Option<string>> :=
    [None, Some("column"), Some("AUTO(SORTKEY)"), Some("AUTO(SORTKEY(column))")]
  const SortKeyEncodings: seq<Option<string>> := [None, Some("none"), Some("az64"), Some("lzo")]

  /** `sys.maxsize` on a 64-bit interpreter; `maxsize + 1` is a power of two. */
  const MaxSize: int := 0x7FFF_FFFF_FFFF_FFFF
  /** One more than the largest unsigned 32-bit value: `& 0xFFFFFFFF` keeps the residue. */
  const TwoTo32: int := 0x1_0000_0000

  /** Bounds of the batch-wide `database_size` draw, `randint(2**12, 2**16)`. */
  const MinDatabaseSize: int := 4096
  const MaxDatabaseSize: int := 65536

  /* ---------------- Data model ---------------- */

  /**
    One `(database, schema, table)` triple naming a source table. A manifest object
    carries the same three strings, so the manifest is a sequence of these too.
   */
  datatype SourceTable = SourceTable(database: string, schema: string, table: string)

  /** `risk_type|<code>|<timestamp>`; the timestamp text is not modelled. */
  datatype RiskEvent = RiskEvent(code: int)

  /** One generated row; the fields follow the 24 destination columns. */
  datatype TableInfo = TableInfo(
    database: string,
    schema: string,
    tableId: int,
    table: string,
    encoded: Option<string>,
    diststyle: string,
    sortkey1: Option<string>,
    maxVarchar: int,
    sortkey1Enc: Option<string>,
    sortkeyNum: int,
    size: int,
    pctUsed: real,
    empty: int,
    unsorted: Option<real>,
    statsOff: real,
    tblRows: int,
    skewSortkey1: Option<real>,
    skewRows: Option<real>,
    estimatedVisibleRows: int,
    riskEvent: Option<RiskEvent>,
    vacuumSortBenefit: real,
    createTime: int,
    mockId: int,
    mockCreatedAt: int)

  /** The pseudo-random draws `from_mock_info` makes for one row. */
  datatype Draws = Draws(
    createDelay: int,          // randint(1, 60) seconds subtracted from now()
    encodedPick: nat,          // choice([None, "Y", "N"])
    autoEncodePick: nat,       // choice([None, "AUTO(ENCODE)"])
    diststylePick: nat,        // choice of the six distribution styles
    sortkeyPick: nat,          // choice of the four sort keys
    maxVarchar: int,           // randint(2**4, 2**8)
    sortkeyEncPick: nat,       // choice of the four sort key encodings
    sortkeyNum: int,           // randint(1, 10), used only when there is a sort key
    size: int,                 // randint(2**0, 2**12)
    unsorted: real,            // uniform(0, 100)
    statsOff: real,            // uniform(0, 100)
    rowMultiplier: int,        // randint(2**9, 2**11)
    skewSortkey1: real,        // uniform(0, 10)
    skewRowsPresent: bool,     // choice([None, ...]) for skew_rows
    skewRows: real,            // uniform(0, 10)
    visibleFraction: real,     // uniform(0.75, 1)
    riskEventPresent: bool,    // choice([None, ...]) for risk_event
    riskCode: int,             // randint(1, 1000)
    vacuumSortBenefit: real)   // uniform(0, 100)

  predicate ValidDraws(d: Draws) {
    && 1 <= d.createDelay <= 60
    && d.encodedPick < |EncodedChoices|
    && d.autoEncodePick < |AutoEncodeChoices|
    && d.diststylePick < |DistStyles|
    && d.sortkeyPick < |SortKeys|
    && 16 <= d.maxVarchar <= 256
    && d.sortkeyEncPick < |SortKeyEncodings|
    && 1 <= d.sortkeyNum <= 10
    && 1 <= d.size <= 4096
    && 0.0 <= d.unsorted <= 100.0
    && 0.0 <= d.statsOff <= 100.0
    && 512 <= d.rowMultiplier <= 2048
    && 0.0 <= d.skewSortkey1 <= 10.0
    && 0.0 <= d.skewRows <= 10.0
    && 0.75 <= d.visibleFraction <= 1.0
    && 1 <= d.riskCode <= 1000
    && 0.0 <= d.vacuumSortBenefit <= 100.0
  }

  /* ---------------- Row invariants ---------------- */

  /** Sort-key-dependent columns are filled exactly when there is a sort key. */
  predicate SortKeyConsistent(r: TableInfo) {
    if r.sortkey1.None? then
      r.sortkeyNum == 0 && r.unsorted.None? && r.skewSortkey1.None?
    else
      1 <= r.sortkeyNum <= 10 && r.unsorted.Some? && r.skewSortkey1.Some?
  }

  /** The five values the `encoded` column can take. */
  predicate EncodedWellFormed(e: Option<string>) {
    || e == None
    || e == Some("Y")
    || e == Some("N")
    || e == Some("Y" + Separator + AutoEncode)
    || e == Some("N" + Separator + AutoEncode)
  }

  /** Numeric columns lie in the ranges their draws are taken from. */
  predicate WithinBounds(r: TableInfo) {
    && 0 <= r.tableId < TwoTo32
    && 1 <= r.size <= 4096
    && 16 <= r.maxVarchar <= 256
    && r.empty == 0
    && r.tblRows % r.size == 0
    && 512 <= r.tblRows / r.size <= 2048
    && (0.75 * r.tblRows as real).Floor <= r.estimatedVisibleRows <= r.tblRows
    && 0.0 <= r.statsOff <= 100.0
    && 0.0 <= r.vacuumSortBenefit <= 100.0
    && (r.unsorted.Some? ==> 0.0 <= r.unsorted.value <= 100.0)
    && (r.skewSortkey1.Some? ==> 0.0 <= r.skewSortkey1.value <= 10.0)
    && (r.skewRows.Some? ==> 0.0 <= r.skewRows.value <= 10.0)
    && (r.riskEvent.Some? ==> 1 <= r.riskEvent.value.code <= 1000)
  }

  /** Everything a generated row satisfies on its own. */
  predicate Generated(r: TableInfo) {
    && SortKeyConsistent(r)
    && EncodedWellFormed(r.encoded)
    && r.encoded != Some(AutoEncode)
    && r.diststyle in DistStyles
    && r.sortkey1 in SortKeys
    && r.sortkey1Enc in SortKeyEncodings
    && WithinBounds(r)
  }

  /* ---------------- Helpers of from_mock_info ---------------- */

  /** `filter(None, parts)`: the truthy strings, in order. */
  function TruthyParts(parts: seq<Option<string>>): (r: seq<string>)
    ensures |r| <= |parts|
    ensures forall i :: 0 <= i < |r| ==> |r[i]| > 0
  {
    if |parts| == 0 then []
    else (if Truthy(parts[0]) then [parts[0].value] else []) + TruthyParts(parts[1..])
  }

  /** A string is among the filtered parts exactly when some truthy part holds it. */
  lemma {:induction false} TruthyPartsMembers(parts: seq<Option<string>>, s: string)
    ensures s in TruthyParts(parts) <==>
      exists i :: 0 <= i < |parts| && Truthy(parts[i]) && parts[i].value == s
    decreases |parts|
  {
    if |parts| > 0 {
      var tail := parts[1..];
      TruthyPartsMembers(tail, s);
      if exists i :: 0 <= i < |tail| && Truthy(tail[i]) && tail[i].value == s {
        var i :| 0 <= i < |tail| && Truthy(tail[i]) && tail[i].value == s;
        assert parts[i + 1] == tail[i];
      }
      if exists i :: 0 <= i < |parts| && Truthy(parts[i]) && parts[i].value == s {
        var i :| 0 <= i < |parts| && Truthy(parts[i]) && parts[i].value == s;
        if i > 0 {
          assert tail[i - 1] == parts[i];
        }
      }
    }
  }

  /** The filter keeps relative order: it distributes over concatenation. */
  lemma {:induction false} TruthyPartsAppend(a: seq<Option<string>>, b: seq<Option<string>>)
    ensures TruthyParts(a + b) == TruthyParts(a) + TruthyParts(b)
    decreases |a|
  {
    if |a| == 0 {
      assert a + b == b;
    } else {
      assert (a + b)[1..] == a[1..] + b;
      TruthyPartsAppend(a[1..], b);
    }
  }

  /** `sep.join(xs)`. */
  function Join(sep: string, xs: seq<string>): string {
    if |xs| == 0 then "" else if |xs| == 1 then xs[0] else xs[0] + sep + Join(sep, xs[1..])
  }

  /** The `encoded` column: the Y/N choice, with ", AUTO(ENCODE)" appended when that was drawn. */
  function Encoded(pick: Option<string>, autoPick: Option<string>): (e: Option<string>)
    requires pick in EncodedChoices && autoPick in AutoEncodeChoices
    ensures EncodedWellFormed(e)
    ensures e != Some(AutoEncode)
    ensures e.None? <==> pick.None?
    ensures pick.Some? && autoPick.None? ==> e == pick
    ensures pick.Some? && autoPick.Some? ==> e == Some(pick.value + Separator + AutoEncode)
  {
    if Truthy(pick) then
      JoinTwo(pick, autoPick);
      Some(Join(Separator, TruthyParts([pick, autoPick])))
    else pick
  }

  /** `", ".join(filter(None, [a, b]))` with a truthy `a`. */
  lemma JoinTwo(a: Option<string>, b: Option<string>)
    requires Truthy(a)
    ensures Join(Separator, TruthyParts([a, b])) == if Truthy(b) then a.value + Separator + b.value else a.value
  {
    assert [a, b][1..] == [b];
    assert TruthyParts([b]) == (if Truthy(b) then [b.value] else []) + TruthyParts([]);
    assert TruthyParts([a, b]) == [a.value] + TruthyParts([b]);
  }

  /** `table_id`: the CRC-32 of `str(table_hash) + str(create_time_epoch)`, masked to 32 bits. */
  function TableId(tableHash: int, createEpoch: int, crc: string -> int): (id: int)
    ensures 0 <= id < TwoTo32
    ensures 0 <= crc(Decimal.Show(tableHash) + Decimal.Show(createEpoch)) < TwoTo32 ==>
              id == crc(Decimal.Show(tableHash) + Decimal.Show(createEpoch))
  {
    crc(Decimal.Show(tableHash) + Decimal.Show(createEpoch)) % TwoTo32
  }

  /** `hash(frozenset(source_table)) & sys.maxsize`. */
  function TableHash(src: SourceTable, hashOf: set<string> -> int): (h: int)
    ensures 0 <= h <= MaxSize
  {
    hashOf({src.database, src.schema, src.table}) % (MaxSize + 1)
  }

  /** `tbl_rows = size * randint(2**9, 2**11)`: a multiple of `size` by a factor in [512, 2048]. */
  function TableRows(size: int, multiplier: int): (n: int)
    requires 1 <= size && 512 <= multiplier <= 2048
    ensures n % size == 0 && n / size == multiplier
  {
    MultipleBounds(size, multiplier);
    size * multiplier
  }

  /** `math.floor(tbl_rows * u)` for `u` in [0.75, 1]: between `floor(0.75 * tbl_rows)` and `tbl_rows`. */
  function VisibleRows(tblRows: nat, u: real): (v: int)
    requires 0.75 <= u <= 1.0
    ensures (0.75 * tblRows as real).Floor <= v <= tblRows
  {
    var x := tblRows as real;
    ScaledBetween(x, u);
    FloorMonotone(0.75 * x, x * u);
    FloorMonotone(x * u, x);
    (x * u).Floor
  }

  /** `math.floor` never reverses the order of two reals. */
  lemma FloorMonotone(a: real, b: real)
    requires a <= b
    ensures a.Floor <= b.Floor
  {
    assert (a.Floor as real) <= a < (b.Floor as real) + 1.0;
  }

  lemma ScaledBetween(x: real, u: real)
    requires 0.0 <= x && 0.75 <= u <= 1.0
    ensures 0.75 * x <= x * u <= x
  {
    assert x * u - 0.75 * x == x * (u - 0.75);
    assert x - x * u == x * (1.0 - u);
  }

  /** `pct_used` before rounding: the share of `database_size` that `size` takes. */
  function PctUsed(size: int, databaseSize: int): (p: real)
    requires databaseSize != 0
    ensures p * databaseSize as real == size as real
    ensures 1 <= size <= 4096 <= databaseSize ==> 0.0 < p <= 1.0
  {
    size as real / databaseSize as real
  }

  lemma MultipleBounds(size: int, k: int)
    requires 1 <= size && 512 <= k <= 2048
    ensures (size * k) % size == 0 && (size * k) / size == k
  {
    var q, m := (size * k) / size, (size * k) % size;
    assert size * k == size * q + m && 0 <= m < size;
    if q < k {
      MulMonotone(size, q + 1, k);
      assert false;
    } else if q > k {
      MulMonotone(size, k + 1, q);
      assert false;
    }
  }

  lemma MulMonotone(a: int, x: int, y: int)
    requires 0 <= a && x <= y
    ensures a * x <= a * y
  {
    assert a * y - a * x == a * (y - x);
  }

  /* ---------------- from_mock_info ---------------- */

  /**
    `TableInfo.from_mock_info`: one row for `(database, schema, table)` created in the
    batch stamped `mockCreatedAt`, with `now` the wall clock read for this row.
   */
  function FromMockInfo(
    mockCreatedAt: int, databaseSize: int,
    database: string, schema: string, table: string, tableHash: int,
    now: int, d: Draws, crc: string -> int): (r: TableInfo)
    requires databaseSize != 0
    requires ValidDraws(d)
    ensures r.database == database && r.schema == schema && r.table == table
    ensures Generated(r)
    ensures r.mockCreatedAt == mockCreatedAt
    ensures r.mockId == Time.WholeSeconds(mockCreatedAt)
    ensures r.pctUsed == PctUsed(r.size, databaseSize)
    ensures databaseSize >= MinDatabaseSize ==> 0.0 < r.pctUsed <= 1.0
    ensures now - 60 * Time.MicrosPerSecond <= r.createTime <= now - Time.MicrosPerSecond
    ensures r.tableId == TableId(tableHash, Time.WholeSeconds(r.createTime), crc)
  {
    var createTime := now - d.createDelay * Time.MicrosPerSecond;
    var sortkey1 := SortKeys[d.sortkeyPick];
    var hasSortKey := Truthy(sortkey1);
    var size := d.size;
    var tblRows := TableRows(size, d.rowMultiplier);
    TableInfo(
      database := database,
      schema := schema,
      tableId := TableId(tableHash, Time.WholeSeconds(createTime), crc),
      table := table,
      encoded := Encoded(EncodedChoices[d.encodedPick], AutoEncodeChoices[d.autoEncodePick]),
      diststyle := DistStyles[d.diststylePick],
      sortkey1 := sortkey1,
      maxVarchar := d.maxVarchar,
      sortkey1Enc := SortKeyEncodings[d.sortkeyEncPick],
      sortkeyNum := if hasSortKey then d.sortkeyNum else 0,
      size := size,
      pctUsed := PctUsed(size, databaseSize),
      empty := 0,
      unsorted := if hasSortKey then Some(d.unsorted) else None,
      statsOff := d.statsOff,
      tblRows := tblRows,
      skewSortkey1 := if hasSortKey then Some(d.skewSortkey1) else None,
      skewRows := if d.skewRowsPresent then Some(d.skewRows) else None,
      estimatedVisibleRows := VisibleRows(tblRows, d.visibleFraction),
      riskEvent := if d.riskEventPresent then Some(RiskEvent(d.riskCode)) else None,
      vacuumSortBenefit := d.vacuumSortBenefit,
      createTime := createTime,
      mockId := Time.WholeSeconds(mockCreatedAt),
      mockCreatedAt := mockCreatedAt)
  }

  /** A row's value depends on the source only through its fields and its table hash. */
  lemma TableHashIgnoresOrder(a: SourceTable, b: SourceTable, hashOf: set<string> -> int)
    requires {a.database, a.schema, a.table} == {b.database, b.schema, b.table}
    ensures TableHash(a, hashOf) == TableHash(b, hashOf)
  {
  }

  /* ---------------- The manifest filter ---------------- */

  /** All three names are truthy, i.e. non-empty. */
  predicate Complete(e: SourceTable) {
    |e.database| > 0 && |e.schema| > 0 && |e.table| > 0
  }

  /** `SOURCE_TABLES`: the manifest entries with no empty field, in order. */
  function SourceTables(entries: seq<SourceTable>): (r: seq<SourceTable>)
    ensures |r| <= |entries|
    ensures forall e :: e in entries && Complete(e) ==> e in r
    ensures forall t :: t in r ==> t in entries && Complete(t)
  {
    if |entries| == 0 then []
    else (if Complete(entries[0]) then [entries[0]] else []) + SourceTables(entries[1..])
  }

  /** The filter keeps relative order: it distributes over concatenation of manifests. */
  lemma {:induction false} SourceTablesAppend(a: seq<SourceTable>, b: seq<SourceTable>)
    ensures SourceTables(a + b) == SourceTables(a) + SourceTables(b)
    decreases |a|
  {
    if |a| == 0 {
      assert a + b == b;
    } else {
      assert (a + b)[1..] == a[1..] + b;
      SourceTablesAppend(a[1..], b);
    }
  }

  /* ---------------- One run of the generator ---------------- */

  /** All rows of one run carry the same batch stamp and batch id. */
  predicate SharedBatch(rows: seq<TableInfo>) {
    forall i, j :: 0 <= i < |rows| && 0 <= j < |rows| ==>
      rows[i].mockCreatedAt == rows[j].mockCreatedAt && rows[i].mockId == rows[j].mockId
  }

  /**
    What the generator promises of the row it writes for `src` in the batch stamped
    `mockCreatedAt` with denominator `databaseSize`.
   */
  predicate RowOfBatch(r: TableInfo, src: SourceTable, mockCreatedAt: int, databaseSize: int,
                       hashOf: set<string> -> int, crc: string -> int)
  {
    && r.database == src.database && r.schema == src.schema && r.table == src.table
    && Generated(r)
    && r.mockCreatedAt == mockCreatedAt
    && r.mockId == Time.WholeSeconds(mockCreatedAt)
    && databaseSize != 0 && r.pctUsed == PctUsed(r.size, databaseSize)
    && 0.0 < r.pctUsed <= 1.0
    && r.tableId == TableId(TableHash(src, hashOf), Time.WholeSeconds(r.createTime), crc)
  }

  /** One iteration of the loop: hash the triple, then build its row. */
  method SeedRow(
    mockCreatedAt: int, databaseSize: int, src: SourceTable, now: int, d: Draws,
    hashOf: set<string> -> int, crc: string -> int)
    returns (info: TableInfo)
    requires MinDatabaseSize <= databaseSize <= MaxDatabaseSize
    requires ValidDraws(d)
    ensures RowOfBatch(info, src, mockCreatedAt, databaseSize, hashOf, crc)
    ensures now - 60 * Time.MicrosPerSecond <= info.createTime <= now - Time.MicrosPerSecond
  {
    var tableHash := TableHash(src, hashOf);
    info := FromMockInfo(mockCreatedAt, databaseSize, src.database, src.schema, src.table,
                         tableHash, now, d, crc);
  }

  /**
    The loop of `seed_svv_table_info`: one row per source triple, in order, all built
    with one `mock_created_at` and one `database_size`. `clock[i]` is the `now()` read
    for row `i` and `draws[i]` its random draws.
   */
  method SeedRun(
    mockCreatedAt: int, databaseSize: int, sources: seq<SourceTable>,
    clock: seq<int>, draws: seq<Draws>,
    hashOf: set<string> -> int, crc: string -> int)
    returns (rows: seq<TableInfo>)
    requires MinDatabaseSize <= databaseSize <= MaxDatabaseSize
    requires |clock| == |sources| && |draws| == |sources|
    requires forall i :: 0 <= i < |draws| ==> ValidDraws(draws[i])
    ensures |rows| == |sources|
    ensures forall i :: 0 <= i < |rows| ==>
      RowOfBatch(rows[i], sources[i], mockCreatedAt, databaseSize, hashOf, crc)
  {
    rows := [];
    var i := 0;
    while i < |sources|
      invariant 0 <= i <= |sources| && |rows| == i
      invariant forall k :: 0 <= k < i ==>
        RowOfBatch(rows[k], sources[k], mockCreatedAt, databaseSize, hashOf, crc)
    {
      var info := SeedRow(mockCreatedAt, databaseSize, sources[i], clock[i], draws[i], hashOf, crc);
      ExtendAligned(rows, info, sources,
                    (r, src) => RowOfBatch(r, src, mockCreatedAt, databaseSize, hashOf, crc));
      rows := rows + [info];
      i := i + 1;
    }
  }

  /** Appending an element matched to the next position keeps every position matched. */
  lemma ExtendAligned<T, U>(xs: seq<T>, x: T, ys: seq<U>, matches: (T, U) -> bool)
    requires |xs| < |ys|
    requires forall k :: 0 <= k < |xs| ==> matches(xs[k], ys[k])
    requires matches(x, ys[|xs|])
    ensures forall k :: 0 <= k < |xs| + 1 ==> matches((xs + [x])[k], ys[k])
  {
    var extended := xs + [x];
    forall k | 0 <= k < |extended|
      ensures matches(extended[k], ys[k])
    {
      if k < |xs| {
        assert extended[k] == xs[k];
      }
    }
  }

  /** The rows of one run share the batch stamp and the batch id. */
  lemma RunSharesBatch(rows: seq<TableInfo>, sources: seq<SourceTable>, mockCreatedAt: int,
                       databaseSize: int, hashOf: set<string> -> int, crc: string -> int)
    requires |rows| == |sources|
    requires forall i :: 0 <= i < |rows| ==>
      RowOfBatch(rows[i], sources[i], mockCreatedAt, databaseSize, hashOf, crc)
    ensures SharedBatch(rows)
    ensures forall i :: 0 <= i < |rows| ==> rows[i].mockId == Time.WholeSeconds(rows[i].mockCreatedAt)
  {
  }
}
