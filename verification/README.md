# Mock `svv_table_info` generator and mock-id selector

This project models the two pure rules inside the Postgres mock of the Redshift
`svv_table_info` system view. The rules are proved in Dafny.

- **Row synthesis** (`scripts/postgres-mock/svv_table_info_seed.py`):
  - `SOURCE_TABLES` keeps the manifest entries whose database, schema and table are all non-empty.
  - `TableInfo.from_mock_info` builds one mock row from the batch stamp, the batch-wide
    `database_size`, the table triple, its hash, the wall clock, and a record of random draws.
  - The loop of `seed_svv_table_info` builds one row per source triple. Every row of a run
    shares one `mock_created_at` and one `database_size`.
- **Mock-id selection** (`scripts/postgres-mock/svv_table_info_select_mock_ids.py`):
  - `check_new_mocks` reads the state of the reference table (absent, present with a NULL
    maximum, or present with maximum `T`).
  - It runs the grouped query: optionally filter `mock_created_at > T`, group by `mock_id`,
    take the minimum timestamp, and order by it.
  - It reports nothing, or writes the ids one per line.

Modules:

| file | module | contents |
|---|---|---|
| `wrappers.dfy` | `Wrappers` | `Option`, and Python truthiness of an optional string |
| `time.dfy` | `Time` | timestamps as integer microseconds; `int(dt.timestamp())` as truncation toward zero |
| `decimal.dfy` | `Decimal` | `str(int)` and the parser that reads it back |
| `seed.dfy` | `Seed` | draws, `TableInfo`, `from_mock_info`, the manifest filter, one generator run |
| `selector.dfy` | `Selector` | the relational specification of the query, its implementation, the outcome, the file content |
| `pipeline.dfy` | `Pipeline` | facts that hold when the selector reads rows the generator wrote |

Modelling choices:

- **Randomness.** Every `random.*` call becomes a field of `Seed.Draws`. `Seed.ValidDraws`
  holds exactly the ranges the code passes to `random`. A `random.choice` is an index into
  the list literal.
- **Foreign functions.** `zlib.crc32` is a parameter `crc: string -> int`. The process-salted
  `hash(frozenset(...))` is a parameter `hashOf: set<string> -> int`. A Dafny set plays the role
  of the frozenset, so field order and duplicate names do not change the hash
  (`Seed.TableHashIgnoresOrder`).
- **Time.** `datetime.now()` is a parameter: one value per row, plus the batch stamp. Stamps are
  epoch microseconds, which is the stored wall-clock value when the generator runs in UTC. The
  Pipeline ordering lemmas take a fixed offset between the two as a parameter.
- **The SQL query.** The query is specified relationally by `Selector.SelectionSpec`: distinct,
  complete, and ordered non-decreasingly by each batch's earliest qualifying row. SQL leaves
  the order of ties open, and the specification does too. `Selector.OrderedIds` computes one
  admissible answer: filter, distinct ids, minimum per id, then insertion sort by minimum.
- **WHERE before GROUP BY.** The comment above the second query speaks of mock ids "created
  after the most recent analysis date". That reads as "batches whose earliest row is later
  than `T`". The query instead filters rows before grouping. So a batch is selected when any
  of its rows is later than `T`, and rows at or before `T` do not count toward its minimum.
  The model follows the query. `Selector.WhereBeforeGroupBy`,
  `Pipeline.StraddlingBatchIsSelected` and `Pipeline.EarlyRowsDoNotOrderBatches` state the
  consequence.

## Model

| member | source | states |
|---|---|---|
| Wrappers.Truthy | scripts/postgres-mock/svv_table_info_seed.py:51 | Python truthiness of an optional string: present and non-empty. The same test guards `encoded` at :103 and the sort-key columns at :122, :126 and :129 |
| Seed.ValidDraws | scripts/postgres-mock/svv_table_info_seed.py:96-138 | the draws lie in the ranges the code passes to `random`: create delay 1..60 s, each `choice` an index into its list, `max_varchar` 16..256, `sortkey_num` 1..10, `size` 1..4096, multiplier 512..2048, visibility fraction 0.75..1, the percentages 0..100, skews 0..10 and the risk code 1..1000 |
| Seed.FromMockInfo | scripts/postgres-mock/svv_table_info_seed.py:83-165 | The row carries the given database, schema and table, the batch stamp, and `mock_id` = whole seconds of the stamp. It satisfies `Generated`: sort-key-dependent fields are present exactly when a sort key was drawn, and `size`, `max_varchar`, `empty`, `tbl_rows` = `size`·k with k in [512, 2048], the visible-row floor bounds, percentages and the risk code lie in their draw ranges. `encoded` has one of its five shapes, and `diststyle`, `sortkey1` and `sortkey1_enc` come from their lists. `pct_used` times `database_size` is `size`, and it lies in (0, 1] once `database_size` ≥ 4096. `create_time` lies 1 to 60 seconds before `now`. `table_id` is the masked checksum of the hash and the create-time seconds |
| Seed.Encoded | scripts/postgres-mock/svv_table_info_seed.py:103-106 | `encoded` is None, "Y", "N", "Y, AUTO(ENCODE)" or "N, AUTO(ENCODE)", and never "AUTO(ENCODE)" alone. It is None exactly when the first choice is None. It is the Y/N choice alone when no auto marker was drawn, and that choice followed by ", AUTO(ENCODE)" otherwise |
| Seed.TruthyParts | scripts/postgres-mock/svv_table_info_seed.py:105 | `filter(None, parts)` keeps at most as many parts as it is given, and every part it keeps is non-empty. `Seed.TruthyPartsMembers` and `Seed.TruthyPartsAppend` state which parts it keeps and in what order |
| Seed.TruthyPartsMembers | scripts/postgres-mock/svv_table_info_seed.py:105 | a string is among the filtered parts exactly when some truthy part of the input holds it |
| Seed.TruthyPartsAppend | scripts/postgres-mock/svv_table_info_seed.py:105 | the filter distributes over concatenation, so it keeps the truthy parts in their input order, each as often as it occurs |
| Seed.Join | scripts/postgres-mock/svv_table_info_seed.py:104 | `sep.join(xs)`: the parts in order with `sep` between neighbours. `Seed.JoinTwo` states its value for the two parts used here |
| Seed.JoinTwo | scripts/postgres-mock/svv_table_info_seed.py:104-106 | `", ".join(filter(None, [a, b]))` with a truthy `a` is `a` when `b` is falsy, and `a + ", " + b` otherwise |
| Seed.TableId | scripts/postgres-mock/svv_table_info_seed.py:99-101 | `table_id` lies in [0, 2^32) whatever the checksum returns. It equals the checksum of `str(table_hash) + str(create_time_epoch)` whenever that checksum is already 32-bit |
| Seed.TableHash | scripts/postgres-mock/svv_table_info_seed.py:276 | the masked hash lies in [0, `sys.maxsize`] |
| Seed.TableHashIgnoresOrder | scripts/postgres-mock/svv_table_info_seed.py:276 | two triples with the same set of names get the same `table_hash`, whatever their field order |
| Seed.TableRows | scripts/postgres-mock/svv_table_info_seed.py:128 | `tbl_rows` is a multiple of `size`, and the quotient is the multiplier drawn from [512, 2048] |
| Seed.VisibleRows | scripts/postgres-mock/svv_table_info_seed.py:131 | `floor(tbl_rows·u)` with u in [0.75, 1] lies between `floor(0.75·tbl_rows)` and `tbl_rows` |
| Seed.PctUsed | scripts/postgres-mock/svv_table_info_seed.py:123-124 | the unrounded ratio times `database_size` gives back `size`. It lies in (0, 1] when 1 ≤ `size` ≤ 4096 ≤ `database_size` |
| Seed.SourceTables | scripts/postgres-mock/svv_table_info_seed.py:48-52 | every manifest entry with three non-empty names is kept, and everything kept is such an entry of the manifest. There are no more triples than entries |
| Seed.SourceTablesAppend | scripts/postgres-mock/svv_table_info_seed.py:48-52 | the filter distributes over concatenation of manifests, so it keeps the entries' relative order |
| Seed.SeedRow | scripts/postgres-mock/svv_table_info_seed.py:273-284 | one loop iteration: the row keeps the triple's names and satisfies `Generated`. It carries the batch stamp and id and the shared `pct_used` denominator. Its `table_id` is derived from the triple's own hash. Its `create_time` is 1 to 60 seconds before that iteration's clock |
| Seed.SeedRun | scripts/postgres-mock/svv_table_info_seed.py:270-284 | one run yields one row per source triple, in input order. Row i is built from triple i with the one `mock_created_at` and the one `database_size` of the run |
| Seed.RunSharesBatch | scripts/postgres-mock/svv_table_info_seed.py:94 | all rows of a run share `mock_created_at` and `mock_id`. Each `mock_id` is the whole seconds of its stamp |
| Time.WholeSeconds | scripts/postgres-mock/svv_table_info_seed.py:94 | `int(ts.timestamp())` is the integer s with s·10^6 ≤ t < (s+1)·10^6 for t ≥ 0, and the mirrored bracket for t < 0 (truncation toward zero) |
| Time.WholeSecondsMonotone | scripts/postgres-mock/svv_table_info_seed.py:94 | a later timestamp never has fewer whole seconds |
| Decimal.Show | scripts/postgres-mock/svv_table_info_seed.py:100 | `str(n)` is non-empty text of digits and at most a leading minus sign, which appears exactly when `n` is negative. `Decimal.ParseShow` reads it back. The same rendering writes each id at select_mock_ids.py:122 |
| Decimal.ParseShow | scripts/postgres-mock/svv_table_info_select_mock_ids.py:122 | reading back `str(n)` gives `n` |
| Selector.Qualifying | scripts/postgres-mock/svv_table_info_select_mock_ids.py:105 | the `WHERE mock_created_at > T` filter keeps exactly the rows that qualify against the reference |
| Selector.DistinctIds | scripts/postgres-mock/svv_table_info_select_mock_ids.py:76-78 | the group keys have no repeats, and an id is a key exactly when some row has it |
| Selector.FirstCreated | scripts/postgres-mock/svv_table_info_select_mock_ids.py:76 | `MIN(mock_created_at)` of a batch is the timestamp of one of its rows, and no row of the batch is earlier |
| Selector.MakeGroups | scripts/postgres-mock/svv_table_info_select_mock_ids.py:76-78 | one group per id, in order, each carrying its batch's minimum |
| Selector.GroupBy | scripts/postgres-mock/svv_table_info_select_mock_ids.py:76-78 | the grouped subquery has one group per distinct id, each carrying the minimum of its rows |
| Selector.InsertByFirst | scripts/postgres-mock/svv_table_info_select_mock_ids.py:80 | inserting into a list sorted by first timestamp keeps it sorted, and adds exactly the one group |
| Selector.SortByFirst | scripts/postgres-mock/svv_table_info_select_mock_ids.py:80 | `ORDER BY first_created_at` gives a permutation of the groups, sorted non-decreasingly |
| Selector.SortKeepsKeysDistinct | scripts/postgres-mock/svv_table_info_select_mock_ids.py:78-80 | sorting groups with distinct ids leaves the ids distinct |
| Selector.QualifyingMin | scripts/postgres-mock/svv_table_info_select_mock_ids.py:103-106 | the minimum over the filtered rows is the minimum over the rows later than `T` |
| Selector.WhereBeforeGroupBy | scripts/postgres-mock/svv_table_info_select_mock_ids.py:99-111 | an answer against reference time `T` is exactly an answer with no reference over the rows later than `T`. Both directions are proved |
| Selector.SortedGroups | scripts/postgres-mock/svv_table_info_select_mock_ids.py:101-108 | the sorted groups are ordered by first timestamp and have distinct ids. Each carries its batch's earliest qualifying row, and an id is present exactly when the batch has a qualifying row |
| Selector.KeysMeetSpec | scripts/postgres-mock/svv_table_info_select_mock_ids.py:101-108 | the ids of sorted, distinct groups of the qualifying rows satisfy `SelectionSpec` |
| Selector.FirstCreatedUnique | scripts/postgres-mock/svv_table_info_select_mock_ids.py:76 | a batch has one earliest qualifying timestamp |
| Selector.OrderedIds | scripts/postgres-mock/svv_table_info_select_mock_ids.py:72-111 | the `mock_id` column of the query is distinct and complete (exactly the batches with a qualifying row). It is ordered non-decreasingly by each batch's earliest qualifying row |
| Selector.SelectMockIds | scripts/postgres-mock/svv_table_info_select_mock_ids.py:67-117 | `NoReferenceData` exactly when the reference table has a NULL maximum. `NoNewMocks` exactly when no row qualifies (with no reference table, when there are no rows). Otherwise a non-empty id list meeting `SelectionSpec` |
| Selector.FileContent | scripts/postgres-mock/svv_table_info_select_mock_ids.py:120-122 | the file is empty exactly when there are no ids, and otherwise ends with a newline |
| Selector.SplitLineAt | scripts/postgres-mock/svv_table_info_select_mock_ids.py:122 | a line without a newline, followed by "\n", splits back into that line and the rest |
| Selector.ReadFileContent | scripts/postgres-mock/svv_table_info_select_mock_ids.py:120-122 | reading the written file line by line gives back exactly the selected ids, in order |
| Pipeline.SecondIdsStrictlyIncrease | scripts/postgres-mock/svv_table_info_seed.py:94 | when every `mock_id` is the whole epoch seconds of its stored stamp minus one fixed offset `off`, any valid selection is strictly increasing in `mock_id`, and no two selected batches tie on their earliest timestamp. `off` is 0 when the generator runs in UTC, and the zone's fixed UTC offset otherwise |
| Pipeline.SelectedGeneratedIdsIncrease | scripts/postgres-mock/svv_table_info_select_mock_ids.py:99-113 | on generated rows whose `mock_id` is the whole epoch seconds of the stored stamp minus one fixed offset, the selector's id list is strictly increasing. This covers a generator running in UTC (offset 0) and one in a zone whose UTC offset did not change between runs |
| Pipeline.OnlyBatchSelected | scripts/postgres-mock/svv_table_info_select_mock_ids.py:99-113 | when all rows belong to one batch and one of them qualifies, the answer is that batch's id alone |
| Pipeline.OneRunSelectsItsId | scripts/postgres-mock/svv_table_info_select_mock_ids.py:67-82 | one non-empty generator run with no reference table yields its own `mock_id`, once |
| Pipeline.OneRunAgainstReference | scripts/postgres-mock/svv_table_info_select_mock_ids.py:99-117 | one generator run against reference time `T` yields its `mock_id` when its stamp is later than `T`, and `NoNewMocks` otherwise |
| Pipeline.StraddlingBatchIsSelected | scripts/postgres-mock/svv_table_info_select_mock_ids.py:103-106 | a batch with rows at 5 and 20 is selected against `T` = 10, although its earliest row is not later than `T` |
| Pipeline.EarlyRowsDoNotOrderBatches | scripts/postgres-mock/svv_table_info_select_mock_ids.py:103-108 | with batch 1 at 5 and 20 and batch 2 at 15, against `T` = 10, the only valid answer is [2, 1]. Batch 1 is ordered by its row at 20, not its row at 5 |

## Left out

- Database access and the command line are not modelled: environment variables, connections, cursors, click options and error messages. The `EXISTS` and `MAX(last_analyzed_at)` reads become the `Reference` input, and the destination table becomes a sequence of rows.
- Jinja DDL rendering and the `recreate` drop/create are not modelled. The template is foreign code and is not part of this model.
- The INSERT statement and its parameter binding are not modelled. This is database-side behaviour.
- Pseudo-random generation itself is not modelled: draws are parameters constrained to their ranges, and distributions are not modelled.
- Seed.FromMockInfo: `pct_used`, `unsorted`, `stats_off`, `skew_sortkey1`, `skew_rows` and `vacuum_sort_benefit` are exact reals within their draw ranges. The `round(..., 2)` and `round(..., 6)` float rounding is not modelled. This also covers the bound `pct_used` > 0, which holds for the exact ratio. Rounding to six places can still give 0.0 only if `size/database_size` < 5·10^-7, and that cannot happen for these ranges.
- Seed.FromMockInfo: `estimated_visible_rows` is stated only through its floor bounds, not as `floor(tbl_rows·u)` for a float `u`.
- Seed.FromMockInfo: the text of `risk_event` is reduced to its integer code. The `random_timestamp` and `strftime` part is wall-clock formatting.
- `zlib.crc32` and `hash(frozenset(...))` are opaque parameters. Their values are foreign and, for `hash`, salted per process.
- `sys.maxsize` is taken as the 64-bit value. The assertion that it is one less than a power of two is not modelled.
- Pipeline.SelectedGeneratedIdsIncrease, Pipeline.SecondIdsStrictlyIncrease: both take one offset `off` between the stored local stamp and the epoch, the same for all rows. The stored `mock_created_at` is local wall-clock time without a zone, while `mock_id` counts true epoch seconds. Across a daylight-saving fall-back the offset changes between runs, and a later run can carry an earlier wall-clock stamp and a larger id. It is then listed first, so the ids decrease. The rest of the model takes the stamp as epoch time, i.e. a generator running in UTC.
- `datetime.now()` and local-timezone epoch conversion are not modelled: timestamps are integer microseconds given as inputs. `create_time` before `mock_created_at` is not claimed, because each row's clock is read after the batch stamp.
- Loading the JSON manifest from its fixed path is not modelled. Entries are three strings each, so missing keys and non-string values (which raise or are judged by Python truthiness) are not modelled.
- Creating the temporary file and printing its path are not modelled. Only the file's content is modelled.
- Rows whose `mock_id` or `mock_created_at` is NULL are not modelled. SQL would group the NULL ids together and drop NULL timestamps from the filter.
