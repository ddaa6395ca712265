# SIMCC harvest records in Dafny

SIMCC (Sistema de Monitoramento da Colheita de Cana) records sugarcane harvests.
A record holds a producer name, harvested area (ha) and volume (t). It also holds two
derived fields: the loss ratio (`perda`) and an efficiency class (`eficiencia`).
Records are kept in the table `colheita_cana`. The tool can create, list,
update and delete them.

This project models that core as pure functions over immutable values:

- `rounding.dfy` (module `Rounding`): rounding an exact real to three decimals, ties to even,
  as Python's `round(x, 3)` does.
- `harvest.dfy` (module `Harvest`): `calcular_perda` as `Loss` and `avaliar_eficiencia` as
  `Classify`, with the efficiency texts and lemmas for bounds, monotonicity and the
  three-way partition.
- `registry.dfy` (module `Registry`): the table as a `seq<Record>`. It has the record built by the
  "add" menu entry (`NewRecord`), `create_registro` (`Create`), `update_registro`
  (`UpdateVolume`) and `delete_registro` (`DeleteProducer`). It also holds frame, count
  and staleness lemmas.
- `listing.dfy` (module `Listing`): `read_registros` (`List`), which returns every row,
  newest first, with the loss shown in percent.

A database failure is an explicit parameter `Db` (`Reachable` / `Unreachable`). An
unreachable database, or a failed statement, leaves the table unchanged and reports `Failed`.
Update and delete report `Affected(n)`. Here `n` is the number of rows the
statement matched, so `n > 0` means "matched" and `n == 0` means "no such producer".

The update keeps the source's stale-field behaviour. Only `volume` changes. `loss` and
`efficiency` keep the values computed at creation. `UpdateStaleness` and
`UpdateLeavesStaleRow` state this.

The loss compares productivity (t/ha) with a reference of 100 t/ha. So 100 t on 100 ha
(1 t/ha) gives loss 0.99, and 8500 t on 100 ha gives 0.15 (`Harvest.LossExamples`).
The loss is 0 exactly from 99.95 t/ha up (`Harvest.LossZeroIff`).

Update and delete select rows with `WHERE produtor = :p`. This is an exact, case-sensitive
match, with one exception. Oracle stores an empty string as NULL and binds an empty
parameter as NULL, and NULL equals nothing. So a record created with an empty producer
name matches no update or delete: both report 0 rows. `Registry.Matches` states the rule.
The listing formats the producer as padded text. A NULL producer makes that formatting
raise an error that the listing does not catch, so the program stops. `Listing.List`
models this as the outcome `Aborted`.

## Model

| member | source | states |
|---|---|---|
| `Rounding.RoundHalfEven` | simcc.py:28 | the result is an integer within 1/2 of x, and a tie goes to the even neighbour |
| `Rounding.RoundHalfEvenUnique` | simcc.py:28 | any integer with those two properties equals `RoundHalfEven(x)`, so the contract fully defines the rounding |
| `Rounding.RoundAtLeast` | simcc.py:28 | the rounded value is at least n exactly when x > n - 1/2, or x = n - 1/2 and n is even |
| `Rounding.Round3` | simcc.py:28 | `round(x, 3)` is within 0.0005 of x, has at most three decimals, and a value halfway between two thousandths goes to the even one |
| `Rounding.Round3Unique` | simcc.py:28 | any value with at most three decimals, within 0.0005 of x and even on a tie equals `Round3(x)`, so the contract fully defines `round(x, 3)` |
| `Rounding.Round3Monotone` | simcc.py:28 | rounding to three decimals preserves order |
| `Rounding.Round3OnGrid` | simcc.py:28 | a value that already has three decimals is returned unchanged |
| `Harvest.Loss` | simcc.py:22-28 | the loss is exactly 0 when area <= 0, whatever the volume; it is never negative and has at most three decimals |
| `Harvest.LossAtMostOne` | simcc.py:22-28 | for area > 0 and volume >= 0 (the validated input) the loss is at most 1 |
| `Harvest.LossZeroIff` | simcc.py:25-28 | for area > 0 the loss is 0 exactly when productivity volume/area >= 99.95; in particular at or above the reference of 100 t/ha |
| `Harvest.LossNearShortfall` | simcc.py:25-28 | the loss is within 0.0005 of the exact shortfall 1 - (volume/area)/100 whenever that shortfall is >= -0.0005 |
| `Harvest.LossMonotoneInVolume` | simcc.py:25-28 | for a fixed area, more volume never gives a larger loss |
| `Harvest.LossMonotoneInArea` | simcc.py:25-28 | for a fixed non-negative volume, more area never gives a smaller loss |
| `Harvest.Classify` | simcc.py:30-36 | "Alta" exactly when loss < 0.05, "média" exactly when 0.05 <= loss < 0.10, "Baixa" exactly when loss >= 0.10; the three classes partition all reals |
| `Harvest.ClassifyMonotone` | simcc.py:30-36 | a larger loss never gets a better class |
| `Harvest.LabelInjective` | simcc.py:31-36 | the three stored texts are pairwise distinct |
| `Harvest.ClassifyByProductivity` | simcc.py:22-36 | for area > 0: high efficiency exactly when productivity > 95.05 t/ha, low exactly when <= 90.05, medium in between |
| `Harvest.LossExamples` | simcc.py:22-36 | worked values: (100 ha, 100 t) gives 0.99, low; (100, 8500) gives 0.15, low; (50, 4750) gives 0.05, medium (threshold inclusive); (100, 10000) gives 0, high; area 0 or negative gives 0 |
| `Registry.NewRecord` | simcc.py:174-181 | a record built from validated input keeps producer, area and volume; its loss is `Loss(area, volume)` in [0, 1] and its class is `Classify(loss)` |
| `Registry.Create` | simcc.py:60-76 | on success the table gains exactly one row, the new record, at the end, with every earlier row unchanged and status `Affected(1)`; on failure the table is unchanged |
| `Registry.Count` | simcc.py:118-123 | the match count is 0 exactly when no row matches, and equals the table length exactly when every row matches; a row matches under `Registry.Matches`, the `WHERE produtor = :p` test of simcc.py:118 and :143, where an empty name is NULL and matches nothing |
| `Registry.SetVolume` | simcc.py:118 | each matching row gets the new volume with all other fields kept; every other row is identical; the length is unchanged |
| `Registry.UpdateVolume` | simcc.py:102-128 | the same length; matching rows get only the new volume (loss and efficiency stale); other rows are untouched; the reported count is the number of matches; a count of 0 means the table is identical; an empty name reports 0 and changes nothing; failure changes nothing |
| `Registry.ConfirmsExactly` | simcc.py:133-136 | the lower-cased answer is "s" exactly when the answer is "s" or "S" |
| `Registry.RemoveProducer` | simcc.py:143 | a row remains exactly when it was in the table and does not match; the length drops by the match count; with no match the table is identical |
| `Registry.RemoveKeepsOrder` | simcc.py:143 | the remaining rows are a subsequence of the table: they keep their relative order |
| `Registry.DeleteProducer` | simcc.py:130-153 | an answer that does not confirm leaves the table unchanged and reports `Cancelled`; a failure leaves it unchanged; otherwise exactly the matching rows go, order is kept, and the count equals the rows removed; an empty name removes nothing and reports 0 |
| `Registry.CountAppend` | simcc.py:120 | the match count of a concatenation is the sum of the counts |
| `Registry.RemoveAppend` | simcc.py:143 | deleting by producer distributes over concatenation, so it acts on each row independently and keeps order |
| `Registry.CountAfterCreate` | simcc.py:66-69 | creating a record raises its producer's count by one (none for an empty name) and no other producer's |
| `Registry.DeleteAfterCreate` | simcc.py:143 | deleting a producer after creating one of its records also removes the new record; a record with an empty name stays |
| `Registry.DeleteIdempotent` | simcc.py:143 | deleting the same producer twice equals deleting it once |
| `Registry.UpdateKeepsCounts` | simcc.py:118 | an update never changes any producer's row count |
| `Registry.DeleteAfterUpdate` | simcc.py:143 | deleting a producer after updating its volume equals deleting it directly |
| `Registry.UpdateLastWins` | simcc.py:118 | of two updates of the same producer, the later volume wins |
| `Registry.CreateDeleteKeepConsistent` | simcc.py:66-69 | inserting a consistent record, or deleting rows, keeps every row's loss and efficiency in agreement with its area and volume |
| `Registry.ConsistentIsStored` | simcc.py:43-58 | a consistent row with a positive area and a non-negative volume satisfies the row invariant `Registry.Stored`: area > 0, volume >= 0, loss in [0, 1] with at most three decimals, class equal to `Classify(loss)` |
| `Registry.CreateKeepsStored` | simcc.py:172-182 | adding a record built from validated input keeps every row satisfying `Registry.Stored` |
| `Registry.UpdateKeepsStored` | simcc.py:105-118 | an update to a volume >= 0, as the prompt enforces, keeps every row satisfying `Registry.Stored`, although the row may no longer be consistent |
| `Registry.DeleteKeepsStored` | simcc.py:143 | a deletion keeps every remaining row satisfying `Registry.Stored` |
| `Registry.UpdateStaleness` | simcc.py:118 | an updated consistent row stays consistent exactly when the new volume gives the loss already stored |
| `Registry.EmptyProducerUnreachable` | simcc.py:118-148 | after a record with an empty name is created, updating or deleting the empty name reports 0 rows and leaves the table as it was |
| `Registry.UpdateLeavesStaleRow` | simcc.py:118-123 | concrete case: 100 t on 1 ha (loss 0, high) updated to 0 t still says loss 0 and high efficiency, but area and volume now give loss 1 |
| `Listing.DisplayPercentBounds` | simcc.py:84 | any row satisfying `Registry.Stored`, updated or not, shows a loss percentage in [0, 100] with at most one decimal |
| `Listing.ListedPercentBounds` | simcc.py:84-94 | when every row satisfies `Registry.Stored`, every row the listing shows has a loss percentage in [0, 100] |
| `Listing.InsertByTime` | simcc.py:84 | inserting into a newest-first sequence keeps it newest first and adds exactly that row |
| `Listing.SortByTime` | simcc.py:84 | the result is newest first and a permutation of the input |
| `Listing.List` | simcc.py:78-100 | a failing query gives `QueryError`; an empty table gives `NoRecords`, which is distinct from the error; a row with an empty producer gives `Aborted`; otherwise every row exactly once (as `Listing.Display` shows it: the `perda*100` column of simcc.py:84, the rest as stored), newest first |
| `Listing.SortedHeadIsLatest` | simcc.py:84 | a row strictly later than every other row comes first after sorting |
| `Listing.NewestListedFirst` | simcc.py:84 | a named record created with a timestamp later than every other row is listed first |
| `Listing.EmptyNameAbortsListing` | simcc.py:93-97 | once a record with an empty producer name is created, listing stops the program instead of returning rows |

## Left out

- Connecting to Oracle (`conectar_bd`), the `config` import and its exit on a missing file, and cursor, commit and close handling. They are foreign library calls. A failure of any of them is the `Db.Unreachable` parameter, which leaves the table unchanged.
- Console I/O: prompts, re-prompt loops, `float(...)` parsing with comma replacement, print formatting, `strftime`, `limpar_tela`, `exibir_menu` and the `main` dispatch loop. They are I/O. The domain the prompts enforce is kept as preconditions: area > 0 and volume >= 0 for `NewRecord`, and a new volume >= 0 for `UpdateVolume`.
- IEEE-754 floats. The model computes on exact reals. `round(x, 3)` is exact-real rounding with ties to even. Python applies ties-to-even to the binary float value, so values near a tie can round differently in the program. The threshold values in `ClassifyByProductivity` and `LossZeroIff` are exact-real values.
- The server's default timestamp: a plain `int` the caller supplies on insert. SQL leaves the order of equal timestamps open. `List` therefore promises only newest-first order and a permutation; the model's choice among equal timestamps is not the database's.
- Registry.Confirms: lower-casing covers the letters A to Z only. No other Unicode character lower-cases to "s", so the set of confirming answers is the same.
- Python's `max(0, x)` returns the integer 0 rather than 0.0 when the rounded loss is not positive. The value is the same, and the model does not distinguish the two.
- Listing.List: the rows printed before the row that stops the program are not modelled; `Aborted` carries no rows.
- Registry.Create: a record with an empty producer name is modelled as stored with a NULL producer. That assumes the column accepts NULL. If it is declared NOT NULL, the insert fails instead, which is the `Failed` outcome. The table definition is not part of this model.
