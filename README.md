# GreenHorizon irrigation advisor — a Dafny model

GreenHorizon decides, once per cycle, whether to switch the irrigation pump on
(`LIGAR`) or to wait (`AGUARDAR`). It looks at three inputs: the latest soil
reading in the `historico_clima` table, a rain forecast from Open-Meteo
aggregated over the first three hourly entries of the answer, and the energy
tariff for the current hour. Each decision is
logged in `logs_decisao`, appended to the history under the next id, and
mirrored as a line of the raw readings CSV. Two ETL scripts maintain a
`historico_clima` table:

- a cleaner replaces the table the engine reads with the raw CSV minus
  incomplete lines and implausible temperatures;
- a pipeline inserts live observations and keeps only the last three hours,
  in its own `historico_clima` in a separate database file
  (`green_horizon.db` at the repository root rather than under `etl/`).

The model has one module per concern:

- `Wrappers`: `Option`.
- `Seqs`: a generic order-preserving `Filter` and its lemmas (subsequence,
  membership, append, fusion, idempotence). pandas masks, `dropna()` and the
  SQL `DELETE ... WHERE` are all instances of it.
- `Timestamps`: proleptic Gregorian datetimes, `strftime("%Y-%m-%d %H:%M:%S")`,
  and the text order used by SQLite and Python strings. It proves that text
  order on formatted timestamps is chronological order. It also models
  `now - timedelta(hours=3)`, including Python's `OverflowError` before year 1.
- `Records`: the `historico_clima` row and the CSV line, where any cell may be
  empty.
- `Forecast`: `consultar_clima` of `backend/clima_API.py`. The HTTP exchange
  is an input value.
- `CycleQueries`: the queries of `backend/decisao_irrigacao.py` in a cycle:
  the tariff lookup and the latest reading, made before deciding, and the
  max + 1 id, read when the decision is saved.
- `DecisionPolicy`: the decision chain of `processar_decisao`.
- `DecisionStore`: the class `Store`, which holds the log table, the history
  table, the AUTOINCREMENT counter and the CSV mirror. Its methods model
  `salvar_tudo_sincronizado` and `processar_decisao`.
- `HistoryWindow`: the class `WindowTable`, which models
  `atualizar_historico_clima` (insert, three-hour retention delete, one
  commit).
- `Cleaner`: the `run_etl` transform and the class `CleanDatabase`, whose
  table `run_etl` replaces.

Values the program gets from the outside world are parameters:

- the clock (`now`, `hour`, `clock`);
- the HTTP answers (`Forecast.Response`, `HistoryWindow.Current`);
- the contents of the CSV files, where None means the read raised;
- database and file failures: `DecisionStore.Fault` for the save, `readFails`
  for the query of the latest reading, and `dbFails` for the pipeline's
  transaction and for the cleaner's connect-and-write.

Behaviours of the code worth noting:

- The actions are only `LIGAR` and `AGUARDAR`. The special tariff label is
  `"Pico"`, and there is no separate maintenance action: moist soil gives
  `AGUARDAR` with the `MANUTENÇÃO` reason.
- A missing forecast does not lead to a fallback decision. Subscripting `None`
  at backend/decisao_irrigacao.py:112 raises outside any handler, so the cycle
  ends with nothing persisted (`CycleOutcome.ForecastMissing`).
- The forecast aggregates the first three entries of the hourly series,
  whichever hours they are. The request at backend/clima_API.py:10 asks for
  one forecast day with no start hour, and the provider's hourly series for a
  day begins at midnight. So the three entries are the first three hours of
  the day, not the next three hours that the function's docstring describes.
  `Forecast.Window` models the slicing as written.
- History ids are max + 1 of the current table. They are consecutive only
  while this engine is the sole writer (`CycleQueries.SuccessiveIds`). Rows
  loaded by the cleaner bring their own ids, which may leave gaps.

## Model

| member | source | states |
|---|---|---|
| CycleQueries.FirstLineFor | backend/decisao_irrigacao.py:35 | the index found is the first line whose `hora` is the hour; None exactly when no line has that hour |
| CycleQueries.TariffAt | backend/decisao_irrigacao.py:30-38 | the tier of the first line for the current hour; "Normal" when the schedule is unreadable or has no line for the hour |
| CycleQueries.Latest | backend/decisao_irrigacao.py:14-28 | None exactly when the table is empty; otherwise a row of the table whose timestamp no row's timestamp exceeds (text order, as `ORDER BY timestamp DESC`) |
| CycleQueries.MaxId | backend/decisao_irrigacao.py:47-48 | `MAX(id_leitura)` is NULL (None) exactly on an empty table |
| CycleQueries.MaxIdIsMaximum | backend/decisao_irrigacao.py:47-48 | on a non-empty table the maximum is some row's id and bounds every id |
| CycleQueries.NextIdIsMaxPlusOne | backend/decisao_irrigacao.py:47-49 | the next id exceeds every id present and is the largest id plus one, or 1 for an empty table |
| CycleQueries.NextIdAfterSave | backend/decisao_irrigacao.py:47-49 | appending the row that took the next id raises the next id by exactly one |
| CycleQueries.SuccessiveIds | backend/decisao_irrigacao.py:47-73 | k saves in a row starting from largest id n, with no other writer, take the ids n+1 … n+k |
| DecisionPolicy.Decide | backend/decisao_irrigacao.py:114-128 | moisture >= 30 gives AGUARDAR/MANUTENÇÃO; otherwise rain gives AGUARDAR/PREDITIVO quoting the volume; otherwise "Pico" gives AGUARDAR/ECONOMIA. LIGAR iff moisture < 30, no rain and tariff ≠ "Pico", and LIGAR iff the reason is EXECUÇÃO |
| DecisionPolicy.RainOverridesTariff | backend/decisao_irrigacao.py:119-123 | with dry soil and rain expected, the tariff does not change the decision |
| DecisionPolicy.MoistureOverridesAll | backend/decisao_irrigacao.py:119-128 | with moisture >= 30, neither the forecast nor the tariff changes the decision |
| DecisionPolicy.DrierStillIrrigates | backend/decisao_irrigacao.py:119-126 | if some moisture leads to LIGAR, any lower moisture does too, other inputs equal |
| DecisionStore.DecisionFor | backend/decisao_irrigacao.py:106-128 | the record copies the timestamp of now, the reading's moisture, the forecast volume and the tariff, and carries the action and reason the decision chain gives for them; LIGAR iff moisture < 30, no rain and tariff ≠ "Pico" |
| DecisionStore.Store.Save | backend/decisao_irrigacao.py:40-92 | a missing history or a failure before commit changes nothing. Otherwise one log row (next AUTOINCREMENT id) and one history row (max + 1 id) are appended; they share timestamp, moisture and rain. On success the CSV gains the history row's line, and a CSV failure keeps both database rows |
| DecisionStore.Store.ProcessDecision | backend/decisao_irrigacao.py:94-135 | a missing or empty history table, or a query of it that raises (`readFails`), ends the cycle (NoReading); a failed forecast after a good reading ends it too (ForecastMissing); in both cases nothing changes. Otherwise the decision is `DecisionFor` of the latest reading, forecast and tariff, saved as `Save` states |
| DecisionStore.TwoCycles | backend/decisao_irrigacao.py:47-49 | two clean cycles after largest id n report the ids n+1 and n+2 |
| Records.ToCsv | backend/decisao_irrigacao.py:79-86 | the mirror line has every cell filled and carries each value of the history row in the same column order |
| Records.FromCsv | etl/limpar_dados.py:25 | a line of the readings CSV reads as a row exactly when no cell is empty, and that row writes out to the same line (the inverse of `ToCsv`) |
| DecisionStore.HistoryRowOf | backend/decisao_irrigacao.py:68-73 | the inserted history row takes the new id and the decision's timestamp, moisture and rain volume, and copies sensor, crop, temperature, wind and radiation from the latest reading |
| Records.MirrorRoundTrip | backend/decisao_irrigacao.py:68-87 | the mirror line of a history row reads back as that row |
| Forecast.Window | backend/clima_API.py:18-19 | `[0:3]` is a prefix of length min(3, n) |
| Forecast.Consult | backend/clima_API.py:12-29 | None iff there is no connection, an HTTP error, a malformed body, or no temperature (the mean divides by zero). Otherwise the mean times the count is the sum of the first ≤ 3 temperatures and the volume is the sum of the first ≤ 3 precipitations. vai_chover iff that sum > 0.1; the probability is 100 iff the sum > 0.5 and 0 iff the sum <= 0.5 |
| Forecast.ProbabilityImpliesRain | backend/clima_API.py:24-25 | a probability of 100 comes with vai_chover |
| Forecast.OnlyFirstHoursUsed | backend/clima_API.py:18-19 | hours after the third never change the result |
| Forecast.MeanWithinRange | backend/clima_API.py:22 | the mean lies between any lower and upper bound of the aggregated temperatures |
| Forecast.VolumeNonNegative | backend/clima_API.py:23 | non-negative hourly precipitation gives a non-negative total |
| Timestamps.Format | etl/etl_pipeline.py:38 | a formatted timestamp has the fixed width 19 |
| Timestamps.TextOrderIsChronological | etl/etl_pipeline.py:94-99 | for valid datetimes, text order of the formatted strings is order of the moments, and equal strings mean equal datetimes |
| Timestamps.HoursBefore | etl/etl_pipeline.py:94 | `now - timedelta(hours=k)` is exactly k·3600 seconds earlier and valid; it fails (OverflowError) exactly when that would precede 0001-01-01 00:00:00 |
| HistoryWindow.NewRecord | etl/etl_pipeline.py:46-55 | the record carries the formatted clock time (19 characters), the given moisture, sensor and crop, the answer's temperature, wind and precipitation, the radiation placeholder 0.0, and the id the table assigns |
| HistoryWindow.Retained | etl/etl_pipeline.py:96-99 | after the delete no row is older than the limit |
| HistoryWindow.RetainedSpec | etl/etl_pipeline.py:96-99 | the kept rows are an in-order subsequence; a row is kept iff it is not older than the limit; the delete acts on each part of the table independently |
| HistoryWindow.RetentionIsTimeWindow | etl/etl_pipeline.py:94-99 | for a row stamped with a valid datetime, the text comparison keeps it iff it is at most three hours older than now |
| HistoryWindow.InsertThenPrune | etl/etl_pipeline.py:76-99 | insert-then-delete keeps ids strictly increasing and bounded by the sequence, equals pruning old rows and new row separately, and keeps the new row iff it is not older than the limit |
| HistoryWindow.WindowTable.CreateIfAbsent | etl/etl_pipeline.py:61-73 | creating an existing table changes neither its rows nor its sequence |
| HistoryWindow.WindowTable.Update | etl/etl_pipeline.py:43-102 | succeeds iff the weather answer exists, no database statement raises (`dbFails`) and now − 3 h does not overflow; otherwise nothing changes. On success exactly one record is inserted, with id one past the sequence and above every id present, the given moisture, sensor and crop (default 1) and radiation 0.0. Then the rows older than now − 3 h go; older rows are kept in order and the new row survives iff it is recent |
| Cleaner.DropNulls | etl/limpar_dados.py:31 | no kept line has an empty cell |
| Cleaner.KeepPlausible | etl/limpar_dados.py:34 | every kept line has a temperature <= 60 |
| Cleaner.Clean | etl/limpar_dados.py:31-34 | every output line is complete and has a temperature <= 60 |
| Cleaner.CleanIsSelection | etl/limpar_dados.py:31-34 | the output is an order-preserving subsequence of the input; a line is kept iff it is complete with temperature <= 60 |
| Cleaner.CleanIdempotent | etl/limpar_dados.py:31-34 | cleaning cleaned data changes nothing |
| Cleaner.MirroredLineCleaning | etl/limpar_dados.py:31-34 | a mirror line written by the decision engine survives cleaning iff its temperature is <= 60 |
| Cleaner.CleanDatabase.RunEtl | etl/limpar_dados.py:16-45 | succeeds iff all three files are read and neither connecting nor `to_sql` raises (`dbFails`); then the table is the cleaned readings, whatever it held before; otherwise the database is untouched |
| Cleaner.RerunIsStable | etl/limpar_dados.py:40 | two runs over the same files leave the cleaned readings, whatever was stored before |

## Left out

- The HTTP requests to Open-Meteo are left out. Both forecast answers are input values: the hourly series in `Forecast.Response` and the `current` block in `HistoryWindow.Current`.
- `datetime.now()` is left out: the hour and the moments are parameters. Microseconds are not modelled, and neither are years outside 1..9999.
- `Timestamps.Format`: the year is always zero-padded to four digits. Python builds that hand `%Y` to the C library without padding would print years 1..999 with fewer digits, and there `TextOrderIsChronological` would not hold. Only the padded form is modelled.
- `round(...)` and floating point are left out. The model uses exact reals, so the mean and the volume are the unrounded values.
- `Decide`: the `PREDITIVO` reason keeps the forecast volume as a number (`Preditivo(volume)`) rather than the text `f"PREDITIVO: Chuva de {volume}mm em breve."`, because float-to-text rendering is not modelled. The other reasons are the tags `Economia`, `Execucao` and `Manutencao` for their fixed texts.
- `Forecast.Consult`:
  - A series containing `null` (which would make `sum` raise) is not modelled. Series are sequences of reals, and a malformed body is `body == None`.
  - A NaN in the series is not modelled.
- `Cleaner.CleanDatabase.RunEtl`:
  - Non-numeric cells are not modelled; a cell is either a value or empty.
  - A partial failure inside `to_sql` is not modelled.
  - The replaced table's column types (no AUTOINCREMENT key) are not modelled.
- `DecisionStore.Store.Save`: everything before `commit()` is one atomic step. sqlite3's implicit-transaction rules are not modelled, so a `CREATE TABLE` that commits on its own before a later failure is not captured. `HistoryWindow.WindowTable.Update` is treated the same way.
- `CycleQueries.Latest`: when several rows share the greatest timestamp, SQLite may return any of them. The model returns the first in table order, and its contract only promises some row with a maximal timestamp.
- A NaN moisture is not modelled. In the source it compares false with 30, which leads to the `MANUTENÇÃO` branch.
- The three scripts are modelled on separate stores, so the identity of the database files they open is not captured. etl/etl_pipeline.py:9 names a different file from the other two.
- Several writers at once are not modelled: concurrent cycles could race on max + 1, and the model assumes a single writer.
- The Streamlit dashboard (app.py), the simulation script (backend/testar_sistema.py) and all console output are not part of this model.
