/**
 * One evaluation cycle of the decision engine and its persistence: the
 * decision log, the climate history it extends, and the CSV mirror of that
 * history.
 */
module DecisionStore {
  import opened Wrappers
  import opened Timestamps
  import opened Records
  import opened CycleQueries
  import opened DecisionPolicy
  import Forecast

  /** The `decisao` dictionary built in one cycle. */
  datatype Decision = Decision(
    timestamp: string,
    umidadeSolo: real,
    volumeChuva: real,
    tarifa: string,
    acao: Action,
    motivo: Reason)

  /** A row of `logs_decisao`. */
  datatype LogRow = LogRow(
    id: int,
    timestamp: string,
    umidadeSolo: real,
    previsaoChuva: real,
    tarifa: string,
    acao: string,
    motivo: Reason)

  /**
   * Where a save can break: a database error before the commit (the whole
   * transaction is lost), or the CSV append after the commit.
   */
  datatype Fault = NoFault | DatabaseFault | CsvFault

  /** How a save ended: all three writes, the database only, or nothing. */
  datatype SaveStatus = Synced(id: int) | MirrorStale(id: int) | NotSaved

  /** How a cycle ended. */
  datatype CycleOutcome =
    | NoReading                // the history is empty or unreadable: nothing is decided
    | ForecastMissing          // the forecast failed: the cycle raises before saving
    | Decided(decision: Decision, status: SaveStatus)

  /**
   * The history row a save inserts: the decision's time, moisture and rain
   * under the new id, and the reading's sensor, crop, temperature, wind and
   * radiation.
   */
  function HistoryRowOf(id: int, d: Decision, reading: ClimateRow): (row: ClimateRow)
    ensures row.idLeitura == id && row.timestamp == d.timestamp
    ensures row.umidadeSolo == d.umidadeSolo && row.chuvaMm == d.volumeChuva
    ensures row.idSensor == reading.idSensor && row.idCultura == reading.idCultura
    ensures row.tempAmbiente == reading.tempAmbiente && row.ventoKmh == reading.ventoKmh
    ensures row.radiacaoSolar == reading.radiacaoSolar
  {
    ClimateRow(id, d.timestamp, reading.idSensor, reading.idCultura, d.umidadeSolo,
               reading.tempAmbiente, reading.ventoKmh, reading.radiacaoSolar, d.volumeChuva)
  }

  /** The log row and the history row of one save describe the same moment, moisture and rain. */
  predicate Paired(log: LogRow, row: ClimateRow) {
    log.timestamp == row.timestamp && log.umidadeSolo == row.umidadeSolo && log.previsaoChuva == row.chuvaMm
  }

  /** The decision a cycle builds from its three inputs. */
  function DecisionFor(now: DateTime, reading: ClimateRow, clima: Forecast.Summary, tarifa: string): (d: Decision)
    ensures d.timestamp == Format(now) && d.umidadeSolo == reading.umidadeSolo
    ensures d.volumeChuva == clima.volumeChuvaTotal && d.tarifa == tarifa
    ensures Verdict(d.acao, d.motivo) == Decide(reading.umidadeSolo, clima, tarifa)
    ensures d.acao == Ligar <==>
      reading.umidadeSolo < MoistureThreshold && !clima.vaiChover && tarifa != PeakTariff
  {
    var v := Decide(reading.umidadeSolo, clima, tarifa);
    Decision(Format(now), reading.umidadeSolo, clima.volumeChuvaTotal, tarifa, v.acao, v.motivo)
  }

  predicate LogIdsIncreasing(logs: seq<LogRow>) {
    forall i, j :: 0 <= i < j < |logs| ==> logs[i].id < logs[j].id
  }

  /** The engine's database and mirror file. */
  class Store {
    /** `historico_clima`; None while the table does not exist. */
    var history: Option<seq<ClimateRow>>
    /** `logs_decisao`; None until its first `CREATE TABLE IF NOT EXISTS`. */
    var logs: Option<seq<LogRow>>
    /** The `sqlite_sequence` entry of `logs_decisao`. */
    var logSeq: nat
    /** The raw readings CSV the mirror lines are appended to. */
    var csv: seq<CsvRow>

    ghost predicate Valid()
      reads this
    {
      (logs.None? ==> logSeq == 0) &&
      (logs.Some? ==> (forall i :: 0 <= i < |logs.value| ==> 0 < logs.value[i].id <= logSeq) &&
                      LogIdsIncreasing(logs.value))
    }

    function LogRows(): seq<LogRow>
      reads this
    {
      if logs.Some? then logs.value else []
    }

    constructor (history0: Option<seq<ClimateRow>>, csv0: seq<CsvRow>)
      ensures Valid()
      ensures history == history0 && logs == None && logSeq == 0 && csv == csv0
    {
      history, logs, logSeq, csv := history0, None, 0, csv0;
    }

    /**
     * `salvar_tudo_sincronizado`: id = max + 1, one log row, one history row,
     * commit, then one mirror line.  Before the commit a failure loses
     * everything; a CSV failure after it keeps both database rows.
     */
    method Save(d: Decision, reading: ClimateRow, fault: Fault) returns (status: SaveStatus)
      requires Valid()
      modifies this
      ensures Valid()
      ensures old(history).None? || fault == DatabaseFault ==>
        status == NotSaved && history == old(history) && logs == old(logs) && logSeq == old(logSeq) && csv == old(csv)
      ensures old(history).Some? && fault != DatabaseFault ==>
        var id := NextId(old(history).value);
        var row := HistoryRowOf(id, d, reading);
        var log := LogRow(old(logSeq) + 1, d.timestamp, d.umidadeSolo, d.volumeChuva, d.tarifa, ActionLabel(d.acao), d.motivo);
        Paired(log, row) &&
        history == Some(old(history).value + [row]) &&
        logs == Some(old(LogRows()) + [log]) && logSeq == old(logSeq) + 1 &&
        (fault == NoFault ==> status == Synced(id) && csv == old(csv) + [ToCsv(row)]) &&
        (fault == CsvFault ==> status == MirrorStale(id) && csv == old(csv))
    {
      if history.None? || fault == DatabaseFault {
        // MAX() on a missing table, or any other error before commit(): rolled back.
        return NotSaved;
      }
      var rows := history.value;
      var proximoId := NextId(rows);
      var existing := LogRows();
      var log := LogRow(logSeq + 1, d.timestamp, d.umidadeSolo, d.volumeChuva, d.tarifa, ActionLabel(d.acao), d.motivo);
      logs := Some(existing + [log]);
      logSeq := logSeq + 1;
      var row := HistoryRowOf(proximoId, d, reading);
      history := Some(rows + [row]);
      if fault == CsvFault {
        return MirrorStale(proximoId);
      }
      csv := csv + [ToCsv(row)];
      status := Synced(proximoId);
    }

    /**
     * `processar_decisao`: latest reading, forecast, tariff, decision, save.
     * `weather` is the forecast service's answer, `schedule` the tariff file
     * (None: unreadable), `hour` and `now` the clock.
     */
    method ProcessDecision(weather: Forecast.Response, schedule: Option<seq<TariffRow>>, hour: int,
                           now: DateTime, readFails: bool, fault: Fault)
      returns (outcome: CycleOutcome)
      requires Valid()
      modifies this
      ensures Valid()
      ensures outcome.NoReading? <==> readFails || old(history).None? || old(history).value == []
      ensures outcome.ForecastMissing? <==>
        !readFails && old(history).Some? && old(history).value != [] && Forecast.Consult(weather).None?
      ensures !outcome.Decided? ==>
        history == old(history) && logs == old(logs) && logSeq == old(logSeq) && csv == old(csv)
      ensures outcome.Decided? ==>
        var latest := Latest(old(history).value).value;
        var d := DecisionFor(now, latest, Forecast.Consult(weather).value, TariffAt(schedule, hour));
        var id := NextId(old(history).value);
        outcome.decision == d &&
        (fault == DatabaseFault ==> outcome.status == NotSaved && history == old(history) &&
                                    logs == old(logs) && logSeq == old(logSeq) && csv == old(csv)) &&
        (fault != DatabaseFault ==>
          history == Some(old(history).value + [HistoryRowOf(id, d, latest)]) &&
          logs == Some(old(LogRows()) + [LogRow(old(logSeq) + 1, d.timestamp, d.umidadeSolo, d.volumeChuva,
                                                d.tarifa, ActionLabel(d.acao), d.motivo)]) &&
          logSeq == old(logSeq) + 1) &&
        (fault == NoFault ==> outcome.status == Synced(id) && csv == old(csv) + [ToCsv(HistoryRowOf(id, d, latest))]) &&
        (fault == CsvFault ==> outcome.status == MirrorStale(id) && csv == old(csv))
    {
      // The query raises on a missing table or any other database error; the handler answers None.
      var dadosReais := if history.Some? && !readFails then Latest(history.value) else None;
      if dadosReais.None? {
        return NoReading;
      }
      var clima := Forecast.Consult(weather);
      var tarifa := TariffAt(schedule, hour);
      if clima.None? {
        // Subscripting None raises TypeError: the cycle ends before anything is written.
        return ForecastMissing;
      }
      var decisao := DecisionFor(now, dadosReais.value, clima.value, tarifa);
      var status := Save(decisao, dadosReais.value, fault);
      outcome := Decided(decisao, status);
    }
  }

  /** Two clean cycles in a row after the largest id n take the ids n + 1 and n + 2. */
  method TwoCycles(s: Store, n: int, weather: Forecast.Response, schedule: Option<seq<TariffRow>>, hour: int,
                   now1: DateTime, now2: DateTime)
    returns (first: SaveStatus, second: SaveStatus)
    requires s.Valid() && s.history.Some? && s.history.value != [] && Forecast.Consult(weather).Some?
    requires NextId(s.history.value) == n + 1
    modifies s
    ensures first == Synced(n + 1) && second == Synced(n + 2)
  {
    ghost var h0 := s.history.value;
    var outcome := s.ProcessDecision(weather, schedule, hour, now1, false, NoFault);
    first := outcome.status;
    ghost var saved := HistoryRowOf(n + 1, outcome.decision, Latest(h0).value);
    assert s.history.value == h0 + [saved];
    NextIdAfterSave(h0, saved);
    outcome := s.ProcessDecision(weather, schedule, hour, now2, false, NoFault);
    second := outcome.status;
  }
}
