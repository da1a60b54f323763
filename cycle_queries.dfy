/**
 * The queries of a decision cycle: the tariff lookup and the latest reading
 * of the history, made before deciding, and the max + 1 id the next history
 * row takes, read when the decision is saved.
 */
module CycleQueries {
  import opened Wrappers
  import opened Timestamps
  import opened Records

  /** The tariff assumed when the schedule has no answer. */
  const DefaultTariff: string := "Normal"

  /** One line of the tariff schedule: hour of day and its tier label. */
  datatype TariffRow = TariffRow(hora: int, tipo: string)

  /** The index of the first schedule line for `hour`, if any. */
  function FirstLineFor(rows: seq<TariffRow>, hour: int): (r: Option<nat>)
    ensures r.None? <==> forall i :: 0 <= i < |rows| ==> rows[i].hora != hour
    ensures r.Some? ==>
      r.value < |rows| && rows[r.value].hora == hour &&
      forall j :: 0 <= j < r.value ==> rows[j].hora != hour
  {
    if rows == [] then None
    else if rows[0].hora == hour then Some(0)
    else match FirstLineFor(rows[1..], hour)
      case None => None
      case Some(k) => Some(k + 1)
  }

  /**
   * `verificar_tarifa_atual`: the tier of the first line whose hour is the
   * current hour; "Normal" if the schedule cannot be read or has no such line.
   */
  function TariffAt(schedule: Option<seq<TariffRow>>, hour: int): (tipo: string)
    ensures schedule.None? ==> tipo == DefaultTariff
    ensures schedule.Some? && (forall i :: 0 <= i < |schedule.value| ==> schedule.value[i].hora != hour) ==>
      tipo == DefaultTariff
    ensures forall i ::
      (schedule.Some? && 0 <= i < |schedule.value| && schedule.value[i].hora == hour &&
       forall j :: 0 <= j < i ==> schedule.value[j].hora != hour)
      ==> tipo == schedule.value[i].tipo
  {
    match schedule
    case None => DefaultTariff
    case Some(rows) =>
      match FirstLineFor(rows, hour)
      case None => DefaultTariff
      case Some(i) => rows[i].tipo
  }

  /**
   * `ORDER BY timestamp DESC LIMIT 1`: a row whose timestamp no other row's
   * exceeds (the first such row when several share it); None for no rows.
   */
  function Latest(rows: seq<ClimateRow>): (r: Option<ClimateRow>)
    ensures r.None? <==> rows == []
    ensures r.Some? ==> r.value in rows
    ensures r.Some? ==> forall i :: 0 <= i < |rows| ==> !TextLess(r.value.timestamp, rows[i].timestamp)
  {
    if rows == [] then None
    else match Latest(rows[1..])
      case None =>
        TextLessIrreflexive(rows[0].timestamp);
        Some(rows[0])
      case Some(m) =>
        if TextLess(rows[0].timestamp, m.timestamp) then
          TextLessAsymmetric(rows[0].timestamp, m.timestamp);
          assert forall i :: 1 <= i < |rows| ==> rows[i] == rows[1..][i - 1];
          Some(m)
        else
          assert forall i :: 1 <= i < |rows| ==> !TextLess(rows[0].timestamp, rows[i].timestamp) by {
            forall i | 1 <= i < |rows|
              ensures !TextLess(rows[0].timestamp, rows[i].timestamp)
            {
              assert rows[i] == rows[1..][i - 1];
              TextLessTotal(rows[0].timestamp, m.timestamp);
              if TextLess(rows[0].timestamp, rows[i].timestamp) {
                if m.timestamp != rows[i].timestamp {
                  TextLessTotal(m.timestamp, rows[i].timestamp);
                  TextLessTransitive(m.timestamp, rows[0].timestamp, rows[i].timestamp);
                }
              }
            }
          }
          TextLessIrreflexive(rows[0].timestamp);
          Some(rows[0])
  }

  /** `SELECT MAX(id_leitura)`: None (SQL NULL) on an empty table. */
  function MaxId(rows: seq<ClimateRow>): (m: Option<int>)
    ensures m.None? <==> rows == []
  {
    if rows == [] then None
    else match MaxId(rows[..|rows| - 1])
      case None => Some(rows[|rows| - 1].idLeitura)
      case Some(k) =>
        var last := rows[|rows| - 1].idLeitura;
        Some(if last > k then last else k)
  }

  /** MAX is attained by some row and bounds every row. */
  lemma {:induction false} MaxIdIsMaximum(rows: seq<ClimateRow>)
    requires rows != []
    ensures exists i :: 0 <= i < |rows| && rows[i].idLeitura == MaxId(rows).value
    ensures forall i :: 0 <= i < |rows| ==> rows[i].idLeitura <= MaxId(rows).value
  {
    var front := rows[..|rows| - 1];
    assert forall i :: 0 <= i < |rows| - 1 ==> rows[i] == front[i];
    if front != [] {
      MaxIdIsMaximum(front);
      var j :| 0 <= j < |front| && front[j].idLeitura == MaxId(front).value;
      assert rows[j] == front[j];
    }
  }

  /** The id `salvar_tudo_sincronizado` gives the next history row: max + 1, or 1 for an empty table. */
  function NextId(rows: seq<ClimateRow>): int {
    match MaxId(rows)
    case None => 1
    case Some(m) => m + 1
  }

  /** The next id exceeds every id present, and is exactly one past the largest (1 for an empty table). */
  lemma NextIdIsMaxPlusOne(rows: seq<ClimateRow>)
    ensures forall i :: 0 <= i < |rows| ==> rows[i].idLeitura < NextId(rows)
    ensures rows == [] ==> NextId(rows) == 1
    ensures rows != [] ==> exists i :: 0 <= i < |rows| && rows[i].idLeitura == NextId(rows) - 1
  {
    if rows != [] {
      MaxIdIsMaximum(rows);
    }
  }

  /** Appending a row that carries the next id moves the next id up by exactly one. */
  lemma NextIdAfterSave(rows: seq<ClimateRow>, row: ClimateRow)
    requires row.idLeitura == NextId(rows)
    ensures NextId(rows + [row]) == NextId(rows) + 1
  {
  }

  /**
   * k saves in a row, each taking the next id of the table as it then is,
   * with no other writer: the ids are n + 1, ..., n + k for the starting max n.
   */
  lemma {:induction false} SuccessiveIds(rows: seq<ClimateRow>, added: seq<ClimateRow>)
    requires forall i :: 0 <= i < |added| ==> added[i].idLeitura == NextId(rows + added[..i])
    ensures forall i :: 0 <= i < |added| ==> added[i].idLeitura == NextId(rows) + i
    ensures NextId(rows + added) == NextId(rows) + |added|
  {
    if added != [] {
      var k := |added| - 1;
      var front := added[..k];
      forall i | 0 <= i < |front|
        ensures front[i].idLeitura == NextId(rows + front[..i])
      {
        assert front[i] == added[i] && front[..i] == added[..i];
      }
      SuccessiveIds(rows, front);
      assert added == front + [added[k]];
      SaveAfter(rows, front, added[k]);
    } else {
      assert rows + added == rows;
    }
  }

  /** One more save after a run of saves with successive ids extends the run by one id. */
  lemma SaveAfter(rows: seq<ClimateRow>, front: seq<ClimateRow>, last: ClimateRow)
    requires forall i :: 0 <= i < |front| ==> front[i].idLeitura == NextId(rows) + i
    requires NextId(rows + front) == NextId(rows) + |front|
    requires last.idLeitura == NextId(rows + front)
    ensures forall i :: 0 <= i < |front| + 1 ==> (front + [last])[i].idLeitura == NextId(rows) + i
    ensures NextId(rows + (front + [last])) == NextId(rows) + |front| + 1
  {
    NextIdAfterSave(rows + front, last);
    assert rows + (front + [last]) == rows + front + [last];
  }
}
