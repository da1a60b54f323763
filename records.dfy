/**
 * Row shapes shared by the irrigation engine's stores: the `historico_clima`
 * schema, both as stored (every column filled) and as read back from the raw
 * CSV file (any cell may be empty).
 */
module Records {
  import opened Wrappers

  /** A row of `historico_clima`; the timestamp is the `%Y-%m-%d %H:%M:%S` text. */
  datatype ClimateRow = ClimateRow(
    idLeitura: int,
    timestamp: string,
    idSensor: int,
    idCultura: int,
    umidadeSolo: real,
    tempAmbiente: real,
    ventoKmh: real,
    radiacaoSolar: real,
    chuvaMm: real)

  /** A line of the raw readings CSV, in the same column order; None is an empty (NaN) cell. */
  datatype CsvRow = CsvRow(
    idLeitura: Option<int>,
    timestamp: Option<string>,
    idSensor: Option<int>,
    idCultura: Option<int>,
    umidadeSolo: Option<real>,
    tempAmbiente: Option<real>,
    ventoKmh: Option<real>,
    radiacaoSolar: Option<real>,
    chuvaMm: Option<real>)

  /** The mirror line `salvar_tudo_sincronizado` appends for a history row: the same values, same order. */
  function ToCsv(r: ClimateRow): (c: CsvRow)
    ensures Complete(c)
    ensures c.idLeitura.value == r.idLeitura && c.timestamp.value == r.timestamp
    ensures c.idSensor.value == r.idSensor && c.idCultura.value == r.idCultura
    ensures c.umidadeSolo.value == r.umidadeSolo && c.tempAmbiente.value == r.tempAmbiente
    ensures c.ventoKmh.value == r.ventoKmh && c.radiacaoSolar.value == r.radiacaoSolar && c.chuvaMm.value == r.chuvaMm
  {
    CsvRow(Some(r.idLeitura), Some(r.timestamp), Some(r.idSensor), Some(r.idCultura), Some(r.umidadeSolo),
           Some(r.tempAmbiente), Some(r.ventoKmh), Some(r.radiacaoSolar), Some(r.chuvaMm))
  }

  /** A CSV line has no empty cell. */
  predicate Complete(c: CsvRow) {
    c.idLeitura.Some? && c.timestamp.Some? && c.idSensor.Some? && c.idCultura.Some? &&
    c.umidadeSolo.Some? && c.tempAmbiente.Some? && c.ventoKmh.Some? && c.radiacaoSolar.Some? && c.chuvaMm.Some?
  }

  /** Reading a line of the readings CSV as a history row; None when a cell is empty. */
  function FromCsv(c: CsvRow): (r: Option<ClimateRow>)
    ensures r.Some? <==> Complete(c)
    ensures r.Some? ==> ToCsv(r.value) == c
  {
    if Complete(c) then
      Some(ClimateRow(c.idLeitura.value, c.timestamp.value, c.idSensor.value, c.idCultura.value,
                      c.umidadeSolo.value, c.tempAmbiente.value, c.ventoKmh.value, c.radiacaoSolar.value,
                      c.chuvaMm.value))
    else None
  }

  /** A mirror line carries every value of its history row: reading it back gives the row. */
  lemma MirrorRoundTrip(r: ClimateRow)
    ensures FromCsv(ToCsv(r)) == Some(r)
  {
  }
}
