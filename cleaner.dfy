/**
 * The ETL cleaner: the raw readings CSV, stripped of incomplete lines and of
 * sensor-fault temperatures, replaces the `historico_clima` table wholesale.
 */
module Cleaner {
  import opened Wrappers
  import opened Records
  import opened Seqs

  /** Ambient temperatures above this (°C) are treated as sensor noise. */
  const MaxPlausibleTemp: real := 60.0

  /** The `<= 60` mask; an empty cell compares false, as NaN does. */
  predicate Plausible(c: CsvRow) {
    c.tempAmbiente.Some? && c.tempAmbiente.value <= MaxPlausibleTemp
  }

  predicate Acceptable(c: CsvRow) {
    Complete(c) && Plausible(c)
  }

  /** `dropna()`: the lines with no empty cell, in order. */
  function DropNulls(rows: seq<CsvRow>): (r: seq<CsvRow>)
    ensures forall i :: 0 <= i < |r| ==> Complete(r[i])
  {
    Filter(rows, Complete)
  }

  /** `df[df['temp_ambiente'] <= 60]`. */
  function KeepPlausible(rows: seq<CsvRow>): (r: seq<CsvRow>)
    ensures forall i :: 0 <= i < |r| ==> Plausible(r[i])
  {
    Filter(rows, Plausible)
  }

  /** The transform of `run_etl`: both filters, in the order the source applies them. */
  function Clean(rows: seq<CsvRow>): (r: seq<CsvRow>)
    ensures forall i :: 0 <= i < |r| ==> Complete(r[i]) && Plausible(r[i])
  {
    var complete := DropNulls(rows);
    FilterKeepsProperty(complete, Plausible, Complete);
    KeepPlausible(complete)
  }

  /**
   * The cleaned rows are an order-preserving subsequence of the input, and a
   * line is kept exactly when it has no empty cell and a plausible temperature.
   */
  lemma CleanIsSelection(rows: seq<CsvRow>)
    ensures Clean(rows) == Filter(rows, Acceptable)
    ensures IsSubsequence(Clean(rows), rows)
    ensures forall c :: c in Clean(rows) <==> c in rows && Complete(c) && Plausible(c)
  {
    FilterFusion(rows, Complete, Plausible, Acceptable);
    FilterIsSubsequence(rows, Acceptable);
    forall c
      ensures c in Clean(rows) <==> c in rows && Complete(c) && Plausible(c)
    {
      FilterMembership(rows, Acceptable, c);
    }
  }

  /** Cleaning clean data changes nothing. */
  lemma CleanIdempotent(rows: seq<CsvRow>)
    ensures Clean(Clean(rows)) == Clean(rows)
  {
    CleanIsSelection(rows);
    CleanIsSelection(Clean(rows));
    FilterIdempotent(rows, Acceptable);
  }

  /** A line the decision engine mirrors survives cleaning exactly when its temperature is plausible. */
  lemma MirroredLineCleaning(r: ClimateRow)
    ensures Clean([ToCsv(r)]) == if r.tempAmbiente <= MaxPlausibleTemp then [ToCsv(r)] else []
  {
  }

  /** The SQLite file the cleaner loads into. */
  class CleanDatabase {
    /** `historico_clima`; None while the table does not exist. */
    var historico: Option<seq<CsvRow>>

    constructor (initial: Option<seq<CsvRow>>)
      ensures historico == initial
    {
      historico := initial;
    }

    /**
     * `run_etl`: read the three CSV files (None: the read raised), clean the
     * readings, replace the table.  A failed read, or `dbFails` (connecting or
     * writing raised), leaves the database alone.
     */
    method RunEtl(culturas: Option<seq<seq<string>>>, tarifas: Option<seq<seq<string>>>, leituras: Option<seq<CsvRow>>,
                  dbFails: bool)
      returns (ok: bool)
      modifies this
      ensures ok <==> culturas.Some? && tarifas.Some? && leituras.Some? && !dbFails
      ensures ok ==> historico == Some(Clean(leituras.value))
      ensures !ok ==> historico == old(historico)
    {
      if culturas.None? || tarifas.None? || leituras.None? {
        return false;
      }
      var frame := leituras.value;
      frame := DropNulls(frame);
      frame := KeepPlausible(frame);
      if dbFails {
        return false;
      }
      historico := Some(frame);
      ok := true;
    }
  }

  /** Two runs over the same files leave the same table, whatever was stored before. */
  method RerunIsStable(db: CleanDatabase, culturas: seq<seq<string>>, tarifas: seq<seq<string>>, leituras: seq<CsvRow>)
    modifies db
    ensures db.historico == Some(Clean(leituras))
  {
    var first := db.RunEtl(Some(culturas), Some(tarifas), Some(leituras), false);
    var after := db.historico;
    var second := db.RunEtl(Some(culturas), Some(tarifas), Some(leituras), false);
    assert first && second && db.historico == after;
  }
}
