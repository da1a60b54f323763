/**
 * The sliding-window climate history of the ETL pipeline: each call inserts
 * one observation under an AUTOINCREMENT key and then deletes every row older
 * than three hours before now, in one transaction.
 */
module HistoryWindow {
  import opened Wrappers
  import opened Timestamps
  import opened Records
  import opened Seqs

  /** Rows older than this many hours before now are deleted. */
  const RetentionHours: nat := 3
  const DefaultSensor: int := 1
  const DefaultCrop: int := 1
  /** Solar radiation is not measured; every record carries this placeholder. */
  const RadiationPlaceholder: real := 0.0

  /** The `current` block of the weather service's answer. */
  datatype Current = Current(temperature: real, precipitation: real, windSpeed: real)

  /** The row inserted for one observation, under the id the table assigns. */
  function NewRecord(id: int, umidade: real, idSensor: int, idCultura: int, current: Current, clock: DateTime)
    : (r: ClimateRow)
    ensures r.idLeitura == id && r.timestamp == Format(clock) && |r.timestamp| == 19
    ensures r.idSensor == idSensor && r.idCultura == idCultura && r.umidadeSolo == umidade
    ensures r.tempAmbiente == current.temperature && r.ventoKmh == current.windSpeed
    ensures r.chuvaMm == current.precipitation && r.radiacaoSolar == RadiationPlaceholder
  {
    ClimateRow(id, Format(clock), idSensor, idCultura, umidade,
               current.temperature, current.windSpeed, RadiationPlaceholder, current.precipitation)
  }

  /** Survives `DELETE ... WHERE timestamp < limite`. */
  predicate Recent(r: ClimateRow, limite: string) {
    !TextLess(r.timestamp, limite)
  }

  /**
   * What the retention delete leaves: the rows not older than `limite`, in
   * order.  This is `Seqs.Filter` by `Recent` (`RetainedIsFilter`), written
   * out by direct recursion because the generic filter's predicate argument
   * makes the proofs about `WindowTable.Update` much more expensive.
   */
  function Retained(rows: seq<ClimateRow>, limite: string): (kept: seq<ClimateRow>)
    ensures forall i :: 0 <= i < |kept| ==> !TextLess(kept[i].timestamp, limite)
  {
    if rows == [] then []
    else (if Recent(rows[0], limite) then [rows[0]] else []) + Retained(rows[1..], limite)
  }

  /** The delete is the generic order-preserving filter by `Recent`. */
  lemma {:induction false} RetainedIsFilter(rows: seq<ClimateRow>, limite: string)
    ensures Retained(rows, limite) == Filter(rows, (r: ClimateRow) => Recent(r, limite))
  {
    if rows != [] {
      RetainedIsFilter(rows[1..], limite);
    }
  }

  /**
   * Only older rows go: the kept rows are an in-order subsequence, a row is
   * kept exactly when it is not older than the limit, and the delete acts on
   * each part of the table independently.
   */
  lemma RetainedSpec(rows: seq<ClimateRow>, added: seq<ClimateRow>, limite: string)
    ensures IsSubsequence(Retained(rows, limite), rows)
    ensures forall r :: r in Retained(rows, limite) <==> r in rows && !TextLess(r.timestamp, limite)
    ensures Retained(rows + added, limite) == Retained(rows, limite) + Retained(added, limite)
  {
    var p := (r: ClimateRow) => Recent(r, limite);
    RetainedIsFilter(rows, limite);
    RetainedIsFilter(added, limite);
    RetainedIsFilter(rows + added, limite);
    FilterIsSubsequence(rows, p);
    FilterAppend(rows, added, p);
    forall r
      ensures r in Retained(rows, limite) <==> r in rows && !TextLess(r.timestamp, limite)
    {
      FilterMembership(rows, p, r);
    }
  }

  /**
   * For rows stamped with valid timestamps, the text comparison of the delete
   * keeps exactly the rows from the last three hours (now - 3 h included).
   */
  lemma RetentionIsTimeWindow(r: ClimateRow, stamp: DateTime, now: DateTime)
    requires ValidDateTime(stamp) && ValidDateTime(now) && r.timestamp == Format(stamp)
    requires HoursBefore(now, RetentionHours).Some?
    ensures Recent(r, Format(HoursBefore(now, RetentionHours).value)) <==>
      Seconds(stamp) >= Seconds(now) - RetentionHours * 3600
  {
    TextOrderIsChronological(stamp, HoursBefore(now, RetentionHours).value);
  }

  predicate IdsIncreasing(rows: seq<ClimateRow>) {
    forall i, j :: 0 <= i < j < |rows| ==> rows[i].idLeitura < rows[j].idLeitura
  }

  /** Every id is positive and no larger than the sequence value `last`. */
  predicate IdsWithin(rows: seq<ClimateRow>, last: nat) {
    forall i :: 0 <= i < |rows| ==> 0 < rows[i].idLeitura <= last
  }

  /** The table's invariant: no table means no rows and a zero sequence; ids are increasing and within the sequence. */
  predicate TableInvariant(created: bool, rows: seq<ClimateRow>, last: nat) {
    (!created ==> rows == [] && last == 0) && IdsWithin(rows, last) && IdsIncreasing(rows)
  }

  /** The delete keeps ids increasing and within the sequence. */
  lemma PruneKeepsIds(rows: seq<ClimateRow>, limite: string, last: nat)
    requires IdsWithin(rows, last) && IdsIncreasing(rows)
    ensures IdsWithin(Retained(rows, limite), last) && IdsIncreasing(Retained(rows, limite))
  {
    var p := (r: ClimateRow) => Recent(r, limite);
    RetainedIsFilter(rows, limite);
    FilterKeepsIncreasing(rows, p, (r: ClimateRow) => r.idLeitura);
    FilterKeepsProperty(rows, p, (r: ClimateRow) => 0 < r.idLeitura <= last);
  }

  /**
   * `after` is `before` with `record` inserted and every row stamped before
   * `limite` deleted: the new row's id exceeds every old id, the old rows and
   * the new row are each kept exactly when recent, and the new row survives
   * exactly when it is recent.
   */
  predicate InsertedAndPruned(before: seq<ClimateRow>, record: ClimateRow, limite: string, after: seq<ClimateRow>) {
    (forall i :: 0 <= i < |before| ==> before[i].idLeitura < record.idLeitura) &&
    after == Retained(before, limite) + Retained([record], limite) &&
    (record in after <==> !TextLess(record.timestamp, limite))
  }

  /**
   * Insert-then-prune keeps the table's invariant for the new sequence
   * value, and the inserted row survives exactly when it is recent.
   */
  lemma InsertThenPrune(created: bool, rows: seq<ClimateRow>, record: ClimateRow, limite: string, last: nat)
    requires TableInvariant(created, rows, last) && record.idLeitura == last + 1
    ensures TableInvariant(true, Retained(rows + [record], limite), last + 1)
    ensures InsertedAndPruned(rows, record, limite, Retained(rows + [record], limite))
  {
    var inserted := rows + [record];
    assert IdsWithin(inserted, last + 1) && IdsIncreasing(inserted);
    PruneKeepsIds(inserted, limite, last + 1);
    RetainedSpec(rows, [record], limite);
    RetainedIsFilter(inserted, limite);
    FilterMembership(inserted, (r: ClimateRow) => Recent(r, limite), record);
  }

  /** The `historico_clima` table of the pipeline's database. */
  class WindowTable {
    /** Whether `CREATE TABLE` has run. */
    var created: bool
    var rows: seq<ClimateRow>
    /** The table's `sqlite_sequence` entry: the largest id ever assigned (0 for none). */
    var lastId: nat

    ghost predicate Valid()
      reads this
    {
      TableInvariant(created, rows, lastId)
    }

    constructor ()
      ensures Valid() && !created && rows == [] && lastId == 0
    {
      created, rows, lastId := false, [], 0;
    }

    /** `CREATE TABLE IF NOT EXISTS`: an existing table keeps its rows and its sequence. */
    method CreateIfAbsent()
      requires Valid()
      modifies this
      ensures Valid() && created
      ensures rows == old(rows) && lastId == old(lastId)
    {
      created := true;
    }

    /**
     * `atualizar_historico_clima`.  `current` is the weather service's answer
     * (None: the request raised), `clock` the moment it was stamped and `now`
     * the moment the retention limit is taken.  Insert and delete commit
     * together: when any step raises, nothing changes.
     */
    method Update(umidade: real, current: Option<Current>, clock: DateTime, now: DateTime, dbFails: bool,
                  idSensor: int := DefaultSensor, idCultura: int := DefaultCrop)
      returns (ok: bool)
      requires Valid()
      modifies this
      ensures Valid()
      ensures ok <==> current.Some? && !dbFails && HoursBefore(now, RetentionHours).Some?
      ensures !ok ==> created == old(created) && rows == old(rows) && lastId == old(lastId)
      ensures ok ==>
        var limite := Format(HoursBefore(now, RetentionHours).value);
        var record := NewRecord(old(lastId) + 1, umidade, idSensor, idCultura, current.value, clock);
        created && lastId == old(lastId) + 1 && InsertedAndPruned(old(rows), record, limite, rows)
    {
      if current.None? {
        return false;
      }
      // The create, the insert and the delete are staged in that order; the commit
      // applies them together.
      var record := NewRecord(lastId + 1, umidade, idSensor, idCultura, current.value, clock);
      var staged := rows + [record];
      var cutoff := HoursBefore(now, RetentionHours);
      if cutoff.None? || dbFails {
        // OverflowError, or a database error, before the commit: the transaction is rolled back.
        return false;
      }
      var limite := Format(cutoff.value);
      InsertThenPrune(created, rows, record, limite, lastId);
      staged := Retained(staged, limite);
      // Commit.
      CreateIfAbsent();
      rows, lastId := staged, lastId + 1;
      ok := true;
    }
  }
}
