/** Applied migrations and their `history_checksum` (scripts/migration_runner.py). */
module Histories {
  import opened Encoding

  datatype AppliedMigration = AppliedMigration(
    id: Blob, sequence: Column, description: Blob, applyChecksum: Blob,
    verifyChecksum: Blob, compatibility: Blob, runnerVersion: Column)

  const VALUES_PER_ROW: nat := 7

  function HistoryRowValues(row: AppliedMigration): (r: seq<Blob>)
    ensures |r| == VALUES_PER_ROW
  {
    [row.id, Decimal(row.sequence), row.description, row.applyChecksum,
     row.verifyChecksum, row.compatibility, Decimal(row.runnerVersion)]
  }

  function HistoryValues(rows: seq<AppliedMigration>): (r: seq<Blob>)
    ensures |r| == VALUES_PER_ROW * |rows|
  {
    if rows == [] then []
    else HistoryValues(rows[..|rows| - 1]) + HistoryRowValues(rows[|rows| - 1])
  }

  function HistoryInput(rows: seq<AppliedMigration>): Bytes {
    Frames(HistoryValues(rows))
  }

  function HistoryChecksumOf(hash: Hash, rows: seq<AppliedMigration>): Digest {
    hash(HistoryInput(rows))
  }

  /** `history_checksum` */
  method HistoryChecksum(hash: Hash, rows: seq<AppliedMigration>) returns (checksum: Digest)
    ensures checksum == HistoryChecksumOf(hash, rows)
  {
    var digest := new Sha();
    for i := 0 to |rows|
      invariant digest.fed == HistoryInput(rows[..i])
    {
      assert rows[..i + 1][..i] == rows[..i];
      FramesAppend(HistoryValues(rows[..i]), HistoryRowValues(rows[i]));
      FeedAll(digest, HistoryRowValues(rows[i]));
    }
    assert rows[..|rows|] == rows;
    checksum := hash(digest.fed);
  }

  lemma {:induction false} HistoryRowInjective(a: AppliedMigration, b: AppliedMigration)
    requires HistoryRowValues(a) == HistoryRowValues(b)
    ensures a == b
  {
    var x, y := HistoryRowValues(a), HistoryRowValues(b);
    assert x[0] == y[0] && x[1] == y[1] && x[2] == y[2] && x[3] == y[3] && x[4] == y[4] && x[5] == y[5] && x[6] == y[6];
    DecimalInjective(a.sequence, b.sequence);
    DecimalInjective(a.runnerVersion, b.runnerVersion);
  }

  lemma {:induction false} HistoryValuesInjective(a: seq<AppliedMigration>, b: seq<AppliedMigration>)
    requires HistoryValues(a) == HistoryValues(b)
    ensures a == b
  {
    hide HistoryRowValues;
    assert |a| == |b|;
    if a != [] {
      var n := |a| - 1;
      var x, y := HistoryValues(a), HistoryValues(b);
      var cut := VALUES_PER_ROW * n;
      assert x[..cut] == HistoryValues(a[..n]) && x[cut..] == HistoryRowValues(a[n]);
      assert y[..cut] == HistoryValues(b[..n]) && y[cut..] == HistoryRowValues(b[n]);
      HistoryValuesInjective(a[..n], b[..n]);
      HistoryRowInjective(a[n], b[n]);
      assert a == a[..n] + [a[n]] && b == b[..n] + [b[n]];
    }
  }

  /** Equal checksums mean the same history, row for row. */
  lemma {:induction false} HistoryChecksumIdentifies(hash: Hash, a: seq<AppliedMigration>, b: seq<AppliedMigration>)
    requires Distinguishes(hash, {HistoryInput(a), HistoryInput(b)})
    ensures HistoryChecksumOf(hash, a) == HistoryChecksumOf(hash, b) <==> a == b
  {
    if HistoryChecksumOf(hash, a) == HistoryChecksumOf(hash, b) {
      FramesInjective(HistoryValues(a), HistoryValues(b));
      HistoryValuesInjective(a, b);
    }
  }
}
