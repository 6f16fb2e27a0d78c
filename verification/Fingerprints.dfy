/** Archive rows and their `fingerprint` (scripts/lifecycle_archive.py). */
module Fingerprints {
  import opened Wrappers
  import opened Encoding

  // ----- byte order -----

  /** Python's `<` on `bytes`. */
  predicate Less(a: Bytes, b: Bytes) {
    b != [] && (a == [] || a[0] < b[0] || (a[0] == b[0] && Less(a[1..], b[1..])))
  }

  lemma {:induction false} LessIsTotal(a: Bytes, b: Bytes)
    ensures Less(a, b) || a == b || Less(b, a)
    ensures !(Less(a, b) && (a == b || Less(b, a)))
  {
    if a != [] && b != [] && a[0] == b[0] {
      LessIsTotal(a[1..], b[1..]);
      assert a == [a[0]] + a[1..] && b == [b[0]] + b[1..];
    }
    if a == b && a != [] {
      LessIsTotal(a[1..], b[1..]);
    }
  }

  lemma {:induction false} LessIsTransitive(a: Bytes, b: Bytes, c: Bytes)
    requires Less(a, b) && Less(b, c)
    ensures Less(a, c)
  {
    if a != [] && a[0] == b[0] == c[0] {
      LessIsTransitive(a[1..], b[1..], c[1..]);
    }
  }

  // ----- archive rows -----

  datatype Row = Row(key: Blob, payload: Blob)

  datatype RowError = KeyOutsideBound | PayloadOutsideBound | DuplicateIdentity

  const MAX_KEY_BYTES := 512
  const MAX_BYTE_BUDGET := 1024 * 1024

  predicate KeyFits(row: Row) {
    0 < |row.key| <= MAX_KEY_BYTES
  }

  predicate PayloadFits(row: Row) {
    0 < |row.payload| <= MAX_BYTE_BUDGET
  }

  function KeySet(rows: seq<Row>): set<Blob> {
    set row | row in rows :: row.key
  }

  ghost predicate UniqueKeys(rows: seq<Row>) {
    rows == [] || (UniqueKeys(rows[..|rows| - 1]) && rows[|rows| - 1].key !in KeySet(rows[..|rows| - 1]))
  }

  lemma {:induction false} UniqueKeysMeans(rows: seq<Row>)
    ensures UniqueKeys(rows) <==> forall i, j | 0 <= i < j < |rows| :: rows[i].key != rows[j].key
  {
    if rows != [] {
      var n := |rows| - 1;
      var front := rows[..n];
      UniqueKeysMeans(front);
      assert forall i | 0 <= i < n :: rows[i] == front[i] && front[i] in front;
    }
  }

  ghost predicate Admissible(rows: seq<Row>) {
    UniqueKeys(rows) && forall row | row in rows :: KeyFits(row) && PayloadFits(row)
  }

  ghost predicate KeyOrdered(rows: seq<Row>) {
    forall i, j | 0 <= i < j < |rows| :: !Less(rows[j].key, rows[i].key)
  }

  function InsertRow(rows: seq<Row>, row: Row): (r: seq<Row>)
    ensures multiset(r) == multiset(rows) + multiset{row} && |r| == |rows| + 1
  {
    if rows == [] then [row]
    else
      assert rows == [rows[0]] + rows[1..];
      if Less(row.key, rows[0].key) then [row] + rows else [rows[0]] + InsertRow(rows[1..], row)
  }

  lemma {:induction false} InsertRowOrdered(rows: seq<Row>, row: Row)
    requires KeyOrdered(rows)
    ensures KeyOrdered(InsertRow(rows, row))
  {
    if rows != [] {
      var first := rows[0].key;
      if Less(row.key, first) {
        forall other | other in rows
          ensures !Less(other.key, row.key)
        {
          LessIsTotal(other.key, first);
          LessIsTotal(other.key, row.key);
          if Less(other.key, row.key) {
            LessIsTransitive(other.key, row.key, first);
          }
        }
      } else {
        var rest := InsertRow(rows[1..], row);
        InsertRowOrdered(rows[1..], row);
        forall other | other in rest
          ensures !Less(other.key, first)
        {
          assert other in multiset(rest);
          assert other == row || other in rows[1..];
        }
      }
    }
  }

  /** `sorted(rows, key=source_key)`. */
  function SortRows(rows: seq<Row>): (r: seq<Row>)
    ensures multiset(r) == multiset(rows) && |r| == |rows| && KeyOrdered(r)
  {
    if rows == [] then []
    else
      assert rows == rows[..|rows| - 1] + [rows[|rows| - 1]];
      InsertRowOrdered(SortRows(rows[..|rows| - 1]), rows[|rows| - 1]);
      InsertRow(SortRows(rows[..|rows| - 1]), rows[|rows| - 1])
  }

  lemma {:induction false} SameRows(a: seq<Row>, b: seq<Row>)
    requires multiset(a) == multiset(b)
    ensures forall row :: row in a <==> row in b
  {
    forall row
      ensures row in a <==> row in b
    {
      assert row in a <==> row in multiset(a);
      assert row in b <==> row in multiset(b);
    }
  }

  lemma {:induction false} UniqueIsHereditary(rows: seq<Row>, n: nat)
    requires n <= |rows| && UniqueKeys(rows)
    ensures UniqueKeys(rows[..n])
  {
    if n == |rows| {
      assert rows[..n] == rows;
    } else {
      UniqueIsHereditary(rows[..|rows| - 1], n);
      assert rows[..|rows| - 1][..n] == rows[..n];
    }
  }

  lemma {:induction false} RepeatRefused(rows: seq<Row>, i: nat)
    requires i < |rows| && UniqueKeys(rows)
    ensures rows[i].key !in KeySet(rows[..i])
  {
    UniqueIsHereditary(rows, i + 1);
    assert rows[..i + 1][..i] == rows[..i];
  }

  lemma {:induction false} RowAdmitted(rows: seq<Row>, i: nat)
    requires i < |rows| && Admissible(rows[..i])
    ensures KeySet(rows[..i + 1]) == KeySet(rows[..i]) + {rows[i].key}
    ensures rows[i].key !in KeySet(rows[..i]) && KeyFits(rows[i]) && PayloadFits(rows[i]) ==> Admissible(rows[..i + 1])
  {
    assert rows[..i + 1] == rows[..i] + [rows[i]] && rows[..i + 1][..i] == rows[..i];
  }

  lemma {:induction false} KeySetSize(rows: seq<Row>)
    ensures |KeySet(rows)| <= |rows|
    ensures |KeySet(rows)| == |rows| <==> UniqueKeys(rows)
  {
    if rows != [] {
      var front, last := rows[..|rows| - 1], rows[|rows| - 1];
      KeySetSize(front);
      assert rows == front + [last];
      assert KeySet(rows) == KeySet(front) + {last.key};
      if last.key in KeySet(front) {
        assert KeySet(rows) == KeySet(front);
      }
    }
  }

  lemma {:induction false} UniqueKeysPermutes(a: seq<Row>, b: seq<Row>)
    requires multiset(a) == multiset(b)
    ensures UniqueKeys(a) <==> UniqueKeys(b)
  {
    SameRows(a, b);
    assert KeySet(a) == KeySet(b);
    assert |a| == |multiset(a)| == |multiset(b)| == |b|;
    KeySetSize(a);
    KeySetSize(b);
  }

  lemma {:induction false} LastAgrees(a: seq<Row>, b: seq<Row>)
    requires a != [] && b != [] && (forall row :: row in a <==> row in b)
    requires KeyOrdered(a) && KeyOrdered(b) && UniqueKeys(a)
    ensures a[|a| - 1] == b[|b| - 1]
  {
    var x, y := a[|a| - 1], b[|b| - 1];
    assert x in b && y in a;
    LessIsTotal(x.key, y.key);
    assert x.key == y.key;
    var k :| 0 <= k < |a| && a[k] == y;
    UniqueKeysMeans(a);
  }

  lemma {:induction false} WithoutLast(rows: seq<Row>)
    requires rows != []
    ensures multiset(rows[..|rows| - 1]) == multiset(rows) - multiset{rows[|rows| - 1]}
    ensures rows == rows[..|rows| - 1] + [rows[|rows| - 1]]
  {
    assert rows == rows[..|rows| - 1] + [rows[|rows| - 1]];
  }

  lemma {:induction false} OrderedFront(rows: seq<Row>)
    requires rows != [] && KeyOrdered(rows)
    ensures KeyOrdered(rows[..|rows| - 1])
  {
  }

  /** Rows of distinct keys have one order. */
  lemma {:induction false} OrderIsUnique(a: seq<Row>, b: seq<Row>)
    requires multiset(a) == multiset(b) && KeyOrdered(a) && KeyOrdered(b) && UniqueKeys(a)
    ensures a == b
  {
    assert |a| == |multiset(a)| == |multiset(b)| == |b|;
    if a != [] {
      SameRows(a, b);
      LastAgrees(a, b);
      WithoutLast(a);
      WithoutLast(b);
      OrderedFront(a);
      OrderedFront(b);
      OrderIsUnique(a[..|a| - 1], b[..|b| - 1]);
    }
  }

  lemma {:induction false} UniqueCount(rows: seq<Row>, row: Row)
    requires UniqueKeys(rows)
    ensures multiset(rows)[row] == if row in rows then 1 else 0
  {
    if rows != [] {
      WithoutLast(rows);
      UniqueCount(rows[..|rows| - 1], row);
    }
  }

  lemma {:induction false} SameMembersSameRows(a: seq<Row>, b: seq<Row>)
    requires UniqueKeys(a) && UniqueKeys(b) && forall row :: row in a <==> row in b
    ensures multiset(a) == multiset(b)
  {
    forall row: Row
      ensures multiset(a)[row] == multiset(b)[row]
    {
      UniqueCount(a, row);
      UniqueCount(b, row);
    }
  }

  // ----- fingerprint -----

  /** Each row contributes its key and the digest of its payload. */
  function RowValues(hash: Hash, rows: seq<Row>): (r: seq<Blob>)
    ensures |r| == 2 * |rows|
    ensures forall i | 0 <= i < |rows| :: r[2 * i] == rows[i].key && r[2 * i + 1] == hash(rows[i].payload)
  {
    if rows == [] then []
    else RowValues(hash, rows[..|rows| - 1]) + [rows[|rows| - 1].key, hash(rows[|rows| - 1].payload)]
  }

  function FingerprintInput(hash: Hash, rows: seq<Row>): Bytes {
    Frames(RowValues(hash, SortRows(rows)))
  }

  function FingerprintOf(hash: Hash, rows: seq<Row>): Digest {
    hash(FingerprintInput(hash, rows))
  }

  lemma {:induction false} FramesOfPair(a: Blob, b: Blob)
    ensures Frames([a, b]) == Frame(a) + Frame(b)
  {
    assert [a, b][1..] == [b];
    assert Frames([b]) == Frame(b) + Frames([]);
  }

  lemma {:induction false} RowFed(hash: Hash, rows: seq<Row>, i: nat)
    requires i < |rows|
    ensures Frames(RowValues(hash, rows[..i + 1])) ==
            Frames(RowValues(hash, rows[..i])) + Frame(rows[i].key) + Frame(hash(rows[i].payload))
  {
    assert rows[..i + 1][..i] == rows[..i];
    FramesAppend(RowValues(hash, rows[..i]), [rows[i].key, hash(rows[i].payload)]);
    FramesOfPair(rows[i].key, hash(rows[i].payload));
  }

  /** `fingerprint`: refuses rows out of bounds and repeated identities, and only those. */
  method Fingerprint(hash: Hash, rows: seq<Row>) returns (result: Result<Digest, RowError>)
    ensures result.Ok? <==> Admissible(rows)
    ensures result.Ok? ==> result.value == FingerprintOf(hash, rows)
    ensures result == Err(DuplicateIdentity) ==> !UniqueKeys(rows)
    ensures result == Err(KeyOutsideBound) ==> exists row :: row in rows && !KeyFits(row)
    ensures result == Err(PayloadOutsideBound) ==> exists row :: row in rows && !PayloadFits(row)
  {
    var ordered := SortRows(rows);
    SameRows(ordered, rows);
    UniqueKeysPermutes(ordered, rows);
    result := FingerprintSorted(hash, ordered);
  }

  /** The loop of `fingerprint`, over the sorted rows. */
  method FingerprintSorted(hash: Hash, ordered: seq<Row>) returns (result: Result<Digest, RowError>)
    ensures result.Ok? <==> Admissible(ordered)
    ensures result.Ok? ==> result.value == hash(Frames(RowValues(hash, ordered)))
    ensures result == Err(DuplicateIdentity) ==> !UniqueKeys(ordered)
    ensures result == Err(KeyOutsideBound) ==> exists row :: row in ordered && !KeyFits(row)
    ensures result == Err(PayloadOutsideBound) ==> exists row :: row in ordered && !PayloadFits(row)
  {
    var digest := new Sha();
    var seen: set<Blob> := {};
    for i := 0 to |ordered|
      invariant digest.fed == Frames(RowValues(hash, ordered[..i]))
      invariant seen == KeySet(ordered[..i]) && Admissible(ordered[..i])
    {
      var row := ordered[i];
      if !KeyFits(row) {
        return Err(KeyOutsideBound);
      }
      if !PayloadFits(row) {
        return Err(PayloadOutsideBound);
      }
      if row.key in seen {
        if UniqueKeys(ordered) {
          RepeatRefused(ordered, i);
        }
        return Err(DuplicateIdentity);
      }
      RowAdmitted(ordered, i);
      seen := seen + {row.key};
      RowFed(hash, ordered, i);
      LengthPrefixed(digest, row.key);
      LengthPrefixed(digest, hash(row.payload));
    }
    assert ordered[..|ordered|] == ordered;
    return Ok(hash(digest.fed));
  }

  /** The order in which rows are listed has no effect, on the verdict or on the value. */
  lemma {:induction false} FingerprintIgnoresOrder(hash: Hash, a: seq<Row>, b: seq<Row>)
    requires multiset(a) == multiset(b)
    ensures Admissible(a) <==> Admissible(b)
    ensures Admissible(a) ==> FingerprintOf(hash, a) == FingerprintOf(hash, b)
  {
    SameRows(a, b);
    UniqueKeysPermutes(a, b);
    if Admissible(a) {
      UniqueKeysPermutes(a, SortRows(a));
      OrderIsUnique(SortRows(a), SortRows(b));
    }
  }

  /** Every input hashed while fingerprinting `rows`. */
  ghost function HashedBy(hash: Hash, rows: seq<Row>): set<Bytes> {
    {FingerprintInput(hash, rows)} + set row | row in rows :: row.payload
  }

  /** Equal fingerprints mean the same rows. */
  lemma {:induction false} FingerprintIdentifies(hash: Hash, a: seq<Row>, b: seq<Row>)
    requires Distinguishes(hash, HashedBy(hash, a) + HashedBy(hash, b))
    requires FingerprintOf(hash, a) == FingerprintOf(hash, b)
    ensures multiset(a) == multiset(b)
  {
    var x, y := SortRows(a), SortRows(b);
    var left, right := RowValues(hash, x), RowValues(hash, y);
    assert FingerprintInput(hash, a) == FingerprintInput(hash, b);
    FramesInjective(left, right);
    SameRows(x, a);
    SameRows(y, b);
    assert |x| == |y|;
    forall i | 0 <= i < |x|
      ensures x[i] == y[i]
    {
      assert left[2 * i] == right[2 * i] && left[2 * i + 1] == right[2 * i + 1];
      assert x[i] in a && y[i] in b;
      assert x[i].payload in HashedBy(hash, a) && y[i].payload in HashedBy(hash, b);
    }
    assert x == y;
  }
}
