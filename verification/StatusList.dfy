/**
 The revocation bitstring: how the pod writes it and how a verifier reads it back. Bit zero is the most
 significant bit of the first byte.
 */
module StatusList {
  import opened Wrappers

  datatype Row = Row(id: nat, revoked: bool)

  const MIN_BITS := 131_072

  // ----- one byte -----

  function Mask(k: nat): bv8
    requires k < 8
  {
    (1 as bv8) << (7 - k)
  }

  function BitOf(b: bv8, k: nat): bool
    requires k < 8
  {
    (b >> (7 - k)) & 1 == 1
  }

  lemma ShiftCases(k: nat)
    requires k < 8
    ensures Mask(k) == if k == 0 then 0x80 else if k == 1 then 0x40 else if k == 2 then 0x20 else if k == 3 then 0x10
                       else if k == 4 then 0x08 else if k == 5 then 0x04 else if k == 6 then 0x02 else 0x01
  {
  }

  lemma BitCases(b: bv8, k: nat)
    requires k < 8
    ensures BitOf(b, k) <==> b & Mask(k) != 0
  {
  }

  lemma SetBit(b: bv8, j: nat, k: nat)
    requires j < 8 && k < 8
    ensures BitOf(b | Mask(j), k) <==> BitOf(b, k) || j == k
    ensures !BitOf(0, k)
  {
    ShiftCases(j);
    ShiftCases(k);
    BitCases(b | Mask(j), k);
    BitCases(b, k);
    BitCases(0, k);
  }

  // ----- a list of bytes -----

  /** The bit at an index, or nothing when the index is outside the list. */
  function BitAt(bits: seq<bv8>, index: nat): Option<bool> {
    if index / 8 < |bits| then Some(BitOf(bits[index / 8], index % 8)) else None
  }

  /** What a verifier makes of the index of a credential. */
  datatype StatusError = InvalidIndex | OutsideList

  function IsRevoked(bits: seq<bv8>, index: int): Result<bool, StatusError> {
    if index < 0 then Failure(InvalidIndex)
    else match BitAt(bits, index)
      case None => Failure(OutsideList)
      case Some(b) => Success(b)
  }

  /** What a verifier reads where: eight indices to a byte, the first of them in its most significant bit. */
  lemma ReadFromTheTop(bits: seq<bv8>, q: nat, k: nat)
    requires q < |bits| && k < 8
    ensures IsRevoked(bits, 8 * q + k) == Success(bits[q] & [0x80, 0x40, 0x20, 0x10, 0x08, 0x04, 0x02, 0x01][k] != 0)
  {
    ShiftCases(k);
    BitCases(bits[q], k);
    assert (8 * q + k) / 8 == q && (8 * q + k) % 8 == k;
  }

  lemma ReadNowhereElse(bits: seq<bv8>, index: int)
    ensures index < 0 ==> IsRevoked(bits, index) == Failure(InvalidIndex)
    ensures index >= 8 * |bits| ==> IsRevoked(bits, index) == Failure(OutsideList)
  {
  }

  ghost predicate RevokedRow(rows: seq<Row>, id: int) { exists r :: r in rows && r.revoked && r.id == id }

  /** Exactly the bits of the revoked rows are set. */
  ghost predicate Marks(bits: seq<bv8>, rows: seq<Row>) {
    forall i: nat :: i < 8 * |bits| ==> BitAt(bits, i) == Some(RevokedRow(rows, i))
  }

  lemma SetOne(bits: seq<bv8>, j: nat, i: nat)
    requires i < 8 * |bits| && j < 8 * |bits|
    ensures BitAt(bits[j / 8 := bits[j / 8] | Mask(j % 8)], i) == Some(BitAt(bits, i) == Some(true) || i == j)
  {
    SetBit(bits[j / 8], j % 8, i % 8);
    hide BitOf, Mask;
    if i / 8 == j / 8 && i % 8 == j % 8 { assert i == 8 * (i / 8) + i % 8 && j == 8 * (j / 8) + j % 8; }
  }

  lemma RevokedMore(rows: seq<Row>, r: Row, id: int)
    ensures RevokedRow(rows + [r], id) <==> RevokedRow(rows, id) || (r.revoked && r.id == id)
  {
    if RevokedRow(rows, id) {
      var q :| q in rows && q.revoked && q.id == id;
      assert q in rows + [r];
    }
    assert r in rows + [r];
  }

  lemma MarksOneMore(bits: seq<bv8>, rows: seq<Row>, r: Row)
    requires Marks(bits, rows) && r.id < 8 * |bits|
    ensures Marks(if r.revoked then bits[r.id / 8 := bits[r.id / 8] | Mask(r.id % 8)] else bits, rows + [r])
  {
    hide BitAt, Mask;
    var after := if r.revoked then bits[r.id / 8 := bits[r.id / 8] | Mask(r.id % 8)] else bits;
    forall i: nat | i < 8 * |after| ensures BitAt(after, i) == Some(RevokedRow(rows + [r], i)) {
      RevokedMore(rows, r, i);
      if r.revoked { SetOne(bits, r.id, i); }
    }
  }

  method LargestId(rows: seq<Row>) returns (max: nat)
    ensures forall r :: r in rows ==> r.id <= max
    ensures max == 0 || exists r :: r in rows && r.id == max
  {
    max := 0;
    for k := 0 to |rows|
      invariant forall r :: r in rows[..k] ==> r.id <= max
      invariant max == 0 || exists r :: r in rows && r.id == max
    {
      assert rows[..k + 1] == rows[..k] + [rows[k]];
      if rows[k].id > max { max := rows[k].id; }
    }
    assert rows[..|rows|] == rows;
  }

  lemma NothingMarked(bits: seq<bv8>)
    requires forall k :: 0 <= k < |bits| ==> bits[k] == 0
    ensures Marks(bits, [])
  {
    forall i: nat | i < 8 * |bits| ensures BitAt(bits, i) == Some(RevokedRow([], i)) {
      SetBit(0, 0, i % 8);
    }
  }

  /** Sets the bits of the revoked rows in a list of zeros. */
  method MarkRows(bytes: array<bv8>, rows: seq<Row>)
    requires forall k :: 0 <= k < bytes.Length ==> bytes[k] == 0
    requires forall r :: r in rows ==> r.id < 8 * bytes.Length
    modifies bytes
    ensures Marks(bytes[..], rows)
  {
    hide Mask, BitAt, Marks;
    NothingMarked(bytes[..]);
    for k := 0 to |rows|
      invariant Marks(bytes[..], rows[..k])
    {
      var r := rows[k];
      assert r in rows;
      assert rows[..k + 1] == rows[..k] + [r];
      MarksOneMore(bytes[..], rows[..k], r);
      if r.revoked {
        ghost var before := bytes[..];
        bytes[r.id / 8] := bytes[r.id / 8] | Mask(r.id % 8);
        assert bytes[..] == before[r.id / 8 := before[r.id / 8] | Mask(r.id % 8)];
      }
    }
    assert rows[..|rows|] == rows;
  }

  /**
   The published bitstring: whole bytes, at least the minimum, no longer than the largest id needs, one bit
   for each revoked row.
   */
  method BuildList(rows: seq<Row>) returns (bits: seq<bv8>)
    ensures 8 * |bits| >= 131_072 && forall r :: r in rows ==> r.id < 8 * |bits|
    ensures 8 * |bits| > 131_072 ==> exists r :: r in rows && r.id >= 8 * (|bits| - 1)
    ensures Marks(bits, rows)
  {
    hide Marks;
    var maxId := LargestId(rows);
    var needed := (maxId + 1 + 7) / 8 * 8;
    var size := if needed > MIN_BITS then needed else MIN_BITS;
    var bytes := new bv8[size / 8](_ => 0);
    MarkRows(bytes, rows);
    bits := bytes[..];
  }

  /** Reading back: a verifier finds a logged credential revoked exactly when its row is, and never misses the list. */
  lemma RoundTrip(rows: seq<Row>, bits: seq<bv8>, r: Row)
    requires Marks(bits, rows) && r in rows && r.id < 8 * |bits|
    requires forall a, b :: a in rows && b in rows && a.id == b.id ==> a == b
    ensures IsRevoked(bits, r.id) == Success(r.revoked)
  {
    assert RevokedRow(rows, r.id) <==> r.revoked;
  }
}
