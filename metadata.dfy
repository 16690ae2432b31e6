/**
 * The prepared-statement metadata that the protocol decoder hands to a
 * prepared statement: the bound columns and which of them form the
 * partition key. Also the fixed-width integer types the driver uses.
 */
module Metadata {

  type Byte = b: int | 0 <= b <= 0xFF
  /** A byte string, as `Bytes` / `&[u8]` in the driver. */
  type Bytes = seq<Byte>

  const MaxU16: nat := 0xFFFF
  const MaxI16: nat := 0x7FFF

  type U16 = x: int | 0 <= x <= MaxU16
  type I16 = x: int | -0x8000 <= x <= MaxI16
  type I32 = x: int | -0x8000_0000 <= x < 0x8000_0000
  type I64 = x: int | -0x8000_0000_0000_0000 <= x < 0x8000_0000_0000_0000

  /**
   * One partition-key column of a prepared statement: `index` is its
   * position among the bind markers, `sequence` its position within the
   * table's partition key.
   */
  datatype PartitionKeyIndex = PartitionKeyIndex(index: U16, sequence: U16)

  datatype TableSpec = TableSpec(ksName: string, tableName: string)

  /** A bound column: the table it belongs to and its own name. */
  datatype ColumnSpec = ColumnSpec(tableSpec: TableSpec, name: string)

  datatype PreparedMetadata = PreparedMetadata(
    colSpecs: seq<ColumnSpec>,
    pkIndexes: seq<PartitionKeyIndex>)

  /** The bind indexes of `pk` increase strictly, as the decoder sorts them. */
  predicate StrictlyAscending(pk: seq<PartitionKeyIndex>)
  {
    forall i, j :: 0 <= i < j < |pk| ==> pk[i].index < pk[j].index
  }

  /** Every `sequence` of `pk` names a distinct slot of a key with |pk| components. */
  predicate SequencesDistinctInRange(pk: seq<PartitionKeyIndex>)
  {
    (forall i :: 0 <= i < |pk| ==> pk[i].sequence < |pk|) &&
    (forall i, j :: 0 <= i < j < |pk| ==> pk[i].sequence != pk[j].sequence)
  }

  /**
   * What the composite-key computation relies on without checking it:
   * sorted bind indexes (else the cursor offset underflows) and distinct
   * in-range sequences (else a slot is out of bounds or overwritten).
   */
  predicate Composable(pk: seq<PartitionKeyIndex>)
  {
    StrictlyAscending(pk) && SequencesDistinctInRange(pk)
  }
}
