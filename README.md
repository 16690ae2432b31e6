# Prepared statement and partition-key computation of the Scylla Rust driver

This project models, in Dafny, the prepared-statement descriptor of the
ScyllaDB Rust driver (`scylla/src/statement/prepared_statement.rs`) and
proves properties of it.

A prepared statement holds its server-assigned id, its CQL text and its
metadata: the bound columns, and which of them form the partition key,
with each key column's bind-marker position (`index`) and its position
within the key (`sequence`). Given the bound values of one execution,
`compute_partition_key` rebuilds the bytes the cluster's partitioner
hashes, so that a request can go straight to a replica that owns the key:

- a key of exactly one column is that column's raw value bytes (a null value
  gives no bytes);
- any other key uses ScyllaDB's compound encoding. For each non-null
  component, in `sequence` order, it emits a big-endian u16 length, the
  bytes and a `0x00` byte. Values are looked up in bind order with one
  forward cursor and dropped into a slot array in key order.

The statement also carries per-statement overrides (consistency, serial
consistency, idempotence, tracing, timestamp, request timeout, history
listener, execution profile) and a page size, each with a setter and a
getter.

Files:

- `wrappers.dfy`: `Option` and `Result`.
- `metadata.dfy`: integer widths, bytes, `PartitionKeyIndex`, column specs,
  `PreparedMetadata`, and the ordering conditions the key computation
  relies on (`Composable`).
- `partition_key.dfy`: the specification of the key (`PartitionKeyOf`, built
  from `FirstMissingIndex`, `KeyComponents` and `EncodeComponents`), a
  decoder `ParseCompound` used as the encoder's inverse, the lemmas, and the
  driver's algorithm: `ComputePartitionKey` with its two loops `FillKeySlots`
  and `EmitKeySlots` over a cursor class `ValuesIter`, proved equal to the
  specification.
- `prepared_statement.dfy`: the `PreparedStatement` class with its
  `StatementConfig` overrides.

What the algorithm relies on without checking it is stated as
preconditions of `ComputePartitionKey`:

- when the key does not have exactly one column, the bind indexes are
  strictly ascending (otherwise the u16 subtraction
  `pk_index.index - values_iter_offset` underflows), and the sequences are
  distinct and below the column count (otherwise a slot is out of bounds or
  overwritten). The metadata decoder guarantees both;
- the number of bound values fits an i16, as `SerializedValues` counts them
  (the error `NoPkIndexValue` carries that count as an `i16`). This bound is
  also what keeps `values_iter_offset = pk_index.index + 1` from
  overflowing its u16: the proof shows that the index read is below the value
  count whenever that line runs.

The code takes the compound path for every key-column count other than
one (prepared_statement.rs:124, 142-176), so a statement with no key
columns gets `Ok` with no bytes (`NoKeyColumnsGiveEmptyKey`).

## Model

| member | source | states |
|---|---|---|
| `PartitionKey.ComputePartitionKey` | scylla/src/statement/prepared_statement.rs:118-177 | The driver's computation returns exactly `PartitionKeyOf(pk, values)` for every value list that fits `SerializedValues`, given the ordering the metadata decoder guarantees. |
| `PartitionKey.FillKeySlots` | scylla/src/statement/prepared_statement.rs:139-163 | The forward-cursor loop. The cursor position always equals `values_iter_offset`, so each `nth(index - offset)` reads `values[index]`. The loop fails exactly when some key column has no value, naming the first one in bind order with the value count. Otherwise the slots are the components in key order and the size is the sum of `2 + len + 1` over the non-null ones. The u16 offset neither underflows nor overflows. |
| `PartitionKey.EmitKeySlots` | scylla/src/statement/prepared_statement.rs:164-176 | The emission loop returns the compound encoding of the slots, failing on the first slot too long for a u16 length (no partial key). On success the output length equals the reserved `buf_size`. |
| `PartitionKey.ValuesIter.Nth` | scylla/src/statement/prepared_statement.rs:143-156 | `nth(n)` skips `n` values and returns the next, advancing the position past it; past the end it returns `None` and exhausts the iterator. |
| `PartitionKey.EncodeComponents` | scylla/src/statement/prepared_statement.rs:164-175 | The compound encoding succeeds exactly when no non-null component is longer than 65535 bytes. Its length is then the framed size, and its only error is `ValueTooLong` with a length above 65535. |
| `PartitionKey.FirstMissingIndex` | scylla/src/statement/prepared_statement.rs:150-156 | There is no missing index exactly when every key column's index is below the value count. Otherwise it returns the index of a column all of whose predecessors have values, and that index is at least the value count. |
| `PartitionKey.FirstMissingIndexIs` | scylla/src/statement/prepared_statement.rs:150-156 | When the cursor runs out at column `j`, column `j` is the first one without a value, which is what `NoPkIndexValue` reports. |
| `PartitionKey.KeyComponents` | scylla/src/statement/prepared_statement.rs:142-161 | The slot array has one slot per key column. |
| `PartitionKey.SlotsSoFar` | scylla/src/statement/prepared_statement.rs:157-161 | The slots after some columns have been placed; once every column is placed they are the key components. |
| `PartitionKey.SlotsSoFarStep` | scylla/src/statement/prepared_statement.rs:157-161 | Placing one key column writes its value into its own slot, which was still empty. No earlier write is overwritten and no other slot changes. |
| `PartitionKey.ComponentAtUnique` | scylla/src/statement/prepared_statement.rs:157-159 | With distinct sequences, the slot at a column's sequence holds that column's bound value. |
| `PartitionKey.FramedSizeFill` | scylla/src/statement/prepared_statement.rs:158-161 | Filling an empty slot with `v` adds exactly `2 + len(v) + 1` to the size to reserve. |
| `PartitionKey.FramedSizeOfEmptySlots` | scylla/src/statement/prepared_statement.rs:142-144 | The freshly made all-`None` slot array needs no space, matching `buf_size = 0`. |
| `PartitionKey.EncodeFailsAtFirstTooLong` | scylla/src/statement/prepared_statement.rs:166-170 | If the first too-long non-null component in key order has length `n`, the result is `ValueTooLong(n)`. Earlier components that fit do not prevent the failure. |
| `PartitionKey.ParseEncodeRoundTrip` | scylla/src/statement/prepared_statement.rs:166-175 | Every successful compound encoding parses back to exactly its non-null components, in key order. The emitted format is self-delimiting. |
| `PartitionKey.EncodingInjective` | scylla/src/statement/prepared_statement.rs:166-175 | Two component lists that encode to the same key bytes have the same non-null components. |
| `PartitionKey.U16BigEndian` | scylla/src/statement/prepared_statement.rs:172 | The two length bytes, read big-endian, give back the length. |
| `PartitionKey.KeyComponentsDependOnlyOnSequencedValues` | scylla/src/statement/prepared_statement.rs:139-163 | Two key-column lists with the same (sequence, value) pairs give the same slots, whatever their bind order. |
| `PartitionKey.PartitionKeyIndependentOfBindOrder` | scylla/src/statement/prepared_statement.rs:139-176 | The partition key depends only on which value sits at which key position. It does not depend on the bind order of the key columns. |
| `PartitionKey.MissingValueReported` | scylla/src/statement/prepared_statement.rs:124-156 | The computation returns `NoPkIndexValue` exactly when some key column's index has no bound value, in both paths. The error names the first such column in bind order and the value count. |
| `PartitionKey.CompositeKeyIsEncodedComponents` | scylla/src/statement/prepared_statement.rs:139-176 | With every value present and not exactly one key column, the key is the compound encoding of the components in key order. It succeeds exactly when all fit a u16 length and then parses back to the non-null components. |
| `PartitionKey.NoKeyColumnsGiveEmptyKey` | scylla/src/statement/prepared_statement.rs:142-176 | With no key columns the key is `Ok` with no bytes. |
| `PartitionKey.SingleColumnKeyIsRawValue` | scylla/src/statement/prepared_statement.rs:124-138 | With one key column whose value is present, the key is that value's raw bytes, or no bytes when it is null. There is no framing and no length limit. |
| `PartitionKey.LengthPrefixBoundary` | scylla/src/statement/prepared_statement.rs:166-172 | A 65535-byte component is encoded with length bytes `FF FF`. A later 65536-byte component makes the whole key `ValueTooLong(65536)`. |
| `PartitionKey.SwappedBindOrderExample` | scylla/src/statement/prepared_statement.rs:139-176 | Key columns bound in reverse key order, `[{index 0, sequence 1}, {index 1, sequence 0}]` with values `X` (4 bytes) and `Y` (2 bytes), give `00 02 Y 00 00 04 X 00`. |
| `Statement.PreparedStatement.constructor` | scylla/src/statement/prepared_statement.rs:47-65 | A new statement stores the given id, text, metadata, page size, overrides and LWT flag. It has no tracing ids and the default Murmur3 partitioner. |
| `Statement.PreparedStatement.Clone` | scylla/src/statement/prepared_statement.rs:31-44 | The duplicate is a new object with every field copied, except the prepare tracing ids, which are empty. It keeps the positive-page-size invariant. |
| `Statement.OverrideOnDuplicate` | scylla/src/statement/prepared_statement.rs:31-44 | Overriding on a duplicate gives it the original's overrides plus the new one and no tracing ids, and it is a different object from the original. |
| `Statement.PreparedStatement.SetPageSize` | scylla/src/statement/prepared_statement.rs:76-89 | Requires a positive page size. Afterwards `GetPageSize()` is `Some(n)`, the page-size invariant holds, and no other field changes. |
| `Statement.PreparedStatement.DisablePaging` | scylla/src/statement/prepared_statement.rs:81-89 | Afterwards `GetPageSize()` is `None`, and no other field changes. |
| `Statement.PreparedStatement.IsTokenAware` | scylla/src/statement/prepared_statement.rs:99-101 | True exactly when there are key columns. When false, the partition key of any bound values is `Ok` with no bytes. |
| `Statement.PreparedStatement.ComputePartitionKey` | scylla/src/statement/prepared_statement.rs:118-121 | The statement's partition key is the specification applied to its own key columns. |
| `Statement.PreparedStatement.GetKeyspaceName` | scylla/src/statement/prepared_statement.rs:180-185 | Present exactly when there is a bound column, and then it is the keyspace of the first one. |
| `Statement.PreparedStatement.GetTableName` | scylla/src/statement/prepared_statement.rs:188-193 | Present exactly when there is a bound column, and then it is the table of the first one. |
| `Statement.PreparedStatement.SetConsistency` | scylla/src/statement/prepared_statement.rs:196-204 | Only the consistency override changes. `GetConsistency()` then returns the new level. |
| `Statement.PreparedStatement.SetSerialConsistency` | scylla/src/statement/prepared_statement.rs:208-216 | The override becomes `Some(sc)`, even when `sc` is "none". `GetSerialConsistency()`, which flattens the two options, returns `sc`. |
| `Statement.PreparedStatement.SetIsIdempotent` | scylla/src/statement/prepared_statement.rs:223-230 | Only the idempotence flag changes, and the getter returns it. |
| `Statement.PreparedStatement.SetTracing` | scylla/src/statement/prepared_statement.rs:235-242 | Only the tracing flag changes, and the getter returns it. |
| `Statement.PreparedStatement.SetTimestamp` | scylla/src/statement/prepared_statement.rs:248-255 | Only the timestamp override changes, and the getter returns it. |
| `Statement.PreparedStatement.SetRequestTimeout` | scylla/src/statement/prepared_statement.rs:261-268 | Only the request-timeout override changes, and the getter returns it. |
| `Statement.PreparedStatement.SetPartitionerName` | scylla/src/statement/prepared_statement.rs:271-283 | Only the partitioner name changes, and the getter returns it. |
| `Statement.PreparedStatement.SetHistoryListener` | scylla/src/statement/prepared_statement.rs:286-288 | Only the history listener changes; it becomes the given listener. |
| `Statement.PreparedStatement.RemoveHistoryListener` | scylla/src/statement/prepared_statement.rs:291-293 | Returns the listener that was set, or none, and leaves none. Nothing else changes. |
| `Statement.PreparedStatement.SetExecutionProfileHandle` | scylla/src/statement/prepared_statement.rs:297-304 | Only the execution-profile handle changes, and the getter returns it. |

The plain getters (`GetId`, `GetStatement`, `GetPageSize`,
`GetPrepareTracingIds`, `IsConfirmedLwt`, `GetPreparedMetadata`,
`GetPartitionerName` and the override getters) return their field. The
setter rows above state their contracts.

## Left out

- `Bytes`/`BytesMut` reference counting and buffer reservation, and
  `SmallVec` inline storage: only the resulting byte sequence is modelled.
  `buf_size` is kept and proved to equal the output length.
- The derivation of `PreparedMetadata` from a prepare response is not part
  of this model. Its guarantees (sorted bind indexes, sequences a
  permutation) are preconditions of the key computation.
- `SerializedValues` is not part of this model. Bound values are a sequence
  of optional byte strings, and its i16 count is the precondition
  `ValidValues`.
- What the driver does when the metadata breaks its ordering guarantees
  (a panic on u16 underflow in debug builds, a wrapped index in release
  builds) is excluded by the precondition, not modelled.
- `buf_size` is a `usize` in the driver; it is an unbounded `nat` here, since
  the sum of lengths of values held in memory cannot overflow it.
- `HistoryListener` and `ExecutionProfileHandle` are shared trait objects
  and handles. They are the opaque type parameters `Listener` and `Profile`.
  Concurrent use of the listener is not modelled.
- `Consistency`, `SerialConsistency` and `PartitionerName` are defined in
  files that are not part of this model. They are enumerations here. `Uuid`
  is kept as its bytes and `Duration` as a number of nanoseconds. Nothing in
  the core depends on their contents.
- `PartitionKeyError`'s message texts and its derived ordering are not
  modelled.
- `Statement.PreparedStatement.constructor`: the driver's `new` does not check the page size, so the model does not
  make the page-size invariant `Valid()` a precondition. The invariant is
  established by `SetPageSize` and `DisablePaging`; every other method
  leaves `pageSize` untouched.
- `scylla/src/transport/session_builder.rs` is not part of this model: it is a
  fluent configuration builder whose `build` opens network connections. It has
  no algorithm.
