/**
 * The partition-key codec of a prepared statement: given the statement's
 * partition-key indexes and the bound values of one execution, rebuild the
 * exact bytes the cluster's partitioner hashes.
 *
 * A key of exactly one column is that column's raw value. Any other key is
 * ScyllaDB's compound encoding: for each non-null component, in key
 * (`sequence`) order, a big-endian u16 length, the bytes, and a zero byte.
 *
 * The first half states the result as functions (`PartitionKeyOf` and what
 * it is built from) and proves what they promise; the second half is the
 * driver's algorithm, a forward cursor over the values plus a slot array,
 * proved equal to `PartitionKeyOf`.
 */
module PartitionKey {
  import opened Wrappers
  import opened Metadata

  datatype PartitionKeyError =
    /** The key column bound at `index` has no value; `valuesLen` values were given. */
    | NoPkIndexValue(index: U16, valuesLen: I16)
    /** A key component of `len` bytes does not fit a u16 length prefix. */
    | ValueTooLong(len: nat)

  /**
   * Bound values as a `SerializedValues` holds them, `None` being a null
   * value. The container counts its values in an i16.
   */
  predicate ValidValues(values: seq<Option<Bytes>>)
  {
    |values| <= MaxI16
  }

  /** Every bind index of `pk` names one of `n` bound values. */
  predicate IndicesBound(pk: seq<PartitionKeyIndex>, n: nat)
  {
    forall k :: 0 <= k < |pk| ==> pk[k].index < n
  }

  /** A component is too long when its length does not fit a u16. */
  predicate TooLong(c: Option<Bytes>)
  {
    c.Some? && |c.value| > MaxU16
  }

  predicate AllFit(slots: seq<Option<Bytes>>)
  {
    forall s :: 0 <= s < |slots| ==> !TooLong(slots[s])
  }

  // ---------------------------------------------------------------------
  // Specification
  // ---------------------------------------------------------------------

  function U16BigEndian(n: U16): (b: Bytes)
    ensures |b| == 2 && (b[0] as int) * 256 + (b[1] as int) == n
  {
    [n / 256, n % 256]
  }

  /** One component of a compound key: u16 length, the bytes, a zero byte. */
  function Frame(v: Bytes): Bytes
    requires |v| <= MaxU16
  {
    U16BigEndian(|v|) + v + [0]
  }

  /** The size the driver reserves: 2 + len + 1 for each non-null component. */
  function FramedSize(slots: seq<Option<Bytes>>): nat
  {
    if slots == [] then 0
    else
      (match slots[0] case Some(v) => 2 + |v| + 1 case None => 0) + FramedSize(slots[1..])
  }

  /** The non-null components, in order. */
  function NonNullComponents(slots: seq<Option<Bytes>>): seq<Bytes>
  {
    if slots == [] then []
    else
      (match slots[0] case Some(v) => [v] case None => []) + NonNullComponents(slots[1..])
  }

  /**
   * The compound encoding of the key components in slot order: nulls are
   * skipped, and the first component too long for its length prefix makes
   * the whole encoding fail.
   */
  function EncodeComponents(slots: seq<Option<Bytes>>): (r: Result<Bytes, PartitionKeyError>)
    ensures r.Ok? <==> AllFit(slots)
    ensures r.Ok? ==> |r.value| == FramedSize(slots)
    ensures r.Err? ==> r.error.ValueTooLong? && r.error.len > MaxU16
  {
    if slots == [] then Ok([])
    else
      match slots[0]
      case None =>
        EncodeComponents(slots[1..])
      case Some(v) =>
        if |v| > MaxU16 then Err(ValueTooLong(|v|))
        else
          match EncodeComponents(slots[1..])
          case Err(e) => Err(e)
          case Ok(rest) => Ok(Frame(v) + rest)
  }

  /**
   * The bind index of the first key column (in `pk` order) that has no
   * bound value among `n`, if any.
   */
  function FirstMissingIndex(pk: seq<PartitionKeyIndex>, n: nat): (r: Option<U16>)
    ensures r.None? <==> IndicesBound(pk, n)
    ensures r.Some? ==>
      (r.value >= n && exists k :: 0 <= k < |pk| && pk[k].index == r.value && IndicesBound(pk[..k], n))
  {
    if pk == [] then None
    else if pk[0].index >= n then
      assert IndicesBound(pk[..0], n);
      Some(pk[0].index)
    else
      var r := FirstMissingIndex(pk[1..], n);
      if r.Some? then
        var k :| 0 <= k < |pk[1..]| && pk[1..][k].index == r.value && IndicesBound(pk[1..][..k], n);
        assert pk[..k + 1] == [pk[0]] + pk[1..][..k];
        r
      else
        r
  }

  /**
   * The value of the key component at position `s` of the key: the bound
   * value of a column whose `sequence` is `s`, or `None` when that value is
   * null or no column has that position.
   */
  function ComponentAt(pk: seq<PartitionKeyIndex>, values: seq<Option<Bytes>>, s: nat): Option<Bytes>
    requires IndicesBound(pk, |values|)
  {
    if pk == [] then None
    else if pk[|pk| - 1].sequence == s then values[pk[|pk| - 1].index]
    else ComponentAt(pk[..|pk| - 1], values, s)
  }

  /** The key components in key order: one slot per key column. */
  function KeyComponents(pk: seq<PartitionKeyIndex>, values: seq<Option<Bytes>>): (slots: seq<Option<Bytes>>)
    requires IndicesBound(pk, |values|)
    ensures |slots| == |pk|
  {
    seq(|pk|, s requires 0 <= s < |pk| => ComponentAt(pk, values, s))
  }

  /** The partition key bytes of `values` under the key columns `pk`, or why there are none. */
  function PartitionKeyOf(pk: seq<PartitionKeyIndex>, values: seq<Option<Bytes>>): Result<Bytes, PartitionKeyError>
    requires ValidValues(values)
  {
    if |pk| == 1 then
      if pk[0].index < |values| then Ok(values[pk[0].index].GetOr([]))
      else Err(NoPkIndexValue(pk[0].index, |values|))
    else
      match FirstMissingIndex(pk, |values|)
      case Some(i) => Err(NoPkIndexValue(i, |values|))
      case None => EncodeComponents(KeyComponents(pk, values))
  }

  /** A decoder for the compound encoding, the inverse of `EncodeComponents`. */
  function ParseCompound(b: Bytes): Option<seq<Bytes>>
    decreases |b|
  {
    if b == [] then Some([])
    else if |b| < 3 then None
    else
      var len := (b[0] as int) * 256 + (b[1] as int);
      if |b| < len + 3 || b[len + 2] != 0 then None
      else
        match ParseCompound(b[len + 3..])
        case None => None
        case Some(rest) => Some([b[2..len + 2]] + rest)
  }

  /** The (key position, value) pairs the key columns carry. */
  ghost function SequencedValues(pk: seq<PartitionKeyIndex>, values: seq<Option<Bytes>>): set<(U16, Option<Bytes>)>
    requires IndicesBound(pk, |values|)
  {
    set k | 0 <= k < |pk| :: (pk[k].sequence, values[pk[k].index])
  }

  // ---------------------------------------------------------------------
  // Properties of the specification
  // ---------------------------------------------------------------------

  /** With distinct sequences, the component at a column's position is that column's value. */
  lemma {:induction false} ComponentAtUnique(pk: seq<PartitionKeyIndex>, values: seq<Option<Bytes>>, k: nat)
    requires IndicesBound(pk, |values|)
    requires forall i, j :: 0 <= i < j < |pk| ==> pk[i].sequence != pk[j].sequence
    requires k < |pk|
    ensures ComponentAt(pk, values, pk[k].sequence) == values[pk[k].index]
  {
    var last := |pk| - 1;
    if k != last {
      assert pk[last].sequence != pk[k].sequence;
      ComponentAtUnique(pk[..last], values, k);
    }
  }

  /** A position no key column has holds no component. */
  lemma {:induction false} ComponentAtAbsent(pk: seq<PartitionKeyIndex>, values: seq<Option<Bytes>>, s: nat)
    requires IndicesBound(pk, |values|)
    requires forall k :: 0 <= k < |pk| ==> pk[k].sequence != s
    ensures ComponentAt(pk, values, s) == None
  {
    if pk != [] {
      ComponentAtAbsent(pk[..|pk| - 1], values, s);
    }
  }

  /** Filling an empty slot with `v` adds exactly that component's framed size. */
  lemma {:induction false} FramedSizeFill(slots: seq<Option<Bytes>>, s: nat, v: Bytes)
    requires s < |slots| && slots[s] == None
    ensures FramedSize(slots[s := Some(v)]) == FramedSize(slots) + 2 + |v| + 1
  {
    if s > 0 {
      assert slots[s := Some(v)][1..] == slots[1..][s - 1 := Some(v)];
      FramedSizeFill(slots[1..], s - 1, v);
    } else {
      assert slots[s := Some(v)][1..] == slots[1..];
    }
  }

  /**
   * When the encoding fails, it names the FIRST component (in key order)
   * that is too long.
   */
  lemma {:induction false} EncodeFailsAtFirstTooLong(slots: seq<Option<Bytes>>, s: nat)
    requires s < |slots| && TooLong(slots[s])
    requires forall t :: 0 <= t < s ==> !TooLong(slots[t])
    ensures EncodeComponents(slots) == Err(ValueTooLong(|slots[s].value|))
  {
    if s > 0 {
      EncodeFailsAtFirstTooLong(slots[1..], s - 1);
    }
  }

  /** Parsing one frame in front of `rest` yields its value in front of what `rest` parses to. */
  lemma ParseFrame(v: Bytes, rest: Bytes)
    requires |v| <= MaxU16
    ensures ParseCompound(Frame(v) + rest) ==
      match ParseCompound(rest) case None => None case Some(t) => Some([v] + t)
  {
    var b := Frame(v) + rest;
    var h := U16BigEndian(|v|);
    assert b[0] == h[0] && b[1] == h[1];
    assert b[2..|v| + 2] == v;
    assert b[|v| + 2] == 0;
    assert b[|v| + 3..] == rest;
  }

  /** Round trip: a successful encoding parses back to exactly its non-null components. */
  lemma {:induction false} ParseEncodeRoundTrip(slots: seq<Option<Bytes>>)
    requires EncodeComponents(slots).Ok?
    ensures ParseCompound(EncodeComponents(slots).value) == Some(NonNullComponents(slots))
  {
    if slots != [] {
      ParseEncodeRoundTrip(slots[1..]);
      match slots[0]
      case None =>
        assert NonNullComponents(slots) == NonNullComponents(slots[1..]);
      case Some(v) =>
        ParseFrame(v, EncodeComponents(slots[1..]).value);
    }
  }

  /** Two component lists with the same key bytes have the same non-null components. */
  lemma EncodingInjective(slots1: seq<Option<Bytes>>, slots2: seq<Option<Bytes>>)
    requires EncodeComponents(slots1).Ok? && EncodeComponents(slots2).Ok?
    requires EncodeComponents(slots1).value == EncodeComponents(slots2).value
    ensures NonNullComponents(slots1) == NonNullComponents(slots2)
  {
    ParseEncodeRoundTrip(slots1);
    ParseEncodeRoundTrip(slots2);
  }

  /** The components depend only on the (position, value) pairs, not on bind order. */
  lemma KeyComponentsDependOnlyOnSequencedValues(
    pk1: seq<PartitionKeyIndex>, values1: seq<Option<Bytes>>,
    pk2: seq<PartitionKeyIndex>, values2: seq<Option<Bytes>>)
    requires |pk1| == |pk2|
    requires IndicesBound(pk1, |values1|) && IndicesBound(pk2, |values2|)
    requires SequencesDistinctInRange(pk1) && SequencesDistinctInRange(pk2)
    requires SequencedValues(pk1, values1) == SequencedValues(pk2, values2)
    ensures KeyComponents(pk1, values1) == KeyComponents(pk2, values2)
  {
    forall s | 0 <= s < |pk1|
      ensures ComponentAt(pk1, values1, s) == ComponentAt(pk2, values2, s)
    {
      if k1 :| 0 <= k1 < |pk1| && pk1[k1].sequence == s {
        ComponentAtUnique(pk1, values1, k1);
        var p := (pk1[k1].sequence, values1[pk1[k1].index]);
        assert p in SequencedValues(pk2, values2);
        var k2 :| 0 <= k2 < |pk2| && (pk2[k2].sequence, values2[pk2[k2].index]) == p;
        ComponentAtUnique(pk2, values2, k2);
      } else {
        ComponentAtAbsent(pk1, values1, s);
        forall k | 0 <= k < |pk2| ensures pk2[k].sequence != s {
          var p := (pk2[k].sequence, values2[pk2[k].index]);
          assert p in SequencedValues(pk1, values1);
        }
        ComponentAtAbsent(pk2, values2, s);
      }
    }
  }

  /**
   * The partition key depends only on which value sits at which key
   * position: permuting the bind order of the key columns, with the bound
   * values permuted to match, leaves it unchanged.
   */
  lemma PartitionKeyIndependentOfBindOrder(
    pk1: seq<PartitionKeyIndex>, values1: seq<Option<Bytes>>,
    pk2: seq<PartitionKeyIndex>, values2: seq<Option<Bytes>>)
    requires ValidValues(values1) && ValidValues(values2)
    requires |pk1| == |pk2|
    requires IndicesBound(pk1, |values1|) && IndicesBound(pk2, |values2|)
    requires SequencesDistinctInRange(pk1) && SequencesDistinctInRange(pk2)
    requires SequencedValues(pk1, values1) == SequencedValues(pk2, values2)
    ensures PartitionKeyOf(pk1, values1) == PartitionKeyOf(pk2, values2)
  {
    if |pk1| == 1 {
      var p := (pk1[0].sequence, values1[pk1[0].index]);
      assert p in SequencedValues(pk2, values2);
    } else {
      KeyComponentsDependOnlyOnSequencedValues(pk1, values1, pk2, values2);
    }
  }

  /**
   * A missing bound value is reported, in both paths, as the first key
   * column (in bind order) without a value together with the value count;
   * and that is the only way `NoPkIndexValue` arises.
   */
  lemma MissingValueReported(pk: seq<PartitionKeyIndex>, values: seq<Option<Bytes>>)
    requires ValidValues(values)
    ensures !IndicesBound(pk, |values|) <==>
      (PartitionKeyOf(pk, values).Err? && PartitionKeyOf(pk, values).error.NoPkIndexValue?)
    ensures !IndicesBound(pk, |values|) ==>
      exists k :: 0 <= k < |pk| && pk[k].index >= |values| && IndicesBound(pk[..k], |values|) &&
        PartitionKeyOf(pk, values) == Err(NoPkIndexValue(pk[k].index, |values|))
  {
  }

  /**
   * In the composite path, with every value present, the key is the
   * compound encoding of the components in key order; it fails exactly
   * when some component is longer than 65535 bytes, naming the first one.
   */
  lemma CompositeKeyIsEncodedComponents(pk: seq<PartitionKeyIndex>, values: seq<Option<Bytes>>)
    requires ValidValues(values) && |pk| != 1
    requires IndicesBound(pk, |values|)
    ensures var slots := KeyComponents(pk, values);
      && PartitionKeyOf(pk, values) == EncodeComponents(slots)
      && (PartitionKeyOf(pk, values).Ok? <==> AllFit(slots))
      && (PartitionKeyOf(pk, values).Ok? ==>
            ParseCompound(PartitionKeyOf(pk, values).value) == Some(NonNullComponents(slots)))
  {
    var slots := KeyComponents(pk, values);
    if EncodeComponents(slots).Ok? {
      ParseEncodeRoundTrip(slots);
    }
  }

  /** A statement with no key columns has the empty key. */
  lemma NoKeyColumnsGiveEmptyKey(values: seq<Option<Bytes>>)
    requires ValidValues(values)
    ensures PartitionKeyOf([], values) == Ok([])
  {
  }

  /** The single-column key is the raw value, with no framing and no length limit. */
  lemma SingleColumnKeyIsRawValue(pk: seq<PartitionKeyIndex>, values: seq<Option<Bytes>>)
    requires ValidValues(values) && |pk| == 1 && pk[0].index < |values|
    ensures values[pk[0].index].Some? ==> PartitionKeyOf(pk, values) == Ok(values[pk[0].index].value)
    ensures values[pk[0].index].None? ==> PartitionKeyOf(pk, values) == Ok([])
  {
  }

  /** A component of 65535 bytes fits; one of 65536 bytes is refused as `ValueTooLong(65536)`. */
  lemma LengthPrefixBoundary(short: Bytes, long: Bytes)
    requires |short| == MaxU16 && |long| == MaxU16 + 1
    ensures EncodeComponents([Some(short)]) == Ok([0xFF, 0xFF] + short + [0])
    ensures EncodeComponents([Some(short), Some(long)]) == Err(ValueTooLong(65536))
  {
    assert [Some(short)][1..] == [];
    assert U16BigEndian(|short|) == [0xFF, 0xFF];
    assert Frame(short) + [] == Frame(short);
    assert [Some(short), Some(long)][1..] == [Some(long)];
    assert [Some(long)][1..] == [];
  }

  /**
   * Two key columns bound in the opposite order to the key: the value bound
   * second comes first in the key.
   */
  lemma SwappedBindOrderExample(x: Bytes, y: Bytes)
    requires |x| == 4 && |y| == 2
    ensures PartitionKeyOf(
      [PartitionKeyIndex(0, 1), PartitionKeyIndex(1, 0)], [Some(x), Some(y)]) ==
      Ok([0, 2] + y + [0] + [0, 4] + x + [0])
  {
    var pk := [PartitionKeyIndex(0, 1), PartitionKeyIndex(1, 0)];
    var values := [Some(x), Some(y)];
    ComponentAtUnique(pk, values, 0);
    ComponentAtUnique(pk, values, 1);
    var slots := KeyComponents(pk, values);
    assert slots == [Some(y), Some(x)];
    assert slots[1..] == [Some(x)];
    assert [Some(x)][1..] == [];
    assert U16BigEndian(2) == [0, 2] && U16BigEndian(4) == [0, 4];
    assert EncodeComponents([Some(x)]) == Ok(Frame(x) + []);
    assert Frame(x) + [] == [0, 4] + x + [0];
    assert Frame(y) + ([0, 4] + x + [0]) == [0, 2] + y + [0] + [0, 4] + x + [0];
  }

  // ---------------------------------------------------------------------
  // The driver's algorithm
  // ---------------------------------------------------------------------

  /** A forward iterator over the bound values, as `SerializedValues::iter`. */
  class ValuesIter {
    const values: seq<Option<Bytes>>
    /** How many values the iterator has consumed. */
    var pos: nat

    predicate Valid()
      reads this
    {
      pos <= |values|
    }

    constructor (values: seq<Option<Bytes>>)
      ensures Valid() && this.values == values && pos == 0
    {
      this.values := values;
      pos := 0;
    }

    /** Skips `n` values and returns the next one; `None` once the values run out. */
    method Nth(n: nat) returns (item: Option<Option<Bytes>>)
      requires Valid()
      modifies this
      ensures Valid()
      ensures old(pos) + n < |values| ==> item == Some(values[old(pos) + n]) && pos == old(pos) + n + 1
      ensures old(pos) + n >= |values| ==> item == None && pos == |values|
    {
      if pos + n < |values| {
        item := Some(values[pos + n]);
        pos := pos + n + 1;
      } else {
        item := None;
        pos := |values|;
      }
    }
  }

  /**
   * The driver's partition-key computation. A single key column is read
   * with one cursor step. Otherwise the key columns are gathered into slots
   * in key order (`FillKeySlots`) and the slots emitted (`EmitKeySlots`).
   */
  method ComputePartitionKey(pk: seq<PartitionKeyIndex>, values: seq<Option<Bytes>>)
    returns (r: Result<Bytes, PartitionKeyError>)
    requires ValidValues(values)
    requires |pk| != 1 ==> Composable(pk)
    ensures r == PartitionKeyOf(pk, values)
  {
    var buf: Bytes := [];

    if |pk| == 1 {
      var it := new ValuesIter(values);
      var item := it.Nth(pk[0].index);
      if item.None? {
        return Err(NoPkIndexValue(pk[0].index, |values|));
      }
      if item.value.Some? {
        buf := buf + item.value.value;
        assert buf == item.value.value;
      }
      return Ok(buf);
    }

    var pkValues := new Option<Bytes>[|pk|](_ => None);
    var filled := FillKeySlots(pk, values, pkValues);
    if filled.Err? {
      return Err(filled.error);
    }
    r := EmitKeySlots(pkValues, filled.value);
  }

  /**
   * The first loop: walks the key columns in bind order with one forward
   * cursor, whose position is always one past the last bind index read,
   * and puts each non-null value into the slot of its key position. Returns
   * the output size to reserve, or the first key column without a value.
   */
  method FillKeySlots(pk: seq<PartitionKeyIndex>, values: seq<Option<Bytes>>, pkValues: array<Option<Bytes>>)
    returns (r: Result<nat, PartitionKeyError>)
    requires ValidValues(values) && Composable(pk)
    requires pkValues.Length == |pk|
    requires forall s :: 0 <= s < pkValues.Length ==> pkValues[s] == None
    modifies pkValues
    ensures r.Err? <==> FirstMissingIndex(pk, |values|).Some?
    ensures r.Err? ==> r.error == NoPkIndexValue(FirstMissingIndex(pk, |values|).value, |values|)
    ensures r.Ok? ==> pkValues[..] == KeyComponents(pk, values) && r.value == FramedSize(pkValues[..])
  {
    var n := |pk|;
    FramedSizeOfEmptySlots(pkValues[..]);
    assert pkValues[..] == SlotsSoFar(pk, values, 0);
    var it := new ValuesIter(values);
    var bufSize: nat := 0;
    var offset: U16 := 0;
    var j := 0;
    while j < n
      invariant 0 <= j <= n
      invariant it.values == values && it.Valid()
      invariant it.pos == offset
      invariant j == 0 ==> offset == 0
      invariant 0 < j ==> offset == pk[j - 1].index + 1
      invariant IndicesBound(pk[..j], |values|)
      invariant pkValues[..] == SlotsSoFar(pk, values, j)
      invariant bufSize == FramedSize(pkValues[..])
    {
      var pkIndex := pk[j];
      var nextVal := it.Nth(pkIndex.index - offset);
      if nextVal.None? {
        FirstMissingIndexIs(pk, |values|, j);
        return Err(NoPkIndexValue(pkIndex.index, |values|));
      }
      SlotsSoFarStep(pk, values, j);
      if nextVal.value.Some? {
        var v := nextVal.value.value;
        FramedSizeFill(pkValues[..], pkIndex.sequence, v);
        pkValues[pkIndex.sequence] := Some(v);
        bufSize := bufSize + 2 + |v| + 1;
      }
      offset := pkIndex.index + 1;
      j := j + 1;
    }
    assert pk[..n] == pk;
    return Ok(bufSize);
  }

  /** The slots after the first `j` key columns (in bind order) have been placed. */
  ghost function SlotsSoFar(pk: seq<PartitionKeyIndex>, values: seq<Option<Bytes>>, j: nat): (slots: seq<Option<Bytes>>)
    requires j <= |pk| && IndicesBound(pk[..j], |values|)
    ensures |slots| == |pk|
    ensures j == |pk| ==> slots == KeyComponents(pk, values)
  {
    assert j == |pk| ==> pk[..j] == pk;
    seq(|pk|, s requires 0 <= s < |pk| => ComponentAt(pk[..j], values, s))
  }

  /**
   * Placing column `j` fills its slot, which was still empty, with its
   * value and leaves every other slot alone.
   */
  lemma SlotsSoFarStep(pk: seq<PartitionKeyIndex>, values: seq<Option<Bytes>>, j: nat)
    requires SequencesDistinctInRange(pk)
    requires j < |pk| && IndicesBound(pk[..j + 1], |values|)
    ensures IndicesBound(pk[..j], |values|)
    ensures SlotsSoFar(pk, values, j)[pk[j].sequence] == None
    ensures SlotsSoFar(pk, values, j + 1) ==
      SlotsSoFar(pk, values, j)[pk[j].sequence := values[pk[j].index]]
  {
    assert pk[..j + 1][..j] == pk[..j];
    assert forall k :: 0 <= k < j ==> pk[..j][k] == pk[..j + 1][k];
    ComponentAtAbsent(pk[..j], values, pk[j].sequence);
  }

  /**
   * The second loop: emits the non-null slots in key order, each as u16
   * length, bytes and a zero byte, failing on the first too long for its
   * length prefix. `bufSize` is the size reserved for the output, and on
   * success the output fills it exactly.
   */
  method EmitKeySlots(pkValues: array<Option<Bytes>>, bufSize: nat) returns (r: Result<Bytes, PartitionKeyError>)
    requires bufSize == FramedSize(pkValues[..])
    ensures r == EncodeComponents(pkValues[..])
    ensures r.Ok? ==> |r.value| == bufSize
  {
    ghost var slots := pkValues[..];
    var n := pkValues.Length;
    var buf: Bytes := [];
    assert slots[0..] == slots;
    PrefixedEmpty(EncodeComponents(slots));
    var i := 0;
    while i < n
      invariant 0 <= i <= n
      invariant EncodeComponents(slots) == Prefixed(buf, EncodeComponents(slots[i..]))
      invariant |buf| + FramedSize(slots[i..]) == bufSize
    {
      EncodeStep(slots, i);
      if pkValues[i].Some? {
        var v := pkValues[i].value;
        if |v| > MaxU16 {
          return Err(ValueTooLong(|v|));
        }
        ghost var before := buf;
        buf := buf + U16BigEndian(|v|);
        buf := buf + v;
        buf := buf + [0];
        assert buf == before + Frame(v);
        PrefixedAppend(before, Frame(v), EncodeComponents(slots[i + 1..]));
      }
      i := i + 1;
    }
    assert slots[n..] == [];
    assert buf + [] == buf;
    return Ok(buf);
  }

  /** `r` with `prefix` in front of its bytes, if it has any. */
  function Prefixed(prefix: Bytes, r: Result<Bytes, PartitionKeyError>): Result<Bytes, PartitionKeyError>
  {
    match r
    case Ok(rest) => Ok(prefix + rest)
    case Err(e) => Err(e)
  }

  lemma PrefixedEmpty(r: Result<Bytes, PartitionKeyError>)
    ensures Prefixed([], r) == r
  {
    if r.Ok? {
      assert [] + r.value == r.value;
    }
  }

  lemma PrefixedAppend(a: Bytes, b: Bytes, r: Result<Bytes, PartitionKeyError>)
    ensures Prefixed(a, Prefixed(b, r)) == Prefixed(a + b, r)
  {
    if r.Ok? {
      assert a + (b + r.value) == (a + b) + r.value;
    }
  }

  /** One step of the encoding and of the size, from slot `i` on. */
  lemma EncodeStep(slots: seq<Option<Bytes>>, i: nat)
    requires i < |slots|
    ensures EncodeComponents(slots[i..]) ==
      match slots[i]
      case None => EncodeComponents(slots[i + 1..])
      case Some(v) =>
        if |v| > MaxU16 then Err(ValueTooLong(|v|))
        else Prefixed(Frame(v), EncodeComponents(slots[i + 1..]))
    ensures FramedSize(slots[i..]) ==
      (match slots[i] case Some(v) => 2 + |v| + 1 case None => 0) + FramedSize(slots[i + 1..])
  {
  }

  /** Slots that are all empty have no framed size. */
  lemma {:induction false} FramedSizeOfEmptySlots(slots: seq<Option<Bytes>>)
    requires forall s :: 0 <= s < |slots| ==> slots[s] == None
    ensures FramedSize(slots) == 0
  {
    if slots != [] {
      FramedSizeOfEmptySlots(slots[1..]);
    }
  }

  /** The cursor fails at column `j` exactly when `j` is the first column without a value. */
  lemma FirstMissingIndexIs(pk: seq<PartitionKeyIndex>, n: nat, j: nat)
    requires j < |pk| && IndicesBound(pk[..j], n) && pk[j].index >= n
    ensures FirstMissingIndex(pk, n) == Some(pk[j].index)
  {
  }
}
