/**
 * A statement prepared on the server: its id, source text and metadata,
 * the routing flags derived from them, and the per-statement overrides
 * (consistency, paging, tracing, ...) that shadow the session's defaults.
 * `None` in an override means "use the session's default"; resolving it
 * is the executing session's job, not this one's.
 */
module Statement {
  import opened Wrappers
  import opened Metadata
  import PartitionKey

  /** The consistency levels of the CQL protocol. */
  datatype Consistency =
    | Any | One | Two | Three | Quorum | All
    | LocalQuorum | EachQuorum | LocalOne | SerialLevel | LocalSerialLevel

  /** The consistency levels of the Paxos round of a lightweight transaction. */
  datatype SerialConsistency = Serial | LocalSerial

  /** The partitioner of the statement's table; the default is Murmur3. */
  datatype PartitionerName = Murmur3 | Cdc

  /** A tracing session id, kept as its 16 bytes. */
  datatype Uuid = Uuid(bytes: Bytes)

  /** A span of time, in nanoseconds. */
  type Duration = nat

  /**
   * The per-statement overrides. `Listener` stands for a shared history
   * listener and `Profile` for an execution-profile handle, both opaque here.
   * `serialConsistency` has two levels of `Option`: not overridden, or
   * overridden with "none" or with a level.
   */
  datatype StatementConfig<Listener, Profile> = StatementConfig(
    consistency: Option<Consistency>,
    serialConsistency: Option<Option<SerialConsistency>>,
    isIdempotent: bool,
    tracing: bool,
    timestamp: Option<I64>,
    requestTimeout: Option<Duration>,
    historyListener: Option<Listener>,
    executionProfileHandle: Option<Profile>)

  class PreparedStatement<Listener, Profile> {
    var config: StatementConfig<Listener, Profile>
    /** Tracing ids of the requests that prepared this statement. */
    var prepareTracingIds: seq<Uuid>

    const id: Bytes
    const metadata: PreparedMetadata
    const statement: string
    var pageSize: Option<I32>
    var partitionerName: PartitionerName
    /** Whether the server confirmed, when preparing, that this is a lightweight transaction. */
    const isConfirmedLwt: bool

    /** A page size, when there is one, is positive. */
    predicate Valid()
      reads this
    {
      pageSize.Some? ==> pageSize.value > 0
    }

    constructor (
      id: Bytes, isLwt: bool, metadata: PreparedMetadata, statement: string,
      pageSize: Option<I32>, config: StatementConfig<Listener, Profile>)
      ensures this.id == id && this.metadata == metadata && this.statement == statement
      ensures this.pageSize == pageSize && this.config == config
      ensures isConfirmedLwt == isLwt
      ensures prepareTracingIds == [] && partitionerName == Murmur3
    {
      this.id := id;
      this.metadata := metadata;
      this.statement := statement;
      prepareTracingIds := [];
      this.pageSize := pageSize;
      this.config := config;
      partitionerName := Murmur3;
      isConfirmedLwt := isLwt;
    }

    /**
     * A duplicate with the same id, metadata, text, page size, partitioner
     * and overrides, but no prepare tracing ids: the duplicate itself was
     * never prepared. It is a new object, so overriding on it leaves this
     * statement alone.
     */
    method Clone() returns (c: PreparedStatement<Listener, Profile>)
      ensures fresh(c)
      ensures c.config == config && c.prepareTracingIds == []
      ensures c.id == id && c.metadata == metadata && c.statement == statement
      ensures c.pageSize == pageSize && c.partitionerName == partitionerName
      ensures c.isConfirmedLwt == isConfirmedLwt
      ensures Valid() ==> c.Valid()
    {
      c := new PreparedStatement(id, isConfirmedLwt, metadata, statement, pageSize, config);
      c.partitionerName := partitionerName;
    }

    function GetId(): Bytes
    {
      id
    }

    function GetStatement(): string
    {
      statement
    }

    /** Sets the page size; a page size that is not positive is a fatal misuse. */
    method SetPageSize(pageSize: I32)
      requires pageSize > 0
      modifies this`pageSize
      ensures GetPageSize() == Some(pageSize)
      ensures Valid()
    {
      this.pageSize := Some(pageSize);
    }

    method DisablePaging()
      modifies this`pageSize
      ensures GetPageSize() == None
      ensures Valid()
    {
      pageSize := None;
    }

    function GetPageSize(): Option<I32>
      reads this
    {
      pageSize
    }

    function GetPrepareTracingIds(): seq<Uuid>
      reads this
    {
      prepareTracingIds
    }

    /**
     * Whether the statement can be routed by its partition key: exactly
     * when it has key columns. Without them the key is always empty.
     */
    function IsTokenAware(): (r: bool)
      ensures r <==> |metadata.pkIndexes| > 0
      ensures !r ==> forall values :: PartitionKey.ValidValues(values) ==>
        PartitionKey.PartitionKeyOf(metadata.pkIndexes, values) == Ok([])
    {
      |metadata.pkIndexes| != 0
    }

    function IsConfirmedLwt(): bool
    {
      isConfirmedLwt
    }

    /** The partition key of this statement for the given bound values. */
    method ComputePartitionKey(boundValues: seq<Option<Bytes>>)
      returns (r: Result<Bytes, PartitionKey.PartitionKeyError>)
      requires PartitionKey.ValidValues(boundValues)
      requires |metadata.pkIndexes| != 1 ==> Composable(metadata.pkIndexes)
      ensures r == PartitionKey.PartitionKeyOf(metadata.pkIndexes, boundValues)
    {
      r := PartitionKey.ComputePartitionKey(metadata.pkIndexes, boundValues);
    }

    /** The keyspace of the first bound column, if there is one. */
    function GetKeyspaceName(): (r: Option<string>)
      ensures r.Some? <==> |metadata.colSpecs| > 0
      ensures r.Some? ==> r.value == metadata.colSpecs[0].tableSpec.ksName
    {
      if |metadata.colSpecs| == 0 then None else Some(metadata.colSpecs[0].tableSpec.ksName)
    }

    /** The table of the first bound column, if there is one. */
    function GetTableName(): (r: Option<string>)
      ensures r.Some? <==> |metadata.colSpecs| > 0
      ensures r.Some? ==> r.value == metadata.colSpecs[0].tableSpec.tableName
    {
      if |metadata.colSpecs| == 0 then None else Some(metadata.colSpecs[0].tableSpec.tableName)
    }

    method SetConsistency(c: Consistency)
      modifies this`config
      ensures config == old(config).(consistency := Some(c))
      ensures GetConsistency() == Some(c)
    {
      config := config.(consistency := Some(c));
    }

    function GetConsistency(): Option<Consistency>
      reads this
    {
      config.consistency
    }

    /** Overrides the serial consistency, possibly with "none". */
    method SetSerialConsistency(sc: Option<SerialConsistency>)
      modifies this`config
      ensures config == old(config).(serialConsistency := Some(sc))
      ensures GetSerialConsistency() == sc
    {
      config := config.(serialConsistency := Some(sc));
    }

    /** The serial consistency override, with "not overridden" and "none" both read as `None`. */
    function GetSerialConsistency(): Option<SerialConsistency>
      reads this
    {
      match config.serialConsistency
      case Some(sc) => sc
      case None => None
    }

    method SetIsIdempotent(isIdempotent: bool)
      modifies this`config
      ensures config == old(config).(isIdempotent := isIdempotent)
      ensures GetIsIdempotent() == isIdempotent
    {
      config := config.(isIdempotent := isIdempotent);
    }

    function GetIsIdempotent(): bool
      reads this
    {
      config.isIdempotent
    }

    method SetTracing(shouldTrace: bool)
      modifies this`config
      ensures config == old(config).(tracing := shouldTrace)
      ensures GetTracing() == shouldTrace
    {
      config := config.(tracing := shouldTrace);
    }

    function GetTracing(): bool
      reads this
    {
      config.tracing
    }

    /** Sets the default timestamp, in microseconds. */
    method SetTimestamp(timestamp: Option<I64>)
      modifies this`config
      ensures config == old(config).(timestamp := timestamp)
      ensures GetTimestamp() == timestamp
    {
      config := config.(timestamp := timestamp);
    }

    function GetTimestamp(): Option<I64>
      reads this
    {
      config.timestamp
    }

    method SetRequestTimeout(timeout: Option<Duration>)
      modifies this`config
      ensures config == old(config).(requestTimeout := timeout)
      ensures GetRequestTimeout() == timeout
    {
      config := config.(requestTimeout := timeout);
    }

    function GetRequestTimeout(): Option<Duration>
      reads this
    {
      config.requestTimeout
    }

    method SetPartitionerName(partitionerName: PartitionerName)
      modifies this`partitionerName
      ensures GetPartitionerName() == partitionerName
    {
      this.partitionerName := partitionerName;
    }

    function GetPreparedMetadata(): PreparedMetadata
    {
      metadata
    }

    function GetPartitionerName(): PartitionerName
      reads this
    {
      partitionerName
    }

    method SetHistoryListener(historyListener: Listener)
      modifies this`config
      ensures config == old(config).(historyListener := Some(historyListener))
    {
      config := config.(historyListener := Some(historyListener));
    }

    /** Takes the history listener out: returns what was set and leaves none. */
    method RemoveHistoryListener() returns (r: Option<Listener>)
      modifies this`config
      ensures r == old(config.historyListener)
      ensures config == old(config).(historyListener := None)
    {
      r := config.historyListener;
      config := config.(historyListener := None);
    }

    method SetExecutionProfileHandle(profileHandle: Option<Profile>)
      modifies this`config
      ensures config == old(config).(executionProfileHandle := profileHandle)
      ensures GetExecutionProfileHandle() == profileHandle
    {
      config := config.(executionProfileHandle := profileHandle);
    }

    function GetExecutionProfileHandle(): Option<Profile>
      reads this
    {
      config.executionProfileHandle
    }
  }

  /**
   * Duplicating a statement and overriding the consistency on the
   * duplicate: the duplicate carries the original's overrides plus the new
   * one, starts without tracing ids, and the original is left as it was.
   */
  method OverrideOnDuplicate<Listener, Profile>(s: PreparedStatement<Listener, Profile>, c: Consistency)
    returns (copy: PreparedStatement<Listener, Profile>)
    ensures copy != s
    ensures copy.config == s.config.(consistency := Some(c))
    ensures copy.GetConsistency() == Some(c)
    ensures copy.GetPrepareTracingIds() == []
  {
    copy := s.Clone();
    copy.SetConsistency(c);
  }
}
