/** Every message of coprocessor.proto and debugpb.proto spelled out: its parts by number and proto
    type, hence its bytes, the values it can hold, and exactly when it is read back. */
module MessageLaws {
  import opened Wire
  import opened Codec
  import opened Format
  import opened Catalogue
  import opened KeyRangeMessage
  import opened RequestValues
  import opened CompactRequestMessage
  import opened RegionSizeRequestMessage
  import Ownership

  // ---------------------------------------------------------------- the messages with a class

  lemma {:induction false} KeyRangeMeans(start: bytes, end: bytes, unk: seq<Record>, budget: nat)
    ensures Means(KEY_RANGE, [BytesPart(1, start), BytesPart(2, end)], unk, budget)
  {
    hide WellFormed, Means;
    KeyRangeWellFormed();
    TableMeans(KEY_RANGE, [BytesPart(1, start), BytesPart(2, end)], unk, budget);
  }

  /** `ctx` is the schema of the context, CONTEXT in the repository. */
  lemma {:induction false} RequestMeans(ctx: Schema, context: Option<Msg>, tp: int, data: bytes, ranges: seq<Msg>,
                                        unk: seq<Record>, budget: nat)
    requires WellFormed(ctx)
    ensures Means(RequestSchema(ctx),
                  [MessagePart(1, ctx, context), Int64Part(2, tp), BytesPart(3, data),
                   MessagesPart(4, KEY_RANGE, ranges)], unk, budget)
  {
    hide WellFormed, Means;
    RequestWellFormed(ctx);
    TableMeans(RequestSchema(ctx),
               [MessagePart(1, ctx, context), Int64Part(2, tp), BytesPart(3, data),
                MessagesPart(4, KEY_RANGE, ranges)], unk, budget);
  }

  lemma {:induction false} CompactRequestMeans(db: int, cf: bytes, fromKey: bytes, toKey: bytes, threads: int,
                                               level: int, unk: seq<Record>, budget: nat)
    ensures Means(COMPACT_REQUEST,
                  [EnumPart(1, db), StringPart(2, cf), BytesPart(3, fromKey), BytesPart(4, toKey),
                   UInt32Part(5, threads), EnumPart(6, level)], unk, budget)
  {
    hide WellFormed, Means;
    CompactRequestWellFormed();
    TableMeans(COMPACT_REQUEST,
               [EnumPart(1, db), StringPart(2, cf), BytesPart(3, fromKey), BytesPart(4, toKey),
                UInt32Part(5, threads), EnumPart(6, level)], unk, budget);
  }

  lemma {:induction false} RegionSizeRequestMeans(regionId: int, cfs: seq<bytes>, unk: seq<Record>, budget: nat)
    ensures Means(REGION_SIZE_REQUEST, [UInt64Part(1, regionId), StringsPart(2, cfs)], unk, budget)
  {
    hide WellFormed, Means;
    RegionSizeRequestWellFormed();
    TableMeans(REGION_SIZE_REQUEST, [UInt64Part(1, regionId), StringsPart(2, cfs)], unk, budget);
  }

  // ---------------------------------------------------------------- the others

  lemma {:induction false} ResponseMeans(data: bytes, regionError: Option<Msg>, locked: Option<Msg>, otherError: bytes,
                                         range: Option<Msg>, execDetails: Option<Msg>, unk: seq<Record>, budget: nat)
    ensures Means(COPROCESSOR_RESPONSE, [BytesPart(1, data), MessagePart(2, ERROR, regionError),
                                         MessagePart(3, LOCK_INFO, locked), StringPart(4, otherError),
                                         MessagePart(5, KEY_RANGE, range),
                                         MessagePart(6, EXEC_DETAILS, execDetails)], unk, budget)
  {
    hide WellFormed, Means;
    CoprocessorWellFormed();
    TableMeans(COPROCESSOR_RESPONSE, [BytesPart(1, data), MessagePart(2, ERROR, regionError),
                                      MessagePart(3, LOCK_INFO, locked), StringPart(4, otherError),
                                      MessagePart(5, KEY_RANGE, range),
                                      MessagePart(6, EXEC_DETAILS, execDetails)], unk, budget);
  }

  lemma {:induction false} GetRequestMeans(db: int, cf: bytes, key: bytes, unk: seq<Record>, budget: nat)
    ensures Means(GET_REQUEST, [EnumPart(1, db), StringPart(2, cf), BytesPart(3, key)], unk, budget)
  {
    hide WellFormed, Means;
    FlatDebugpbWellFormed();
    TableMeans(GET_REQUEST, [EnumPart(1, db), StringPart(2, cf), BytesPart(3, key)], unk, budget);
  }

  lemma {:induction false} GetResponseMeans(value: bytes, unk: seq<Record>, budget: nat)
    ensures Means(GET_RESPONSE, [BytesPart(1, value)], unk, budget)
  {
    hide WellFormed, Means;
    FlatDebugpbWellFormed();
    TableMeans(GET_RESPONSE, [BytesPart(1, value)], unk, budget);
  }

  lemma {:induction false} RaftLogRequestMeans(regionId: int, logIndex: int, unk: seq<Record>, budget: nat)
    ensures Means(RAFT_LOG_REQUEST, [UInt64Part(1, regionId), UInt64Part(2, logIndex)], unk, budget)
  {
    hide WellFormed, Means;
    FlatDebugpbWellFormed();
    TableMeans(RAFT_LOG_REQUEST, [UInt64Part(1, regionId), UInt64Part(2, logIndex)], unk, budget);
  }

  lemma {:induction false} RaftLogResponseMeans(entry: Option<Msg>, unk: seq<Record>, budget: nat)
    ensures Means(RAFT_LOG_RESPONSE, [MessagePart(1, ENTRY, entry)], unk, budget)
  {
    hide WellFormed, Means;
    NestedDebugpbWellFormed();
    TableMeans(RAFT_LOG_RESPONSE, [MessagePart(1, ENTRY, entry)], unk, budget);
  }

  lemma {:induction false} RegionInfoRequestMeans(regionId: int, unk: seq<Record>, budget: nat)
    ensures Means(REGION_INFO_REQUEST, [UInt64Part(1, regionId)], unk, budget)
  {
    hide WellFormed, Means;
    FlatDebugpbWellFormed();
    TableMeans(REGION_INFO_REQUEST, [UInt64Part(1, regionId)], unk, budget);
  }

  lemma {:induction false} RegionInfoResponseMeans(localState: Option<Msg>, applyState: Option<Msg>,
                                                   regionState: Option<Msg>, unk: seq<Record>, budget: nat)
    ensures Means(REGION_INFO_RESPONSE, [MessagePart(1, RAFT_LOCAL_STATE, localState),
                                         MessagePart(2, RAFT_APPLY_STATE, applyState),
                                         MessagePart(3, REGION_LOCAL_STATE, regionState)], unk, budget)
  {
    hide WellFormed, Means;
    NestedDebugpbWellFormed();
    TableMeans(REGION_INFO_RESPONSE, [MessagePart(1, RAFT_LOCAL_STATE, localState),
                                      MessagePart(2, RAFT_APPLY_STATE, applyState),
                                      MessagePart(3, REGION_LOCAL_STATE, regionState)], unk, budget);
  }

  lemma {:induction false} RegionSizeEntryMeans(cf: bytes, size: int, unk: seq<Record>, budget: nat)
    ensures Means(REGION_SIZE_ENTRY, [StringPart(1, cf), UInt64Part(2, size)], unk, budget)
  {
    hide WellFormed, Means;
    FlatDebugpbWellFormed();
    TableMeans(REGION_SIZE_ENTRY, [StringPart(1, cf), UInt64Part(2, size)], unk, budget);
  }

  lemma {:induction false} RegionSizeResponseMeans(entries: seq<Msg>, unk: seq<Record>, budget: nat)
    ensures Means(REGION_SIZE_RESPONSE, [MessagesPart(1, REGION_SIZE_ENTRY, entries)], unk, budget)
  {
    hide WellFormed, Means;
    NestedDebugpbWellFormed();
    TableMeans(REGION_SIZE_RESPONSE, [MessagesPart(1, REGION_SIZE_ENTRY, entries)], unk, budget);
  }

  lemma {:induction false} ScanMvccRequestMeans(fromKey: bytes, toKey: bytes, limit: int, unk: seq<Record>, budget: nat)
    ensures Means(SCAN_MVCC_REQUEST, [BytesPart(1, fromKey), BytesPart(2, toKey), UInt64Part(3, limit)], unk, budget)
  {
    hide WellFormed, Means;
    FlatDebugpbWellFormed();
    TableMeans(SCAN_MVCC_REQUEST, [BytesPart(1, fromKey), BytesPart(2, toKey), UInt64Part(3, limit)], unk, budget);
  }

  lemma {:induction false} ScanMvccResponseMeans(key: bytes, info: Option<Msg>, unk: seq<Record>, budget: nat)
    ensures Means(SCAN_MVCC_RESPONSE, [BytesPart(1, key), MessagePart(2, MVCC_INFO, info)], unk, budget)
  {
    hide WellFormed, Means;
    NestedDebugpbWellFormed();
    TableMeans(SCAN_MVCC_RESPONSE, [BytesPart(1, key), MessagePart(2, MVCC_INFO, info)], unk, budget);
  }

  lemma {:induction false} NoFieldsMeans(unk: seq<Record>, budget: nat)
    ensures Means(NO_FIELDS, [], unk, budget)
  {
    hide WellFormed, Means;
    ErrorpbWellFormed();
    TableMeans(NO_FIELDS, [], unk, budget);
  }

  lemma {:induction false} InjectFailPointRequestMeans(name: bytes, actions: bytes, unk: seq<Record>, budget: nat)
    ensures Means(INJECT_FAIL_POINT_REQUEST, [StringPart(1, name), StringPart(2, actions)], unk, budget)
  {
    hide WellFormed, Means;
    FlatDebugpbWellFormed();
    TableMeans(INJECT_FAIL_POINT_REQUEST, [StringPart(1, name), StringPart(2, actions)], unk, budget);
  }

  lemma {:induction false} RecoverFailPointRequestMeans(name: bytes, unk: seq<Record>, budget: nat)
    ensures Means(RECOVER_FAIL_POINT_REQUEST, [StringPart(1, name)], unk, budget)
  {
    hide WellFormed, Means;
    FlatDebugpbWellFormed();
    TableMeans(RECOVER_FAIL_POINT_REQUEST, [StringPart(1, name)], unk, budget);
  }

  lemma {:induction false} FailPointEntryMeans(name: bytes, actions: bytes, unk: seq<Record>, budget: nat)
    ensures Means(FAIL_POINT_ENTRY, [StringPart(1, name), StringPart(2, actions)], unk, budget)
  {
    hide WellFormed, Means;
    FlatDebugpbWellFormed();
    TableMeans(FAIL_POINT_ENTRY, [StringPart(1, name), StringPart(2, actions)], unk, budget);
  }

  lemma {:induction false} ListFailPointsResponseMeans(entries: seq<Msg>, unk: seq<Record>, budget: nat)
    ensures Means(LIST_FAIL_POINTS_RESPONSE, [MessagesPart(1, FAIL_POINT_ENTRY, entries)], unk, budget)
  {
    hide WellFormed, Means;
    NestedDebugpbWellFormed();
    TableMeans(LIST_FAIL_POINTS_RESPONSE, [MessagesPart(1, FAIL_POINT_ENTRY, entries)], unk, budget);
  }

  lemma {:induction false} GetMetricsRequestMeans(all: int, unk: seq<Record>, budget: nat)
    ensures Means(GET_METRICS_REQUEST, [BoolPart(1, all)], unk, budget)
  {
    hide WellFormed, Means;
    FlatDebugpbWellFormed();
    TableMeans(GET_METRICS_REQUEST, [BoolPart(1, all)], unk, budget);
  }

  lemma {:induction false} GetMetricsResponseMeans(prometheus: bytes, rocksdbKv: bytes, rocksdbRaft: bytes,
                                                   jemalloc: bytes, storeId: int, unk: seq<Record>, budget: nat)
    ensures Means(GET_METRICS_RESPONSE, [StringPart(1, prometheus), StringPart(2, rocksdbKv),
                                         StringPart(3, rocksdbRaft), StringPart(4, jemalloc),
                                         UInt64Part(5, storeId)], unk, budget)
  {
    hide WellFormed, Means;
    FlatDebugpbWellFormed();
    TableMeans(GET_METRICS_RESPONSE, [StringPart(1, prometheus), StringPart(2, rocksdbKv), StringPart(3, rocksdbRaft),
                                      StringPart(4, jemalloc), UInt64Part(5, storeId)], unk, budget);
  }

  lemma {:induction false} RegionConsistencyCheckRequestMeans(regionId: int, unk: seq<Record>, budget: nat)
    ensures Means(REGION_CONSISTENCY_CHECK_REQUEST, [UInt64Part(1, regionId)], unk, budget)
  {
    hide WellFormed, Means;
    FlatDebugpbWellFormed();
    TableMeans(REGION_CONSISTENCY_CHECK_REQUEST, [UInt64Part(1, regionId)], unk, budget);
  }

  lemma {:induction false} ModifyTikvConfigRequestMeans(mod: int, configName: bytes,
                                                        configValue: bytes, unk: seq<Record>, budget: nat)
    ensures Means(MODIFY_TIKV_CONFIG_REQUEST, [EnumPart(1, mod), StringPart(2, configName),
                                               StringPart(3, configValue)], unk, budget)
  {
    hide WellFormed, Means;
    FlatDebugpbWellFormed();
    TableMeans(MODIFY_TIKV_CONFIG_REQUEST, [EnumPart(1, mod), StringPart(2, configName),
                                            StringPart(3, configValue)], unk, budget);
  }

  lemma {:induction false} PropertyMeans(name: bytes, value: bytes, unk: seq<Record>, budget: nat)
    ensures Means(PROPERTY, [StringPart(1, name), StringPart(2, value)], unk, budget)
  {
    hide WellFormed, Means;
    FlatDebugpbWellFormed();
    TableMeans(PROPERTY, [StringPart(1, name), StringPart(2, value)], unk, budget);
  }

  lemma {:induction false} GetRegionPropertiesRequestMeans(regionId: int, unk: seq<Record>, budget: nat)
    ensures Means(GET_REGION_PROPERTIES_REQUEST, [UInt64Part(1, regionId)], unk, budget)
  {
    hide WellFormed, Means;
    FlatDebugpbWellFormed();
    TableMeans(GET_REGION_PROPERTIES_REQUEST, [UInt64Part(1, regionId)], unk, budget);
  }

  lemma {:induction false} GetRegionPropertiesResponseMeans(props: seq<Msg>, unk: seq<Record>, budget: nat)
    ensures Means(GET_REGION_PROPERTIES_RESPONSE, [MessagesPart(1, PROPERTY, props)], unk, budget)
  {
    hide WellFormed, Means;
    NestedDebugpbWellFormed();
    TableMeans(GET_REGION_PROPERTIES_RESPONSE, [MessagesPart(1, PROPERTY, props)], unk, budget);
  }

  /** The ownership machine has one slot for every optional nested message of Response. */
  lemma {:induction false} ResponseSlots()
    ensures (set i | 0 <= i < |COPROCESSOR_RESPONSE.fields| && COPROCESSOR_RESPONSE.fields[i].typ.Sub?)
         == {1, 2, 4, 5}
    ensures |{1, 2, 4, 5}| == Ownership.NESTED
  {
    var types := [Bytes, Sub(ERROR), Sub(LOCK_INFO), Str, Sub(KEY_RANGE), Sub(EXEC_DETAILS)];
    assert forall i :: 0 <= i < 6 ==> COPROCESSOR_RESPONSE.fields[i].typ == types[i];
  }
}
