/** The field tables of every message of coprocessor.proto and debugpb.proto and of the messages
    nested in them. Each is well-formed, so every law of the codec holds of each. */
module Catalogue {
  import opened Codec
  import opened KeyRangeMessage
  import opened RequestValues
  import opened CompactRequestMessage
  import opened RegionSizeRequestMessage

  /** Fields numbered 1, 2, 3, ... */
  function Table(types: seq<FieldType>): Schema
    requires |types| < 15
  {
    Schema(seq(|types|, i requires 0 <= i < |types| => Field(i + 1, types[i])))
  }

  lemma {:induction false} TableWellFormed(types: seq<FieldType>)
    requires |types| < 15 && forall i :: 0 <= i < |types| ==> WellFormedType(types[i])
    ensures WellFormed(Table(types))
  {
  }

  // metapb
  const REGION_EPOCH := Table([UInt64, UInt64])
  const PEER := Table([UInt64, UInt64, Bool])
  const REGION := Table([UInt64, Bytes, Bytes, Sub(REGION_EPOCH), RepSub(PEER)])

  // errorpb
  const NOT_LEADER := Table([UInt64, Sub(PEER)])
  const REGION_NOT_FOUND := Table([UInt64])
  const KEY_NOT_IN_REGION := Table([Bytes, UInt64, Bytes, Bytes])
  const STALE_EPOCH := Table([RepSub(REGION)])
  const SERVER_IS_BUSY := Table([Str, UInt64])
  const NO_FIELDS := Table([])
  const RAFT_ENTRY_TOO_LARGE := Table([UInt64, UInt64])
  const ERROR :=
    Table([Str, Sub(NOT_LEADER), Sub(REGION_NOT_FOUND), Sub(KEY_NOT_IN_REGION), Sub(STALE_EPOCH),
           Sub(SERVER_IS_BUSY), Sub(NO_FIELDS), Sub(NO_FIELDS), Sub(RAFT_ENTRY_TOO_LARGE)])

  // kvrpcpb; Context has no field 4
  const CONTEXT :=
    Schema([Field(1, UInt64), Field(2, Sub(REGION_EPOCH)), Field(3, Sub(PEER)), Field(5, UInt64), Field(6, Enum),
            Field(7, Enum), Field(8, Bool), Field(9, Bool), Field(10, Bool), Field(11, Bool)])
  const LOCK_INFO := Table([Bytes, UInt64, Bytes, UInt64])
  const HANDLE_TIME := Table([Int64, Int64])
  const SCAN_INFO := Table([Int64, Int64])
  const SCAN_DETAIL := Table([Sub(SCAN_INFO), Sub(SCAN_INFO), Sub(SCAN_INFO)])
  const EXEC_DETAILS := Table([Sub(HANDLE_TIME), Sub(SCAN_DETAIL)])
  const MVCC_LOCK := Table([Enum, UInt64, Bytes, Bytes])
  const MVCC_WRITE := Table([Enum, UInt64, UInt64, Bytes])
  const MVCC_VALUE := Table([UInt64, Bytes])
  const MVCC_INFO := Table([Sub(MVCC_LOCK), RepSub(MVCC_WRITE), RepSub(MVCC_VALUE)])

  // eraftpb and raft_serverpb
  const ENTRY := Table([Enum, UInt64, UInt64, Bytes, Bool, Bytes])
  const HARD_STATE := Table([UInt64, UInt64, UInt64])
  const RAFT_LOCAL_STATE := Table([Sub(HARD_STATE), UInt64])
  const RAFT_TRUNCATED_STATE := Table([UInt64, UInt64])
  const RAFT_APPLY_STATE := Table([UInt64, Sub(RAFT_TRUNCATED_STATE)])
  const MERGE_STATE := Table([UInt64, Sub(REGION), UInt64])
  const REGION_LOCAL_STATE := Table([Enum, Sub(REGION), Sub(MERGE_STATE)])

  // coprocessor
  const COPROCESSOR_REQUEST := RequestSchema(CONTEXT)
  const COPROCESSOR_RESPONSE :=
    Table([Bytes, Sub(ERROR), Sub(LOCK_INFO), Str, Sub(KEY_RANGE), Sub(EXEC_DETAILS)])

  // debugpb
  const GET_REQUEST := Table([Enum, Str, Bytes])
  const GET_RESPONSE := Table([Bytes])
  const RAFT_LOG_REQUEST := Table([UInt64, UInt64])
  const RAFT_LOG_RESPONSE := Table([Sub(ENTRY)])
  const REGION_INFO_REQUEST := Table([UInt64])
  const REGION_INFO_RESPONSE := Table([Sub(RAFT_LOCAL_STATE), Sub(RAFT_APPLY_STATE), Sub(REGION_LOCAL_STATE)])
  const REGION_SIZE_ENTRY := Table([Str, UInt64])
  const REGION_SIZE_RESPONSE := Table([RepSub(REGION_SIZE_ENTRY)])
  const SCAN_MVCC_REQUEST := Table([Bytes, Bytes, UInt64])
  const SCAN_MVCC_RESPONSE := Table([Bytes, Sub(MVCC_INFO)])
  const INJECT_FAIL_POINT_REQUEST := Table([Str, Str])
  const RECOVER_FAIL_POINT_REQUEST := Table([Str])
  const FAIL_POINT_ENTRY := Table([Str, Str])
  const LIST_FAIL_POINTS_RESPONSE := Table([RepSub(FAIL_POINT_ENTRY)])
  const GET_METRICS_REQUEST := Table([Bool])
  const GET_METRICS_RESPONSE := Table([Str, Str, Str, Str, UInt64])
  const REGION_CONSISTENCY_CHECK_REQUEST := Table([UInt64])
  const MODIFY_TIKV_CONFIG_REQUEST := Table([Enum, Str, Str])
  const PROPERTY := Table([Str, Str])
  const GET_REGION_PROPERTIES_REQUEST := Table([UInt64])
  const GET_REGION_PROPERTIES_RESPONSE := Table([RepSub(PROPERTY)])

  /** The messages the two files generate. CompactResponse, the fail-point responses and the like
      have no fields. */
  ghost const CORE_MESSAGES: set<Schema> := {
    KEY_RANGE, COPROCESSOR_REQUEST, COPROCESSOR_RESPONSE,
    GET_REQUEST, GET_RESPONSE, RAFT_LOG_REQUEST, RAFT_LOG_RESPONSE, REGION_INFO_REQUEST, REGION_INFO_RESPONSE,
    REGION_SIZE_REQUEST, REGION_SIZE_ENTRY, REGION_SIZE_RESPONSE, SCAN_MVCC_REQUEST, SCAN_MVCC_RESPONSE,
    COMPACT_REQUEST, NO_FIELDS, INJECT_FAIL_POINT_REQUEST, RECOVER_FAIL_POINT_REQUEST, FAIL_POINT_ENTRY,
    LIST_FAIL_POINTS_RESPONSE, GET_METRICS_REQUEST, GET_METRICS_RESPONSE, REGION_CONSISTENCY_CHECK_REQUEST,
    MODIFY_TIKV_CONFIG_REQUEST, PROPERTY, GET_REGION_PROPERTIES_REQUEST, GET_REGION_PROPERTIES_RESPONSE
  }

  lemma {:induction false} MetapbWellFormed()
    ensures WellFormed(REGION_EPOCH) && WellFormed(PEER) && WellFormed(REGION)
  {
    hide WellFormed, Table;
    TableWellFormed([UInt64, UInt64]);
    TableWellFormed([UInt64, UInt64, Bool]);
    TableWellFormed([UInt64, Bytes, Bytes, Sub(REGION_EPOCH), RepSub(PEER)]);
  }

  lemma {:induction false} ErrorpbWellFormed()
    ensures WellFormed(NOT_LEADER) && WellFormed(REGION_NOT_FOUND) && WellFormed(KEY_NOT_IN_REGION)
    ensures WellFormed(STALE_EPOCH) && WellFormed(SERVER_IS_BUSY) && WellFormed(RAFT_ENTRY_TOO_LARGE)
    ensures WellFormed(ERROR) && WellFormed(NO_FIELDS)
  {
    hide WellFormed, Table;
    MetapbWellFormed();
    TableWellFormed([UInt64, Sub(PEER)]);
    TableWellFormed([UInt64]);
    TableWellFormed([Bytes, UInt64, Bytes, Bytes]);
    TableWellFormed([RepSub(REGION)]);
    TableWellFormed([Str, UInt64]);
    TableWellFormed([]);
    TableWellFormed([UInt64, UInt64]);
    TableWellFormed([Str, Sub(NOT_LEADER), Sub(REGION_NOT_FOUND), Sub(KEY_NOT_IN_REGION), Sub(STALE_EPOCH),
                     Sub(SERVER_IS_BUSY), Sub(NO_FIELDS), Sub(NO_FIELDS), Sub(RAFT_ENTRY_TOO_LARGE)]);
  }

  lemma {:induction false} ContextWellFormed()
    ensures WellFormed(CONTEXT)
  {
    MetapbWellFormed();
    var fs := CONTEXT.fields;
    assert forall i :: 0 <= i < |fs| ==> fs[i].num == if i < 3 then i + 1 else i + 2;
    forall i | 0 <= i < |fs| ensures WellFormedType(fs[i].typ) {
      hide WellFormed;
    }
  }

  lemma {:induction false} KvrpcpbWellFormed()
    ensures WellFormed(LOCK_INFO) && WellFormed(HANDLE_TIME) && WellFormed(SCAN_INFO) && WellFormed(SCAN_DETAIL)
    ensures WellFormed(EXEC_DETAILS) && WellFormed(MVCC_LOCK) && WellFormed(MVCC_WRITE) && WellFormed(MVCC_VALUE)
    ensures WellFormed(MVCC_INFO)
  {
    hide WellFormed, Table;
    TableWellFormed([Bytes, UInt64, Bytes, UInt64]);
    TableWellFormed([Int64, Int64]);
    TableWellFormed([Sub(SCAN_INFO), Sub(SCAN_INFO), Sub(SCAN_INFO)]);
    TableWellFormed([Sub(HANDLE_TIME), Sub(SCAN_DETAIL)]);
    TableWellFormed([Enum, UInt64, Bytes, Bytes]);
    TableWellFormed([Enum, UInt64, UInt64, Bytes]);
    TableWellFormed([UInt64, Bytes]);
    TableWellFormed([Sub(MVCC_LOCK), RepSub(MVCC_WRITE), RepSub(MVCC_VALUE)]);
  }

  lemma {:induction false} RaftWellFormed()
    ensures WellFormed(ENTRY) && WellFormed(HARD_STATE) && WellFormed(RAFT_LOCAL_STATE)
    ensures WellFormed(RAFT_TRUNCATED_STATE) && WellFormed(RAFT_APPLY_STATE)
    ensures WellFormed(MERGE_STATE) && WellFormed(REGION_LOCAL_STATE)
  {
    hide WellFormed, Table;
    MetapbWellFormed();
    TableWellFormed([Enum, UInt64, UInt64, Bytes, Bool, Bytes]);
    TableWellFormed([UInt64, UInt64, UInt64]);
    TableWellFormed([Sub(HARD_STATE), UInt64]);
    TableWellFormed([UInt64, UInt64]);
    TableWellFormed([UInt64, Sub(RAFT_TRUNCATED_STATE)]);
    TableWellFormed([UInt64, Sub(REGION), UInt64]);
    TableWellFormed([Enum, Sub(REGION), Sub(MERGE_STATE)]);
  }

  lemma {:induction false} CoprocessorWellFormed()
    ensures WellFormed(KEY_RANGE) && WellFormed(COPROCESSOR_REQUEST) && WellFormed(COPROCESSOR_RESPONSE)
  {
    hide WellFormed, Table, RequestSchema;
    KeyRangeWellFormed();
    ContextWellFormed();
    RequestWellFormed(CONTEXT);
    ErrorpbWellFormed();
    KvrpcpbWellFormed();
    TableWellFormed([Bytes, Sub(ERROR), Sub(LOCK_INFO), Str, Sub(KEY_RANGE), Sub(EXEC_DETAILS)]);
  }

  lemma {:induction false} FlatDebugpbWellFormed()
    ensures WellFormed(GET_REQUEST) && WellFormed(GET_RESPONSE) && WellFormed(RAFT_LOG_REQUEST)
    ensures WellFormed(REGION_INFO_REQUEST) && WellFormed(REGION_SIZE_ENTRY) && WellFormed(SCAN_MVCC_REQUEST)
    ensures WellFormed(INJECT_FAIL_POINT_REQUEST) && WellFormed(RECOVER_FAIL_POINT_REQUEST)
    ensures WellFormed(FAIL_POINT_ENTRY) && WellFormed(GET_METRICS_REQUEST) && WellFormed(GET_METRICS_RESPONSE)
    ensures WellFormed(REGION_CONSISTENCY_CHECK_REQUEST) && WellFormed(MODIFY_TIKV_CONFIG_REQUEST)
    ensures WellFormed(PROPERTY) && WellFormed(GET_REGION_PROPERTIES_REQUEST)
  {
    hide WellFormed, Table;
    TableWellFormed([Enum, Str, Bytes]);
    TableWellFormed([Bytes]);
    TableWellFormed([UInt64, UInt64]);
    TableWellFormed([UInt64]);
    TableWellFormed([Str, UInt64]);
    TableWellFormed([Bytes, Bytes, UInt64]);
    TableWellFormed([Str, Str]);
    TableWellFormed([Str]);
    TableWellFormed([Bool]);
    TableWellFormed([Str, Str, Str, Str, UInt64]);
    TableWellFormed([Enum, Str, Str]);
  }

  lemma {:induction false} NestedDebugpbWellFormed()
    ensures WellFormed(RAFT_LOG_RESPONSE) && WellFormed(REGION_INFO_RESPONSE) && WellFormed(REGION_SIZE_RESPONSE)
    ensures WellFormed(SCAN_MVCC_RESPONSE) && WellFormed(LIST_FAIL_POINTS_RESPONSE)
    ensures WellFormed(GET_REGION_PROPERTIES_RESPONSE)
  {
    hide WellFormed, Table;
    FlatDebugpbWellFormed();
    RaftWellFormed();
    KvrpcpbWellFormed();
    TableWellFormed([Sub(ENTRY)]);
    TableWellFormed([Sub(RAFT_LOCAL_STATE), Sub(RAFT_APPLY_STATE), Sub(REGION_LOCAL_STATE)]);
    TableWellFormed([RepSub(REGION_SIZE_ENTRY)]);
    TableWellFormed([Bytes, Sub(MVCC_INFO)]);
    TableWellFormed([RepSub(FAIL_POINT_ENTRY)]);
    TableWellFormed([RepSub(PROPERTY)]);
  }

  /** Every message of the two files is within the scope of the codec's laws. */
  lemma {:induction false} CoreMessagesWellFormed(s: Schema)
    requires s in CORE_MESSAGES
    ensures WellFormed(s)
  {
    hide WellFormed, Table, RequestSchema;
    CoprocessorWellFormed();
    FlatDebugpbWellFormed();
    NestedDebugpbWellFormed();
    ErrorpbWellFormed();
    CompactRequestWellFormed();
    RegionSizeRequestWellFormed();
  }
}
