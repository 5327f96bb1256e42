/** The messages of other packages that are nested in those of MessageLaws, spelled out alike. */
module NestedLaws {
  import opened Wire
  import opened Codec
  import opened Format
  import opened Catalogue

  lemma {:induction false} ContextMeans(regionId: int, epoch: Option<Msg>, peer: Option<Msg>, term: int, priority: int,
                                        isolation: int, notFillCache: int, syncLog: int, handleTime: int,
                                        scanDetail: int, unk: seq<Record>, budget: nat)
    ensures Means(CONTEXT,
                  [UInt64Part(1, regionId), MessagePart(2, REGION_EPOCH, epoch), MessagePart(3, PEER, peer),
                   UInt64Part(5, term), EnumPart(6, priority), EnumPart(7, isolation), BoolPart(8, notFillCache),
                   BoolPart(9, syncLog), BoolPart(10, handleTime), BoolPart(11, scanDetail)], unk, budget)
  {
    hide WellFormed, Means;
    ContextWellFormed();
    TableMeans(CONTEXT,
               [UInt64Part(1, regionId), MessagePart(2, REGION_EPOCH, epoch), MessagePart(3, PEER, peer),
                UInt64Part(5, term), EnumPart(6, priority), EnumPart(7, isolation), BoolPart(8, notFillCache),
                BoolPart(9, syncLog), BoolPart(10, handleTime), BoolPart(11, scanDetail)], unk, budget);
  }

  lemma {:induction false} ErrorMeans(message: bytes, notLeader: Option<Msg>, notFound: Option<Msg>, notIn: Option<Msg>,
                                      stale: Option<Msg>, busy: Option<Msg>, command: Option<Msg>,
                                      mismatch: Option<Msg>, tooLarge: Option<Msg>, unk: seq<Record>, budget: nat)
    ensures Means(ERROR,
                  [StringPart(1, message), MessagePart(2, NOT_LEADER, notLeader),
                   MessagePart(3, REGION_NOT_FOUND, notFound), MessagePart(4, KEY_NOT_IN_REGION, notIn),
                   MessagePart(5, STALE_EPOCH, stale), MessagePart(6, SERVER_IS_BUSY, busy),
                   MessagePart(7, NO_FIELDS, command), MessagePart(8, NO_FIELDS, mismatch),
                   MessagePart(9, RAFT_ENTRY_TOO_LARGE, tooLarge)], unk, budget)
  {
    hide WellFormed, Means;
    ErrorpbWellFormed();
    TableMeans(ERROR,
               [StringPart(1, message), MessagePart(2, NOT_LEADER, notLeader),
                MessagePart(3, REGION_NOT_FOUND, notFound), MessagePart(4, KEY_NOT_IN_REGION, notIn),
                MessagePart(5, STALE_EPOCH, stale), MessagePart(6, SERVER_IS_BUSY, busy),
                MessagePart(7, NO_FIELDS, command), MessagePart(8, NO_FIELDS, mismatch),
                MessagePart(9, RAFT_ENTRY_TOO_LARGE, tooLarge)], unk, budget);
  }

  lemma {:induction false} RegionEpochMeans(confVer: int, version: int, unk: seq<Record>, budget: nat)
    ensures Means(REGION_EPOCH, [UInt64Part(1, confVer), UInt64Part(2, version)], unk, budget)
  {
    hide WellFormed, Means;
    MetapbWellFormed();
    TableMeans(REGION_EPOCH, [UInt64Part(1, confVer), UInt64Part(2, version)], unk, budget);
  }

  lemma {:induction false} PeerMeans(id: int, storeId: int, isLearner: int, unk: seq<Record>, budget: nat)
    ensures Means(PEER, [UInt64Part(1, id), UInt64Part(2, storeId), BoolPart(3, isLearner)], unk, budget)
  {
    hide WellFormed, Means;
    MetapbWellFormed();
    TableMeans(PEER, [UInt64Part(1, id), UInt64Part(2, storeId), BoolPart(3, isLearner)], unk, budget);
  }

  lemma {:induction false} RegionMeans(id: int, startKey: bytes, endKey: bytes,
                                       epoch: Option<Msg>, peers: seq<Msg>, unk: seq<Record>, budget: nat)
    ensures Means(REGION, [UInt64Part(1, id), BytesPart(2, startKey), BytesPart(3, endKey),
                           MessagePart(4, REGION_EPOCH, epoch), MessagesPart(5, PEER, peers)], unk, budget)
  {
    hide WellFormed, Means;
    MetapbWellFormed();
    TableMeans(REGION, [UInt64Part(1, id), BytesPart(2, startKey), BytesPart(3, endKey),
                        MessagePart(4, REGION_EPOCH, epoch), MessagesPart(5, PEER, peers)], unk, budget);
  }

  lemma {:induction false} NotLeaderMeans(regionId: int, leader: Option<Msg>, unk: seq<Record>, budget: nat)
    ensures Means(NOT_LEADER, [UInt64Part(1, regionId), MessagePart(2, PEER, leader)], unk, budget)
  {
    hide WellFormed, Means;
    ErrorpbWellFormed();
    TableMeans(NOT_LEADER, [UInt64Part(1, regionId), MessagePart(2, PEER, leader)], unk, budget);
  }

  lemma {:induction false} RegionNotFoundMeans(regionId: int, unk: seq<Record>, budget: nat)
    ensures Means(REGION_NOT_FOUND, [UInt64Part(1, regionId)], unk, budget)
  {
    hide WellFormed, Means;
    ErrorpbWellFormed();
    TableMeans(REGION_NOT_FOUND, [UInt64Part(1, regionId)], unk, budget);
  }

  lemma {:induction false} KeyNotInRegionMeans(key: bytes, regionId: int, startKey: bytes,
                                               endKey: bytes, unk: seq<Record>, budget: nat)
    ensures Means(KEY_NOT_IN_REGION, [BytesPart(1, key), UInt64Part(2, regionId), BytesPart(3, startKey),
                                      BytesPart(4, endKey)], unk, budget)
  {
    hide WellFormed, Means;
    ErrorpbWellFormed();
    TableMeans(KEY_NOT_IN_REGION, [BytesPart(1, key), UInt64Part(2, regionId), BytesPart(3, startKey),
                                   BytesPart(4, endKey)], unk, budget);
  }

  lemma {:induction false} StaleEpochMeans(newRegions: seq<Msg>, unk: seq<Record>, budget: nat)
    ensures Means(STALE_EPOCH, [MessagesPart(1, REGION, newRegions)], unk, budget)
  {
    hide WellFormed, Means;
    ErrorpbWellFormed();
    TableMeans(STALE_EPOCH, [MessagesPart(1, REGION, newRegions)], unk, budget);
  }

  lemma {:induction false} ServerIsBusyMeans(reason: bytes, backoffMs: int, unk: seq<Record>, budget: nat)
    ensures Means(SERVER_IS_BUSY, [StringPart(1, reason), UInt64Part(2, backoffMs)], unk, budget)
  {
    hide WellFormed, Means;
    ErrorpbWellFormed();
    TableMeans(SERVER_IS_BUSY, [StringPart(1, reason), UInt64Part(2, backoffMs)], unk, budget);
  }

  lemma {:induction false} RaftEntryTooLargeMeans(regionId: int, entrySize: int, unk: seq<Record>, budget: nat)
    ensures Means(RAFT_ENTRY_TOO_LARGE, [UInt64Part(1, regionId), UInt64Part(2, entrySize)], unk, budget)
  {
    hide WellFormed, Means;
    ErrorpbWellFormed();
    TableMeans(RAFT_ENTRY_TOO_LARGE, [UInt64Part(1, regionId), UInt64Part(2, entrySize)], unk, budget);
  }

  lemma {:induction false} LockInfoMeans(primaryLock: bytes, lockVersion: int, key: bytes,
                                         lockTtl: int, unk: seq<Record>, budget: nat)
    ensures Means(LOCK_INFO, [BytesPart(1, primaryLock), UInt64Part(2, lockVersion), BytesPart(3, key),
                              UInt64Part(4, lockTtl)], unk, budget)
  {
    hide WellFormed, Means;
    KvrpcpbWellFormed();
    TableMeans(LOCK_INFO, [BytesPart(1, primaryLock), UInt64Part(2, lockVersion), BytesPart(3, key),
                           UInt64Part(4, lockTtl)], unk, budget);
  }

  lemma {:induction false} HandleTimeMeans(waitMs: int, processMs: int, unk: seq<Record>, budget: nat)
    ensures Means(HANDLE_TIME, [Int64Part(1, waitMs), Int64Part(2, processMs)], unk, budget)
  {
    hide WellFormed, Means;
    KvrpcpbWellFormed();
    TableMeans(HANDLE_TIME, [Int64Part(1, waitMs), Int64Part(2, processMs)], unk, budget);
  }

  lemma {:induction false} ScanInfoMeans(total: int, processed: int, unk: seq<Record>, budget: nat)
    ensures Means(SCAN_INFO, [Int64Part(1, total), Int64Part(2, processed)], unk, budget)
  {
    hide WellFormed, Means;
    KvrpcpbWellFormed();
    TableMeans(SCAN_INFO, [Int64Part(1, total), Int64Part(2, processed)], unk, budget);
  }

  lemma {:induction false} ScanDetailMeans(write: Option<Msg>, locks: Option<Msg>,
                                           data: Option<Msg>, unk: seq<Record>, budget: nat)
    ensures Means(SCAN_DETAIL, [MessagePart(1, SCAN_INFO, write), MessagePart(2, SCAN_INFO, locks),
                                MessagePart(3, SCAN_INFO, data)], unk, budget)
  {
    hide WellFormed, Means;
    KvrpcpbWellFormed();
    TableMeans(SCAN_DETAIL, [MessagePart(1, SCAN_INFO, write), MessagePart(2, SCAN_INFO, locks),
                             MessagePart(3, SCAN_INFO, data)], unk, budget);
  }

  lemma {:induction false} ExecDetailsMeans(handleTime: Option<Msg>, scanDetail: Option<Msg>,
                                            unk: seq<Record>, budget: nat)
    ensures Means(EXEC_DETAILS, [MessagePart(1, HANDLE_TIME, handleTime),
                                 MessagePart(2, SCAN_DETAIL, scanDetail)], unk, budget)
  {
    hide WellFormed, Means;
    KvrpcpbWellFormed();
    TableMeans(EXEC_DETAILS, [MessagePart(1, HANDLE_TIME, handleTime),
                              MessagePart(2, SCAN_DETAIL, scanDetail)], unk, budget);
  }

  lemma {:induction false} MvccLockMeans(typ: int, startTs: int, primary: bytes,
                                         shortValue: bytes, unk: seq<Record>, budget: nat)
    ensures Means(MVCC_LOCK, [EnumPart(1, typ), UInt64Part(2, startTs), BytesPart(3, primary),
                              BytesPart(4, shortValue)], unk, budget)
  {
    hide WellFormed, Means;
    KvrpcpbWellFormed();
    TableMeans(MVCC_LOCK, [EnumPart(1, typ), UInt64Part(2, startTs), BytesPart(3, primary),
                           BytesPart(4, shortValue)], unk, budget);
  }

  lemma {:induction false} MvccWriteMeans(typ: int, startTs: int, commitTs: int,
                                          shortValue: bytes, unk: seq<Record>, budget: nat)
    ensures Means(MVCC_WRITE, [EnumPart(1, typ), UInt64Part(2, startTs), UInt64Part(3, commitTs),
                               BytesPart(4, shortValue)], unk, budget)
  {
    hide WellFormed, Means;
    KvrpcpbWellFormed();
    TableMeans(MVCC_WRITE, [EnumPart(1, typ), UInt64Part(2, startTs), UInt64Part(3, commitTs),
                            BytesPart(4, shortValue)], unk, budget);
  }

  lemma {:induction false} MvccValueMeans(startTs: int, value: bytes, unk: seq<Record>, budget: nat)
    ensures Means(MVCC_VALUE, [UInt64Part(1, startTs), BytesPart(2, value)], unk, budget)
  {
    hide WellFormed, Means;
    KvrpcpbWellFormed();
    TableMeans(MVCC_VALUE, [UInt64Part(1, startTs), BytesPart(2, value)], unk, budget);
  }

  lemma {:induction false} MvccInfoMeans(locks: Option<Msg>, writes: seq<Msg>,
                                         values: seq<Msg>, unk: seq<Record>, budget: nat)
    ensures Means(MVCC_INFO, [MessagePart(1, MVCC_LOCK, locks), MessagesPart(2, MVCC_WRITE, writes),
                              MessagesPart(3, MVCC_VALUE, values)], unk, budget)
  {
    hide WellFormed, Means;
    KvrpcpbWellFormed();
    TableMeans(MVCC_INFO, [MessagePart(1, MVCC_LOCK, locks), MessagesPart(2, MVCC_WRITE, writes),
                           MessagesPart(3, MVCC_VALUE, values)], unk, budget);
  }

  lemma {:induction false} EntryMeans(entryType: int, term: int, index: int, data: bytes,
                                      syncLog: int, context: bytes, unk: seq<Record>, budget: nat)
    ensures Means(ENTRY, [EnumPart(1, entryType), UInt64Part(2, term), UInt64Part(3, index), BytesPart(4, data),
                          BoolPart(5, syncLog), BytesPart(6, context)], unk, budget)
  {
    hide WellFormed, Means;
    RaftWellFormed();
    TableMeans(ENTRY, [EnumPart(1, entryType), UInt64Part(2, term), UInt64Part(3, index), BytesPart(4, data),
                       BoolPart(5, syncLog), BytesPart(6, context)], unk, budget);
  }

  lemma {:induction false} HardStateMeans(term: int, vote: int, commit: int, unk: seq<Record>, budget: nat)
    ensures Means(HARD_STATE, [UInt64Part(1, term), UInt64Part(2, vote), UInt64Part(3, commit)], unk, budget)
  {
    hide WellFormed, Means;
    RaftWellFormed();
    TableMeans(HARD_STATE, [UInt64Part(1, term), UInt64Part(2, vote), UInt64Part(3, commit)], unk, budget);
  }

  lemma {:induction false} RaftLocalStateMeans(hardState: Option<Msg>, lastIndex: int, unk: seq<Record>, budget: nat)
    ensures Means(RAFT_LOCAL_STATE, [MessagePart(1, HARD_STATE, hardState), UInt64Part(2, lastIndex)], unk, budget)
  {
    hide WellFormed, Means;
    RaftWellFormed();
    TableMeans(RAFT_LOCAL_STATE, [MessagePart(1, HARD_STATE, hardState), UInt64Part(2, lastIndex)], unk, budget);
  }

  lemma {:induction false} RaftTruncatedStateMeans(index: int, term: int, unk: seq<Record>, budget: nat)
    ensures Means(RAFT_TRUNCATED_STATE, [UInt64Part(1, index), UInt64Part(2, term)], unk, budget)
  {
    hide WellFormed, Means;
    RaftWellFormed();
    TableMeans(RAFT_TRUNCATED_STATE, [UInt64Part(1, index), UInt64Part(2, term)], unk, budget);
  }

  lemma {:induction false} RaftApplyStateMeans(appliedIndex: int, truncatedState: Option<Msg>,
                                               unk: seq<Record>, budget: nat)
    ensures Means(RAFT_APPLY_STATE, [UInt64Part(1, appliedIndex),
                                     MessagePart(2, RAFT_TRUNCATED_STATE, truncatedState)], unk, budget)
  {
    hide WellFormed, Means;
    RaftWellFormed();
    TableMeans(RAFT_APPLY_STATE, [UInt64Part(1, appliedIndex),
                                  MessagePart(2, RAFT_TRUNCATED_STATE, truncatedState)], unk, budget);
  }

  lemma {:induction false} MergeStateMeans(minIndex: int, target: Option<Msg>,
                                           commit: int, unk: seq<Record>, budget: nat)
    ensures Means(MERGE_STATE, [UInt64Part(1, minIndex), MessagePart(2, REGION, target),
                                UInt64Part(3, commit)], unk, budget)
  {
    hide WellFormed, Means;
    RaftWellFormed();
    TableMeans(MERGE_STATE, [UInt64Part(1, minIndex), MessagePart(2, REGION, target),
                             UInt64Part(3, commit)], unk, budget);
  }

  lemma {:induction false} RegionLocalStateMeans(state: int, region: Option<Msg>,
                                                 mergeState: Option<Msg>, unk: seq<Record>, budget: nat)
    ensures Means(REGION_LOCAL_STATE, [EnumPart(1, state), MessagePart(2, REGION, region),
                                       MessagePart(3, MERGE_STATE, mergeState)], unk, budget)
  {
    hide WellFormed, Means;
    RaftWellFormed();
    TableMeans(REGION_LOCAL_STATE, [EnumPart(1, state), MessagePart(2, REGION, region),
                                    MessagePart(3, MERGE_STATE, mergeState)], unk, budget);
  }
}
