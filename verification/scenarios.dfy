/** Concrete runs of the compaction policy, and what happens when `commit()`
    assembles its document before its transaction while another writer
    compacts in between. */
module Scenarios {
  import opened YDocModel
  import opened KeyValue
  import opened Compaction

  /** With `maxBytes = 10` and `maxUpdates = 100`, three 4-byte deltas stored
      into empty storage: the first two are appended, the third (12 bytes in
      all, over 10) compacts, leaving a snapshot of all three, counters at 0
      and no records. */
  lemma ThirdSmallDeltaCompacts(a: Delta, b: Delta, c: Delta)
    requires |a| == 4 && |b| == 4 && |c| == 4
    ensures var l := Limits(10, 100);
            var kv := AfterStoreUpdate(AfterStoreUpdate(AfterStoreUpdate(map[], l, a), l, b), l, c);
            && UpdateKeys(kv) == {}
            && Counter(kv, BytesKey) == 0 && Counter(kv, CountKey) == 0
            && DocKey in kv && kv[DocKey] == Snapshot({a, b, c})
  {
    var l := Limits(10, 100);
    var kv0: Store := map[];
    assert UpdateKeys(kv0) == {};
    assert Consistent(kv0) && Assembled(kv0) == {};
    var kv1 := AfterStoreUpdate(kv0, l, a);
    StoreUpdateAppends(kv0, l, a);
    StoreUpdateFoldsDelta(kv0, l, a);
    StoreUpdatePreservesConsistency(kv0, l, a);
    var kv2 := AfterStoreUpdate(kv1, l, b);
    StoreUpdateAppends(kv1, l, b);
    StoreUpdateFoldsDelta(kv1, l, b);
    assert Counter(kv2, BytesKey) == 8;
    assert Assembled(kv2) == {a, b};
    StoreUpdateCompacts(kv2, l, c);
  }

  /** Under the default thresholds, a 5 KiB delta stored after a compaction
      (both counters 0 or absent) is appended as `update/1`, the counters
      become 5120 and 1, and the snapshot is untouched. */
  lemma DefaultsAppendFiveKiB(kv: Store, u: Delta)
    requires Counter(kv, BytesKey) == 0 && Counter(kv, CountKey) == 0
    requires |u| == 5120
    ensures var kv' := AfterStoreUpdate(kv, ResolveLimits(Options(None, None)), u);
            && Update(1) in kv' && kv'[Update(1)] == Record(u)
            && Counter(kv', BytesKey) == 5120 && Counter(kv', CountKey) == 1
            && (DocKey in kv' <==> DocKey in kv)
            && (DocKey in kv ==> kv'[DocKey] == kv[DocKey])
  {
    StoreUpdateAppends(kv, ResolveLimits(Options(None, None)), u);
  }

  /** `commit()` as written: the document is assembled from the store as it
      was before the transaction (`before`), and the transaction compacts
      the store as it is when it runs (`during`). */
  function InterleavedCommit(before: Store, during: Store): Store {
    Compacted(during, Assembled(before))
  }

  /** When `storeUpdate` compacts between `commit()`'s assembly and its
      transaction, the commit overwrites the new snapshot with the stale
      document and the delta is lost. */
  lemma StaleCommitLosesDelta(u: Delta)
    requires |u| == 11
    ensures var before := map[];
            var during := AfterStoreUpdate(before, Limits(10, 100), u);
            && u in Assembled(during)
            && u !in Assembled(InterleavedCommit(before, during))
  {
    var before: Store := map[];
    var during := AfterStoreUpdate(before, Limits(10, 100), u);
    StoreUpdateCompacts(before, Limits(10, 100), u);
    assert Assembled(before) == {} by {
      assert UpdateKeys(before) == {};
    }
    CompactedClearsLog(during, Assembled(before));
  }

  /** When only appends happen in between (the snapshot seen by the
      transaction is still covered by the assembled document), the
      interleaved commit loses nothing: records seen twice merge once. */
  lemma StaleCommitKeepsAppends(before: Store, during: Store)
    requires SnapshotState(during) <= Assembled(before)
    ensures Assembled(during) <= Assembled(InterleavedCommit(before, during))
  {
    CompactedClearsLog(during, Assembled(before));
  }
}
