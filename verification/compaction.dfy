/** The compaction policy as functions of the stored map: what the document
    assembled from storage is, what `storeUpdate` and `commit` leave behind,
    and the invariants that hold between calls. The methods of
    `YTransactionStorageImpl` are proved to produce exactly these states. */
module Compaction {
  import opened YDocModel
  import opened KeyValue

  /** Thresholds used when the options leave them out. */
  const DEFAULT_MAX_BYTES: int := 1024 * 1024
  const DEFAULT_MAX_UPDATES: int := 500

  /** `{maxBytes?, maxUpdates?}`. */
  datatype Options = Options(maxBytes: Option<int>, maxUpdates: Option<int>)

  /** The thresholds in force. */
  datatype Limits = Limits(maxBytes: int, maxUpdates: int)

  /** `options?.maxBytes ?? 1024 * 1024` and `options?.maxUpdates ?? 500`. */
  function ResolveLimits(o: Options): (l: Limits)
    ensures o.maxBytes == None ==> l.maxBytes == 1048576
    ensures o.maxUpdates == None ==> l.maxUpdates == 500
    ensures o.maxBytes.Some? ==> l.maxBytes == o.maxBytes.value
    ensures o.maxUpdates.Some? ==> l.maxUpdates == o.maxUpdates.value
  {
    Limits(
      if o.maxBytes.Some? then o.maxBytes.value else DEFAULT_MAX_BYTES,
      if o.maxUpdates.Some? then o.maxUpdates.value else DEFAULT_MAX_UPDATES)
  }

  /** A counter as `storeUpdate` reads it: `(await tx.get<number>(k)) ?? 0`. */
  function Counter(kv: Store, k: Key): int {
    if k in kv && kv[k].Num? then kv[k].n else 0
  }

  /** The content of the stored snapshot; no snapshot means no content. */
  function SnapshotState(kv: Store): DocState {
    if DocKey in kv && kv[DocKey].Snapshot? then kv[DocKey].state else {}
  }

  /** The deltas held under the given keys. */
  function Deltas(data: Store, keys: set<Key>): DocState {
    set k | k in keys && k in data && data[k].Record? :: data[k].delta
  }

  /** The keys of the pending records. */
  function UpdateKeys(kv: Store): set<Key> {
    set k | k in kv && k.Update?
  }

  /** The pending deltas. */
  function Pending(kv: Store): DocState {
    Deltas(kv, UpdateKeys(kv))
  }

  /** The document `getYDoc` rebuilds: the snapshot with every pending delta
      merged in. */
  function Assembled(kv: Store): DocState {
    SnapshotState(kv) + Pending(kv)
  }

  /** Byte length of record `update/<i>`, 0 when there is none. */
  function RecordBytes(kv: Store, i: int): nat {
    if Update(i) in kv && kv[Update(i)].Record? then |kv[Update(i)].delta| else 0
  }

  /** Total byte length of records `update/1` .. `update/<n>`. */
  function LogBytes(kv: Store, n: int): (r: int)
    ensures r >= 0
    ensures n <= 0 ==> r == 0
    decreases n
  {
    if n <= 0 then 0 else LogBytes(kv, n - 1) + RecordBytes(kv, n)
  }

  /** The keys `update/1` .. `update/<n>`. */
  function KeyRange(n: int): set<Key> {
    set i | 1 <= i <= n :: Update(i)
  }

  /** The pending records are exactly `update/1` .. `update/<n>`. */
  predicate KeysAreRange(kv: Store, n: int) {
    && (forall i :: 1 <= i <= n ==> Update(i) in kv)
    && (forall k :: k in kv && k.Update? ==> 1 <= k.seqNo <= n)
  }

  /** The storage invariant: the counters describe the pending log exactly.
      `state/count` numbers the records `update/1` .. `update/<count>` and
      `state/bytes` is the sum of their byte lengths. */
  predicate Consistent(kv: Store) {
    && WellTyped(kv)
    && Counter(kv, CountKey) >= 0
    && KeysAreRange(kv, Counter(kv, CountKey))
    && Counter(kv, BytesKey) == LogBytes(kv, Counter(kv, CountKey))
  }

  /** The pending log is within the thresholds. */
  predicate WithinLimits(kv: Store, l: Limits) {
    Counter(kv, BytesKey) <= l.maxBytes && Counter(kv, CountKey) <= l.maxUpdates
  }

  /** The threshold test of `storeUpdate`: strictly more bytes or strictly
      more updates than allowed. */
  predicate Exceeds(updateBytes: int, updateCount: int, l: Limits) {
    updateBytes > l.maxBytes || updateCount > l.maxUpdates
  }

  /** The store after the append branch of `storeUpdate`. */
  function Appended(kv: Store, u: Delta): Store {
    var bytes := Counter(kv, BytesKey);
    var count := Counter(kv, CountKey);
    kv[BytesKey := Num(bytes + |u|)][CountKey := Num(count + 1)][Update(count + 1) := Record(u)]
  }

  /** The store after the internal commit with a document whose content is
      `doc`: the pending records scanned in the transaction are deleted and
      merged into the document, whose encoding becomes the snapshot, and both
      counters are reset. */
  function Compacted(kv: Store, doc: DocState): Store {
    (kv - UpdateKeys(kv))[BytesKey := Num(0)][CountKey := Num(0)][DocKey := Snapshot(doc + Pending(kv))]
  }

  /** The store after `storeUpdate(u)`. */
  function AfterStoreUpdate(kv: Store, l: Limits, u: Delta): Store {
    if Exceeds(Counter(kv, BytesKey) + |u|, Counter(kv, CountKey) + 1, l)
    then Compacted(kv, Apply(Assembled(kv), u))
    else Appended(kv, u)
  }

  /** The store after `commit()`. */
  function AfterCommit(kv: Store): Store {
    Compacted(kv, Assembled(kv))
  }

  /** The store after `storeUpdate` of each delta in turn. */
  function StoreAll(kv: Store, l: Limits, us: seq<Delta>): Store
    decreases |us|
  {
    if us == [] then kv else StoreAll(AfterStoreUpdate(kv, l, us[0]), l, us[1..])
  }

  // ---------------------------------------------------------------------
  // storeUpdate: the two branches

  /** Within the thresholds (reaching either one exactly included) the delta
      is appended as `update/<count+1>`, both counters grow, absent counters
      count as 0, and no other key changes. */
  lemma StoreUpdateAppends(kv: Store, l: Limits, u: Delta)
    requires Counter(kv, BytesKey) + |u| <= l.maxBytes
    requires Counter(kv, CountKey) + 1 <= l.maxUpdates
    ensures var kv' := AfterStoreUpdate(kv, l, u);
            var count := Counter(kv, CountKey);
            && Counter(kv', BytesKey) == Counter(kv, BytesKey) + |u|
            && Counter(kv', CountKey) == count + 1
            && (BytesKey !in kv ==> Counter(kv', BytesKey) == |u|)
            && (CountKey !in kv ==> Counter(kv', CountKey) == 1)
            && Update(count + 1) in kv' && kv'[Update(count + 1)] == Record(u)
            && kv'.Keys == kv.Keys + {BytesKey, CountKey, Update(count + 1)}
            && (forall k :: k in kv && k !in {BytesKey, CountKey, Update(count + 1)} ==> kv'[k] == kv[k])
  {
  }

  /** Only exceeding a threshold compacts: the new delta is folded, with the
      whole assembled document, into a new snapshot, and the log is emptied. */
  lemma StoreUpdateCompacts(kv: Store, l: Limits, u: Delta)
    requires Counter(kv, BytesKey) + |u| > l.maxBytes || Counter(kv, CountKey) + 1 > l.maxUpdates
    ensures var kv' := AfterStoreUpdate(kv, l, u);
            && UpdateKeys(kv') == {}
            && Counter(kv', BytesKey) == 0 && Counter(kv', CountKey) == 0
            && kv'.Keys == {DocKey, BytesKey, CountKey}
            && kv'[DocKey] == Snapshot(Apply(Assembled(kv), u))
  {
    var kv' := AfterStoreUpdate(kv, l, u);
    CompactedClearsLog(kv, Apply(Assembled(kv), u));
    assert Apply(Assembled(kv), u) + Pending(kv) == Apply(Assembled(kv), u);
  }

  // ---------------------------------------------------------------------
  // the internal commit

  /** After any internal commit no record is left, both counters are 0, and
      the snapshot holds the document plus every delta scanned in the
      transaction. */
  lemma CompactedClearsLog(kv: Store, doc: DocState)
    ensures var kv' := Compacted(kv, doc);
            && UpdateKeys(kv') == {} && Pending(kv') == {}
            && kv'[BytesKey] == Num(0) && kv'[CountKey] == Num(0)
            && kv'.Keys == {DocKey, BytesKey, CountKey}
            && kv'[DocKey] == Snapshot(doc + Pending(kv))
            && Assembled(kv') == doc + Pending(kv)
  {
    var kv' := Compacted(kv, doc);
    forall k | k in kv' ensures k.State? {
      if k !in {DocKey, BytesKey, CountKey} {
        assert k in kv - UpdateKeys(kv);
      }
    }
    assert UpdateKeys(kv') == {};
    forall k | k in kv' ensures k in {DocKey, BytesKey, CountKey} {
      assert k.State?;
      match k.name
      case DocName =>
      case BytesName =>
      case CountName =>
    }
  }

  /** Any internal commit leaves a consistent store within any limits that
      allow an empty log. */
  lemma CompactedIsConsistent(kv: Store, doc: DocState, l: Limits)
    requires WellTyped(kv)
    ensures Consistent(Compacted(kv, doc))
    ensures 0 <= l.maxBytes && 0 <= l.maxUpdates ==> WithinLimits(Compacted(kv, doc), l)
  {
    CompactedClearsLog(kv, doc);
  }

  /** `commit()` keeps the logical document: the new snapshot alone denotes
      what the old snapshot and the log denoted together. */
  lemma CommitPreservesDocument(kv: Store)
    ensures Assembled(AfterCommit(kv)) == Assembled(kv)
    ensures UpdateKeys(AfterCommit(kv)) == {}
    ensures Counter(AfterCommit(kv), BytesKey) == 0 && Counter(AfterCommit(kv), CountKey) == 0
  {
    CompactedClearsLog(kv, Assembled(kv));
  }

  /** A second `commit()` with no `storeUpdate` in between changes nothing:
      counters stay 0 and the snapshot keeps its content. */
  lemma CommitIdempotent(kv: Store)
    ensures AfterCommit(AfterCommit(kv)) == AfterCommit(kv)
  {
    var kv1 := AfterCommit(kv);
    CommitPreservesDocument(kv);
    CompactedClearsLog(kv, Assembled(kv));
    CompactedClearsLog(kv1, Assembled(kv1));
    var kv2 := AfterCommit(kv1);
    assert kv2.Keys == kv1.Keys;
    assert Assembled(kv1) + Pending(kv1) == Assembled(kv);
  }

  // ---------------------------------------------------------------------
  // counter consistency

  /** `LogBytes` depends only on the records it sums. */
  lemma {:induction false} LogBytesFrame(kv: Store, kv': Store, n: int)
    requires forall i :: 1 <= i <= n ==> RecordBytes(kv, i) == RecordBytes(kv', i)
    ensures LogBytes(kv, n) == LogBytes(kv', n)
    decreases n
  {
    if n > 0 {
      LogBytesFrame(kv, kv', n - 1);
    }
  }

  /** `KeyRange(n)` has `n` keys. */
  lemma {:induction false} KeyRangeSize(n: nat)
    ensures |KeyRange(n)| == n
  {
    if n > 0 {
      KeyRangeSize(n - 1);
      assert KeyRange(n) == KeyRange(n - 1) + {Update(n)};
      assert Update(n) !in KeyRange(n - 1);
    }
  }

  /** In a consistent store `state/count` is the number of pending records,
      whose keys are `update/1` .. `update/<count>`, and `state/bytes` is the
      sum of their byte lengths. */
  lemma CountersDescribeLog(kv: Store)
    requires Consistent(kv)
    ensures UpdateKeys(kv) == KeyRange(Counter(kv, CountKey))
    ensures |UpdateKeys(kv)| == Counter(kv, CountKey)
    ensures Counter(kv, BytesKey) == LogBytes(kv, Counter(kv, CountKey))
  {
    var n := Counter(kv, CountKey);
    forall k | k in UpdateKeys(kv) ensures k in KeyRange(n) {
      assert 1 <= k.seqNo <= n;
      assert k == Update(k.seqNo);
    }
    forall k | k in KeyRange(n) ensures k in UpdateKeys(kv) {
      var i :| 1 <= i <= n && k == Update(i);
      assert Update(i) in kv;
    }
    KeyRangeSize(n);
  }

  /** `storeUpdate` keeps the counters consistent with the log. */
  lemma StoreUpdatePreservesConsistency(kv: Store, l: Limits, u: Delta)
    requires Consistent(kv)
    ensures Consistent(AfterStoreUpdate(kv, l, u))
  {
    var count := Counter(kv, CountKey);
    if Exceeds(Counter(kv, BytesKey) + |u|, count + 1, l) {
      CompactedIsConsistent(kv, Apply(Assembled(kv), u), l);
    } else {
      var kv' := Appended(kv, u);
      assert Counter(kv', CountKey) == count + 1;
      LogBytesFrame(kv, kv', count);
      assert RecordBytes(kv', count + 1) == |u|;
      assert LogBytes(kv', count + 1) == LogBytes(kv, count) + |u|;
    }
  }

  /** `commit()` leaves a consistent store. */
  lemma CommitEstablishesConsistency(kv: Store)
    requires WellTyped(kv)
    ensures Consistent(AfterCommit(kv))
    ensures Counter(AfterCommit(kv), BytesKey) == 0 && Counter(AfterCommit(kv), CountKey) == 0
  {
    CompactedIsConsistent(kv, Assembled(kv), Limits(0, 0));
  }

  // ---------------------------------------------------------------------
  // bounded log

  /** If the counters start within the thresholds they stay within them:
      the append branch runs only within the limits, and compaction resets
      both counters to 0. */
  lemma StoreUpdateStaysWithinLimits(kv: Store, l: Limits, u: Delta)
    requires Consistent(kv) && WithinLimits(kv, l)
    ensures WithinLimits(AfterStoreUpdate(kv, l, u), l)
  {
    if Exceeds(Counter(kv, BytesKey) + |u|, Counter(kv, CountKey) + 1, l) {
      CompactedIsConsistent(kv, Apply(Assembled(kv), u), l);
    }
  }

  // ---------------------------------------------------------------------
  // fold-equivalence

  /** After `storeUpdate(u)`, by either branch, the assembled document is the
      previous one with `u` merged in. */
  lemma StoreUpdateFoldsDelta(kv: Store, l: Limits, u: Delta)
    requires Consistent(kv)
    ensures Assembled(AfterStoreUpdate(kv, l, u)) == Apply(Assembled(kv), u)
  {
    var count := Counter(kv, CountKey);
    if Exceeds(Counter(kv, BytesKey) + |u|, count + 1, l) {
      CompactedClearsLog(kv, Apply(Assembled(kv), u));
    } else {
      var kv' := Appended(kv, u);
      assert Update(count + 1) !in kv;
      assert UpdateKeys(kv') == UpdateKeys(kv) + {Update(count + 1)};
      assert Pending(kv') == Pending(kv) + {u} by {
        forall d | d in Pending(kv') ensures d in Pending(kv) + {u} {
          var k :| k in UpdateKeys(kv') && k in kv' && kv'[k].Record? && kv'[k].delta == d;
          if k != Update(count + 1) {
            assert k in UpdateKeys(kv) && kv[k] == kv'[k];
          }
        }
        forall d | d in Pending(kv) ensures d in Pending(kv') {
          var k :| k in UpdateKeys(kv) && k in kv && kv[k].Record? && kv[k].delta == d;
          assert k != Update(count + 1) && kv'[k] == kv[k];
        }
        assert kv'[Update(count + 1)] == Record(u);
      }
      assert SnapshotState(kv') == SnapshotState(kv);
    }
  }

  /** Storing deltas one after another keeps the store consistent and within
      the thresholds, and the assembled document is the starting one with
      every delta merged in, whichever compactions happened on the way. */
  lemma {:induction false} StoreAllFolds(kv: Store, l: Limits, us: seq<Delta>)
    requires Consistent(kv)
    ensures Consistent(StoreAll(kv, l, us))
    ensures WithinLimits(kv, l) ==> WithinLimits(StoreAll(kv, l, us), l)
    ensures Assembled(StoreAll(kv, l, us)) == ApplyAll(Assembled(kv), us)
    decreases |us|
  {
    if us != [] {
      var kv1 := AfterStoreUpdate(kv, l, us[0]);
      StoreUpdatePreservesConsistency(kv, l, us[0]);
      StoreUpdateFoldsDelta(kv, l, us[0]);
      if WithinLimits(kv, l) {
        StoreUpdateStaysWithinLimits(kv, l, us[0]);
      }
      StoreAllFolds(kv1, l, us[1..]);
    }
  }

  /** The document assembled after storing a batch of deltas does not depend
      on the order they were stored in, although the stored maps (which
      records were compacted when) may differ. */
  lemma StoreAllAnyOrder(kv: Store, l: Limits, xs: seq<Delta>, ys: seq<Delta>)
    requires Consistent(kv)
    requires multiset(xs) == multiset(ys)
    ensures Assembled(StoreAll(kv, l, xs)) == Assembled(StoreAll(kv, l, ys))
  {
    StoreAllFolds(kv, l, xs);
    StoreAllFolds(kv, l, ys);
    ApplyAllOrderIndependent(Assembled(kv), xs, ys);
  }
}
