/** `YTransactionStorageImpl`: a yjs document persisted as a snapshot plus a
    log of pending deltas, compacted when the log outgrows its thresholds or
    on an explicit commit. Every method that writes runs as one transaction:
    it either completes or leaves the storage as it was. Storage and engine
    failures are not modelled, so every call here completes. */
module TransactionStorage {
  import opened YDocModel
  import opened KeyValue
  import opened Compaction

  class YTransactionStorageImpl {
    const storage: Storage
    const maxBytes: int
    const maxUpdates: int

    /** The thresholds this instance compacts at. */
    function Thresholds(): Limits {
      Limits(maxBytes, maxUpdates)
    }

    /** The invariant the methods keep: consistent counters and a log within
        the thresholds. */
    ghost predicate Valid()
      reads storage
    {
      Consistent(storage.kv) && WithinLimits(storage.kv, Thresholds())
    }

    constructor (storage: Storage, options: Options)
      ensures this.storage == storage
      ensures Thresholds() == ResolveLimits(options)
    {
      this.storage := storage;
      var limits := ResolveLimits(options);
      maxBytes := limits.maxBytes;
      maxUpdates := limits.maxUpdates;
    }

    /** `getYDoc()`: a fresh document holding the snapshot and every pending
        delta, merged in whatever order the scan returns them. */
    method GetYDoc() returns (doc: YDoc)
      requires WellTyped(storage.kv)
      ensures fresh(doc)
      ensures doc.state == Assembled(storage.kv)
    {
      var snapshot := storage.Get(DocKey);
      var data := storage.List(UpdateKind);
      doc := new YDoc();
      if snapshot.Some? {
        doc.ApplySnapshot(snapshot.value.state);
      }
      var rest := data.Keys;
      while rest != {}
        invariant rest <= data.Keys
        invariant doc.state == SnapshotState(storage.kv) + Deltas(data, data.Keys - rest)
        decreases rest
      {
        var k :| k in rest;
        doc.ApplyUpdate(data[k].delta);
        rest := rest - {k};
        assert data.Keys - rest == (data.Keys - (rest + {k})) + {k};
      }
      assert data.Keys == UpdateKeys(storage.kv);
    }

    /** `storeUpdate(update)`: append the delta to the log while both
        thresholds allow it, otherwise fold it, with everything stored, into
        a new snapshot. */
    method StoreUpdate(update: Delta)
      requires WellTyped(storage.kv)
      modifies storage
      ensures storage.kv == AfterStoreUpdate(old(storage.kv), Thresholds(), update)
      ensures old(Consistent(storage.kv)) ==> Consistent(storage.kv)
      ensures old(Consistent(storage.kv)) ==> Assembled(storage.kv) == Apply(old(Assembled(storage.kv)), update)
      ensures old(Valid()) ==> Valid()
    {
      ghost var kv0 := storage.kv;
      var b := storage.Get(BytesKey);
      var bytes := if b.Some? then b.value.n else 0;
      var c := storage.Get(CountKey);
      var count := if c.Some? then c.value.n else 0;

      var updateBytes := bytes + |update|;
      var updateCount := count + 1;

      if Exceeds(updateBytes, updateCount, Thresholds()) {
        var doc := GetYDoc();
        doc.ApplyUpdate(update);
        InternalCommit(doc);
      } else {
        storage.Put(BytesKey, Num(updateBytes));
        storage.Put(CountKey, Num(updateCount));
        storage.Put(Update(updateCount), Record(update));
      }

      if Consistent(kv0) {
        StoreUpdatePreservesConsistency(kv0, Thresholds(), update);
        StoreUpdateFoldsDelta(kv0, Thresholds(), update);
        if WithinLimits(kv0, Thresholds()) {
          StoreUpdateStaysWithinLimits(kv0, Thresholds(), update);
        }
      }
    }

    /** `_commit(doc, tx)`: within the caller's transaction, delete every
        pending record, merge each into `doc`, write the encoded document as
        the snapshot and reset both counters. */
    method InternalCommit(doc: YDoc)
      requires WellTyped(storage.kv)
      modifies storage, doc
      ensures doc.state == old(doc.state) + Pending(old(storage.kv))
      ensures storage.kv == Compacted(old(storage.kv), old(doc.state))
    {
      var data := storage.List(UpdateKind);
      storage.Delete(data.Keys);

      var rest := data.Keys;
      while rest != {}
        invariant rest <= data.Keys
        invariant doc.state == old(doc.state) + Deltas(data, data.Keys - rest)
        invariant storage.kv == old(storage.kv) - data.Keys
        decreases rest
      {
        var k :| k in rest;
        doc.ApplyUpdate(data[k].delta);
        rest := rest - {k};
        assert data.Keys - rest == (data.Keys - (rest + {k})) + {k};
      }
      assert data.Keys == UpdateKeys(old(storage.kv));

      var encoded := Snapshot(doc.state);
      storage.Put(BytesKey, Num(0));
      storage.Put(CountKey, Num(0));
      storage.Put(DocKey, encoded);
    }

    /** `commit()`: assemble the document, then compact the log into it. */
    method Commit()
      requires WellTyped(storage.kv)
      modifies storage
      ensures storage.kv == AfterCommit(old(storage.kv))
      ensures UpdateKeys(storage.kv) == {}
      ensures storage.kv[BytesKey] == Num(0) && storage.kv[CountKey] == Num(0)
      ensures Assembled(storage.kv) == old(Assembled(storage.kv))
      ensures Consistent(storage.kv)
      ensures old(Valid()) ==> Valid()
    {
      var doc := GetYDoc();
      InternalCommit(doc);
      ghost var kv0 := old(storage.kv);
      CompactedClearsLog(kv0, Assembled(kv0));
      CommitPreservesDocument(kv0);
      CompactedIsConsistent(kv0, Assembled(kv0), Thresholds());
    }
  }
}
