/** The key scheme, the stored values and the transactional key-value
    storage the compaction policy runs on. The storage engine itself (its
    durability, isolation and scan mechanics) is not modelled: a storage is a
    map, and a transaction is one atomic method over it. */
module KeyValue {
  import opened YDocModel

  datatype Option<T> = None | Some(value: T)

  /** The reserved names under the `state` kind. */
  datatype StateName = DocName | BytesName | CountName

  /** The two key kinds, as a list prefix. */
  datatype Kind = StateKind | UpdateKind

  /** `storageKey({type, name})`: `state/doc`, `state/bytes`, `state/count`
      or `update/<n>`. The textual encoding of a key is not modelled. */
  datatype Key = State(name: StateName) | Update(seqNo: int)
  {
    function KindOf(): Kind {
      match this
      case State(_) => StateKind
      case Update(_) => UpdateKind
    }
  }

  const DocKey: Key := State(DocName)
  const BytesKey: Key := State(BytesName)
  const CountKey: Key := State(CountName)

  /** What is stored: a counter, a pending delta record, or the encoded
      snapshot of a document. `Snapshot(s)` is the encoding of a document
      whose content is `s`; decoding it gives back `s`. */
  datatype Value = Num(n: int) | Record(delta: Delta) | Snapshot(state: DocState)

  type Store = map<Key, Value>

  /** The value kind each key holds, as the typed reads of the storage
      (`get<number>` for counters, `get<Uint8Array>` for the snapshot,
      `list<Uint8Array>` for the records) take for granted. */
  predicate Fits(k: Key, v: Value) {
    match k
    case State(DocName) => v.Snapshot?
    case State(_) => v.Num?
    case Update(_) => v.Record?
  }

  predicate WellTyped(kv: Store) {
    forall k :: k in kv ==> Fits(k, kv[k])
  }

  /** The entries of a given kind: the result of a prefix scan. */
  function OfKind(kv: Store, kind: Kind): (r: Store)
    ensures forall k :: k in r <==> k in kv && k.KindOf() == kind
    ensures forall k :: k in r ==> r[k] == kv[k]
  {
    map k | k in kv && k.KindOf() == kind :: kv[k]
  }

  /** The transactional key-value storage, or the scoped adapter of one open
      transaction. */
  class Storage {
    var kv: Store

    constructor (initial: Store)
      ensures kv == initial
    {
      kv := initial;
    }

    /** `get(key)`: the value, or nothing when the key is absent. */
    method Get(k: Key) returns (v: Option<Value>)
      ensures k in kv ==> v == Some(kv[k])
      ensures k !in kv ==> v == None
    {
      v := if k in kv then Some(kv[k]) else None;
    }

    /** `list({prefix})`: every entry of one kind, in no particular order. */
    method List(kind: Kind) returns (data: Store)
      ensures data == OfKind(kv, kind)
    {
      data := OfKind(kv, kind);
    }

    /** `put(key, value)`. */
    method Put(k: Key, v: Value)
      modifies this
      ensures kv == old(kv)[k := v]
    {
      kv := kv[k := v];
    }

    /** `delete(keys)`. */
    method Delete(keys: set<Key>)
      modifies this
      ensures kv == old(kv) - keys
    {
      kv := kv - keys;
    }
  }
}
