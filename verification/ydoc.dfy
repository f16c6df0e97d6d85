/** An abstract model of the CRDT engine the storage relies on.
    A document's logical content is the set of deltas merged into it; merging
    a delta (`applyUpdate`) is set insertion, so merges commute and repeating
    one changes nothing. The engine's internals are not modelled. */
module YDocModel {

  /** One byte of an encoded update. */
  newtype byte = x: int | 0 <= x < 256

  /** An encoded CRDT delta; its byte length is its length. */
  type Delta = seq<byte>

  /** The logical content of a document: the deltas merged into it. */
  type DocState = set<Delta>

  /** Merging one delta into a document. */
  function Apply(doc: DocState, u: Delta): (r: DocState)
    ensures u in r && doc <= r
    ensures forall v :: v in r ==> v == u || v in doc
  {
    doc + {u}
  }

  /** Merging deltas one after the other, in the order given. */
  function ApplyAll(doc: DocState, us: seq<Delta>): DocState
    decreases |us|
  {
    if us == [] then doc else ApplyAll(Apply(doc, us[0]), us[1..])
  }

  /** Merging a list of deltas adds exactly the deltas of the list. */
  lemma {:induction false} ApplyAllIsUnion(doc: DocState, us: seq<Delta>)
    ensures ApplyAll(doc, us) == doc + set u | u in us
    decreases |us|
  {
    if us != [] {
      ApplyAllIsUnion(Apply(doc, us[0]), us[1..]);
      assert (set u | u in us) == {us[0]} + set u | u in us[1..];
    }
  }

  /** The order in which deltas are merged does not matter: any permutation
      of the same deltas gives the same document. */
  lemma ApplyAllOrderIndependent(doc: DocState, xs: seq<Delta>, ys: seq<Delta>)
    requires multiset(xs) == multiset(ys)
    ensures ApplyAll(doc, xs) == ApplyAll(doc, ys)
  {
    ApplyAllIsUnion(doc, xs);
    ApplyAllIsUnion(doc, ys);
    assert (set u | u in xs) == set u | u in ys by {
      forall u ensures u in xs <==> u in ys {
        assert u in xs <==> u in multiset(xs);
        assert u in ys <==> u in multiset(ys);
      }
    }
  }

  /** Merging the same deltas a second time changes nothing. */
  lemma ApplyAllIdempotent(doc: DocState, us: seq<Delta>)
    ensures ApplyAll(ApplyAll(doc, us), us) == ApplyAll(doc, us)
  {
    ApplyAllIsUnion(doc, us);
    ApplyAllIsUnion(ApplyAll(doc, us), us);
  }

  /** A yjs document, updated in place by applyUpdate. */
  class YDoc {
    var state: DocState

    /** `new Doc()`: an empty document. */
    constructor ()
      ensures state == {}
    {
      state := {};
    }

    /** `applyUpdate(doc, update)` for a single delta. */
    method ApplyUpdate(u: Delta)
      modifies this
      ensures state == Apply(old(state), u)
    {
      state := Apply(state, u);
    }

    /** `applyUpdate(doc, snapshot)` for an encoded full state: decoding the
        snapshot yields its deltas, and each is merged. */
    method ApplySnapshot(s: DocState)
      modifies this
      ensures state == old(state) + s
    {
      state := state + s;
    }
  }
}
