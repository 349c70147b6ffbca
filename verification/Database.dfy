/** The update loop of a database. */
module Database {

  // Nobody else writes the storage meanwhile: the loop ends with its edit applied once.

  import opened Datasets

  /** The "persisted" root. */
  class MemoryStorage {
    var rootHash: Root

    method Update(current: Root, last: Root) returns (ok: bool)
      modifies this
      ensures ok == (last == old(rootHash))
      ensures rootHash == if ok then current else old(rootHash)
    {
      if last != rootHash {
        return false;
      }
      rootHash := current;
      return true;
    }
  }

  /** A view of the storage with the root it last saw. */
  class MemoryStoreView {
    const storage: MemoryStorage
    var rootHash: Root

    constructor (storage: MemoryStorage)
      ensures this.storage == storage && rootHash == storage.rootHash
    {
      this.storage, rootHash := storage, storage.rootHash;
    }

    method Commit(current: Root, last: Root) returns (ok: bool)
      modifies this, storage
      ensures ok == (last == old(rootHash) == old(storage.rootHash))
      ensures storage.rootHash == if ok then current else old(storage.rootHash)
      ensures rootHash == if last != old(rootHash) then old(rootHash) else storage.rootHash
    {
      if last != rootHash {
        return false;
      }
      ok := storage.Update(current, last);
      rootHash := storage.rootHash;
    }
  }

  /** The edit is applied to the storage's datasets, unless it fails on the root seen first or on the storage's. */
  ghost function Result(edit: Edit, seen: Root, stored: Root): Outcome
  {
    var first := Apply(edit, HeadsOf(seen));
    if !first.Edited? || seen == stored then first else Apply(Captured(edit, HeadsOf(seen)), HeadsOf(stored))
  }

  /** The result in terms of the heads seen and stored: what the edit finds and leaves, or the error that applies. */
  lemma ResultMeans(edit: Edit, seen: Root, stored: Root)
    ensures var r, e := Result(edit, seen, stored), Captured(edit, HeadsOf(seen));
            && (r.Edited? ==> Done(e, HeadsOf(stored), r.heads))
            && (!r.Edited? <==>
                RefusedWith(edit, HeadsOf(seen), r) || (RefusedWith(e, HeadsOf(stored), r) && seen != stored))
  {
    hide Apply, Done, RefusedWith;
    var r, e := Result(edit, seen, stored), Captured(edit, HeadsOf(seen));
    CapturedSame(edit, HeadsOf(seen));
    EditDoes(e, HeadsOf(seen));
    EditDoes(e, HeadsOf(stored));
    RefusedExactly(edit, HeadsOf(seen), r);
    RefusedExactly(e, HeadsOf(stored), r);
    if r.Edited? {
      assert !RefusedWith(edit, HeadsOf(seen), r) && !RefusedWith(e, HeadsOf(stored), r) by {
        if RefusedWith(edit, HeadsOf(seen), r) {
          NeverEdited(edit, HeadsOf(seen), r);
        }
        if RefusedWith(e, HeadsOf(stored), r) {
          NeverEdited(e, HeadsOf(stored), r);
        }
      }
    }
  }

  method Update(view: MemoryStoreView, edit: Edit) returns (r: Outcome)
    modifies view, view.storage
    ensures r == Result(edit, old(view.rootHash), old(view.storage.rootHash))
    ensures view.storage.rootHash == if r.Edited? then RootOf(r.heads) else old(view.storage.rootHash)
    ensures r.Edited? ==> view.rootHash == view.storage.rootHash
    ensures r.Edited? ==>
              Done(Captured(edit, HeadsOf(old(view.rootHash))), HeadsOf(old(view.storage.rootHash)),
                   HeadsOf(view.storage.rootHash))
    ensures !r.Edited? <==>
            || RefusedWith(edit, HeadsOf(old(view.rootHash)), r)
            || (RefusedWith(Captured(edit, HeadsOf(old(view.rootHash))), HeadsOf(old(view.storage.rootHash)), r)
                && old(view.rootHash) != old(view.storage.rootHash))
  {
    ResultMeans(edit, view.rootHash, view.storage.rootHash);
    var e := edit;
    while true
      invariant view.storage.rootHash == old(view.storage.rootHash)
      invariant
        || (view.rootHash == old(view.rootHash) && e == edit)
        || (&& view.rootHash == view.storage.rootHash && old(view.rootHash) != view.rootHash
            && e == Captured(edit, HeadsOf(old(view.rootHash))) && Apply(edit, HeadsOf(old(view.rootHash))).Edited?)
      decreases view.rootHash != view.storage.rootHash
    {
      var root := view.rootHash;
      r := Apply(e, HeadsOf(root));
      if !r.Edited? {
        return;
      }
      e := Captured(e, HeadsOf(root));
      var ok := view.Commit(RootOf(r.heads), root);
      if ok {
        return;
      }
    }
  }

  /** A delete that succeeds removes the head it saw first, however often it had to retry. */
  lemma DeletesWhatItSaw(id: Id, seen: Root, stored: Root)
    requires Result(Delete(id, NONE), seen, stored).Edited? && Head(HeadsOf(seen), id) != NONE
    ensures Head(HeadsOf(stored), id) == Head(HeadsOf(seen), id)
    ensures Result(Delete(id, NONE), seen, stored).heads == HeadsOf(stored) - {id}
  {
  }
}
