/** The owner repository as an explicit value: the stored owners in insertion
    order and the next identity the storage will hand out. */
module Repository {
  import opened Wrappers
  import opened Entities
  import Seqs

  datatype OwnerStore = OwnerStore(owners: seq<Owner>, nextId: int)

  /** Every stored owner has an identity below `nextId`, and no two share one. */
  ghost predicate Valid(s: OwnerStore) {
    && (forall i :: 0 <= i < |s.owners| ==> s.owners[i].id.Some? && s.owners[i].id.value < s.nextId)
    && (forall i, j :: 0 <= i < j < |s.owners| ==> s.owners[i].id != s.owners[j].id)
  }

  /** `findById`: the stored owner with identity `id`, or null. */
  function FindById(s: OwnerStore, id: int): (r: Option<Owner>)
    ensures r.None? <==> forall i :: 0 <= i < |s.owners| ==> s.owners[i].id != Some(id)
    ensures r.Some? ==> r.value.id == Some(id) && r.value in s.owners
  {
    Seqs.FindFirst(s.owners, (o: Owner) => o.id == Some(id))
  }

  /** `save`: an owner whose identity is stored replaces that row; any other
      owner is inserted under a newly generated identity. Returns the store and
      the owner as saved. */
  function Save(s: OwnerStore, o: Owner): (r: (OwnerStore, Owner))
    ensures r.1 == o.(id := r.1.id) && r.1.id.Some?
    ensures o.id.Some? && FindById(s, o.id.value).Some? ==>
      && r.1 == o && r.0.nextId == s.nextId
      && exists i :: 0 <= i < |s.owners| && s.owners[i].id == o.id &&
                     (forall j :: 0 <= j < i ==> s.owners[j].id != o.id) && r.0.owners == s.owners[i := o]
    ensures (o.id.None? || FindById(s, o.id.value).None?) ==>
              r.1.id == Some(s.nextId) && r.0.owners == s.owners + [r.1] && r.0.nextId == s.nextId + 1
  {
    var found := if o.id.Some? then Seqs.FirstIndex(s.owners, (x: Owner) => x.id == o.id) else None;
    match found
    case Some(i) => (s.(owners := s.owners[i := o]), o)
    case None =>
      var saved := o.(id := Some(s.nextId));
      (OwnerStore(s.owners + [saved], s.nextId + 1), saved)
  }

  /** Saving keeps the store consistent; afterwards the saved owner is what
      `findById` returns for its identity, and every other identity finds what
      it found before. */
  lemma SaveThenFind(s: OwnerStore, o: Owner, k: int)
    requires Valid(s)
    ensures Valid(Save(s, o).0)
    ensures FindById(Save(s, o).0, Save(s, o).1.id.value) == Some(Save(s, o).1)
    ensures Some(k) != Save(s, o).1.id ==> FindById(Save(s, o).0, k) == FindById(s, k)
  {
    if o.id.Some? && FindById(s, o.id.value).Some? {
      UpdateThenFind(s, o, k);
    } else {
      InsertThenFind(s, o, k);
    }
  }

  /** Saving an owner whose identity is stored replaces that row in place. */
  lemma {:induction false} UpdateThenFind(s: OwnerStore, o: Owner, k: int)
    requires Valid(s) && o.id.Some? && FindById(s, o.id.value).Some?
    ensures Valid(Save(s, o).0)
    ensures FindById(Save(s, o).0, o.id.value) == Some(o)
    ensures Some(k) != o.id ==> FindById(Save(s, o).0, k) == FindById(s, k)
  {
    var t := Save(s, o).0;
    var i :| 0 <= i < |s.owners| && s.owners[i].id == o.id &&
             (forall j :: 0 <= j < i ==> s.owners[j].id != o.id) && t.owners == s.owners[i := o];
    Seqs.FirstIndexIsUnique(t.owners, (x: Owner) => x.id == Some(o.id.value), i);
    if Some(k) != o.id {
      FindByIdAgrees(s, t, k);
    }
  }

  /** Saving any other owner appends it under the next identity. */
  lemma {:induction false} InsertThenFind(s: OwnerStore, o: Owner, k: int)
    requires Valid(s) && (o.id.None? || FindById(s, o.id.value).None?)
    ensures Valid(Save(s, o).0)
    ensures FindById(Save(s, o).0, s.nextId) == Some(Save(s, o).1)
    ensures k != s.nextId ==> FindById(Save(s, o).0, k) == FindById(s, k)
  {
    var (t, saved) := Save(s, o);
    Seqs.FirstIndexIsUnique(t.owners, (x: Owner) => x.id == Some(s.nextId), |s.owners|);
    if k != s.nextId {
      FindByIdAgrees(s, t, k);
    }
  }

  /** Two stores whose owners agree, position by position, on whether they have
      identity `k` and that keep every such owner find the same owner. */
  lemma FindByIdAgrees(s: OwnerStore, t: OwnerStore, k: int)
    requires |s.owners| <= |t.owners|
    requires forall i :: 0 <= i < |s.owners| ==> (s.owners[i].id == Some(k)) == (t.owners[i].id == Some(k))
    requires forall i :: 0 <= i < |s.owners| && s.owners[i].id == Some(k) ==> t.owners[i] == s.owners[i]
    requires forall i :: |s.owners| <= i < |t.owners| ==> t.owners[i].id != Some(k)
    ensures FindById(s, k) == FindById(t, k)
  {
    var p := (o: Owner) => o.id == Some(k);
    match Seqs.FirstIndex(s.owners, p)
    case None =>
    case Some(i) =>
      assert Seqs.FirstIndex(t.owners, p) == Some(i) by {
        Seqs.FirstIndexIsUnique(t.owners, p, i);
      }
  }
}
