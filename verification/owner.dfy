/** The owner aggregate (Owner.java): adding pets, looking them up by identity
    or by name, and booking a visit on one of them. */
module Owners {
  import opened Wrappers
  import opened Entities
  import opened Text
  import Seqs
  import Pets

  /** `getPet(Integer)` matches only saved pets whose identity equals `id`. */
  predicate HasId(p: Pet, id: int) {
    p.id == Some(id)
  }

  /** `getPet(String, boolean)` matches a pet whose non-null name equals `name`
      ignoring case and which, when `ignoreNew` is set, has been saved. */
  predicate NameMatches(p: Pet, name: string, ignoreNew: bool) {
    p.name.Some? && EqualsIgnoreCase(p.name.value, name) && (!ignoreNew || !IsNewPet(p))
  }

  /** `addPet`: an unsaved pet is appended at the end; a saved pet is not re-added. */
  function AddPet(o: Owner, p: Pet): (r: Owner)
    ensures IsNewPet(p) ==> r.pets == o.pets + [p]
    ensures !IsNewPet(p) ==> r.pets == o.pets
    ensures r.(pets := o.pets) == o
  {
    if IsNewPet(p) then o.(pets := o.pets + [p]) else o
  }

  /** `getPet(Integer)`: the first pet in list order whose identity is `id`;
      null when there is none. Unsaved pets never match. */
  function GetPetById(o: Owner, id: int): (r: Option<Pet>)
    ensures r.None? <==> forall i :: 0 <= i < |o.pets| ==> o.pets[i].id != Some(id)
    ensures r.Some? ==> r.value.id == Some(id) && !IsNewPet(r.value)
    ensures r.Some? ==> exists i :: 0 <= i < |o.pets| && o.pets[i] == r.value &&
                          forall j :: 0 <= j < i ==> o.pets[j].id != Some(id)
  {
    Seqs.FindFirst(o.pets, (p: Pet) => HasId(p, id))
  }

  /** `getPet(String, boolean)`: the first pet in list order whose name equals
      `name` ignoring case (skipping unsaved pets when `ignoreNew`); null when
      there is none. The name itself must not be null: the source lower-cases it. */
  function GetPetByName(o: Owner, name: string, ignoreNew: bool): (r: Option<Pet>)
    ensures r.None? <==> forall i :: 0 <= i < |o.pets| ==> !NameMatches(o.pets[i], name, ignoreNew)
    ensures r.Some? ==> r.value.name.Some? && EqualsIgnoreCase(r.value.name.value, name)
    ensures r.Some? && ignoreNew ==> !IsNewPet(r.value)
    ensures r.Some? ==> exists i :: 0 <= i < |o.pets| && o.pets[i] == r.value &&
                          forall j :: 0 <= j < i ==> !NameMatches(o.pets[j], name, ignoreNew)
  {
    var lowered := Lower(name);
    forall p: Pet ensures (p.name.Some? && EqualsIgnoreCase(p.name.value, lowered)) ==
                          (p.name.Some? && EqualsIgnoreCase(p.name.value, name)) {
      if p.name.Some? { EqualsIgnoreCaseIsLowerEquality(p.name.value, name); }
    }
    Seqs.FindFirst(o.pets, (p: Pet) =>
      p.name.Some? && EqualsIgnoreCase(p.name.value, lowered) && (!ignoreNew || !IsNewPet(p)))
  }

  /** `getPet(String)`: the one-argument lookup does consider unsaved pets. */
  function GetPetNamed(o: Owner, name: string): (r: Option<Pet>)
    ensures r == GetPetByName(o, name, false)
    ensures r.None? <==> forall i :: 0 <= i < |o.pets| ==> !NameMatches(o.pets[i], name, false)
  {
    GetPetByName(o, name, false)
  }

  /** With `ignoreNew` off, an unsaved pet can be found by name; with it on, it cannot. */
  lemma IgnoreNewDecidesUnsavedMatches(o: Owner, p: Pet)
    requires o.pets == [p] && IsNewPet(p) && p.name.Some?
    ensures GetPetByName(o, p.name.value, false) == Some(p)
    ensures GetPetByName(o, p.name.value, true).None?
  {
    EqualsIgnoreCaseIsEquivalence(p.name.value, p.name.value, p.name.value);
  }

  /** The failures of `Owner.addVisit`: `Assert.notNull` throws
      IllegalArgumentException with these messages. */
  const PET_ID_NULL := "Pet identifier must not be null!"
  const VISIT_NULL := "Visit must not be null!"
  const INVALID_PET_ID := "Invalid Pet identifier!"

  /** `Owner.addVisit(petId, visit)`: fails when `petId` or `visit` is null or no
      saved pet has that identity; otherwise adds the visit to exactly that pet
      (the first with that identity), leaving every other pet and the list
      itself as they were. */
  function AddVisit(o: Owner, petId: Option<int>, visit: Option<Visit>): (r: Result<Owner, string>)
    ensures petId.None? ==> r == Failure(PET_ID_NULL)
    ensures petId.Some? && visit.None? ==> r == Failure(VISIT_NULL)
    ensures petId.Some? && visit.Some? && GetPetById(o, petId.value).None? ==> r == Failure(INVALID_PET_ID)
    ensures r.Success? <==> petId.Some? && visit.Some? && GetPetById(o, petId.value).Some?
    ensures r.Success? ==>
      var i :| 0 <= i < |o.pets| && o.pets[i].id == petId && forall j :: 0 <= j < i ==> o.pets[j].id != petId;
      && Seqs.OnlyChangedAt(o.pets, r.value.pets, i)
      && r.value.pets[i] == Pets.AddVisit(o.pets[i], visit.value)
      && r.value.(pets := o.pets) == o
  {
    if petId.None? then Failure(PET_ID_NULL)
    else if visit.None? then Failure(VISIT_NULL)
    else
      match Seqs.FirstIndex(o.pets, (p: Pet) => HasId(p, petId.value))
      case None => Failure(INVALID_PET_ID)
      case Some(i) =>
        assert forall k ::
          (0 <= k < |o.pets| && o.pets[k].id == petId && (forall j :: 0 <= j < k ==> o.pets[j].id != petId)) ==> k == i;
        var pets := o.pets[i := Pets.AddVisit(o.pets[i], visit.value)];
        Success(o.(pets := pets))
  }

  /** Adding a pet never changes what the lookups that ignore unsaved pets
      find: an unsaved pet is appended, a saved one is not added. */
  lemma AddPetKeepsSavedLookups(o: Owner, p: Pet, id: int, name: string)
    ensures GetPetById(AddPet(o, p), id) == GetPetById(o, id)
    ensures GetPetByName(AddPet(o, p), name, true) == GetPetByName(o, name, true)
  {
    if IsNewPet(p) {
      Seqs.FindFirstAppendNonMatching(o.pets, p, (q: Pet) => HasId(q, id));
      var lowered, ignoreNew := Lower(name), true;
      Seqs.FindFirstAppendNonMatching(o.pets, p, (q: Pet) =>
        q.name.Some? && EqualsIgnoreCase(q.name.value, lowered) && (!ignoreNew || !IsNewPet(q)));
    }
  }

  /** After a successful `addVisit` the pet found under `petId` holds the visit,
      and every other identity finds the pet it found before. */
  lemma AddVisitThenLookup(o: Owner, petId: int, v: Visit, k: int)
    requires AddVisit(o, Some(petId), Some(v)).Success?
    ensures GetPetById(AddVisit(o, Some(petId), Some(v)).value, petId).Some?
    ensures v in GetPetById(AddVisit(o, Some(petId), Some(v)).value, petId).value.visits
    ensures k != petId ==> GetPetById(AddVisit(o, Some(petId), Some(v)).value, k) == GetPetById(o, k)
  {
    var o' := AddVisit(o, Some(petId), Some(v)).value;
    var i :| 0 <= i < |o.pets| && o.pets[i].id == Some(petId) && forall j :: 0 <= j < i ==> o.pets[j].id != Some(petId);
    assert o'.pets == o.pets[i := Pets.AddVisit(o.pets[i], v)];
    Seqs.FirstIndexIsUnique(o'.pets, (q: Pet) => HasId(q, petId), i);
    Seqs.FirstIndexSamePattern(o.pets, o'.pets, (q: Pet) => HasId(q, k), (q: Pet) => HasId(q, k));
  }
}
