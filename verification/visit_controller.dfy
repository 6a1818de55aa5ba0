/** Booking a visit (VisitController.java): before the form is processed a new
    visit is created and added to the pet; the submitted form then adds the
    same visit again through the owner. */
module VisitController {
  import opened Wrappers
  import opened Entities
  import opened Web
  import opened Repository
  import Owners
  import Pets
  import Seqs

  /** `new Visit()`: a new object, dated today, without description. */
  function NewVisit(ref: nat, today: Date): (v: Visit)
    ensures v.ref == ref && v.id.None? && v.date == Some(today) && v.description.None?
  {
    Visit(ref, None, Some(today), None)
  }

  /** `loadPetWithVisit`: finds the owner and the pet of the path, creates a
      fresh visit and adds it to that pet. A missing owner or pet is
      dereferenced as null, which throws before anything changes. */
  function LoadPetWithVisit(s: OwnerStore, ownerId: int, petId: int, today: Date)
    : (r: Result<(Owner, Visit), Failure>)
    ensures r.Failure? <==>
      FindById(s, ownerId).None? || Owners.GetPetById(FindById(s, ownerId).value, petId).None?
    ensures r.Failure? ==> r.error == NullDereference
    ensures r.Success? ==>
      var o := FindById(s, ownerId).value;
      var (o', v) := r.value;
      && v.date == Some(today) && v.id.None? && v.description.None?
      && v.ref !in Pets.Refs(Owners.GetPetById(o, petId).value.visits)
      && Owners.AddVisit(o, Some(petId), Some(v)) == Success(o')
  {
    match FindById(s, ownerId)
    case None => Failure(NullDereference)
    case Some(o) =>
      match Seqs.FirstIndex(o.pets, (p: Pet) => Owners.HasId(p, petId))
      case None => Failure(NullDereference)
      case Some(i) =>
        var pet := o.pets[i];
        var visit := NewVisit(Pets.FreshRef(pet.visits), today);
        Success((o.(pets := o.pets[i := Pets.AddVisit(pet, visit)]), visit))
  }

  /** `processNewVisitForm`: `prior` are the errors binding and validation
      recorded. With errors the form is shown again and nothing is saved;
      otherwise the visit is added to the owner's pet `petId`, the owner is
      saved and the browser is sent to the owner. `Owner.addVisit` throws when
      the pet is missing. */
  function ProcessNewVisitForm(s: OwnerStore, ownerId: int, o: Owner, petId: int, visit: Visit, prior: seq<FieldError>)
    : (r: Result<Response, Failure>)
    ensures prior != [] ==> r == Success(Response(VisitForm, prior, o, s))
    ensures prior == [] && Owners.GetPetById(o, petId).None? ==> r == Failure(IllegalArgument(Owners.INVALID_PET_ID))
    ensures prior == [] && Owners.GetPetById(o, petId).Some? ==>
      && r.Success?
      && r.value.view == RedirectToOwner(Some(ownerId)) && r.value.errors == []
      && Owners.AddVisit(o, Some(petId), Some(visit)) == Success(r.value.owner)
      && r.value.store == Save(s, r.value.owner).0
  {
    if prior != [] then Success(Response(VisitForm, prior, o, s))
    else
      match Owners.AddVisit(o, Some(petId), Some(visit))
      case Failure(message) => Failure(IllegalArgument(message))
      case Success(o') => Success(Response(RedirectToOwner(Some(ownerId)), [], o', Save(s, o').0))
  }

  /** The visit fields the form submits; binding overwrites both. */
  datatype VisitFields = VisitFields(date: Option<Date>, description: Option<string>)

  /** Binding the form onto the visit created while loading: the same object,
      now carrying the submitted fields. */
  function Bind(v: Visit, f: VisitFields): (r: Visit)
    ensures r.ref == v.ref && r.id == v.id
    ensures r.date == f.date && r.description == f.description
  {
    v.(date := f.date, description := f.description)
  }

  /** One booking request: loading, binding and processing. Loading adds the
      new visit object to the pet; binding then fills in that same object, so
      from then on the pet's entry shows the bound fields (in the model: the
      pet is handed the object's new state, as re-adding a held object does).
      Whatever the form's errors, the owner in memory is the stored owner with
      the bound visit added once, and it is what gets saved. */
  function BookVisit(s: OwnerStore, ownerId: int, petId: int, today: Date, f: VisitFields, prior: seq<FieldError>)
    : (r: Result<Response, Failure>)
    ensures r.Failure? <==>
      FindById(s, ownerId).None? || Owners.GetPetById(FindById(s, ownerId).value, petId).None?
    ensures r.Failure? ==> r.error == NullDereference
    ensures r.Success? ==>
      var v := LoadPetWithVisit(s, ownerId, petId, today).value.1;
      var booked := Owners.AddVisit(FindById(s, ownerId).value, Some(petId), Some(Bind(v, f)));
      && booked.Success?
      && (prior != [] ==> r.value == Response(VisitForm, prior, booked.value, s))
      && (prior == [] ==>
            r.value == Response(RedirectToOwner(Some(ownerId)), [], booked.value, Save(s, booked.value).0))
  {
    var (loaded, v) :- LoadPetWithVisit(s, ownerId, petId, today);
    var w := Bind(v, f);
    BindingLoadedVisit(FindById(s, ownerId).value, petId, v, w);
    var bound := Owners.AddVisit(loaded, Some(petId), Some(w)).value;
    ProcessNewVisitForm(s, ownerId, bound, petId, w, prior)
  }

  /** The visit is added twice, once while loading and once through
      `Owner.addVisit`, yet the booked pet ends up holding it exactly once, at
      the end of its visits and with the submitted fields; the saved owner
      differs from the stored one only in that pet. */
  lemma BookingAddsVisitOnce(s: OwnerStore, ownerId: int, petId: int, today: Date, f: VisitFields)
    requires FindById(s, ownerId).Some?
    requires Owners.GetPetById(FindById(s, ownerId).value, petId).Some?
    ensures BookVisit(s, ownerId, petId, today, f, []).Success?
    ensures
      var o := FindById(s, ownerId).value;
      var r := BookVisit(s, ownerId, petId, today, f, []).value;
      var v := LoadPetWithVisit(s, ownerId, petId, today).value.1;
      exists i ::
        && 0 <= i < |o.pets| && o.pets[i].id == Some(petId)
        && Seqs.OnlyChangedAt(o.pets, r.owner.pets, i)
        && r.owner.pets[i].visits == o.pets[i].visits + [Bind(v, f)]
        && Pets.CountRef(r.owner.pets[i].visits, v.ref) == 1
  {
    var o := FindById(s, ownerId).value;
    var v := LoadPetWithVisit(s, ownerId, petId, today).value.1;
    var w := Bind(v, f);
    var i :| 0 <= i < |o.pets| && o.pets[i].id == Some(petId) && forall j :: 0 <= j < i ==> o.pets[j].id != Some(petId);
    assert forall k :: 0 <= k < |o.pets[i].visits| ==> o.pets[i].visits[k].ref != v.ref;
    AddSameVisitTwice(o, petId, v, w, i);
  }

  /** Binding the visit that loading added and adding it once more leaves the
      owner exactly as adding the bound visit a single time would. */
  lemma BindingLoadedVisit(o: Owner, petId: int, v: Visit, w: Visit)
    requires Owners.GetPetById(o, petId).Some?
    requires v.ref == w.ref
    requires v.ref !in Pets.Refs(Owners.GetPetById(o, petId).value.visits)
    ensures Owners.AddVisit(o, Some(petId), Some(v)).Success?
    ensures
      var loaded := Owners.AddVisit(o, Some(petId), Some(v)).value;
      var booked := Owners.AddVisit(o, Some(petId), Some(w));
      && booked.Success?
      && Owners.AddVisit(loaded, Some(petId), Some(w)) == booked
      && Owners.AddVisit(booked.value, Some(petId), Some(w)) == booked
  {
    var i :| 0 <= i < |o.pets| && o.pets[i].id == Some(petId) && forall j :: 0 <= j < i ==> o.pets[j].id != Some(petId);
    assert forall k :: 0 <= k < |o.pets[i].visits| ==> o.pets[i].visits[k].ref != v.ref;
    AddSameVisitTwice(o, petId, v, w, i);
    AddingBoundVisitAgain(o, petId, w, i);
  }

  /** Adding a visit object the pet does not hold, then the same object again
      (with other field values), changes only that pet and is the same as
      adding the later state alone: it ends up once at the end of the visits. */
  lemma AddSameVisitTwice(o: Owner, petId: int, v: Visit, w: Visit, i: nat)
    requires i < |o.pets| && o.pets[i].id == Some(petId)
    requires forall j :: 0 <= j < i ==> o.pets[j].id != Some(petId)
    requires v.ref == w.ref
    requires forall k :: 0 <= k < |o.pets[i].visits| ==> o.pets[i].visits[k].ref != v.ref
    ensures Owners.AddVisit(o, Some(petId), Some(v)).Success?
    ensures
      var o1 := Owners.AddVisit(o, Some(petId), Some(v)).value;
      && Owners.AddVisit(o1, Some(petId), Some(w)).Success?
      && var o2 := Owners.AddVisit(o1, Some(petId), Some(w)).value;
      && Seqs.OnlyChangedAt(o.pets, o2.pets, i)
      && o2.pets[i].visits == o.pets[i].visits + [w]
      && Pets.CountRef(o2.pets[i].visits, w.ref) == 1
      && Owners.AddVisit(o1, Some(petId), Some(w)) == Owners.AddVisit(o, Some(petId), Some(w))
  {
    var pet := o.pets[i];
    var o1 := Owners.AddVisit(o, Some(petId), Some(v)).value;
    assert o1.pets == o.pets[i := Pets.AddVisit(pet, v)];
    var loaded := Pets.AddVisit(pet, v);
    var o2 := Owners.AddVisit(o1, Some(petId), Some(w)).value;
    assert o2.pets == o1.pets[i := Pets.AddVisit(loaded, w)];
    Pets.AddingHeldObjectAgainKeepsOneEntry(pet.visits, v, w);
    var once := Owners.AddVisit(o, Some(petId), Some(w)).value;
    assert once.pets == o.pets[i := Pets.AddVisit(pet, w)];
    assert o2.pets == once.pets;
  }

  /** Adding a visit object in the state the pet already shows changes nothing. */
  lemma AddingBoundVisitAgain(o: Owner, petId: int, w: Visit, i: nat)
    requires i < |o.pets| && o.pets[i].id == Some(petId)
    requires forall j :: 0 <= j < i ==> o.pets[j].id != Some(petId)
    requires forall k :: 0 <= k < |o.pets[i].visits| ==> o.pets[i].visits[k].ref != w.ref
    ensures Owners.AddVisit(o, Some(petId), Some(w)).Success?
    ensures
      var o1 := Owners.AddVisit(o, Some(petId), Some(w)).value;
      Owners.AddVisit(o1, Some(petId), Some(w)) == Success(o1)
  {
    var pet := o.pets[i];
    var o1 := Owners.AddVisit(o, Some(petId), Some(w)).value;
    assert o1.pets == o.pets[i := Pets.AddVisit(pet, w)];
    Pets.AddingHeldObjectAgainKeepsOneEntry(pet.visits, w, w);
    var o2 := Owners.AddVisit(o1, Some(petId), Some(w)).value;
    assert o2.pets == o1.pets[i := Pets.AddVisit(o1.pets[i], w)];
    assert o2.pets == o1.pets;
  }
}
