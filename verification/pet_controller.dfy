/** The pet request handlers (PetController.java): loading the owner and pet
    named by the path, and the create and update form submissions. */
module PetController {
  import opened Wrappers
  import opened Entities
  import opened Text
  import opened Web
  import opened Repository
  import opened Owners
  import Pets
  import PetValidator
  import Seqs

  const DUPLICATE := "duplicate"
  const ALREADY_EXISTS := "already exists"
  const TYPE_MISMATCH_BIRTH_DATE := "typeMismatch.birthDate"

  /** `rejectValue("name", "duplicate", "already exists")`. */
  function DuplicateName(): FieldError {
    FieldError(Name, DUPLICATE, Some(ALREADY_EXISTS))
  }

  /** `rejectValue("birthDate", "typeMismatch.birthDate")`. */
  function FutureBirthDate(): FieldError {
    FieldError(BirthDate, TYPE_MISMATCH_BIRTH_DATE, None)
  }

  /** `getBirthDate().isAfter(today)`: strictly later than today. */
  predicate BornAfter(p: Pet, today: Date) {
    p.birthDate.Some? && p.birthDate.value > today
  }

  /** The birth-date rule shared by create and update. */
  function BirthDateErrors(p: Pet, today: Date): (r: seq<FieldError>)
    ensures r == [] || r == [FutureBirthDate()]
    ensures r != [] <==> BornAfter(p, today)
  {
    if p.birthDate.Some? && p.birthDate.value > today then [FutureBirthDate()] else []
  }

  /** `findOwner`: the owner named by the path, or IllegalArgumentException. */
  function FindOwner(s: OwnerStore, ownerId: int): (r: Result<Owner, Failure>)
    ensures r.Failure? <==> forall i :: 0 <= i < |s.owners| ==> s.owners[i].id != Some(ownerId)
    ensures r.Failure? ==> r.error == OwnerIdNotFound(ownerId)
    ensures r.Success? ==> r.value.id == Some(ownerId) && r.value in s.owners
  {
    match FindById(s, ownerId)
    case None => Failure(OwnerIdNotFound(ownerId))
    case Some(o) => Success(o)
  }

  /** `findPet`: without a pet identity a fresh unsaved pet; otherwise the
      owner's pet with that identity, which may be null; IllegalArgumentException
      when the owner does not exist. */
  function FindPet(s: OwnerStore, ownerId: int, petId: Option<int>): (r: Result<Option<Pet>, Failure>)
    ensures petId.None? ==> r.Success? && r.value.Some? && IsNewPet(r.value.value) && r.value.value.visits == []
    ensures petId.Some? ==> (r.Failure? <==> FindById(s, ownerId).None?)
    ensures r.Failure? ==> r.error == OwnerIdNotFound(ownerId)
    ensures petId.Some? && r.Success? ==>
      (r.value.Some? <==> exists i :: 0 <= i < |FindById(s, ownerId).value.pets| &&
                                      FindById(s, ownerId).value.pets[i].id == petId)
    ensures petId.Some? && r.Success? && r.value.Some? ==>
      r.value.value.id == petId && r.value.value in FindById(s, ownerId).value.pets
  {
    if petId.None? then Success(Some(Pets.NewPet()))
    else
      match FindById(s, ownerId)
      case None => Failure(OwnerIdNotFound(ownerId))
      case Some(o) => Success(GetPetById(o, petId.value))
  }

  /** Create: a duplicate is a pet with text in its name, not yet saved, whose
      name a saved pet of the owner already carries. */
  function CreationDuplicateErrors(o: Owner, p: Pet): (r: seq<FieldError>)
    ensures r == [] || r == [DuplicateName()]
    ensures r != [] <==> (HasText(p.name) && IsNewPet(p) &&
      exists i :: 0 <= i < |o.pets| && !IsNewPet(o.pets[i]) && o.pets[i].name.Some? &&
                  EqualsIgnoreCase(o.pets[i].name.value, p.name.value))
  {
    if HasText(p.name) && IsNewPet(p) && GetPetByName(o, p.name.value, true).Some? then
      [DuplicateName()]
    else []
  }

  /** `processCreationForm`: `prior` are the errors binding and validation
      recorded. The pet joins the owner's list before the errors are looked at,
      so it is there even when the form is shown again; with errors nothing is
      saved, otherwise the owner is saved and the browser is sent to the owner. */
  function ProcessCreationForm(s: OwnerStore, ownerId: int, o: Owner, p: Pet, prior: seq<FieldError>, today: Date)
    : (r: Response)
    ensures r.owner == AddPet(o, p)
    ensures r.errors == prior + CreationDuplicateErrors(o, p) + BirthDateErrors(p, today)
    ensures r.errors != [] ==> r.view == PetForm && r.store == s
    ensures r.errors == [] ==> r.view == RedirectToOwner(Some(ownerId)) && r.store == Save(s, r.owner).0
  {
    var errors := prior + CreationDuplicateErrors(o, p) + BirthDateErrors(p, today);
    var owner := AddPet(o, p);
    if errors != [] then Response(PetForm, errors, owner, s)
    else Response(RedirectToOwner(Some(ownerId)), [], owner, Save(s, owner).0)
  }

  /** Update: the first pet of the owner (saved or not) whose name matches the
      submitted one is a different pet. The submitted name is lower-cased
      before the lookup. Identities are compared by value. */
  function UpdateDuplicateErrors(o: Owner, p: Pet): (r: seq<FieldError>)
    ensures r == [] || r == [DuplicateName()]
    ensures r != [] <==> (HasText(p.name) &&
      exists i :: 0 <= i < |o.pets| && NameMatches(o.pets[i], p.name.value, false) && o.pets[i].id != p.id &&
                  forall j :: 0 <= j < i ==> !NameMatches(o.pets[j], p.name.value, false))
  {
    if HasText(p.name) then
      var name := p.name.value;
      var existing := GetPetByName(o, Lower(name), false);
      assert forall q: Pet :: NameMatches(q, Lower(name), false) == NameMatches(q, name, false) by {
        forall q: Pet ensures NameMatches(q, Lower(name), false) == NameMatches(q, name, false) {
          if q.name.Some? { EqualsIgnoreCaseIsLowerEquality(q.name.value, name); }
        }
      }
      if existing.Some? && existing.value.id != p.id then [DuplicateName()] else []
    else []
  }

  /** The owner as the update request sees it. `findPet` loads the pet through
      the store, which hands back the same managed owner `findOwner` loaded, so
      the form is bound onto the owner's own pet object: the first pet with the
      edited pet's identity now shows the submitted state `p`. A pet the owner
      does not hold is a separate object and leaves the owner as it was. */
  function EditedOwner(o: Owner, p: Pet): (r: Owner)
    ensures r.(pets := o.pets) == o
    ensures p.id.None? || GetPetById(o, p.id.value).None? ==> r == o
    ensures p.id.Some? && GetPetById(o, p.id.value).Some? ==>
      && GetPetById(r, p.id.value) == Some(p)
      && exists i :: 0 <= i < |o.pets| && o.pets[i].id == p.id && r.pets == o.pets[i := p]
  {
    if p.id.None? then o
    else
      match Seqs.FirstIndex(o.pets, (q: Pet) => HasId(q, p.id.value))
      case None => o
      case Some(i) =>
        Seqs.FirstIndexIsUnique(o.pets[i := p], (q: Pet) => HasId(q, p.id.value), i);
        o.(pets := o.pets[i := p])
  }

  /** The end of an update once its errors are known: with errors the form is
      shown again and nothing is saved; otherwise the pet is offered to the
      owner (a saved pet is not re-added), the owner is saved and the browser
      is sent to the owner. */
  function FinishUpdate(s: OwnerStore, ownerId: int, owner: Owner, p: Pet, errors: seq<FieldError>)
    : (r: Response)
    ensures r.errors == errors
    ensures errors != [] ==> r.view == PetForm && r.owner == owner && r.store == s
    ensures errors == [] ==>
      && r.view == RedirectToOwner(Some(ownerId))
      && r.owner == AddPet(owner, p)
      && r.store == Save(s, r.owner).0
  {
    if errors != [] then Response(PetForm, errors, owner, s)
    else
      var saved := AddPet(owner, p);
      Response(RedirectToOwner(Some(ownerId)), [], saved, Save(s, saved).0)
  }

  /** The pet fields the edit form submits. Binding overwrites them and keeps
      the pet's identity and visits. */
  datatype PetFields = PetFields(name: Option<string>, birthDate: Option<Date>, petType: Option<PetType>)

  /** Binding the submitted fields onto the loaded pet. */
  function BindPet(p: Pet, f: PetFields): (r: Pet)
    ensures r.id == p.id && r.visits == p.visits
    ensures r.name == f.name && r.birthDate == f.birthDate && r.petType == f.petType
  {
    p.(name := f.name, birthDate := f.birthDate, petType := f.petType)
  }

  /** `processUpdateForm` on the loaded owner `o`: `findPet` loads the owner's
      pet `petId` and the form is bound onto it. A pet the owner does not hold
      is null; binding and validation skip a null target and `getName`
      dereferences it. Otherwise the checks run on the owner that already
      shows the edit, the errors come in the order prior, duplicate, date, and
      on success the owner that is saved holds the edited pet under its
      identity. */
  function ProcessUpdateForm(s: OwnerStore, ownerId: int, o: Owner, petId: int, f: PetFields,
                             prior: seq<FieldError>, today: Date)
    : (r: Result<Response, Failure>)
    ensures r.Failure? <==> GetPetById(o, petId).None?
    ensures r.Failure? ==> r.error == NullDereference
    ensures r.Success? ==>
      var p := BindPet(GetPetById(o, petId).value, f);
      var owner := EditedOwner(o, p);
      && r.value.errors == prior + UpdateDuplicateErrors(owner, p) + BirthDateErrors(p, today)
      && (r.value.errors != [] ==> r.value.view == PetForm && r.value.owner == owner && r.value.store == s)
      && (r.value.errors == [] ==>
            && r.value.view == RedirectToOwner(Some(ownerId))
            && r.value.owner == AddPet(owner, p) && r.value.owner == owner
            && GetPetById(r.value.owner, petId) == Some(p)
            && r.value.store == Save(s, r.value.owner).0)
  {
    match GetPetById(o, petId)
    case None => Failure(NullDereference)
    case Some(pet) =>
      var p := BindPet(pet, f);
      var owner := EditedOwner(o, p);
      Success(FinishUpdate(s, ownerId, owner, p, prior + UpdateDuplicateErrors(owner, p) + BirthDateErrors(p, today)))
  }

  /** The rule the update check is evidently meant to apply: a duplicate when
      a pet of the owner with another identity carries the submitted name
      ignoring case. */
  function OtherPetNamedErrors(o: Owner, p: Pet): (r: seq<FieldError>)
    ensures r == [] || r == [DuplicateName()]
    ensures r != [] <==> (HasText(p.name) &&
      exists i :: 0 <= i < |o.pets| && NameMatches(o.pets[i], p.name.value, false) && o.pets[i].id != p.id)
  {
    if HasText(p.name) &&
       Seqs.FirstIndex(o.pets, (q: Pet) => NameMatches(q, p.name.value, false) && q.id != p.id).Some?
    then [DuplicateName()]
    else []
  }

  /** The update handler with the intended duplicate rule. */
  function ProcessUpdateFormCorrected(s: OwnerStore, ownerId: int, o: Owner, petId: int, f: PetFields,
                                      prior: seq<FieldError>, today: Date)
    : (r: Result<Response, Failure>)
    ensures r.Failure? <==> GetPetById(o, petId).None?
    ensures r.Failure? ==> r.error == NullDereference
    ensures r.Success? ==>
      var p := BindPet(GetPetById(o, petId).value, f);
      var owner := EditedOwner(o, p);
      && r.value.errors == prior + OtherPetNamedErrors(owner, p) + BirthDateErrors(p, today)
      && (r.value.errors != [] ==> r.value.view == PetForm && r.value.owner == owner && r.value.store == s)
      && (r.value.errors == [] ==>
            && r.value.view == RedirectToOwner(Some(ownerId))
            && r.value.owner == owner && GetPetById(r.value.owner, petId) == Some(p)
            && r.value.store == Save(s, r.value.owner).0)
  {
    match GetPetById(o, petId)
    case None => Failure(NullDereference)
    case Some(pet) =>
      var p := BindPet(pet, f);
      var owner := EditedOwner(o, p);
      Success(FinishUpdate(s, ownerId, owner, p, prior + OtherPetNamedErrors(owner, p) + BirthDateErrors(p, today)))
  }

  /** With the intended rule, editing a pet the owner holds is refused as a
      duplicate exactly when another pet of the stored owner carries the
      submitted name, whatever the order of the pets and the edited pet's
      former name. */
  lemma {:induction false} CorrectedUpdateRejectsExactlyRenamesOntoOthers(o: Owner, p: Pet)
    requires p.id.Some? && GetPetById(o, p.id.value).Some?
    ensures OtherPetNamedErrors(EditedOwner(o, p), p) != [] <==> (HasText(p.name) &&
      exists i :: 0 <= i < |o.pets| && NameMatches(o.pets[i], p.name.value, false) && o.pets[i].id != p.id)
  {
    var e := EditedOwner(o, p);
    var i :| 0 <= i < |o.pets| && o.pets[i].id == p.id && e.pets == o.pets[i := p];
    if HasText(p.name) {
      var name := p.name.value;
      forall k | 0 <= k < |o.pets|
        ensures (NameMatches(e.pets[k], name, false) && e.pets[k].id != p.id) ==
                (NameMatches(o.pets[k], name, false) && o.pets[k].id != p.id)
      {
        if k == i {
          assert e.pets[k].id == p.id && o.pets[k].id == p.id;
        } else {
          assert e.pets[k] == o.pets[k];
        }
      }
    }
  }

  /** As written, the outcome depends on the order of the owner's pets:
      renaming "leo" to "max" is accepted when leo comes first, because the
      first pet named "max" is then the edited pet itself, and refused when
      the other "max" comes first. */
  lemma RenameOntoLaterPetIsAccepted(s: OwnerStore, first: Owner, second: Owner, leo: Pet, max: Pet, f: PetFields)
    requires leo == Pet(Some(1), Some("leo"), Some(0), None, [])
    requires max == Pet(Some(2), Some("max"), Some(0), None, [])
    requires f == PetFields(Some("max"), Some(0), None)
    requires first.pets == [leo, max] && second == first.(pets := [max, leo])
    ensures ProcessUpdateForm(s, 10, first, 1, f, [], 0).Success?
    ensures ProcessUpdateForm(s, 10, first, 1, f, [], 0).value.errors == []
    ensures ProcessUpdateForm(s, 10, second, 1, f, [], 0).Success?
    ensures ProcessUpdateForm(s, 10, second, 1, f, [], 0).value.errors == [DuplicateName()]
  {
    var edited := leo.(name := Some("max"));
    EditingLeo(first, second, leo, max, edited);
    var e1, e2 := EditedOwner(first, edited), EditedOwner(second, edited);
    DuplicateRulesOnRename(e1, e2, max, edited);
    UpdateErrorsOnHeldPet(s, 10, first, 1, f, 0, leo, edited, []);
    UpdateErrorsOnHeldPet(s, 10, second, 1, f, 0, leo, edited, [DuplicateName()]);
  }

  /** The errors of an update of a held pet whose birth date is acceptable
      are those of the duplicate rule. */
  lemma UpdateErrorsOnHeldPet(s: OwnerStore, ownerId: int, o: Owner, petId: int, f: PetFields, today: Date,
                              pet: Pet, p: Pet, dup: seq<FieldError>)
    requires GetPetById(o, petId) == Some(pet) && BindPet(pet, f) == p
    requires UpdateDuplicateErrors(EditedOwner(o, p), p) == dup && !BornAfter(p, today)
    ensures ProcessUpdateForm(s, ownerId, o, petId, f, [], today).Success?
    ensures ProcessUpdateForm(s, ownerId, o, petId, f, [], today).value.errors == dup
  {
  }

  /** The intended rule refuses the same rename whatever the order. */
  lemma CorrectedRefusesRenameInEitherOrder(s: OwnerStore, first: Owner, second: Owner, leo: Pet, max: Pet, f: PetFields)
    requires leo == Pet(Some(1), Some("leo"), Some(0), None, [])
    requires max == Pet(Some(2), Some("max"), Some(0), None, [])
    requires f == PetFields(Some("max"), Some(0), None)
    requires first.pets == [leo, max] && second == first.(pets := [max, leo])
    ensures ProcessUpdateFormCorrected(s, 10, first, 1, f, [], 0).Success?
    ensures ProcessUpdateFormCorrected(s, 10, first, 1, f, [], 0).value.errors == [DuplicateName()]
    ensures ProcessUpdateFormCorrected(s, 10, second, 1, f, [], 0).Success?
    ensures ProcessUpdateFormCorrected(s, 10, second, 1, f, [], 0).value.errors == [DuplicateName()]
  {
    var edited := leo.(name := Some("max"));
    EditingLeo(first, second, leo, max, edited);
    assert BindPet(leo, f) == edited;
    var e1, e2 := EditedOwner(first, edited), EditedOwner(second, edited);
    assert BirthDateErrors(edited, 0) == [];
    assert OtherPetNamedErrors(e1, edited) == [DuplicateName()] && OtherPetNamedErrors(e2, edited) == [DuplicateName()] by {
      DuplicateRulesOnRename(e1, e2, max, edited);
    }
  }

  /** Binding "max" onto leo edits leo in place, wherever leo stands. */
  lemma EditingLeo(first: Owner, second: Owner, leo: Pet, max: Pet, edited: Pet)
    requires leo == Pet(Some(1), Some("leo"), Some(0), None, [])
    requires max == Pet(Some(2), Some("max"), Some(0), None, [])
    requires edited == leo.(name := Some("max"))
    requires first.pets == [leo, max] && second.pets == [max, leo]
    ensures GetPetById(first, 1) == Some(leo) && GetPetById(second, 1) == Some(leo)
    ensures EditedOwner(first, edited) == first.(pets := [edited, max])
    ensures EditedOwner(second, edited) == second.(pets := [max, edited])
  {
    Seqs.FirstIndexIsUnique(first.pets, (q: Pet) => HasId(q, 1), 0);
    Seqs.FirstIndexIsUnique(second.pets, (q: Pet) => HasId(q, 1), 1);
  }

  /** The two rules on an owner holding the edited pet and another "max". */
  lemma DuplicateRulesOnRename(e1: Owner, e2: Owner, max: Pet, edited: Pet)
    requires max == Pet(Some(2), Some("max"), Some(0), None, [])
    requires edited == Pet(Some(1), Some("max"), Some(0), None, [])
    requires e1.pets == [edited, max] && e2.pets == [max, edited]
    ensures UpdateDuplicateErrors(e1, edited) == []
    ensures UpdateDuplicateErrors(e2, edited) == [DuplicateName()]
    ensures OtherPetNamedErrors(e1, edited) == [DuplicateName()]
    ensures OtherPetNamedErrors(e2, edited) == [DuplicateName()]
  {
    assert HasText(edited.name) by {
      assert !IsWhitespace(edited.name.value[0]);
    }
    EqualsIgnoreCaseIsEquivalence("max", "max", "max");
    assert NameMatches(edited, "max", false) && NameMatches(max, "max", false);
    assert e1.pets[0] == edited && e1.pets[1] == max;
    assert e2.pets[0] == max && e2.pets[1] == edited;
  }

  /** No two named pets of the owner share a name ignoring case. */
  ghost predicate NamesUnique(pets: seq<Pet>) {
    forall i, j :: 0 <= i < j < |pets| && pets[i].name.Some? && pets[j].name.Some? ==>
      !EqualsIgnoreCase(pets[i].name.value, pets[j].name.value)
  }

  /** For an owner whose pet names are distinct, the first-match rule is the
      intended one: a duplicate exactly when a pet with another identity
      carries the name. The owner an update checks already shows the edited
      name, so when the loaded owner's names are distinct this premise fails
      exactly when the rename collides with another pet's name (see
      `RenameOntoLaterPetIsAccepted`). */
  lemma {:induction false} UpdateDuplicateWhenNamesUnique(o: Owner, p: Pet)
    requires NamesUnique(o.pets)
    ensures UpdateDuplicateErrors(o, p) != [] <==> (HasText(p.name) &&
      exists i :: 0 <= i < |o.pets| && NameMatches(o.pets[i], p.name.value, false) && o.pets[i].id != p.id)
    ensures UpdateDuplicateErrors(o, p) == OtherPetNamedErrors(o, p)
  {
    if HasText(p.name) {
      var name := p.name.value;
      if i :| 0 <= i < |o.pets| && NameMatches(o.pets[i], name, false) && o.pets[i].id != p.id {
        forall j | 0 <= j < i ensures !NameMatches(o.pets[j], name, false) {
          if NameMatches(o.pets[j], name, false) {
            EqualsIgnoreCaseIsEquivalence(o.pets[j].name.value, name, o.pets[i].name.value);
            EqualsIgnoreCaseIsEquivalence(o.pets[i].name.value, name, name);
          }
        }
      }
    }
  }

  /** A successful creation keeps the names of an owner whose pets are all
      saved distinct, the rule the duplicate check exists for. */
  lemma {:induction false} CreationKeepsNamesUnique(s: OwnerStore, ownerId: int, o: Owner, p: Pet, today: Date)
    requires NamesUnique(o.pets)
    requires forall i :: 0 <= i < |o.pets| ==> !IsNewPet(o.pets[i])
    requires ProcessCreationForm(s, ownerId, o, p, PetValidator.Validate(p), today).errors == []
    ensures NamesUnique(ProcessCreationForm(s, ownerId, o, p, PetValidator.Validate(p), today).owner.pets)
  {
    var r := ProcessCreationForm(s, ownerId, o, p, PetValidator.Validate(p), today);
    assert PetValidator.Required(Name) !in PetValidator.Validate(p);
    assert CreationDuplicateErrors(o, p) == [];
    var pets := r.owner.pets;
    if !IsNewPet(p) {
      assert pets == o.pets;
      return;
    }
    assert pets == o.pets + [p];
    forall i, j | 0 <= i < j < |pets| && pets[i].name.Some? && pets[j].name.Some?
      ensures !EqualsIgnoreCase(pets[i].name.value, pets[j].name.value)
    {
      if j == |o.pets| {
        assert pets[i] == o.pets[i];
      } else {
        assert pets[i] == o.pets[i] && pets[j] == o.pets[j];
      }
    }
  }
}
