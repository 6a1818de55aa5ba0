/** The hand-written pet validator (PetValidator.java): name, type and birth
    date are required, each failure recorded as a "required" error. */
module PetValidator {
  import opened Wrappers
  import opened Entities
  import opened Text
  import opened Web

  const REQUIRED := "required"

  /** The error `rejectValue(field, REQUIRED, REQUIRED)` records. */
  function Required(f: Field): FieldError {
    FieldError(f, REQUIRED, Some(REQUIRED))
  }

  /** The order in which the validator inspects the fields. */
  function Rank(f: Field): nat {
    match f
    case Name => 0
    case Type => 1
    case BirthDate => 2
    case LastName => 3
  }

  /** `validate`: the errors recorded for a pet. */
  function Validate(p: Pet): (r: seq<FieldError>)
    ensures |r| <= 3
    ensures forall i :: 0 <= i < |r| ==> r[i] == Required(r[i].field)
    ensures forall i, j :: 0 <= i < j < |r| ==> Rank(r[i].field) < Rank(r[j].field)
    ensures Required(Name) in r <==> !HasText(p.name)
    ensures Required(Type) in r <==> IsNewPet(p) && p.petType.None?
    ensures Required(BirthDate) in r <==> p.birthDate.None?
    ensures Required(LastName) !in r
  {
    (if !HasText(p.name) then [Required(Name)] else [])
    + (if IsNewPet(p) && p.petType.None? then [Required(Type)] else [])
    + (if p.birthDate.None? then [Required(BirthDate)] else [])
  }

  /** A pet passes exactly when its name has text, it is saved or has a type,
      and it has a birth date. */
  lemma ValidateAcceptsExactly(p: Pet)
    ensures Validate(p) == [] <==>
      HasText(p.name) && (p.id.Some? || p.petType.Some?) && p.birthDate.Some?
  {
    if Validate(p) == [] {
      assert Required(Name) !in Validate(p);
    }
  }

  /** The validator looks only at whether a birth date is present, not at its
      value: a date in the future passes it. */
  lemma ValidateIgnoresBirthDateValue(p: Pet, d1: Date, d2: Date)
    ensures Validate(p.(birthDate := Some(d1))) == Validate(p.(birthDate := Some(d2)))
    ensures Required(BirthDate) !in Validate(p.(birthDate := Some(d1)))
  {
  }
}
