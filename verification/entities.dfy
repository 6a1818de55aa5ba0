/** The records of the clinic: owners, pets, visits, pet types, vets and
    specialties. The Java class hierarchy (BaseEntity, NamedEntity, Person) is
    flattened into fields: every entity carries its database identity `id`,
    absent until the entity is first saved. */
module Entities {
  import opened Wrappers

  /** A calendar day (`LocalDate`), counted in days; later days are larger. */
  type Date = int

  /** A shared reference row: the kind of animal ("cat", "dog", ...). */
  datatype PetType = PetType(id: Option<int>, name: string)

  /** A shared reference row naming a vet's field ("radiology", ...). `ref`
      stands for the Java object's identity: the class does not override
      `equals`, so two specialties are the same set element only when they are
      the same object. */
  datatype Specialty = Specialty(ref: nat, id: Option<int>, name: string)

  /** One visit of a pet. `ref` stands for the Java object's identity, which is
      what the pet's visit set compares (the class does not override `equals`). */
  datatype Visit = Visit(ref: nat, id: Option<int>, date: Option<Date>, description: Option<string>)

  /** A pet; `visits` is the pet's insertion-ordered set of visits, at most one
      entry per visit object. */
  datatype Pet = Pet(
    id: Option<int>,
    name: Option<string>,
    birthDate: Option<Date>,
    petType: Option<PetType>,
    visits: seq<Visit>)

  /** The name fields shared by owners and vets. */
  datatype Person = Person(firstName: Option<string>, lastName: Option<string>)

  /** An owner and the pets it owns, in list order. */
  datatype Owner = Owner(
    id: Option<int>,
    person: Person,
    address: Option<string>,
    city: Option<string>,
    telephone: Option<string>,
    pets: seq<Pet>)

  /** A vet; `specialties` is null until first touched and then a set. */
  datatype Vet = Vet(id: Option<int>, person: Person, specialties: Option<set<Specialty>>)

  /** `BaseEntity.isNew`: the entity has never been saved. */
  predicate IsNewPet(p: Pet) {
    p.id.None?
  }

  /** A freshly constructed owner (`new Owner()`): no identity, no fields, no pets. */
  function NewOwner(): (o: Owner)
    ensures o.id.None? && o.pets == []
  {
    Owner(None, Person(None, None), None, None, None, [])
  }
}
