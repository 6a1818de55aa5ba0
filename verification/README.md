# Pet clinic core, modelled in Dafny

A model of the in-memory core of the Spring pet clinic application: the owner → pet → visit
object graph, the rules the pet validator and the request handlers apply before anything is
saved, the owner search, the vet's specialty list and the pet-type formatter.

Every class becomes an immutable datatype and every operation a pure function, except for two
methods: the specialty sort and a new vet's empty specialty list. Java's `null` is `Option.None`. An exception is `Result.Failure`. The two
inputs the source takes from the outside world are explicit parameters:

- "today" (`LocalDate.now()`) is a `Date` argument; dates are whole days, `isAfter` is `>`.
- The owner repository is an `OwnerStore` value: the stored owners in order, plus the next
  identity the database will hand out. The paged last-name query is a function argument
  `search(prefix, pageRequest)`.

A handler is a function from (store, path variables, bound form object, errors recorded by
binding and validation, today) to a `Response`. The response holds the chosen view or
redirect, the errors, the owner as the handler left it in memory, and the store afterwards.
The store is unchanged when the handler does not save.

Object identity matters in two places, and the model states it explicitly:

- `Visit` and `Specialty` do not override `equals`, so sets of them compare references. Each
  carries a `ref` token standing for its object identity. A vet's specialty set holds at most
  one specialty per `ref`, and adding an object it holds keeps the count.
- A pet's visits are an insertion-ordered sequence with at most one entry per `ref`. Adding a
  visit object that is already held keeps its position. The entry then shows the object's
  current field values, since it is the same object.
- This is why the booking flow holds the visit once: it adds the visit while loading the form
  and again after binding. Binding fills in the object the pet already holds, so the owner in
  memory shows the bound visit whether or not the form had errors.
- The pet update handler binds the form onto the owner's own pet object: `findPet` loads it
  through the same managed owner that `findOwner` loads. The duplicate-name check therefore
  sees the edited name already in the owner's list (see "## Findings").

Modules: `Wrappers`, `Seqs` (first-match search), `Text` (string predicates), `Entities`
(records), `Web` (field errors, views, exceptions, responses), `Repository`, `Pets`, `Owners`,
`PetValidator`, `PetController`, `VisitController`, `OwnerController`, `Vets`,
`PetTypeFormatter`.

## Model

| member | source | states |
|---|---|---|
| Entities.NewOwner | spring-petclinic/src/main/java/org/springframework/samples/petclinic/owner/OwnerController.java:52 | a new owner has no identity and no pets |
| Pets.NewPet | spring-petclinic/src/main/java/org/springframework/samples/petclinic/owner/Pet.java:46 | a new pet is unsaved, has no name, birth date or type, and starts with an empty visit collection |
| Pets.SetBirthDate | spring-petclinic/src/main/java/org/springframework/samples/petclinic/owner/Pet.java:49-56 | `getBirthDate` returns what `setBirthDate` stored; id, name, type and visits are untouched |
| Pets.SetType | spring-petclinic/src/main/java/org/springframework/samples/petclinic/owner/Pet.java:59-66 | `getType` returns what `setType` stored; id, name, birth date and visits are untouched |
| Pets.AddToVisits | spring-petclinic/src/main/java/org/springframework/samples/petclinic/owner/Pet.java:46 | insertion into a linked hash set by identity: the visit is held afterwards; the held identities grow by exactly its `ref`; an absent object is appended at the end, a present one keeps the size; entries of other objects are untouched; no object is held twice; re-adding a held visit changes nothing |
| Pets.AddVisit | spring-petclinic/src/main/java/org/springframework/samples/petclinic/owner/Pet.java:74-76 | after `addVisit(v)`, `v` is among the visits, every visit held before is still held, and id, name, birth date and type are unchanged |
| Pets.AddVisitIsSetInsertion | spring-petclinic/src/main/java/org/springframework/samples/petclinic/owner/Pet.java:74-76 | re-adding a held visit leaves the pet unchanged; adding a visit object not held grows the collection by exactly one; set semantics are preserved |
| Pets.FreshRef | spring-petclinic/src/main/java/org/springframework/samples/petclinic/owner/VisitController.java:54 | a newly constructed visit object is distinct from every visit the pet holds |
| Owners.AddPet | spring-petclinic/src/main/java/org/springframework/samples/petclinic/owner/Owner.java:97-101 | an unsaved pet is appended at the end; a pet with an id leaves the list unchanged; no other owner field changes |
| Owners.AddPetKeepsSavedLookups | spring-petclinic/src/main/java/org/springframework/samples/petclinic/owner/Owner.java:97-134 | after `addPet`, lookup by id and by name with `ignoreNew` find exactly what they found before |
| Owners.GetPetById | spring-petclinic/src/main/java/org/springframework/samples/petclinic/owner/Owner.java:110-120 | the result is the first pet in list order whose non-null id equals `id`; null iff no pet has that id; an unsaved pet is never returned |
| Owners.GetPetByName | spring-petclinic/src/main/java/org/springframework/samples/petclinic/owner/Owner.java:123-134 | the result is the first pet whose non-null name equals `name` ignoring case and which, under `ignoreNew`, is saved; null iff there is none; with `ignoreNew` the result is never unsaved |
| Owners.GetPetNamed | spring-petclinic/src/main/java/org/springframework/samples/petclinic/owner/Owner.java:105-107 | `getPet(name)` is `getPet(name, false)`: null iff no pet, saved or not, carries the name ignoring case |
| Owners.IgnoreNewDecidesUnsavedMatches | spring-petclinic/src/main/java/org/springframework/samples/petclinic/owner/Owner.java:128 | an unsaved pet is found by name when `ignoreNew` is false and not found when it is true |
| Owners.AddVisit | spring-petclinic/src/main/java/org/springframework/samples/petclinic/owner/Owner.java:150-160 | fails with the matching message when `petId` is null, when `visit` is null, or when no saved pet has the id, and then produces no owner; otherwise only the first pet with the id changes, by `Pet.addVisit`; the list length and all other owner fields are unchanged |
| Owners.AddVisitThenLookup | spring-petclinic/src/main/java/org/springframework/samples/petclinic/owner/Owner.java:150-160 | after a successful `addVisit`, the pet found under `petId` holds the visit, and lookups of every other id are unchanged |
| Repository.FindById | spring-petclinic/src/main/java/org/springframework/samples/petclinic/owner/OwnerRepository.java:28-30 | the stored owner with that id, null iff none is stored |
| Repository.Save | spring-petclinic/src/main/java/org/springframework/samples/petclinic/owner/OwnerRepository.java:34 | an upsert: an owner whose id is stored replaces the first row with that id, in place, and the next generated id is kept; any other owner is appended under the next generated id, which then advances; the saved owner is the given one with its id set |
| Repository.SaveThenFind | spring-petclinic/src/main/java/org/springframework/samples/petclinic/owner/OwnerRepository.java:34 | saving keeps ids present and unique; afterwards `findById` of the saved id returns the saved owner, and every other id finds what it found before |
| Repository.UpdateThenFind | spring-petclinic/src/main/java/org/springframework/samples/petclinic/owner/OwnerRepository.java:34 | saving an owner whose id is stored keeps the store valid, the id then finds that owner, and every other id finds what it found before |
| Repository.InsertThenFind | spring-petclinic/src/main/java/org/springframework/samples/petclinic/owner/OwnerRepository.java:34 | saving any other owner keeps the store valid, the next generated id then finds the saved owner, and every other id finds what it found before |
| PetValidator.Validate | spring-petclinic/src/main/java/org/springframework/samples/petclinic/owner/PetValidator.java:16-39 | at most three errors, all with code and message "required", in the order name, type, birthDate; name required iff the name is null or whitespace-only; type required iff the pet is unsaved and typeless; birthDate required iff it is null |
| PetValidator.ValidateAcceptsExactly | spring-petclinic/src/main/java/org/springframework/samples/petclinic/owner/PetValidator.java:16-39 | no errors iff the name has text, and the pet has an id or a type, and it has a birth date |
| PetValidator.ValidateIgnoresBirthDateValue | spring-petclinic/src/main/java/org/springframework/samples/petclinic/owner/PetValidator.java:35-38 | the validator never looks at the birth date's value, so a future date passes |
| PetController.BirthDateErrors | spring-petclinic/src/main/java/org/springframework/samples/petclinic/owner/PetController.java:108-112 | a `typeMismatch.birthDate` error iff the birth date is strictly after today; today itself is accepted |
| PetController.FindOwner | spring-petclinic/src/main/java/org/springframework/samples/petclinic/owner/PetController.java:47-54 | the stored owner with the path id, or the "Owner ID not found" invalid-argument failure iff there is none |
| PetController.FindPet | spring-petclinic/src/main/java/org/springframework/samples/petclinic/owner/PetController.java:58-72 | without a `petId`, a fresh unsaved pet with no visits; with one, the invalid-argument failure iff the owner is missing, otherwise the owner's pet with that id, which is null iff the owner has no such pet |
| PetController.CreationDuplicateErrors | spring-petclinic/src/main/java/org/springframework/samples/petclinic/owner/PetController.java:104-106 | a "duplicate" error on `name` iff the name has text, the pet is unsaved, and a saved pet of the owner has the same name ignoring case |
| PetController.ProcessCreationForm | spring-petclinic/src/main/java/org/springframework/samples/petclinic/owner/PetController.java:101-127 | the errors are the prior ones, then the duplicate error, then the date error; the pet joins the owner's list whatever the errors; any error shows the pet form and leaves the store unchanged; otherwise the owner is saved and the result redirects to `/owners/{ownerId}` |
| PetController.UpdateDuplicateErrors | spring-petclinic/src/main/java/org/springframework/samples/petclinic/owner/PetController.java:145-153 | a "duplicate" error iff the name has text and the first pet of the owner (saved or not) whose name matches ignoring case has an id different from the edited pet's |
| PetController.ProcessUpdateForm | spring-petclinic/src/main/java/org/springframework/samples/petclinic/owner/PetController.java:142-172 | the owner's pet `petId` is loaded and the form bound onto it; a pet the owner does not hold is null and fails with a null dereference at `getName`; otherwise the checks run on the owner that already shows the edit, the errors are the prior ones, then the duplicate error, then the date error; any error shows the pet form with that owner and leaves the store unchanged; otherwise `addPet` leaves that owner as it is, it is saved, it finds the edited pet under `petId`, and the result redirects to `/owners/{ownerId}` |
| PetController.EditedOwner | spring-petclinic/src/main/java/org/springframework/samples/petclinic/owner/PetController.java:58-71 | the pet `findPet` loads is the owner's own object, so after binding the owner's first pet with the edited pet's id is the edited pet and lookup by that id finds it; a pet the owner does not hold leaves the owner unchanged |
| PetController.OtherPetNamedErrors | spring-petclinic/src/main/java/org/springframework/samples/petclinic/owner/PetController.java:148-152 | the intended duplicate rule: an error iff the name has text and a pet of the owner with another id carries it ignoring case |
| PetController.ProcessUpdateFormCorrected | spring-petclinic/src/main/java/org/springframework/samples/petclinic/owner/PetController.java:142-172 | the update handler with the intended duplicate rule, otherwise the same null dereference, error order, form, save and redirect |
| PetController.CorrectedUpdateRejectsExactlyRenamesOntoOthers | spring-petclinic/src/main/java/org/springframework/samples/petclinic/owner/PetController.java:145-153 | with the intended rule, editing a pet the owner holds is refused as a duplicate iff another pet of the loaded owner carries the submitted name, whatever the order of the pets |
| PetController.RenameOntoLaterPetIsAccepted | spring-petclinic/src/main/java/org/springframework/samples/petclinic/owner/PetController.java:145-153 | as written, renaming pet 1 "leo" to "max" is accepted when the owner's list is [leo, max] and refused when it is [max, leo] |
| PetController.CorrectedRefusesRenameInEitherOrder | spring-petclinic/src/main/java/org/springframework/samples/petclinic/owner/PetController.java:145-153 | with the intended rule the same rename is refused for both orders |
| PetController.UpdateDuplicateWhenNamesUnique | spring-petclinic/src/main/java/org/springframework/samples/petclinic/owner/PetController.java:145-153 | for an owner whose pet names are distinct ignoring case, the first-match rule reports a duplicate iff a pet with another id carries the name, and equals the intended rule; the owner an update checks already shows the new name, so when the loaded owner's names are distinct this premise fails exactly when the rename collides with another pet's name |
| PetController.CreationKeepsNamesUnique | spring-petclinic/src/main/java/org/springframework/samples/petclinic/owner/PetController.java:101-126 | a creation that passes validation and the controller rules keeps the pet names of an all-saved owner distinct ignoring case |
| VisitController.NewVisit | spring-petclinic/src/main/java/org/springframework/samples/petclinic/owner/Visit.java:33-35 | a new visit is dated today, has no id and no description |
| VisitController.LoadPetWithVisit | spring-petclinic/src/main/java/org/springframework/samples/petclinic/owner/VisitController.java:41-59 | fails, before any change, iff the owner or its saved pet with `petId` is missing; otherwise creates a fresh visit dated today and adds it to that pet exactly as `Owner.addVisit` would |
| VisitController.ProcessNewVisitForm | spring-petclinic/src/main/java/org/springframework/samples/petclinic/owner/VisitController.java:70-89 | a validation error returns the visit form and nothing is saved; otherwise `owner.addVisit(petId, visit)` runs (failing when the pet is missing), the owner is saved, and the result redirects to `/owners/{ownerId}` |
| VisitController.BookVisit | spring-petclinic/src/main/java/org/springframework/samples/petclinic/owner/VisitController.java:41-89 | one booking request fails, with the null dereference of loading, iff the owner or its pet is missing; otherwise the owner in memory is the stored owner with the bound visit added once: with errors it comes back with the visit form and the store unchanged, without errors it is saved and the result redirects to `/owners/{ownerId}` |
| VisitController.BookingAddsVisitOnce | spring-petclinic/src/main/java/org/springframework/samples/petclinic/owner/VisitController.java:55-79 | the visit is added twice (while loading and via `Owner.addVisit`) yet the booked pet's visits become its previous visits plus the bound visit, held exactly once; no other pet changes |
| VisitController.AddSameVisitTwice | spring-petclinic/src/main/java/org/springframework/samples/petclinic/owner/Owner.java:155-159 | calling `Owner.addVisit` with a visit object the pet does not hold, then with the same object again, changes only that pet, leaves the object once at the end of its visits with the later field values, and equals adding the later state once |
| VisitController.BindingLoadedVisit | spring-petclinic/src/main/java/org/springframework/samples/petclinic/owner/VisitController.java:54-79 | adding the new visit while loading, binding it, and adding it again through `Owner.addVisit` leaves the owner as adding the bound visit once would, and a further add of it changes nothing |
| VisitController.AddingBoundVisitAgain | spring-petclinic/src/main/java/org/springframework/samples/petclinic/owner/Owner.java:155-159 | after adding a visit object, adding it again in the same state returns the owner unchanged |
| Pets.AddingHeldObjectAgainKeepsOneEntry | spring-petclinic/src/main/java/org/springframework/samples/petclinic/owner/Pet.java:74-76 | adding a visit object not held and then the same object again yields the old visits plus the object in its later state, held exactly once: the same as adding the later state alone, and adding that state again changes nothing |
| OwnerController.RequestFor | spring-petclinic/src/main/java/org/springframework/samples/petclinic/owner/OwnerController.java:121-125 | page `p >= 1` requests zero-based page `p-1` of size 5; `p-1` is computed in 32-bit `int`, so the smallest `int` wraps to the largest index; any other `p <= 0` is a negative index and is refused |
| OwnerController.ProcessFindForm | spring-petclinic/src/main/java/org/springframework/samples/petclinic/owner/OwnerController.java:85-117 | a null last name becomes "" (the prefix of every name); a page without content rejects `lastName` with "notFound" and shows the find form, whatever the total; otherwise a total of exactly 1 redirects to that owner; otherwise the list view gets `currentPage = p`, the totals and the page content |
| OwnerController.FindFormOutcomes | spring-petclinic/src/main/java/org/springframework/samples/petclinic/owner/OwnerController.java:94-106 | once the page request is accepted the search never fails; the find form and the one error come back iff the page is empty; a redirect, to the page's first owner, happens iff the page has content and the total is 1; the list is shown iff the page has content and the total is not 1 |
| OwnerController.FindOwner | spring-petclinic/src/main/java/org/springframework/samples/petclinic/owner/OwnerController.java:50-53 | without a path id, a new owner with no id and no pets; with one, the stored owner with that id, null iff there is none |
| OwnerController.ProcessCreationForm | spring-petclinic/src/main/java/org/springframework/samples/petclinic/owner/OwnerController.java:65-75 | errors show the owner form and leave owner and store unchanged; otherwise the store and the owner afterwards are exactly what `save` returns, a new owner is appended under the next generated id, the result redirects to `/owners/{id}`, and that id finds the saved owner |
| OwnerController.ProcessUpdateOwnerForm | spring-petclinic/src/main/java/org/springframework/samples/petclinic/owner/OwnerController.java:137-148 | the owner of the path is loaded and the form bound onto it; a missing owner fails with a null dereference (no error can be recorded on a null target); otherwise errors show the owner form with the bound owner and leave the store unchanged, and without errors the id is set to the path `ownerId`, the stored row is replaced in place (same size, same next id), the result redirects to `/owners/{ownerId}`, and for a valid store that id then finds the updated owner |
| Vets.NewVet | spring-petclinic/src/main/java/org/springframework/samples/petclinic/vet/Vet.java:36-42 | a new vet's specialty set is not created yet and counts zero specialties |
| Vets.Specialties | spring-petclinic/src/main/java/org/springframework/samples/petclinic/vet/Vet.java:36-42 | the specialty set, read as empty while it is still null |
| Vets.NrOfSpecialties | spring-petclinic/src/main/java/org/springframework/samples/petclinic/vet/Vet.java:61-63 | the number of specialties, zero iff the set is empty, and zero while it is still null |
| Vets.AddSpecialty | spring-petclinic/src/main/java/org/springframework/samples/petclinic/vet/Vet.java:66-68 | `HashSet.add` by identity: the object is held afterwards in its current state, entries of other objects stay, the held identities grow by exactly its `ref`; with at most one entry per object, adding a held object keeps the count and any other raises it by one; the vet's other fields are unchanged |
| Vets.InsertByName | spring-petclinic/src/main/java/org/springframework/samples/petclinic/vet/Vet.java:55 | inserting into a list sorted by name ignoring case keeps it sorted and adds exactly that element |
| Vets.GetSpecialties | spring-petclinic/src/main/java/org/springframework/samples/petclinic/vet/Vet.java:52-58 | the list holds exactly the set's elements, each once; its length is `getNrOfSpecialties`; it is ascending by lower-cased name; the vet is a value, so its set is not modified |
| Vets.NewVetHasNoSpecialties | spring-petclinic/src/main/java/org/springframework/samples/petclinic/vet/Vet.java:36-58 | the specialty list of a new vet is empty |
| PetTypeFormatter.Parse | spring-petclinic/src/main/java/org/springframework/samples/petclinic/owner/PetTypeFormatter.java:34-47 | the first type in the supplied list whose name equals the text exactly; a "type not found" parse failure iff no name matches |
| PetTypeFormatter.Print | spring-petclinic/src/main/java/org/springframework/samples/petclinic/owner/PetTypeFormatter.java:27-30 | a type prints as its name, which parses back to that type against the list holding only it |
| PetTypeFormatter.ParsePrintRoundTrip | spring-petclinic/src/main/java/org/springframework/samples/petclinic/owner/PetTypeFormatter.java:27-44 | for a type in the list, parsing its printed name succeeds with a type of the same name, and yields the type itself when names are distinct |
| PetTypeFormatter.ParseIsCaseSensitive | spring-petclinic/src/main/java/org/springframework/samples/petclinic/owner/PetTypeFormatter.java:40 | a text that differs from a known type's name only in case never parses to that type, and is refused when no type carries it exactly |
| PetTypeFormatter.CapitalisedNameIsRefused | spring-petclinic/src/main/java/org/springframework/samples/petclinic/owner/PetTypeFormatter.java:40 | "Cat" does not parse against the single type "cat" |
| Text.EqualsIgnoreCaseIsLowerEquality | spring-petclinic/src/main/java/org/springframework/samples/petclinic/owner/Owner.java:124-127 | comparing ignoring case is comparing lower-cased forms, so lower-casing the searched name first, as `getPet` does, changes no match |

## Left out

- Persistence mapping: the JPA annotations, cascades and `@OrderBy` load orders are not modelled. Saving an owner does not assign identities to its new pets or visits. The pet list and visit set keep the in-memory order.
- Repository.Save: an owner whose id is not stored is modelled as inserted under a newly generated id. The real result depends on the persistence provider's merge, which is not part of this model.
- The repository queries (`findByLastName`'s `LIKE :lastName%`, `DISTINCT` and the page counts, and `findPetTypes`' ordering) run in the database. The page and the type list are inputs.
- OwnerController.RequestFor: the refusal of a negative page index comes from `PageRequest.of` in Spring Data, which is not part of this model. It is modelled as an invalid-argument failure.
- The vets cache, `VetController`, the `Vets` wrapper, `CrashController`, `WelcomeController` and the application classes are left out. They forward repository results or configure the framework.
- The GET handlers that only render a form (`initCreationForm`, `initUpdateForm`, `initFindForm`, `initNewVisitForm`, `initUpdateOwnerForm`, `showOwner`) are left out. `populatePetTypes` is left out too. PetController's `initCreationForm` also appends a new pet in memory and never saves it.
- Declarative Bean Validation (`@NotBlank`, `@Digits`) and data binding run in the framework. Their errors arrive as the `prior` list given to each handler.
- VisitController.Bind, PetController.BindPet, OwnerController.BindOwner: binding is taken to overwrite every submitted field and never the identity. A field the request does not submit would keep its value in the framework.
- `LocalDate.now()` is the `today` parameter. Dates are whole days.
- Case folding is ASCII only (`A`–`Z`). Java's `toLowerCase` and `equalsIgnoreCase` also fold other Unicode letters. String order is by character code, which is also UTF-16 order for characters of the Basic Multilingual Plane.
- PetController.ProcessUpdateForm: takes the loaded owner, the pet id and the submitted fields as inputs. That binding edits the owner's own pet rests on the store handing `findOwner` and `findPet` the same managed owner within one request, which is modelled by `EditedOwner` and not derived. The duplicate check therefore sees the new name already in the owner's list, and the owner saved on success carries the edit because it already held the pet, not because `addPet` adds it.
- PetController.UpdateDuplicateErrors: the source compares the two boxed `Integer` ids with `!=`, which compares references. The model compares values. The two agree when both ids are the same object, or are equal values inside Java's small-integer cache (−128..127).
- PetType and Specialty names are taken to be non-null. A null type name would make `parse` throw a null dereference.
- Vets.GetSpecialties: ties between names equal ignoring case come out in an unspecified order, as in the source (a hash set copied and then stably sorted). A null specialty name is not modelled.
- Flash messages and view templates are not modelled. Each view is named by a constructor, with its template name in a comment.

## Findings

| source | as written | input that shows it | evidently intended | confidence | as-written member | corrected member |
|---|---|---|---|---|---|---|
| spring-petclinic/src/main/java/org/springframework/samples/petclinic/owner/PetController.java:148-152 | the duplicate check asks for the first pet named like the submission, and the owner's list already holds the edited pet under its new name, so a rename is refused only when another pet with that name comes earlier in the list | pets [leo (id 1), max (id 2)] and pet 1 renamed to "max": accepted; pets [max, leo]: refused. Loaded in name order, a pet can take the name of any pet whose name sorts after its own | refuse whenever a pet with another id carries the submitted name | medium, not executed; rests on `findOwner` and `findPet` sharing one managed owner | PetController.RenameOntoLaterPetIsAccepted | PetController.ProcessUpdateFormCorrected |
