/** What a request handler hands back: the field errors it recorded, the view
    or redirect it chose, and the exceptions it can throw. */
module Web {
  import opened Wrappers
  import opened Entities
  import opened Repository

  /** The form fields errors are recorded against. */
  datatype Field = Name | Type | BirthDate | LastName

  /** `BindingResult.rejectValue(field, code[, defaultMessage])`. */
  datatype FieldError = FieldError(field: Field, code: string, defaultMessage: Option<string>)

  /** The next page of a handler. */
  datatype View =
    | PetForm          // "pets/createOrUpdatePetForm"
    | VisitForm        // "pets/createOrUpdateVisitForm"
    | OwnerForm        // "owners/createOrUpdateOwnerForm"
    | FindOwnersForm   // "owners/findOwners"
    | OwnersList(currentPage: int, totalPages: int, totalItems: int, listOwners: seq<Owner>) // "owners/ownersList"
    | RedirectToOwner(ownerId: Option<int>) // "redirect:/owners/" + id; None is a null id

  /** Exceptions a handler lets escape. */
  datatype Failure =
    | IllegalArgument(message: string)   // IllegalArgumentException
    | OwnerIdNotFound(ownerId: int)       // IllegalArgumentException("Owner ID not found: " + ownerId)
    | NullDereference                     // NullPointerException
    | TypeNotFound(text: string)          // ParseException("type not found: " + text, 0)

  /** The end of a form submission: the chosen view, the errors recorded, the
      in-memory owner as the handler left it, and the store after the handler
      (unchanged unless the handler saved). */
  datatype Response = Response(view: View, errors: seq<FieldError>, owner: Owner, store: OwnerStore)
}
