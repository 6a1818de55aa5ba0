/** The owner request handlers (OwnerController.java): creating and updating
    owners and searching them by last name, one page of five at a time. */
module OwnerController {
  import opened Wrappers
  import opened Entities
  import opened Web
  import opened Repository

  /** A Java `int`. */
  type Int32 = x: int | -0x8000_0000 <= x < 0x8000_0000

  /** Two's-complement wrap-around of an `int` computation. */
  function Wrap32(x: int): (r: Int32)
    ensures (r - x) % 0x1_0000_0000 == 0
    ensures -0x8000_0000 <= x < 0x8000_0000 ==> r == x
  {
    var m := (x + 0x8000_0000) % 0x1_0000_0000;
    m - 0x8000_0000
  }

  const PAGE_SIZE := 5
  const NOT_FOUND := "notFound"
  const NOT_FOUND_MESSAGE := "nicht gefunden"
  const NEGATIVE_PAGE_INDEX := "Page index must not be less than zero"

  /** The zero-based page index and page size handed to the repository. */
  datatype PageRequest = PageRequest(index: int, size: int)

  /** One page of search results: its content and the totals over all matches. */
  datatype Page = Page(content: seq<Owner>, totalElements: int, totalPages: int)

  /** `rejectValue("lastName", "notFound", "nicht gefunden")`. */
  function LastNameNotFound(): FieldError {
    FieldError(LastName, NOT_FOUND, Some(NOT_FOUND_MESSAGE))
  }

  /** `PageRequest.of(page - 1, 5)`: the one-based page number becomes a
      zero-based index (in `int` arithmetic, so the smallest `int` wraps to the
      largest); a negative index is refused. */
  function RequestFor(page: Int32): (r: Result<PageRequest, Failure>)
    ensures page >= 1 ==> r == Success(PageRequest(page - 1, PAGE_SIZE))
    ensures page == -0x8000_0000 ==> r == Success(PageRequest(0x7FFF_FFFF, PAGE_SIZE))
    ensures r.Failure? <==> -0x8000_0000 < page <= 0
    ensures r.Failure? ==> r.error == IllegalArgument(NEGATIVE_PAGE_INDEX)
  {
    var index := Wrap32(page - 1);
    if index < 0 then Failure(IllegalArgument(NEGATIVE_PAGE_INDEX))
    else Success(PageRequest(index, PAGE_SIZE))
  }

  /** The search's end: the view, the errors recorded, and the last name the
      form carries afterwards. */
  datatype SearchResponse = SearchResponse(view: View, errors: seq<FieldError>, lastName: string)

  /** `processFindForm`. A null last name becomes "", the prefix of every name.
      The repository answers one page; a page without content rejects the last
      name whatever the total (so a page past the end does too); otherwise a
      single match in total redirects to that owner; otherwise the page is listed. */
  function ProcessFindForm(page: Int32, lastName: Option<string>, search: (string, PageRequest) -> Page)
    : (r: Result<SearchResponse, Failure>)
    ensures r.Failure? <==> RequestFor(page).Failure?
    ensures r.Success? ==>
      var prefix := lastName.GetOr("");
      var results := search(prefix, RequestFor(page).value);
      && r.value.lastName == prefix
      && (results.content == [] ==> r.value.view == FindOwnersForm && r.value.errors == [LastNameNotFound()])
      && (results.content != [] && results.totalElements == 1 ==>
            r.value.view == RedirectToOwner(results.content[0].id) && r.value.errors == [])
      && (results.content != [] && results.totalElements != 1 ==>
            r.value.view == OwnersList(page, results.totalPages, results.totalElements, results.content) &&
            r.value.errors == [])
  {
    var prefix := if lastName.None? then "" else lastName.value;
    var request :- RequestFor(page);
    var results := search(prefix, request);
    if |results.content| == 0 then
      Success(SearchResponse(FindOwnersForm, [LastNameNotFound()], prefix))
    else if results.totalElements == 1 then
      Success(SearchResponse(RedirectToOwner(results.content[0].id), [], prefix))
    else
      Success(SearchResponse(OwnersList(page, results.totalPages, results.totalElements, results.content), [], prefix))
  }

  /** The three outcomes of a search, each characterised on its own: the
      find form comes back, with the one "notFound" error, exactly when the
      page is empty; the browser is redirected exactly when the page has
      content and the total is one, and then to the page's first owner; the
      list is shown exactly in the remaining case. A search never fails once
      the page request is accepted. */
  lemma FindFormOutcomes(page: Int32, lastName: Option<string>, search: (string, PageRequest) -> Page)
    requires RequestFor(page).Success?
    ensures ProcessFindForm(page, lastName, search).Success?
    ensures
      var results := search(lastName.GetOr(""), RequestFor(page).value);
      var r := ProcessFindForm(page, lastName, search).value;
      && (r.view == FindOwnersForm <==> results.content == [])
      && (r.errors != [] <==> results.content == [])
      && (r.view.RedirectToOwner? <==> results.content != [] && results.totalElements == 1)
      && (r.view.RedirectToOwner? ==> r.view.ownerId == results.content[0].id)
      && (r.view.OwnersList? <==> results.content != [] && results.totalElements != 1)
  {
  }

  /** `findOwner`: a new owner when the path names none, else the stored owner
      (null when there is none). */
  function FindOwner(s: OwnerStore, ownerId: Option<int>): (r: Option<Owner>)
    ensures ownerId.None? ==> r.Some? && r.value.id.None? && r.value.pets == []
    ensures ownerId.Some? ==> (r.Some? <==> exists i :: 0 <= i < |s.owners| && s.owners[i].id == ownerId)
    ensures ownerId.Some? && r.Some? ==> r.value.id == ownerId && r.value in s.owners
  {
    if ownerId.None? then Some(NewOwner()) else FindById(s, ownerId.value)
  }

  /** `processCreationForm`: with errors the form is shown again and nothing is
      saved; otherwise the owner is saved and the browser is sent to it under
      the identity the store gave it. */
  function ProcessCreationForm(s: OwnerStore, o: Owner, prior: seq<FieldError>): (r: Response)
    ensures prior != [] ==> r == Response(OwnerForm, prior, o, s)
    ensures prior == [] ==>
      && r.errors == []
      && r.view.RedirectToOwner? && r.view.ownerId.Some? && r.view.ownerId == r.owner.id
      && r.owner == o.(id := r.owner.id)
      && (r.store, r.owner) == Save(s, o)
      && (o.id.None? ==> r.owner.id == Some(s.nextId) && r.store.owners == s.owners + [r.owner])
      && (Valid(s) ==> Valid(r.store) && FindById(r.store, r.view.ownerId.value) == Some(r.owner))
  {
    if prior != [] then Response(OwnerForm, prior, o, s)
    else
      var (store, saved) := Save(s, o);
      assert Valid(s) ==> Valid(store) && FindById(store, saved.id.value) == Some(saved) by {
        if Valid(s) { SaveThenFind(s, o, 0); }
      }
      Response(RedirectToOwner(saved.id), [], saved, store)
  }

  /** The owner fields the edit form submits. Binding overwrites them; the
      identity is a disallowed field and the pets are not part of the form. */
  datatype OwnerFields = OwnerFields(person: Person, address: Option<string>, city: Option<string>, telephone: Option<string>)

  /** Binding the submitted fields onto the loaded owner. */
  function BindOwner(o: Owner, f: OwnerFields): (r: Owner)
    ensures r.id == o.id && r.pets == o.pets
    ensures r.person == f.person && r.address == f.address && r.city == f.city && r.telephone == f.telephone
  {
    o.(person := f.person, address := f.address, city := f.city, telephone := f.telephone)
  }

  /** `processUpdateOwnerForm`: `findOwner` loads the owner of the path and
      the form is bound onto it. A missing owner is null; binding and
      validation skip a null target, so no error is recorded and `setId`
      dereferences it. Otherwise, with errors the form is shown again and
      nothing is saved; without, the owner takes the identity of the path, is
      saved in place of its stored row, and the browser is sent to it. */
  function ProcessUpdateOwnerForm(s: OwnerStore, ownerId: int, f: OwnerFields, prior: seq<FieldError>)
    : (r: Result<Response, Failure>)
    ensures r.Failure? <==> FindById(s, ownerId).None?
    ensures r.Failure? ==> r.error == NullDereference
    ensures r.Success? ==>
      var o := BindOwner(FindById(s, ownerId).value, f);
      && (prior != [] ==> r.value == Response(OwnerForm, prior, o, s))
      && (prior == [] ==>
            && r.value.errors == [] && r.value.view == RedirectToOwner(Some(ownerId))
            && r.value.owner == o && o.id == Some(ownerId)
            && r.value.store == Save(s, o).0
            && r.value.store.nextId == s.nextId && |r.value.store.owners| == |s.owners|
            && (Valid(s) ==> Valid(r.value.store) && FindById(r.value.store, ownerId) == Some(o)))
  {
    match FindById(s, ownerId)
    case None => Failure(NullDereference)
    case Some(loaded) =>
      var o := BindOwner(loaded, f);
      if prior != [] then Success(Response(OwnerForm, prior, o, s))
      else
        var owner := o.(id := Some(ownerId));
        assert Valid(s) ==> Valid(Save(s, owner).0) && FindById(Save(s, owner).0, ownerId) == Some(owner) by {
          if Valid(s) { SaveThenFind(s, owner, 0); }
        }
        Success(Response(RedirectToOwner(Some(ownerId)), [], owner, Save(s, owner).0))
  }
}
