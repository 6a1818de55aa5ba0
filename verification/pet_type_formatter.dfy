/** Converting pet types to and from their form text (PetTypeFormatter.java).
    Parsing looks the text up in the list of known types, which the repository
    delivers ordered by name. */
module PetTypeFormatter {
  import opened Wrappers
  import opened Entities
  import opened Web
  import opened Text
  import Seqs

  /** `print`: a type is shown as its name, which the single-type list parses
      back to that type. */
  function Print(t: PetType): (r: string)
    ensures Parse(r, [t]) == Success(t)
  {
    t.name
  }

  /** `parse`: the first known type whose name is exactly the text (case
      matters); a ParseException when there is none. */
  function Parse(text: string, types: seq<PetType>): (r: Result<PetType, Failure>)
    ensures r.Failure? <==> forall i :: 0 <= i < |types| ==> types[i].name != text
    ensures r.Failure? ==> r.error == TypeNotFound(text)
    ensures r.Success? ==> r.value.name == text
    ensures r.Success? ==>
      exists i :: 0 <= i < |types| && types[i] == r.value && forall j :: 0 <= j < i ==> types[j].name != text
  {
    match Seqs.FindFirst(types, (t: PetType) => t.name == text)
    case None => Failure(TypeNotFound(text))
    case Some(t) => Success(t)
  }

  /** No two known types share a name. */
  ghost predicate NamesDistinct(types: seq<PetType>) {
    forall i, j :: 0 <= i < j < |types| ==> types[i].name != types[j].name
  }

  /** Printing a known type and parsing the text back yields a type of the
      same name, and the very same type when names are distinct. */
  lemma ParsePrintRoundTrip(t: PetType, types: seq<PetType>)
    requires t in types
    ensures Parse(Print(t), types).Success?
    ensures Parse(Print(t), types).value.name == t.name
    ensures NamesDistinct(types) ==> Parse(Print(t), types).value == t
  {
  }

  /** Parsing is case-sensitive: a text that differs from a known type's name
      only in case never yields that type; it is refused unless some other
      type carries exactly that text. */
  lemma ParseIsCaseSensitive(text: string, t: PetType, types: seq<PetType>)
    requires t in types && EqualsIgnoreCase(t.name, text) && t.name != text
    ensures Parse(text, types).Success? ==> Parse(text, types).value != t
    ensures (forall i :: 0 <= i < |types| ==> types[i].name != text) ==> Parse(text, types) == Failure(TypeNotFound(text))
  {
  }

  /** For instance, "Cat" is not the type "cat". */
  lemma CapitalisedNameIsRefused()
    ensures Parse("Cat", [PetType(Some(1), "cat")]).Failure?
  {
    assert "cat"[0] != "Cat"[0];
  }
}
