/** A vet's specialties (Vet.java): a set of specialty objects, created empty
    on first use, counted, and listed sorted by name ignoring case. */
module Vets {
  import opened Wrappers
  import opened Entities
  import opened Text

  /** `new Vet()`: the specialty set has not been created yet. */
  function NewVet(): (v: Vet)
    ensures v.specialties.None? && v.id.None?
    ensures NrOfSpecialties(v) == 0
  {
    Vet(None, Person(None, None), None)
  }

  /** `getSpecialtiesInternal`: the set, an empty one while it is still null. */
  function Specialties(v: Vet): (r: set<Specialty>)
    ensures v.specialties.None? ==> r == {}
    ensures v.specialties.Some? ==> r == v.specialties.value
  {
    v.specialties.GetOr({})
  }

  /** `getNrOfSpecialties`: the size of the set; zero exactly when the vet has
      no specialty, in particular while the set is still null. */
  function NrOfSpecialties(v: Vet): (n: nat)
    ensures n == 0 <==> Specialties(v) == {}
    ensures v.specialties.None? ==> n == 0
  {
    |Specialties(v)|
  }

  /** The identities of the specialty objects held. */
  ghost function Refs(specs: set<Specialty>): set<nat> {
    set x | x in specs :: x.ref
  }

  /** Set semantics: each specialty object is held once, in one state. */
  ghost predicate UniqueRefs(specs: set<Specialty>) {
    forall x, y :: x in specs && y in specs && x.ref == y.ref ==> x == y
  }

  /** The held specialties other than the object `ref`. */
  function OtherThan(specs: set<Specialty>, ref: nat): set<Specialty> {
    set x | x in specs && x.ref != ref
  }

  /** `addSpecialty`: `HashSet.add` on object identity (Specialty does not
      override `equals`). The object is held afterwards, in its current state;
      other objects stay. An object already held leaves the count unchanged,
      any other raises it by one; the vet's other fields do not change. */
  function AddSpecialty(v: Vet, s: Specialty): (r: Vet)
    ensures forall x :: x in Specialties(r) <==> x == s || (x in Specialties(v) && x.ref != s.ref)
    ensures Refs(Specialties(r)) == Refs(Specialties(v)) + {s.ref}
    ensures UniqueRefs(Specialties(v)) ==> UniqueRefs(Specialties(r))
    ensures UniqueRefs(Specialties(v)) && s.ref in Refs(Specialties(v)) ==> NrOfSpecialties(r) == NrOfSpecialties(v)
    ensures s.ref !in Refs(Specialties(v)) ==> NrOfSpecialties(r) == NrOfSpecialties(v) + 1
    ensures r.id == v.id && r.person == v.person
  {
    var held := Specialties(v);
    var others := OtherThan(held, s.ref);
    assert s.ref !in Refs(held) ==> others == held;
    assert UniqueRefs(held) && s.ref in Refs(held) ==> |others + {s}| == |held| by {
      if UniqueRefs(held) && s.ref in Refs(held) {
        var y :| y in held && y.ref == s.ref;
        assert others == held - {y};
      }
    }
    v.(specialties := Some(others + {s}))
  }

  /** The sort key: the name, lower-cased. */
  function Key(s: Specialty): string {
    Lower(s.name)
  }

  /** Ascending by name, ignoring case. */
  ghost predicate SortedByName(r: seq<Specialty>) {
    forall i, j :: 0 <= i < j < |r| ==> LexLe(Key(r[i]), Key(r[j]))
  }

  /** Inserts `x` before the first element whose key is not below `x`'s,
      keeping the list sorted. */
  function InsertByName(r: seq<Specialty>, x: Specialty): (t: seq<Specialty>)
    requires SortedByName(r)
    ensures SortedByName(t)
    ensures multiset(t) == multiset(r) + multiset{x}
  {
    if |r| == 0 then [x]
    else if LexLe(Key(x), Key(r[0])) then
      assert forall j :: 0 <= j < |r| ==> LexLe(Key(x), Key(r[j])) by {
        forall j | 1 <= j < |r| ensures LexLe(Key(x), Key(r[j])) {
          LexLeTransitive(Key(x), Key(r[0]), Key(r[j]));
        }
      }
      ConsSorted(x, r);
      assert r == [r[0]] + r[1..];
      [x] + r
    else
      LexLeTotal(Key(x), Key(r[0]));
      var rest := InsertByName(r[1..], x);
      assert r == [r[0]] + r[1..];
      HeadBelowInserted(r, x, rest);
      ConsSorted(r[0], rest);
      [r[0]] + rest
  }

  /** An element whose key is below every key of a sorted list can lead it. */
  lemma ConsSorted(y: Specialty, r: seq<Specialty>)
    requires SortedByName(r)
    requires forall j :: 0 <= j < |r| ==> LexLe(Key(y), Key(r[j]))
    ensures SortedByName([y] + r)
  {
    forall i, j | 0 <= i < j < |[y] + r| ensures LexLe(Key(([y] + r)[i]), Key(([y] + r)[j])) {
      if i > 0 {
        assert ([y] + r)[i] == r[i - 1] && ([y] + r)[j] == r[j - 1];
      } else {
        assert ([y] + r)[j] == r[j - 1];
      }
    }
  }

  /** The head of a sorted list is below every element of its tail with `x`
      inserted, when it is below `x`. */
  lemma HeadBelowInserted(r: seq<Specialty>, x: Specialty, rest: seq<Specialty>)
    requires SortedByName(r) && |r| > 0
    requires LexLe(Key(r[0]), Key(x))
    requires multiset(rest) == multiset(r[1..]) + multiset{x}
    ensures forall j :: 0 <= j < |rest| ==> LexLe(Key(r[0]), Key(rest[j]))
  {
    forall j | 0 <= j < |rest| ensures LexLe(Key(r[0]), Key(rest[j])) {
      assert rest[j] in multiset(rest);
      if rest[j] != x {
        assert rest[j] in multiset(r[1..]);
        var k :| 0 <= k < |r[1..]| && r[1..][k] == rest[j];
        assert r[k + 1] == rest[j];
      }
    }
  }

  /** `getSpecialties`: a sorted copy of the set. The result holds exactly the
      set's objects, each once, so its length is `getNrOfSpecialties`; the vet
      itself is a value and is not changed by the sort. */
  method GetSpecialties(v: Vet) returns (r: seq<Specialty>)
    ensures multiset(r) == multiset(Specialties(v))
    ensures forall x :: x in r <==> x in Specialties(v)
    ensures |r| == NrOfSpecialties(v)
    ensures SortedByName(r)
  {
    var rest := Specialties(v);
    r := [];
    while rest != {}
      invariant rest <= Specialties(v)
      invariant multiset(r) + multiset(rest) == multiset(Specialties(v))
      invariant SortedByName(r)
      decreases |rest|
    {
      var x :| x in rest;
      assert multiset(rest) == multiset(rest - {x}) + multiset{x};
      r := InsertByName(r, x);
      rest := rest - {x};
    }
    assert |multiset(r)| == |multiset(Specialties(v))|;
    forall x ensures x in r <==> x in Specialties(v) {
      assert x in r <==> x in multiset(r);
      assert x in multiset(Specialties(v)) <==> x in Specialties(v);
    }
  }

  /** A vet that has never been given a specialty has none, and its sorted
      list is empty. */
  method NewVetHasNoSpecialties() returns (r: seq<Specialty>)
    ensures r == []
  {
    r := GetSpecialties(NewVet());
  }
}
