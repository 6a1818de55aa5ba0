/** The behaviour of a single pet (Pet.java): its accessors and its visit set. */
module Pets {
  import opened Wrappers
  import opened Entities
  import Seqs

  /** `new Pet()`: unsaved, every field null, no visits. */
  function NewPet(): (p: Pet)
    ensures IsNewPet(p)
    ensures p.name.None? && p.birthDate.None? && p.petType.None?
    ensures p.visits == []
  {
    Pet(None, None, None, None, [])
  }

  /** `setBirthDate`: the getter returns the stored value afterwards, nothing else changes. */
  function SetBirthDate(p: Pet, d: Option<Date>): (r: Pet)
    ensures r.birthDate == d
    ensures r.id == p.id && r.name == p.name && r.petType == p.petType && r.visits == p.visits
  {
    p.(birthDate := d)
  }

  /** `setType`: the getter returns the stored value afterwards, nothing else changes. */
  function SetType(p: Pet, t: Option<PetType>): (r: Pet)
    ensures r.petType == t
    ensures r.id == p.id && r.name == p.name && r.birthDate == p.birthDate && r.visits == p.visits
  {
    p.(petType := t)
  }

  /** The identities of the visit objects held. */
  ghost function Refs(vs: seq<Visit>): set<nat> {
    set i | 0 <= i < |vs| :: vs[i].ref
  }

  /** Set semantics: no visit object is held twice. */
  ghost predicate UniqueRefs(vs: seq<Visit>) {
    forall i, j :: 0 <= i < j < |vs| ==> vs[i].ref != vs[j].ref
  }

  /** How many entries hold the visit object `ref`. */
  function CountRef(vs: seq<Visit>, ref: nat): (n: nat)
    ensures n <= |vs|
    ensures n == 0 <==> forall i :: 0 <= i < |vs| ==> vs[i].ref != ref
  {
    if |vs| == 0 then 0
    else (if vs[0].ref == ref then 1 else 0) + CountRef(vs[1..], ref)
  }

  /** `LinkedHashSet.add` on reference identity. Adding an object already held
      keeps its position (and the entry is that object, so it shows its current
      state `v`); adding a new object appends it. */
  function AddToVisits(vs: seq<Visit>, v: Visit): (r: seq<Visit>)
    ensures v in r
    ensures Refs(r) == Refs(vs) + {v.ref}
    ensures v.ref in Refs(vs) ==> |r| == |vs|
    ensures v.ref !in Refs(vs) ==> r == vs + [v]
    ensures forall i :: 0 <= i < |vs| && vs[i].ref != v.ref ==> r[i] == vs[i]
    ensures UniqueRefs(vs) ==> UniqueRefs(r)
    ensures UniqueRefs(vs) && v in vs ==> r == vs
  {
    match Seqs.FirstIndex(vs, (w: Visit) => w.ref == v.ref)
    case None =>
      var r := vs + [v];
      assert r[|vs|] == v;
      assert forall x :: x in Refs(r) ==> x in Refs(vs) || x == v.ref by {
        forall x | x in Refs(r) ensures x in Refs(vs) || x == v.ref {
          var k :| 0 <= k < |r| && r[k].ref == x;
          if k < |vs| { assert vs[k] == r[k]; }
        }
      }
      assert forall x :: x in Refs(vs) ==> x in Refs(r) by {
        forall x | x in Refs(vs) ensures x in Refs(r) {
          var k :| 0 <= k < |vs| && vs[k].ref == x;
          assert r[k] == vs[k];
        }
      }
      r
    case Some(i) =>
      var r := vs[i := v];
      assert r[i] == v;
      assert forall x :: x in Refs(r) ==> x in Refs(vs) by {
        forall x | x in Refs(r) ensures x in Refs(vs) {
          var k :| 0 <= k < |r| && r[k].ref == x;
          assert r[k].ref == vs[k].ref;
        }
      }
      assert forall x :: x in Refs(vs) ==> x in Refs(r) by {
        forall x | x in Refs(vs) ensures x in Refs(r) {
          var k :| 0 <= k < |vs| && vs[k].ref == x;
          assert r[k].ref == vs[k].ref;
        }
      }
      r
  }

  /** `Pet.addVisit`: the visit is held afterwards, every visit held before is
      still held, and nothing but the visit set changes. */
  function AddVisit(p: Pet, v: Visit): (r: Pet)
    ensures v in r.visits
    ensures forall w :: w in p.visits && w.ref != v.ref ==> w in r.visits
    ensures Refs(p.visits) <= Refs(r.visits)
    ensures r.id == p.id && r.name == p.name && r.birthDate == p.birthDate && r.petType == p.petType
  {
    p.(visits := AddToVisits(p.visits, v))
  }

  /** Re-adding a visit already held changes nothing; adding a visit object not
      yet held grows the set by exactly one. */
  lemma AddVisitIsSetInsertion(p: Pet, v: Visit)
    requires UniqueRefs(p.visits)
    ensures v in p.visits ==> AddVisit(p, v) == p
    ensures v.ref !in Refs(p.visits) ==> |AddVisit(p, v).visits| == |p.visits| + 1
    ensures UniqueRefs(AddVisit(p, v).visits)
  {
  }

  /** A token no visit in `vs` uses: the identity of a newly constructed visit object. */
  function FreshRef(vs: seq<Visit>): (r: nat)
    ensures r !in Refs(vs)
    ensures forall i :: 0 <= i < |vs| ==> vs[i].ref < r
  {
    if |vs| == 0 then 0
    else
      var rest := FreshRef(vs[1..]);
      assert forall i :: 1 <= i < |vs| ==> vs[i] == vs[1..][i - 1];
      if vs[0].ref < rest then rest else vs[0].ref + 1
  }

  /** Adding a visit object the collection does not hold, and then the same
      object again (showing other field values), leaves it held once, at the
      end, in its later state: exactly as if only the later state had been
      added, and adding that state once more changes nothing. */
  lemma AddingHeldObjectAgainKeepsOneEntry(vs: seq<Visit>, v: Visit, w: Visit)
    requires v.ref == w.ref
    requires forall k :: 0 <= k < |vs| ==> vs[k].ref != v.ref
    ensures AddToVisits(AddToVisits(vs, v), w) == vs + [w]
    ensures AddToVisits(vs, w) == vs + [w]
    ensures AddToVisits(vs + [w], w) == vs + [w]
    ensures CountRef(AddToVisits(AddToVisits(vs, v), w), w.ref) == 1
  {
    var once := AddToVisits(vs, v);
    assert once == vs + [v];
    assert Seqs.FirstIndex(once, (x: Visit) => x.ref == w.ref) == Some(|vs|);
    Seqs.FirstIndexIsUnique(vs + [w], (x: Visit) => x.ref == w.ref, |vs|);
    CountRefAppendFresh(vs, w);
  }

  /** Appending an object not yet held leaves exactly one entry for it. */
  lemma {:induction false} CountRefAppendFresh(vs: seq<Visit>, v: Visit)
    requires forall k :: 0 <= k < |vs| ==> vs[k].ref != v.ref
    ensures CountRef(vs + [v], v.ref) == 1
  {
    if |vs| == 0 {
    } else {
      assert (vs + [v])[1..] == vs[1..] + [v];
      CountRefAppendFresh(vs[1..], v);
    }
  }
}
