/** The in-memory people list behind the `/api/people` routes: a table of
    records and a counter that hands out identifiers. Lookups and the
    filter used by delete are functions; the store itself is a class whose
    methods change the list and the counter in place. */
module People {
  import opened Wrappers

  /** A form field as it arrives in the request body: absent (`undefined`)
      or a string, possibly empty. Records keep whatever insert was given. */
  type Field = Option<string>

  datatype Person = Person(id: int, name: Field, email: Field, role: Field)

  /** The fields an update request supplies. */
  datatype Edit = Edit(name: Field, email: Field, role: Field)

  const InitialPeople: seq<Person> := [
    Person(1, Some("Ole Nordmann"), Some("ole@example.com"), Some("Utvikler")),
    Person(2, Some("Kari Hansen"), Some("kari@example.com"), Some("Designer")),
    Person(3, Some("Per Jensen"), Some("per@example.com"), Some("Produkteier"))
  ]
  const InitialNextId: int := 4

  /** The name shown in the delete toast when no record had the id. */
  const FallbackName: string := "Person"

  // ---------------------------------------------------------------------
  // Invariant of the table

  /** Identifiers strictly increase in list order (so they are unique). */
  ghost predicate IdsIncreasing(ps: seq<Person>)
  {
    forall i, j :: 0 <= i < j < |ps| ==> ps[i].id < ps[j].id
  }

  /** Every identifier in the list is below `n`, the next one to hand out. */
  ghost predicate IdsBelow(ps: seq<Person>, n: int)
  {
    forall p | p in ps :: p.id < n
  }

  // ---------------------------------------------------------------------
  // Lookup (`people.find(p => p.id === id)`)

  /** The position of the first record with identifier `id`, scanning in
      list order as `Array.prototype.find` does. */
  function IndexOf(ps: seq<Person>, id: int): (r: Option<nat>)
    ensures r.Some? ==> r.value < |ps| && ps[r.value].id == id
    ensures r.Some? ==> forall j :: 0 <= j < r.value ==> ps[j].id != id
    ensures r.None? ==> forall j :: 0 <= j < |ps| ==> ps[j].id != id
    decreases |ps|
  {
    if ps == [] then None
    else if ps[0].id == id then Some(0)
    else match IndexOf(ps[1..], id)
      case None => None
      case Some(k) => Some(k + 1)
  }

  /** The record the edit, update and delete routes look up; `None` is the
      404 "not found" answer. */
  function FindById(ps: seq<Person>, id: int): (r: Option<Person>)
    ensures r.None? <==> forall p | p in ps :: p.id != id
    ensures r.Some? ==> r.value in ps && r.value.id == id
  {
    match IndexOf(ps, id)
    case None => None
    case Some(i) => Some(ps[i])
  }

  /** In a table with increasing identifiers, looking up a record's own
      identifier finds exactly that record. */
  lemma FindOwnId(ps: seq<Person>, i: nat)
    requires IdsIncreasing(ps) && i < |ps|
    ensures FindById(ps, ps[i].id) == Some(ps[i])
  {
  }

  // ---------------------------------------------------------------------
  // Delete (`people.filter(p => p.id !== id)`)

  /** The list without any record whose identifier is `id`. */
  function Without(ps: seq<Person>, id: int): (r: seq<Person>)
    ensures forall p :: p in r <==> p in ps && p.id != id
    ensures |r| <= |ps|
    decreases |ps|
  {
    if ps == [] then []
    else if ps[0].id == id then Without(ps[1..], id)
    else [ps[0]] + Without(ps[1..], id)
  }

  /** Filtering works piece by piece, so the records kept stay in their
      original order. */
  lemma {:induction false} WithoutAppend(a: seq<Person>, b: seq<Person>, id: int)
    ensures Without(a + b, id) == Without(a, id) + Without(b, id)
    decreases |a|
  {
    if a == [] {
      assert a + b == b;
    } else {
      assert (a + b)[1..] == a[1..] + b;
      WithoutAppend(a[1..], b, id);
    }
  }

  /** Deleting an identifier that is not in the list leaves the list as it was. */
  lemma {:induction false} WithoutAbsent(ps: seq<Person>, id: int)
    requires forall p | p in ps :: p.id != id
    ensures Without(ps, id) == ps
    decreases |ps|
  {
    if ps != [] {
      assert ps[0] in ps;
      assert forall p | p in ps[1..] :: p in ps;
      WithoutAbsent(ps[1..], id);
      assert [ps[0]] + ps[1..] == ps;
    }
  }

  /** A record whose identifier is below every identifier of an increasing
      list can go in front of it. */
  lemma ConsIncreasing(p: Person, t: seq<Person>)
    requires IdsIncreasing(t)
    requires forall q | q in t :: p.id < q.id
    ensures IdsIncreasing([p] + t)
  {
    var r := [p] + t;
    forall i, j | 0 <= i < j < |r| ensures r[i].id < r[j].id {
      assert r[j] == t[j - 1] && r[j] in t;
      if i > 0 {
        assert r[i] == t[i - 1];
      }
    }
  }

  /** Deleting keeps identifiers increasing. */
  lemma {:induction false} WithoutKeepsIdsIncreasing(ps: seq<Person>, id: int)
    requires IdsIncreasing(ps)
    ensures IdsIncreasing(Without(ps, id))
    decreases |ps|
  {
    if ps != [] {
      var rest := ps[1..];
      assert IdsIncreasing(rest) by {
        forall i, j | 0 <= i < j < |rest| ensures rest[i].id < rest[j].id {
          assert rest[i] == ps[i + 1] && rest[j] == ps[j + 1];
        }
      }
      WithoutKeepsIdsIncreasing(rest, id);
      if ps[0].id != id {
        var tail := Without(rest, id);
        forall q | q in tail ensures ps[0].id < q.id {
          var j :| 0 <= j < |rest| && rest[j] == q;
          assert q == ps[j + 1];
        }
        ConsIncreasing(ps[0], tail);
      }
    }
  }

  /** Deleting the identifier that insert just handed out gives back the
      list as it was before the insert. */
  lemma InsertThenDelete(ps: seq<Person>, p: Person)
    requires IdsBelow(ps, p.id)
    ensures Without(ps + [p], p.id) == ps
  {
    WithoutAppend(ps, [p], p.id);
    WithoutAbsent(ps, p.id);
    assert Without([p], p.id) == [];
  }

  // ---------------------------------------------------------------------
  // Update (`person.field = req.body.field || person.field`)

  /** A field counts as supplied when it is present and not empty (a truthy
      string in JavaScript). */
  predicate Supplied(f: Field)
    ensures !Supplied(f) <==> f == None || f == Some("")
  {
    f.Some? && f.value != ""
  }

  /** JavaScript's `supplied || current` on a form field. */
  function OrElse(supplied: Field, current: Field): (r: Field)
    ensures r == supplied || r == current
    ensures Supplied(supplied) ==> r == supplied
    ensures !Supplied(supplied) ==> r == current
  {
    if Supplied(supplied) then supplied else current
  }

  /** The record after an update request: the identifier stays, and each
      field takes the supplied value, or keeps its own when the request
      leaves it absent or empty. */
  function Patch(p: Person, e: Edit): (q: Person)
    ensures q.id == p.id
    ensures q.name == if Supplied(e.name) then e.name else p.name
    ensures q.email == if Supplied(e.email) then e.email else p.email
    ensures q.role == if Supplied(e.role) then e.role else p.role
  {
    p.(name := OrElse(e.name, p.name),
       email := OrElse(e.email, p.email),
       role := OrElse(e.role, p.role))
  }

  /** Sending the same update twice has the effect of sending it once. */
  lemma PatchIdempotent(p: Person, e: Edit)
    ensures Patch(Patch(p, e), e) == Patch(p, e)
  {
  }

  /** An update that supplies nothing leaves the record as it was. */
  lemma PatchNothing(p: Person, e: Edit)
    requires !Supplied(e.name) && !Supplied(e.email) && !Supplied(e.role)
    ensures Patch(p, e) == p
  {
  }

  /** An update that supplies every field makes the record those fields,
      under its old identifier. */
  lemma PatchEverything(p: Person, e: Edit)
    requires Supplied(e.name) && Supplied(e.email) && Supplied(e.role)
    ensures Patch(p, e) == Person(p.id, e.name, e.email, e.role)
  {
  }

  /** Updating the record at position `i` keeps the identifiers, so the
      table invariant survives an update. */
  lemma PatchKeepsInvariant(ps: seq<Person>, i: nat, e: Edit, n: int)
    requires i < |ps| && IdsIncreasing(ps) && IdsBelow(ps, n)
    ensures IdsIncreasing(ps[i := Patch(ps[i], e)])
    ensures IdsBelow(ps[i := Patch(ps[i], e)], n)
  {
  }

  // ---------------------------------------------------------------------
  // The store

  /** The people list and the identifier counter, both changed in place by
      the insert, update and delete routes. */
  class PeopleStore {
    var people: seq<Person>
    var nextId: int

    /** Identifiers are increasing in list order and below the counter. */
    ghost predicate Valid()
      reads this
    {
      IdsIncreasing(people) && IdsBelow(people, nextId)
    }

    /** The three demo records and a counter starting at 4. */
    constructor ()
      ensures Valid()
      ensures people == InitialPeople && nextId == InitialNextId
    {
      people := InitialPeople;
      nextId := InitialNextId;
    }

    /** `POST /api/people`: the new record takes the current counter value,
        the counter moves on, and the record is appended at the end. */
    method Insert(name: Field, email: Field, role: Field) returns (p: Person)
      requires Valid()
      modifies this
      ensures Valid()
      ensures p == Person(old(nextId), name, email, role)
      ensures people == old(people) + [p]
      ensures nextId == old(nextId) + 1
      ensures FindById(people, p.id) == Some(p)
    {
      p := Person(nextId, name, email, role);
      nextId := nextId + 1;
      people := people + [p];
      FindOwnId(people, |people| - 1);
    }

    /** `PUT /api/people/:id`: `None` is the 404 answer and leaves the list
        alone; otherwise the first record with the identifier is patched in
        place and returned, and every other record is unchanged. */
    method Update(id: int, e: Edit) returns (r: Option<Person>)
      requires Valid()
      modifies this
      ensures Valid()
      ensures nextId == old(nextId)
      ensures r.None? <==> forall p | p in old(people) :: p.id != id
      ensures r.None? ==> people == old(people)
      ensures r.Some? ==>
                (exists i :: 0 <= i < |old(people)| && old(people)[i].id == id
                   && r.value == Patch(old(people)[i], e)
                   && people == old(people)[i := r.value])
      ensures r.Some? ==> FindById(people, id) == r
    {
      var found := IndexOf(people, id);
      match found {
        case None =>
          r := None;
        case Some(i) =>
          var q := Patch(people[i], e);
          PatchKeepsInvariant(people, i, e, nextId);
          people := people[i := q];
          r := Some(q);
          FindOwnId(people, i);
      }
    }

    /** `DELETE /api/people/:id`: every record with the identifier is
        dropped, the rest keep their order, and the reported name is the
        found record's name or "Person" when there was none. */
    method Delete(id: int) returns (shown: Field)
      requires Valid()
      modifies this
      ensures Valid()
      ensures nextId == old(nextId)
      ensures people == Without(old(people), id)
      ensures shown == match FindById(old(people), id)
                       case Some(p) => p.name
                       case None => Some(FallbackName)
      ensures (forall p | p in old(people) :: p.id != id) ==> people == old(people)
      ensures FindById(people, id) == None
    {
      var person := FindById(people, id);
      shown := match person
               case Some(p) => p.name
               case None => Some(FallbackName);
      if person.None? {
        WithoutAbsent(people, id);
      }
      WithoutKeepsIdsIncreasing(people, id);
      people := Without(people, id);
    }
  }
}
