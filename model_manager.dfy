/** The in-memory model facade: it owns the address book, applies every
    mutation to it, keeps the cross-references between persons and CCAs
    consistent, and exposes the persons through a swappable filter. */
module Manager {
  import opened Entities
  import opened Sequences
  import opened Book

  /** The predicate that shows every person. */
  const ShowAllPersons: Person -> bool := _ => true

  /** Every CCA a person holds a record for is in the CCA list. This is the
      referential rule the CCA-deletion cascade maintains. */
  predicate References(persons: seq<Person>, ccas: seq<Cca>) {
    forall p, d | p in persons && d in CcasOf(p) :: d in ccas
  }

  /** Reference definition of the deletion cascade: every person rebuilt
      without a record for `c`, in list order. */
  function WithoutCcaAll(s: seq<Person>, c: Cca): (r: seq<Person>)
    ensures |r| == |s|
    ensures forall p | p in r :: !HoldsCca(p, c)
  {
    if s == [] then [] else [WithoutCca(s[0], c)] + WithoutCcaAll(s[1..], c)
  }

  /** The cascade keeps length and order and touches each person on its own. */
  lemma {:induction false} WithoutCcaAllAt(s: seq<Person>, c: Cca)
    ensures |WithoutCcaAll(s, c)| == |s|
    ensures forall k | 0 <= k < |s| :: WithoutCcaAll(s, c)[k] == WithoutCca(s[k], c)
  {
    if s != [] {
      WithoutCcaAllAt(s[1..], c);
      assert forall k | 1 <= k < |s| :: WithoutCcaAll(s, c)[k] == WithoutCcaAll(s[1..], c)[k - 1];
    }
  }

  /** After the cascade nobody holds a record for `c`; every person keeps
      identity fields and every record for another CCA; a person who held no
      record for `c` is unchanged. */
  lemma CascadeExact(s: seq<Person>, c: Cca)
    ensures |WithoutCcaAll(s, c)| == |s|
    ensures forall p | p in WithoutCcaAll(s, c) :: !HoldsCca(p, c)
    ensures forall k | 0 <= k < |s| ::
      && SamePerson(WithoutCcaAll(s, c)[k], s[k])
      && (!HoldsCca(s[k], c) ==> WithoutCcaAll(s, c)[k] == s[k])
      && (forall info | info in s[k].ccaInformation && info.cca != c ::
            info in WithoutCcaAll(s, c)[k].ccaInformation)
  {
  }

  /** The cascade keeps the roster valid: identities stay distinct and every
      person keeps one record per CCA. */
  lemma CascadeKeepsRoster(s: seq<Person>, c: Cca)
    requires UniquePersons(s) && AllWellFormed(s)
    ensures UniquePersons(WithoutCcaAll(s, c)) && AllWellFormed(WithoutCcaAll(s, c))
  {
    WithoutCcaAllAt(s, c);
  }

  /** Deleting a CCA and cascading keeps the referential rule: afterwards
      every record still points at a CCA in the list. */
  lemma CascadeKeepsReferences(persons: seq<Person>, ccas: seq<Cca>, c: Cca)
    requires References(persons, ccas) && c in ccas
    ensures References(WithoutCcaAll(persons, c), RemoveFirst(ccas, c))
  {
    var after := WithoutCcaAll(persons, c);
    var rest := RemoveFirst(ccas, c);
    WithoutCcaAllAt(persons, c);
    forall p, d | p in after && d in CcasOf(p) ensures d in rest {
      var k :| 0 <= k < |after| && after[k] == p;
      var info :| info in p.ccaInformation && info.cca == d;
      assert info in persons[k].ccaInformation && d != c;
      assert d in CcasOf(persons[k]);
      assert d in ccas && d in multiset(ccas);
      assert multiset(rest)[d] == multiset(ccas)[d];
      assert d in multiset(rest);
    }
  }

  /** The in-place rebuild by removal and insertion is the reference
      definition of recording attendance. */
  lemma RecordAttendanceSwap(p: Person, info: CcaInformation, amount: int)
    requires WellFormed(p) && info in p.ccaInformation
    ensures p.ccaInformation - {info} + {Recorded(info, amount)}
         == WithAttendance(p, info.cca, amount).ccaInformation
  {
  }

  class ModelManager {
    const addressBook: AddressBook
    /** The predicate of the filtered person view. */
    var filter: Person -> bool

    ghost predicate Valid()
      reads this, addressBook
    {
      addressBook.Valid()
    }

    /** Copies a snapshot into a fresh address book; the view shows all. */
    constructor (persons: seq<Person>, ccas: seq<Cca>)
      requires ValidRoster(persons, ccas)
      ensures Valid() && fresh(addressBook)
      ensures addressBook.persons == persons && addressBook.ccas == ccas
      ensures filter == ShowAllPersons
    {
      var book := new AddressBook();
      book.ResetData(persons, ccas);
      addressBook := book;
      filter := ShowAllPersons;
    }

    /** Replaces the address book's contents by a snapshot's. */
    method SetAddressBook(persons: seq<Person>, ccas: seq<Cca>)
      requires Valid() && ValidRoster(persons, ccas)
      modifies addressBook
      ensures Valid() && addressBook.persons == persons && addressBook.ccas == ccas
    {
      addressBook.ResetData(persons, ccas);
    }

    function HasPerson(p: Person): (r: bool)
      reads this, addressBook
      ensures r <==> exists q | q in addressBook.persons :: SamePerson(q, p)
      ensures p in addressBook.persons ==> r
    {
      addressBook.HasPerson(p)
    }

    method DeletePerson(target: Person)
      requires Valid() && target in addressBook.persons
      modifies addressBook
      ensures Valid() && addressBook.ccas == old(addressBook.ccas)
      ensures addressBook.persons == RemoveFirst(old(addressBook.persons), target)
      ensures !HasPerson(target)
    {
      addressBook.RemovePerson(target);
    }

    /** Appends the person and resets the view to show everyone. */
    method AddPerson(p: Person)
      requires Valid() && WellFormed(p) && !HasPerson(p)
      modifies this, addressBook
      ensures Valid() && addressBook.ccas == old(addressBook.ccas)
      ensures addressBook.persons == old(addressBook.persons) + [p]
      ensures HasPerson(p)
      ensures filter == ShowAllPersons && FilteredPersonList() == addressBook.persons
    {
      addressBook.AddPerson(p);
      UpdateFilteredPersonList(ShowAllPersons);
      FilterKeepsAll(addressBook.persons, ShowAllPersons);
    }

    method SetPerson(target: Person, edited: Person)
      requires Valid() && target in addressBook.persons && WellFormed(edited)
      requires SamePerson(target, edited) || !HasPerson(edited)
      modifies addressBook
      ensures Valid() && addressBook.ccas == old(addressBook.ccas)
      ensures addressBook.persons
           == old(addressBook.persons)[IndexOf(old(addressBook.persons), target) := edited]
    {
      addressBook.SetPerson(target, edited);
    }

    function HasCca(c: Cca): (r: bool)
      reads this, addressBook
      ensures r <==> exists d | d in addressBook.ccas :: d.name == c.name
      ensures c in addressBook.ccas ==> r
    {
      addressBook.HasCca(c)
    }

    method AddCca(c: Cca)
      requires Valid() && !HasCca(c)
      modifies addressBook
      ensures Valid() && addressBook.persons == old(addressBook.persons)
      ensures addressBook.ccas == old(addressBook.ccas) + [c]
      ensures HasCca(c)
    {
      addressBook.AddCca(c);
    }

    /** Removes the CCA, then drops every person's record for it. */
    method DeleteCca(target: Cca)
      requires Valid() && target in addressBook.ccas
      modifies addressBook
      ensures Valid()
      ensures addressBook.ccas == RemoveFirst(old(addressBook.ccas), target) && !HasCca(target)
      ensures addressBook.persons == WithoutCcaAll(old(addressBook.persons), target)
      ensures forall p | p in addressBook.persons :: !HoldsCca(p, target)
    {
      addressBook.RemoveCca(target);
      RemoveCcaFromAllStudents(target);
      CascadeExact(old(addressBook.persons), target);
    }

    /** Walks the person list and writes back, in place, every person who
        holds a record for `c`, rebuilt without it. */
    method RemoveCcaFromAllStudents(c: Cca)
      requires Valid()
      modifies addressBook
      ensures Valid() && addressBook.ccas == old(addressBook.ccas)
      ensures addressBook.persons == WithoutCcaAll(old(addressBook.persons), c)
    {
      ghost var original := addressBook.persons;
      var i := 0;
      while i < |addressBook.persons|
        invariant addressBook.Valid() && addressBook.ccas == old(addressBook.ccas)
        invariant |addressBook.persons| == |original| && i <= |original|
        invariant forall k | 0 <= k < i :: addressBook.persons[k] == WithoutCca(original[k], c)
        invariant forall k | i <= k < |original| :: addressBook.persons[k] == original[k]
      {
        var person := addressBook.persons[i];
        if HoldsCca(person, c) {
          var newInformation := set info | info in person.ccaInformation && info.cca != c;
          var newPerson := Person(person.name, person.phone, person.email, person.address, newInformation);
          assert newPerson == WithoutCca(person, c);
          IndexOfUniquePerson(addressBook.persons, i);
          addressBook.SetPerson(person, newPerson);
        }
        i := i + 1;
      }
      WithoutCcaAllAt(original, c);
    }

    method SetCca(target: Cca, edited: Cca)
      requires Valid() && target in addressBook.ccas
      requires SameCca(target, edited) || !HasCca(edited)
      modifies addressBook
      ensures Valid() && addressBook.persons == old(addressBook.persons)
      ensures addressBook.ccas == old(addressBook.ccas)[IndexOf(old(addressBook.ccas), target) := edited]
    {
      addressBook.SetCca(target, edited);
    }

    /** Moves the person's attended count for `cca` by `amount` and writes the
        rebuilt person back in place; fails, changing nothing, when the person
        has no record for `cca`. */
    method RecordAttendance(cca: Cca, person: Person, amount: int) returns (outcome: Outcome)
      requires Valid()
      requires HoldsCca(person, cca) ==> person in addressBook.persons
      modifies addressBook
      ensures Valid() && addressBook.ccas == old(addressBook.ccas)
      ensures outcome == if HoldsCca(person, cca) then Pass else Fail(MissingCcaMessage)
      ensures !HoldsCca(person, cca) ==> addressBook.persons == old(addressBook.persons)
      ensures HoldsCca(person, cca) ==>
        addressBook.persons == old(addressBook.persons)[IndexOf(old(addressBook.persons), person)
                                                        := WithAttendance(person, cca, amount)]
    {
      if !exists info | info in person.ccaInformation :: info.cca == cca {
        return Fail(MissingCcaMessage);
      }
      var ccaInformation :| ccaInformation in person.ccaInformation && ccaInformation.cca == cca;
      var attendance := ccaInformation.attendance;
      var newAttendance := Attendance(attendance.attended + amount, attendance.total);
      var newCcaInformation := CcaInformation(cca, ccaInformation.role, newAttendance);
      var newCcaInformations := person.ccaInformation - {ccaInformation} + {newCcaInformation};
      var newPerson := Person(person.name, person.phone, person.email, person.address, newCcaInformations);
      RecordAttendanceSwap(person, ccaInformation, amount);
      WithAttendanceEffect(person, cca, amount);
      addressBook.SetPerson(person, newPerson);
      outcome := Pass;
    }

    /** The live view: the persons the current filter accepts, in list order. */
    function FilteredPersonList(): (view: seq<Person>)
      reads this, addressBook
      ensures forall p | p in view :: p in addressBook.persons && filter(p)
      ensures forall p | p in addressBook.persons && filter(p) :: p in view
    {
      Filter(addressBook.persons, filter)
    }

    method UpdateFilteredPersonList(keep: Person -> bool)
      modifies this
      ensures filter == keep
      ensures FilteredPersonList() == Filter(addressBook.persons, keep)
    {
      filter := keep;
    }
  }
}
