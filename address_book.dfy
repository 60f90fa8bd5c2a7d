/** The address book the model manager owns: an ordered list of persons and
    an ordered list of CCAs, each free of duplicates by identity. Its
    operations fail fast on a duplicate add or a missing target; here those
    failures are the preconditions of the operations. */
module Book {
  import opened Entities
  import opened Sequences

  /** No two persons share the (name, phone, email, address) identity. */
  predicate UniquePersons(s: seq<Person>) {
    forall i, j | 0 <= i < j < |s| :: !SamePerson(s[i], s[j])
  }

  /** No two CCAs share a name. */
  predicate UniqueCcas(s: seq<Cca>) {
    forall i, j | 0 <= i < j < |s| :: !SameCca(s[i], s[j])
  }

  /** Every person keeps at most one record per CCA. */
  predicate AllWellFormed(s: seq<Person>) {
    forall p | p in s :: WellFormed(p)
  }

  /** The lists an address book may hold. */
  predicate ValidRoster(persons: seq<Person>, ccas: seq<Cca>) {
    UniquePersons(persons) && UniqueCcas(ccas) && AllWellFormed(persons)
  }

  /** In a duplicate-free list, an element's first occurrence is its position. */
  lemma IndexOfUniquePerson(s: seq<Person>, k: nat)
    requires UniquePersons(s) && k < |s|
    ensures IndexOf(s, s[k]) == k
  {
  }

  /** Replacing an entry by one of the same identity, or of an identity not
      yet present, keeps a person list duplicate-free. */
  lemma UniquePersonsUpdate(s: seq<Person>, k: nat, edited: Person)
    requires UniquePersons(s) && k < |s|
    requires SamePerson(s[k], edited) || forall q | q in s :: !SamePerson(q, edited)
    ensures UniquePersons(s[k := edited])
  {
    var r := s[k := edited];
    forall i, j | 0 <= i < j < |r| ensures !SamePerson(r[i], r[j]) {
      if i == k {
        assert !SamePerson(s[i], s[j]) && s[j] in s;
      } else if j == k {
        assert !SamePerson(s[i], s[j]) && s[i] in s;
      }
    }
  }

  /** Removing any element keeps a person list duplicate-free. */
  lemma UniquePersonsRemove(s: seq<Person>, k: nat)
    requires UniquePersons(s) && k < |s|
    ensures UniquePersons(s[..k] + s[k + 1..])
    ensures forall q | q in s[..k] + s[k + 1..] :: !SamePerson(q, s[k])
  {
  }

  /** Removing any element keeps a CCA list duplicate-free. */
  lemma UniqueCcasRemove(s: seq<Cca>, k: nat)
    requires UniqueCcas(s) && k < |s|
    ensures UniqueCcas(s[..k] + s[k + 1..])
    ensures s[k] !in s[..k] + s[k + 1..]
  {
  }

  class AddressBook {
    var persons: seq<Person>
    var ccas: seq<Cca>

    ghost predicate Valid()
      reads this
    {
      ValidRoster(persons, ccas)
    }

    constructor ()
      ensures Valid() && persons == [] && ccas == []
    {
      persons := [];
      ccas := [];
    }

    /** Replaces both lists wholesale by a snapshot's. */
    method ResetData(newPersons: seq<Person>, newCcas: seq<Cca>)
      requires ValidRoster(newPersons, newCcas)
      modifies this
      ensures Valid() && persons == newPersons && ccas == newCcas
    {
      persons := newPersons;
      ccas := newCcas;
    }

    /** Membership by identity, not full equality. */
    predicate HasPerson(p: Person)
      reads this
    {
      exists q | q in persons :: SamePerson(q, p)
    }

    predicate HasCca(c: Cca)
      reads this
    {
      exists d | d in ccas :: SameCca(d, c)
    }

    method AddPerson(p: Person)
      requires Valid() && WellFormed(p) && !HasPerson(p)
      modifies this
      ensures Valid() && persons == old(persons) + [p] && ccas == old(ccas)
    {
      persons := persons + [p];
    }

    /** Removes the first entry equal to `target`; by uniqueness, no entry
        of the same identity is left. */
    method RemovePerson(target: Person)
      requires Valid() && target in persons
      modifies this
      ensures Valid() && persons == RemoveFirst(old(persons), target) && ccas == old(ccas)
      ensures !HasPerson(target)
    {
      var i := IndexOf(persons, target);
      UniquePersonsRemove(persons, i);
      persons := persons[..i] + persons[i + 1..];
    }

    /** Replaces the entry equal to `target` by `edited` at the same position;
        `edited` may not collide with a different person. */
    method SetPerson(target: Person, edited: Person)
      requires Valid() && target in persons && WellFormed(edited)
      requires SamePerson(target, edited) || !HasPerson(edited)
      modifies this
      ensures Valid() && ccas == old(ccas)
      ensures persons == old(persons)[IndexOf(old(persons), target) := edited]
    {
      var i := IndexOf(persons, target);
      UniquePersonsUpdate(persons, i, edited);
      persons := persons[i := edited];
    }

    method AddCca(c: Cca)
      requires Valid() && !HasCca(c)
      modifies this
      ensures Valid() && ccas == old(ccas) + [c] && persons == old(persons)
    {
      ccas := ccas + [c];
    }

    method RemoveCca(target: Cca)
      requires Valid() && target in ccas
      modifies this
      ensures Valid() && ccas == RemoveFirst(old(ccas), target) && persons == old(persons)
      ensures target !in ccas
    {
      var i := IndexOf(ccas, target);
      UniqueCcasRemove(ccas, i);
      ccas := ccas[..i] + ccas[i + 1..];
    }

    method SetCca(target: Cca, edited: Cca)
      requires Valid() && target in ccas
      requires SameCca(target, edited) || !HasCca(edited)
      modifies this
      ensures Valid() && persons == old(persons)
      ensures ccas == old(ccas)[IndexOf(old(ccas), target) := edited]
    {
      var i := IndexOf(ccas, target);
      ccas := ccas[i := edited];
    }
  }
}
