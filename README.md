# Roster model manager in Dafny

This project models the in-memory model layer of a desktop contact and roster
manager that also tracks students' CCAs (extracurricular activities) and their
attendance. The `ModelManager` facade owns an address book, which holds an
ordered list of persons and an ordered list of CCAs. It applies every mutation
to that address book and keeps the cross-references consistent: deleting a CCA
cascades into every person's CCA records. It also exposes the persons through a
filtered view that has a swappable predicate.

Modules, one per component:

- `Entities` (`entities.dfy`): immutable values.
  - `Cca`: identity is its name.
  - `Attendance`: attended and total session counts, as unbounded integers.
  - `CcaInformation`: a CCA, a role and an attendance.
  - `Person`: name, phone, email and address, plus a set of `CcaInformation`.
  - Two person-level rebuilds: `WithoutCca` drops one CCA's records, and
    `WithAttendance` is the reference definition of recording attendance for
    one CCA.
- `Sequences` (`sequences.dfy`): a list's first-occurrence lookup and removal,
  and `Filter`, the predicate-filtered view of a list.
- `Book` (`address_book.dfy`): class `AddressBook`, with `persons` and `ccas`
  fields. Its invariant `Valid()` says:
  - no two persons share the (name, phone, email, address) identity;
  - no two CCAs share a name;
  - each person holds at most one record per CCA.
  The real address book's duplicate and not-found exceptions are programming
  errors in the source, so they become the preconditions of these methods.
- `Manager` (`model_manager.dfy`): class `ModelManager`.
  - It has a `const addressBook` and a `var filter: Person -> bool`.
  - The view is `FilteredPersonList()`, which recomputes `Filter(persons, filter)`
    from the live list. Mutations of the list therefore show in the view without
    the predicate being set again.
  - `RemoveCcaFromAllStudents` walks the person list with a loop and writes each
    affected person back in place with `SetPerson`. It is proved equal to the
    reference cascade `WithoutCcaAll`.
  - `RecordAttendance` rebuilds the record set by removing the old record and
    adding the new one. It is proved equal to the reference `WithAttendance`.
  - The lemmas state the properties the cascade and the attendance update
    promise.
- `Scenario` (`scenario.dfy`): a client method that makes one sequence of calls
  whose results follow from the contracts alone:
  1. add a CCA;
  2. record attendance for a student who is not enrolled, which fails;
  3. enrol the student;
  4. record 3 sessions, which gives attendance (3, 10);
  5. delete the CCA, after which the student holds no record for it.

Behaviour notes, following the code:

- `recordAttendance` looks up the record before it touches the list. A person
  without a record for the CCA therefore fails with "Person does not have this
  CCA", whether or not they are in the list. The precondition of
  `RecordAttendance` only asks that the person be in the list when they do hold
  a record, because only then does the write-back need them.
- The attended count is `attended + amount`, and the model manager does not
  check it. What the session-count and attendance constructors then do with a
  negative count, or with one above the total, is not part of this model.
- `setCca` replaces the CCA in the CCA list only. Persons' records for the old
  CCA are not renamed, so `References` can stop holding after a rename. Only the
  delete path keeps it.
- `addPerson` resets the predicate to "show all" after adding. The view then
  equals the whole list, and not just the persons that the previous predicate
  accepted.

## Model

| member | source | states |
|---|---|---|
| `Entities.FindInfo` | src/main/java/seedu/address/model/ModelManager.java:160-164 | the lookup finds nothing exactly when the person holds no record for the CCA; otherwise it returns the person's single record for that CCA |
| `Entities.WithoutCca` | src/main/java/seedu/address/model/ModelManager.java:140-144 | the rebuilt person has the same identity and no record for the CCA; a record is kept exactly when it is for another CCA; a person without the CCA is returned unchanged; one-record-per-CCA is preserved |
| `Entities.WithAttendance` | src/main/java/seedu/address/model/ModelManager.java:165-173 | defines the person rebuilt by recording attendance: each record for the CCA has its attended count moved by `amount`, and every other record stays; the rebuilt person keeps the identity fields and the same set of CCAs, and a person with no record for the CCA is returned unchanged |
| `Entities.WithAttendanceEffect` | src/main/java/seedu/address/model/ModelManager.java:165-173 | after recording, the person's record for the CCA has attended = old attended + amount, with the same role and total; every record for another CCA and the identity fields are unchanged; one record per CCA still holds |
| `Entities.WithAttendanceAdditive` | src/main/java/seedu/address/model/ModelManager.java:166-167 | recording `a` then `b` for the same CCA equals recording `a + b` |
| `Entities.WithAttendanceZero` | src/main/java/seedu/address/model/ModelManager.java:166-167 | recording zero sessions leaves the person unchanged |
| `Entities.WithAttendanceUndo` | src/main/java/seedu/address/model/ModelManager.java:166-167 | a correction by an amount that cancels an earlier recording restores the person |
| `Sequences.Filter` | src/main/java/seedu/address/model/ModelManager.java:196-200 | the view holds exactly the list's elements that the predicate accepts, and is no longer than the list |
| `Sequences.FilterAppend` | src/main/java/seedu/address/model/ModelManager.java:42 | the view of a concatenation is the concatenation of the views, so the view keeps list order |
| `Sequences.FilterKeepsAll` | src/main/java/seedu/address/model/ModelManager.java:110 | under a predicate that accepts every person, the view is the whole list |
| `Sequences.FilterCount` | src/main/java/seedu/address/model/ModelManager.java:196-200 | each person appears in the view as often as in the list if accepted, and never otherwise |
| `Book.IndexOfUniquePerson` | src/main/java/seedu/address/model/ModelManager.java:139-145 | in a duplicate-free person list, the entry found by equality for the person at position k is position k, so the cascade writes back at the position it is visiting |
| `Book.UniquePersonsUpdate` | src/main/java/seedu/address/model/ModelManager.java:117 | replacing an entry with a person of the same identity, or of an identity not present, keeps the list duplicate-free |
| `Book.UniquePersonsRemove` | src/main/java/seedu/address/model/ModelManager.java:104 | removing an entry keeps the person list duplicate-free and leaves no person of the removed identity |
| `Book.UniqueCcasRemove` | src/main/java/seedu/address/model/ModelManager.java:134 | removing an entry keeps the CCA list duplicate-free and the removed CCA is gone |
| `Book.AddressBook.constructor` | src/main/java/seedu/address/model/ModelManager.java:46 | a new address book is valid and empty |
| `Book.AddressBook.ResetData` | src/main/java/seedu/address/model/ModelManager.java:88 | both lists become exactly the snapshot's lists |
| `Book.AddressBook.AddPerson` | src/main/java/seedu/address/model/ModelManager.java:109 | requires no person of the same identity; appends the person and leaves the CCAs alone |
| `Book.AddressBook.RemovePerson` | src/main/java/seedu/address/model/ModelManager.java:104 | requires the person to be present; removes its first occurrence and leaves no person of that identity |
| `Book.AddressBook.SetPerson` | src/main/java/seedu/address/model/ModelManager.java:117 | requires the target to be present and the edited person not to collide with another person; replaces the target in place and keeps the length and every other entry |
| `Book.AddressBook.AddCca` | src/main/java/seedu/address/model/ModelManager.java:128 | requires no CCA of the same name; appends it |
| `Book.AddressBook.RemoveCca` | src/main/java/seedu/address/model/ModelManager.java:134 | requires the CCA to be present; removes it, after which it is absent |
| `Book.AddressBook.SetCca` | src/main/java/seedu/address/model/ModelManager.java:154 | requires the target to be present and no name collision; replaces the target in place |
| `Manager.WithoutCcaAll` | src/main/java/seedu/address/model/ModelManager.java:138-147 | defines the person list after the deletion cascade: each person rebuilt without the CCA, in list order; the list keeps its length and no person in it holds the CCA |
| `Manager.WithoutCcaAllAt` | src/main/java/seedu/address/model/ModelManager.java:138-147 | the cascade keeps the list's length and order and rebuilds each person on their own |
| `Manager.CascadeExact` | src/main/java/seedu/address/model/ModelManager.java:138-147 | after the cascade no person holds the CCA; each person keeps their identity fields and every record for another CCA; persons who did not hold the CCA are unchanged |
| `Manager.CascadeKeepsRoster` | src/main/java/seedu/address/model/ModelManager.java:145 | the cascade keeps identities distinct and one record per CCA |
| `Manager.CascadeKeepsReferences` | src/main/java/seedu/address/model/ModelManager.java:132-148 | if every record pointed at a listed CCA before a delete, every record still does afterwards |
| `Manager.RecordAttendanceSwap` | src/main/java/seedu/address/model/ModelManager.java:168-171 | copying the record set, removing the old record and adding the new one gives the reference record set of `WithAttendance` |
| `Manager.ModelManager.constructor` | src/main/java/seedu/address/model/ModelManager.java:35-43 | copies the snapshot into a fresh address book; the view shows all persons |
| `Manager.ModelManager.SetAddressBook` | src/main/java/seedu/address/model/ModelManager.java:87-89 | the lists become exactly the snapshot's lists; the predicate is untouched |
| `Manager.ModelManager.HasPerson` | src/main/java/seedu/address/model/ModelManager.java:97-100 | true exactly when some listed person has the same identity, and in particular for every listed person; reads state only |
| `Manager.ModelManager.DeletePerson` | src/main/java/seedu/address/model/ModelManager.java:103-105 | removes only the target's first occurrence; the CCAs and the predicate are unchanged; no person of that identity is left |
| `Manager.ModelManager.AddPerson` | src/main/java/seedu/address/model/ModelManager.java:108-111 | appends the person, after which `HasPerson` holds; the predicate becomes show-all and the view equals the whole person list |
| `Manager.ModelManager.SetPerson` | src/main/java/seedu/address/model/ModelManager.java:114-118 | replaces only the target, in place, keeping length and order; the CCAs are unchanged |
| `Manager.ModelManager.HasCca` | src/main/java/seedu/address/model/ModelManager.java:121-124 | true exactly when a listed CCA has the same name; reads state only |
| `Manager.ModelManager.AddCca` | src/main/java/seedu/address/model/ModelManager.java:127-129 | appends the CCA, after which `HasCca` holds; the persons are unchanged |
| `Manager.ModelManager.DeleteCca` | src/main/java/seedu/address/model/ModelManager.java:132-136 | the CCA is no longer listed; the persons become the exact cascade of the old list, and no person holds a record for the CCA |
| `Manager.ModelManager.RemoveCcaFromAllStudents` | src/main/java/seedu/address/model/ModelManager.java:138-148 | the in-place loop leaves the person list equal to the reference cascade `WithoutCcaAll` of the old list; the CCAs are untouched |
| `Manager.ModelManager.SetCca` | src/main/java/seedu/address/model/ModelManager.java:151-155 | replaces only the target CCA, in place; the persons are unchanged |
| `Manager.ModelManager.RecordAttendance` | src/main/java/seedu/address/model/ModelManager.java:158-174 | fails with "Person does not have this CCA" and changes nothing when the person has no record for the CCA; otherwise replaces that person, at the same position, with `WithAttendance(person, cca, amount)` and leaves every other person and the CCAs untouched |
| `Manager.ModelManager.FilteredPersonList` | src/main/java/seedu/address/model/ModelManager.java:192-194 | the live view holds exactly the listed persons that the current predicate accepts |
| `Manager.ModelManager.UpdateFilteredPersonList` | src/main/java/seedu/address/model/ModelManager.java:197-200 | the predicate becomes the given one, and the view is the filter of the current person list by it |

## Left out

- User preferences, GUI settings and the data file path (`ModelManager.java:51-82`): configuration getters and setters with no logic.
- Logging (`ModelManager.java:26`, `ModelManager.java:38`): observability only.
- Null checks (`requireNonNull`, `requireAllNonNull`): Dafny values cannot be null.
- JavaFX change notification: the `FilteredList` and `ObservableList` listener machinery is not modelled. The view is a function of the person list and the predicate, recomputed on each read.
- `getCcaList` (`ModelManager.java:183-185`): it returns the CCA list itself, which is the `addressBook.ccas` field.
- `equals` (`ModelManager.java:202-217`): structural equality used by tests.
- `src/main/java/seedu/address/logic/parser/AddCcaToStudentCommandParser.java`: a thin wrapper over an argument tokenizer and index and name parsers. None of those are part of this model.
- The internals of `AddressBook`, `UniquePersonList` and the CCA list are not part of this model. The `Book.AddressBook` methods carry their behaviour as contracts, with minimal bodies.
- Entities.Recorded, Entities.WithAttendance and Manager.ModelManager.RecordAttendance: the source adds `amount` to the attended count as a 32-bit `int`, which wraps around past 2^31-1 (for example 2147483647 + 1 gives -2147483648). The model adds unbounded integers, so it does not capture that wrap-around.
- `Cca` is reduced to its name. Any other fields of the real CCA class are not part of this model. As a result, the full equality that the cascade uses (`ModelManager.java:140`, `ModelManager.java:142`) is the same test as name equality here. `SetCca` with a target of the same name can therefore only replace the CCA with an equal value.
- Field validation in the entity constructors (name formats, `SessionCount` checks) is not part of this model. Attendance counts are plain integers, with no clamping and no rejection.
- Person equality is modelled as structural value equality over all fields and the record set. The identity predicates compare the four identity fields (persons) or the name (CCAs).
- The cascade in `removeCcaFromAllStudents` iterates the live list while writing into it. The model uses an index loop over the same list, which visits the same positions, because writing back with `setPerson` never changes the list's length.
