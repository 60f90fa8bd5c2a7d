/** Immutable entity values of the roster: CCAs, per-CCA records, persons,
    and the two person-level rebuilds that the model manager swaps in:
    dropping one CCA's records, and recording attendance for one CCA. */
module Entities {

  datatype Option<T> = None | Some(value: T)

  /** Success or an illegal-argument failure carrying its message. */
  datatype Outcome = Pass | Fail(message: string)

  /** Message of the failure when a person has no record for the CCA. */
  const MissingCcaMessage: string := "Person does not have this CCA"

  /** A CCA; its name is its identity. */
  datatype Cca = Cca(name: string)

  /** Attended and total session counts. Neither is clamped: an update may
      push `attended` below zero or above `total`. */
  datatype Attendance = Attendance(attended: int, total: int)

  /** One person's membership of one CCA. */
  datatype CcaInformation = CcaInformation(cca: Cca, role: string, attendance: Attendance)

  /** A person: four identity fields and the set of their CCA records. */
  datatype Person = Person(name: string, phone: string, email: string, address: string,
                           ccaInformation: set<CcaInformation>)

  /** The weaker "same person" identity used for duplicate detection. */
  predicate SamePerson(a: Person, b: Person) {
    a.name == b.name && a.phone == b.phone && a.email == b.email && a.address == b.address
  }

  /** The "same CCA" identity used for duplicate detection. */
  predicate SameCca(a: Cca, b: Cca) {
    a.name == b.name
  }

  /** The CCAs a person holds a record for. */
  function CcasOf(p: Person): set<Cca> {
    set info | info in p.ccaInformation :: info.cca
  }

  predicate HoldsCca(p: Person, c: Cca) {
    c in CcasOf(p)
  }

  /** Entity invariant of a person: at most one record per CCA. */
  predicate WellFormed(p: Person) {
    forall a, b | a in p.ccaInformation && b in p.ccaInformation :: a.cca == b.cca ==> a == b
  }

  /** The person's record for `c`, if any (the first match of a filter over
      the record set, which has at most one match). */
  function FindInfo(p: Person, c: Cca): (r: Option<CcaInformation>)
    requires WellFormed(p)
    ensures r.None? <==> !HoldsCca(p, c)
    ensures r.Some? ==> r.value in p.ccaInformation && r.value.cca == c
    ensures r.Some? ==> forall info | info in p.ccaInformation && info.cca == c :: info == r.value
  {
    if HoldsCca(p, c) then
      var info :| info in p.ccaInformation && info.cca == c;
      Some(info)
    else
      None
  }

  /** The person rebuilt without any record for `c`; a person who holds no
      such record is kept as is. */
  function WithoutCca(p: Person, c: Cca): (q: Person)
    ensures SamePerson(q, p)
    ensures !HoldsCca(q, c)
    ensures forall info :: info in q.ccaInformation <==> info in p.ccaInformation && info.cca != c
    ensures !HoldsCca(p, c) ==> q == p
    ensures WellFormed(p) ==> WellFormed(q)
  {
    if HoldsCca(p, c) then
      Person(p.name, p.phone, p.email, p.address,
             set info | info in p.ccaInformation && info.cca != c)
    else
      p
  }

  /** A record whose attended count has moved by `amount`, same total and role. */
  function Recorded(info: CcaInformation, amount: int): CcaInformation {
    CcaInformation(info.cca, info.role,
                   Attendance(info.attendance.attended + amount, info.attendance.total))
  }

  /** Reference definition of recording attendance: every record for `c` is
      moved by `amount`, every other record stays. */
  function WithAttendance(p: Person, c: Cca, amount: int): (q: Person)
    ensures SamePerson(q, p)
    ensures CcasOf(q) == CcasOf(p)
    ensures !HoldsCca(p, c) ==> q == p
  {
    Person(p.name, p.phone, p.email, p.address,
           set info | info in p.ccaInformation :: if info.cca == c then Recorded(info, amount) else info)
  }

  /** Recording attendance changes exactly the record for `c`: its attended
      count moves by `amount`, its role and total stay, the other records and
      the identity fields stay, and there is still one record per CCA. */
  lemma WithAttendanceEffect(p: Person, c: Cca, amount: int)
    requires WellFormed(p) && HoldsCca(p, c)
    ensures var q := WithAttendance(p, c, amount);
      && SamePerson(q, p)
      && WellFormed(q)
      && HoldsCca(q, c)
      && var before := FindInfo(p, c).value;
         var after := FindInfo(q, c).value;
         && after.role == before.role
         && after.attendance.attended == before.attendance.attended + amount
         && after.attendance.total == before.attendance.total
         && (forall info: CcaInformation | info.cca != c :: info in q.ccaInformation <==> info in p.ccaInformation)
  {
  }

  /** Two recordings for the same CCA add up: recording `a` then `b` is
      recording `a + b`. */
  lemma WithAttendanceAdditive(p: Person, c: Cca, a: int, b: int)
    ensures WithAttendance(WithAttendance(p, c, a), c, b) == WithAttendance(p, c, a + b)
  {
  }

  /** Recording zero sessions changes nothing. */
  lemma WithAttendanceZero(p: Person, c: Cca)
    ensures WithAttendance(p, c, 0) == p
  {
  }

  /** A correction by an amount that cancels an earlier recording undoes it. */
  lemma WithAttendanceUndo(p: Person, c: Cca, amount: int, correction: int)
    requires amount + correction == 0
    ensures WithAttendance(WithAttendance(p, c, amount), c, correction) == p
  {
  }
}
