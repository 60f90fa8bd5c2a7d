/** A client of the model manager that relies on its contracts alone: one
    student, one CCA, attendance recorded, then the CCA deleted. */
module Scenario {
  import opened Entities
  import opened Manager

  method ChoirScenario()
  {
    var alice := Person("Alice", "91234567", "alice@example.com", "Blk 1", {});
    var choir := Cca("Choir");
    var model := new ModelManager([alice], []);

    model.AddCca(choir);
    assert model.HasCca(choir);

    // Alice has no record for the choir yet: recording fails and changes nothing.
    var outcome := model.RecordAttendance(choir, alice, 1);
    assert outcome == Fail(MissingCcaMessage);
    assert model.addressBook.persons == [alice];

    // Enrol her as a member with 0 of 10 sessions attended.
    var member := CcaInformation(choir, "Member", Attendance(0, 10));
    var enrolled := Person(alice.name, alice.phone, alice.email, alice.address, {member});
    model.SetPerson(alice, enrolled);
    assert model.addressBook.persons == [enrolled];

    outcome := model.RecordAttendance(choir, enrolled, 3);
    assert outcome == Pass;
    WithAttendanceEffect(enrolled, choir, 3);
    var after := model.addressBook.persons[0];
    assert after == WithAttendance(enrolled, choir, 3);
    assert FindInfo(after, choir).value.attendance == Attendance(3, 10);

    model.DeleteCca(choir);
    assert !model.HasCca(choir);
    assert !HoldsCca(model.addressBook.persons[0], choir);
  }
}
