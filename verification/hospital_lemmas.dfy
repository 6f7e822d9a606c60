/** Properties that relate several operations of the record store: lookups
    after adds and updates, repeated adds against the capacity, cancel as the
    inverse of schedule, and the worked clinic example. */
module HospitalLemmas {
  import opened Wrappers
  import opened Records
  import IgnoreCase
  import opened Hospital

  function Min(a: int, b: int): int {
    if a <= b then a else b
  }

  /** The first-match index is determined by its characterisation: any
      answer that is the lowest matching index, or absent when nothing
      matches, is the one `FirstMatch` gives. */
  lemma FirstMatchUnique<T, K>(s: seq<T>, key: K, matches: (T, K) -> bool, r: Option<nat>)
    requires r.Some? ==> r.value < |s| && matches(s[r.value], key)
    requires r.Some? ==> forall j :: 0 <= j < r.value ==> !matches(s[j], key)
    requires r.None? ==> forall j :: 0 <= j < |s| ==> !matches(s[j], key)
    ensures FirstMatch(s, key, matches) == r
  {
  }

  /** Scanning a sequence with one more element at the end finds the old
      first match if there was one, and otherwise the new element if it
      matches. */
  lemma FirstMatchAppend<T, K>(s: seq<T>, x: T, key: K, matches: (T, K) -> bool)
    ensures FirstMatch(s + [x], key, matches) ==
      if FirstMatch(s, key, matches).Some? then FirstMatch(s, key, matches)
      else if matches(x, key) then Some(|s|)
      else None
  {
    var t := s + [x];
    var before := FirstMatch(s, key, matches);
    assert forall j :: 0 <= j < |s| ==> t[j] == s[j];
    assert t[|s|] == x;
    var expected := if before.Some? then before else if matches(x, key) then Some(|s|) else None;
    FirstMatchUnique(t, key, matches, expected);
  }

  /** After a successful add, a lookup by the new ID finds the new record
      unless an earlier patient already had that ID, in which case the earlier
      one still shadows it. */
  lemma AddPatientThenFind(s: Store, name: string, age: int, id: string)
    requires Valid(s) && |s.patients| < Capacity
    ensures var r := AddPatient(s, name, age, id);
      && r.outcome == Ok(Patient(name, age, id))
      && (FindPatient(s.patients, id).None? ==>
            FindPatient(r.state.patients, id) == Some(|s.patients|) &&
            r.state.patients[|s.patients|] == Patient(name, age, id))
      && (FindPatient(s.patients, id).Some? ==>
            FindPatient(r.state.patients, id) == FindPatient(s.patients, id))
  {
  }

  /** After a successful add, a lookup by the new doctor's name finds the
      new record unless an earlier doctor already had that name up to case,
      in which case the earlier one still shadows it. */
  lemma AddDoctorThenFind(s: Store, name: string, age: int, specialty: string)
    requires Valid(s) && |s.doctors| < Capacity
    ensures var r := AddDoctor(s, name, age, specialty);
      && r.outcome == Ok(Doctor(name, age, specialty))
      && (FindDoctor(s.doctors, name).None? ==>
            FindDoctor(r.state.doctors, name) == Some(|s.doctors|) &&
            r.state.doctors[|s.doctors|] == Doctor(name, age, specialty))
      && (FindDoctor(s.doctors, name).Some? ==>
            FindDoctor(r.state.doctors, name) == FindDoctor(s.doctors, name))
  {
  }

  /** Applies option 1 of the menu once per record in `batch`; returns the
      final store and how many attempts were rejected as "list is full". */
  function AddPatients(s: Store, batch: seq<Patient>): (r: (Store, nat))
    requires Valid(s)
    ensures Valid(r.0)
    ensures r.0.doctors == s.doctors && r.0.appointments == s.appointments
    decreases |batch|
  {
    if |batch| == 0 then (s, 0)
    else
      var step := AddPatient(s, batch[0].name, batch[0].age, batch[0].patientId);
      var rest := AddPatients(step.state, batch[1..]);
      (rest.0, rest.1 + if step.outcome.Err? then 1 else 0)
  }

  /** Adding a batch stores records until the array is full and rejects every
      later attempt: the count ends at the smaller of the demand and the
      capacity, the stored records are the old ones followed by the accepted
      prefix of the batch, and each excess attempt is rejected. */
  lemma {:induction false} AddPatientsSaturates(s: Store, batch: seq<Patient>)
    requires Valid(s)
    ensures var k := Min(|batch|, Capacity - |s.patients|);
      && |AddPatients(s, batch).0.patients| == Min(|s.patients| + |batch|, Capacity)
      && AddPatients(s, batch).0.patients == s.patients + batch[..k]
      && AddPatients(s, batch).1 == |batch| - k
    decreases |batch|
  {
    if |batch| == 0 {
      assert batch[..0] == [];
    } else {
      var p := batch[0];
      var step := AddPatient(s, p.name, p.age, p.patientId);
      AddPatientsSaturates(step.state, batch[1..]);
      if |s.patients| == Capacity {
        assert batch[..0] == [];
      } else {
        var k := Min(|batch|, Capacity - |s.patients|);
        assert step.state.patients == s.patients + [Patient(p.name, p.age, p.patientId)];
        assert Patient(p.name, p.age, p.patientId) == p;
        assert batch[..k] == [p] + batch[1..][..k - 1];
      }
    }
  }

  /** Cancelling for a patient right after scheduling that patient's only
      appointment undoes the scheduling exactly. */
  lemma ScheduleThenCancel(s: Store, patientId: string, doctorName: string, date: Option<Date>)
    requires Valid(s)
    requires ScheduleAppointment(s, patientId, doctorName, date).outcome.Ok?
    requires forall j :: 0 <= j < |s.appointments| ==> !IsFor(s.appointments[j], patientId)
    ensures var r := ScheduleAppointment(s, patientId, doctorName, date);
      CancelAppointment(r.state, patientId) == Reply(s, Ok(r.outcome.value))
  {
    var r := ScheduleAppointment(s, patientId, doctorName, date);
    var a := r.outcome.value;
    FirstMatchAppend(s.appointments, a, patientId, IsFor);
    assert (s.appointments + [a])[..|s.appointments|] == s.appointments;
  }

  /** Cancelling a patient's only appointment removes exactly that entry and
      keeps the others in order; a second cancel for the same ID then reports
      that no appointment was found and changes nothing. */
  lemma CancelOnlyThenNotFound(s: Store, id: string, i: nat)
    requires Valid(s)
    requires i < |s.appointments| && IsFor(s.appointments[i], id)
    requires forall j :: 0 <= j < |s.appointments| && j != i ==> !IsFor(s.appointments[j], id)
    ensures var first := CancelAppointment(s, id);
      && first.outcome == Ok(s.appointments[i])
      && first.state.appointments == s.appointments[..i] + s.appointments[i + 1..]
      && CancelAppointment(first.state, id) == Reply(first.state, Err(NoAppointmentFound))
  {
  }

  /** An update with both sentinels, an empty name and an age of zero, finds
      the patient but leaves the whole store as it was. */
  lemma UpdateWithSentinelsChangesNothing(s: Store, id: string)
    requires Valid(s)
    ensures UpdatePatientInfo(s, id, [], 0).state == s
  {
  }

  /** An update of a stored patient with a non-empty name and a non-zero age
      replaces both fields and keeps the ID; a later lookup by that ID finds
      the revised record in the same slot. */
  lemma UpdateThenFind(s: Store, id: string, newName: string, newAge: int)
    requires Valid(s)
    requires FindPatient(s.patients, id).Some?
    ensures var r := UpdatePatientInfo(s, id, newName, newAge);
      && r.outcome.Ok?
      && FindPatient(r.state.patients, id) == FindPatient(s.patients, id)
      && r.state.patients[FindPatient(s.patients, id).value] == r.outcome.value
      && (newName != [] && newAge != 0 ==> r.outcome.value == Patient(newName, newAge, id))
  {
    var i := FindPatient(s.patients, id).value;
    var r := UpdatePatientInfo(s, id, newName, newAge);
    var ps := r.state.patients;
    assert ps == s.patients[i := r.outcome.value];
    assert HasPatientId(ps[i], id);
    assert forall j :: 0 <= j < i ==> ps[j] == s.patients[j];
  }

  /** The doctor lookup depends on the key only up to case: two keys equal
      ignoring case find the same doctor. */
  lemma FindDoctorIgnoresKeyCase(doctors: seq<Doctor>, a: string, b: string)
    requires IgnoreCase.Equal(a, b)
    ensures FindDoctor(doctors, a) == FindDoctor(doctors, b)
  {
  }

  /** The worked example: add patient Alice (ID "P1") and doctor "Dr. Smith",
      schedule them (looking the doctor up in lower case), see one appointment,
      cancel it, and see none. */
  lemma ClinicExample(when: Date)
    ensures
      var s1 := AddPatient(Empty, "Alice", 30, "P1");
      var s2 := AddDoctor(s1.state, "Dr. Smith", 45, "Cardiology");
      var s3 := ScheduleAppointment(s2.state, "P1", "dr. smith", Some(when));
      var s4 := CancelAppointment(s3.state, "P1");
      && s3.outcome == Ok(Appointment(Patient("Alice", 30, "P1"), Doctor("Dr. Smith", 45, "Cardiology"), when))
      && ViewAppointments(s3.state) == Entries([s3.outcome.value])
      && s4.outcome == s3.outcome
      && ViewAppointments(s4.state) == NoneAvailable
  {
  }
}
