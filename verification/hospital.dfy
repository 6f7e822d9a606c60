/** The in-memory record store of the clinic: three bounded, insertion-ordered
    collections (patients, doctors, appointments) and the operations on them.
    Each collection is the live prefix `[0, count)` of a fixed array of
    `Capacity` slots; console input arrives as parameters and each printed
    message becomes an outcome value. */
module Hospital {
  import opened Wrappers
  import opened Records
  import IgnoreCase

  /** Length of each of the three arrays. */
  const Capacity: nat := 10

  /** The live prefixes of the three arrays; each count is the prefix length. */
  datatype Store = Store(patients: seq<Patient>, doctors: seq<Doctor>, appointments: seq<Appointment>)

  /** Every count stays within the array length. */
  predicate Valid(s: Store) {
    |s.patients| <= Capacity && |s.doctors| <= Capacity && |s.appointments| <= Capacity
  }

  /** The store a fresh `Hospital` starts with: all counts zero. */
  const Empty: Store := Store([], [], [])

  /** The reasons an operation is abandoned, one per error message. */
  datatype Failure =
    | PatientListFull
    | DoctorListFull
    | NoPatientsOrDoctors
    | AppointmentListFull
    | PatientNotFound
    | DoctorNotFound
    | InvalidDateFormat
    | NoAppointmentFound

  /** The store after an operation together with what it reported. */
  datatype Reply<+T> = Reply(state: Store, outcome: Result<T, Failure>)

  /** What a display operation shows: the "none available" message, or the
      stored records in order. */
  datatype Listing<+T> = NoneAvailable | Entries(items: seq<T>)

  /** Lowest index whose element matches `key`, scanning in insertion order. */
  function FirstMatch<T, K>(s: seq<T>, key: K, matches: (T, K) -> bool): (r: Option<nat>)
    ensures r.Some? ==> r.value < |s| && matches(s[r.value], key)
    ensures r.Some? ==> forall j :: 0 <= j < r.value ==> !matches(s[j], key)
    ensures r.None? <==> forall j :: 0 <= j < |s| ==> !matches(s[j], key)
  {
    if |s| == 0 then None
    else if matches(s[0], key) then Some(0)
    else
      match FirstMatch(s[1..], key, matches)
      case None => None
      case Some(k) => Some(k + 1)
  }

  /** Index of the first stored patient whose ID equals `id` exactly. */
  function FindPatient(patients: seq<Patient>, id: string): (r: Option<nat>)
    ensures r.Some? ==> r.value < |patients| && patients[r.value].patientId == id
    ensures r.Some? ==> forall j :: 0 <= j < r.value ==> patients[j].patientId != id
    ensures r.None? <==> forall j :: 0 <= j < |patients| ==> patients[j].patientId != id
  {
    FirstMatch(patients, id, HasPatientId)
  }

  /** Index of the first stored doctor whose name equals `name` ignoring case. */
  function FindDoctor(doctors: seq<Doctor>, name: string): (r: Option<nat>)
    ensures r.Some? ==> r.value < |doctors| && IgnoreCase.Equal(doctors[r.value].name, name)
    ensures r.Some? ==> forall j :: 0 <= j < r.value ==> !IgnoreCase.Equal(doctors[j].name, name)
    ensures r.None? <==> forall j :: 0 <= j < |doctors| ==> !IgnoreCase.Equal(doctors[j].name, name)
  {
    FirstMatch(doctors, name, HasName)
  }

  /** Index of the first appointment held by the patient with ID `id`. */
  function FindAppointment(appointments: seq<Appointment>, id: string): (r: Option<nat>)
    ensures r.Some? ==> r.value < |appointments| && appointments[r.value].patient.patientId == id
    ensures r.Some? ==> forall j :: 0 <= j < r.value ==> appointments[j].patient.patientId != id
    ensures r.None? <==> forall j :: 0 <= j < |appointments| ==> appointments[j].patient.patientId != id
  {
    FirstMatch(appointments, id, IsFor)
  }

  /** The sequence with the element at `i` removed and the later ones moved
      one place to the left. */
  function RemoveAt<T>(s: seq<T>, i: nat): (r: seq<T>)
    requires i < |s|
    ensures |r| == |s| - 1
    ensures forall j :: 0 <= j < i ==> r[j] == s[j]
    ensures forall j :: i <= j < |r| ==> r[j] == s[j + 1]
    ensures multiset(r) + multiset{s[i]} == multiset(s)
  {
    assert s == s[..i] + [s[i]] + s[i + 1..];
    s[..i] + s[i + 1..]
  }

  /** Adds a patient unless the patient array is full. There is no check that
      the ID is new, so duplicate IDs are accepted. */
  function AddPatient(s: Store, name: string, age: int, patientId: string): (r: Reply<Patient>)
    requires Valid(s)
    ensures Valid(r.state)
    ensures r.outcome.Err? <==> |s.patients| == Capacity
    ensures r.outcome.Err? ==> r.outcome.error == PatientListFull && r.state == s
    ensures r.outcome.Ok? ==>
      && r.outcome.value == Patient(name, age, patientId)
      && |r.state.patients| == |s.patients| + 1
      && r.state.patients[|s.patients|] == r.outcome.value
      && r.state.patients[..|s.patients|] == s.patients
      && r.state.doctors == s.doctors
      && r.state.appointments == s.appointments
  {
    if |s.patients| == Capacity then
      Reply(s, Err(PatientListFull))
    else
      var p := Patient(name, age, patientId);
      Reply(s.(patients := s.patients + [p]), Ok(p))
  }

  /** Adds a doctor unless the doctor array is full. */
  function AddDoctor(s: Store, name: string, age: int, specialty: string): (r: Reply<Doctor>)
    requires Valid(s)
    ensures Valid(r.state)
    ensures r.outcome.Err? <==> |s.doctors| == Capacity
    ensures r.outcome.Err? ==> r.outcome.error == DoctorListFull && r.state == s
    ensures r.outcome.Ok? ==>
      && r.outcome.value == Doctor(name, age, specialty)
      && |r.state.doctors| == |s.doctors| + 1
      && r.state.doctors[|s.doctors|] == r.outcome.value
      && r.state.doctors[..|s.doctors|] == s.doctors
      && r.state.patients == s.patients
      && r.state.appointments == s.appointments
  {
    if |s.doctors| == Capacity then
      Reply(s, Err(DoctorListFull))
    else
      var d := Doctor(name, age, specialty);
      Reply(s.(doctors := s.doctors + [d]), Ok(d))
  }

  /** The guards checked before any input is read: at least one patient and
      one doctor, and room for another appointment. */
  predicate CanSchedule(s: Store) {
    |s.patients| > 0 && |s.doctors| > 0 && |s.appointments| < Capacity
  }

  /** Schedules an appointment: the guards, then the patient lookup by ID, then
      the doctor lookup by name, then the date (`None` when the text did not
      parse). The first check that fails decides the outcome and leaves the
      store as it was. Double booking is not checked. */
  function ScheduleAppointment(s: Store, patientId: string, doctorName: string, date: Option<Date>): (r: Reply<Appointment>)
    requires Valid(s)
    ensures Valid(r.state)
    ensures r.outcome.Err? ==> r.state == s
    ensures r.outcome == Err(NoPatientsOrDoctors) <==> |s.patients| == 0 || |s.doctors| == 0
    ensures r.outcome == Err(AppointmentListFull) <==>
      |s.patients| > 0 && |s.doctors| > 0 && |s.appointments| == Capacity
    ensures r.outcome == Err(PatientNotFound) <==>
      CanSchedule(s) && forall j :: 0 <= j < |s.patients| ==> s.patients[j].patientId != patientId
    ensures r.outcome == Err(DoctorNotFound) <==>
      && CanSchedule(s)
      && (exists j :: 0 <= j < |s.patients| && s.patients[j].patientId == patientId)
      && forall j :: 0 <= j < |s.doctors| ==> !HasName(s.doctors[j], doctorName)
    ensures r.outcome == Err(InvalidDateFormat) <==>
      CanSchedule(s) && FindPatient(s.patients, patientId).Some? &&
      FindDoctor(s.doctors, doctorName).Some? && date.None?
    ensures r.outcome.Ok? <==>
      CanSchedule(s) && FindPatient(s.patients, patientId).Some? &&
      FindDoctor(s.doctors, doctorName).Some? && date.Some?
    ensures r.outcome.Ok? ==>
      && CanSchedule(s)
      && FindPatient(s.patients, patientId).Some?
      && FindDoctor(s.doctors, doctorName).Some?
      && date.Some?
      && r.outcome.value == Appointment(
           s.patients[FindPatient(s.patients, patientId).value],
           s.doctors[FindDoctor(s.doctors, doctorName).value],
           date.value)
      && r.outcome.value.patient.patientId == patientId
      && HasName(r.outcome.value.doctor, doctorName)
      && r.state == s.(appointments := s.appointments + [r.outcome.value])
  {
    if |s.patients| == 0 || |s.doctors| == 0 then
      Reply(s, Err(NoPatientsOrDoctors))
    else if |s.appointments| == Capacity then
      Reply(s, Err(AppointmentListFull))
    else
      match FindPatient(s.patients, patientId)
      case None => Reply(s, Err(PatientNotFound))
      case Some(pi) =>
        match FindDoctor(s.doctors, doctorName)
        case None => Reply(s, Err(DoctorNotFound))
        case Some(di) =>
          match date
          case None => Reply(s, Err(InvalidDateFormat))
          case Some(d) =>
            var a := Appointment(s.patients[pi], s.doctors[di], d);
            Reply(s.(appointments := s.appointments + [a]), Ok(a))
  }

  /** Cancels the first appointment held by the patient with ID `id`: it is
      removed, the later appointments keep their order one place to the left,
      and the count drops by one. With no such appointment nothing changes. */
  function CancelAppointment(s: Store, id: string): (r: Reply<Appointment>)
    requires Valid(s)
    ensures Valid(r.state)
    ensures r.state.patients == s.patients && r.state.doctors == s.doctors
    ensures r.outcome.Err? <==> forall j :: 0 <= j < |s.appointments| ==> !IsFor(s.appointments[j], id)
    ensures r.outcome.Err? ==> r.outcome.error == NoAppointmentFound && r.state == s
    ensures r.outcome.Ok? ==>
      exists i ::
        && 0 <= i < |s.appointments|
        && IsFor(s.appointments[i], id)
        && (forall j :: 0 <= j < i ==> !IsFor(s.appointments[j], id))
        && r.outcome.value == s.appointments[i]
        && |r.state.appointments| == |s.appointments| - 1
        && r.state.appointments[..i] == s.appointments[..i]
        && r.state.appointments[i..] == s.appointments[i + 1..]
    ensures r.outcome.Ok? ==>
      multiset(r.state.appointments) + multiset{r.outcome.value} == multiset(s.appointments)
  {
    match FindAppointment(s.appointments, id)
    case None => Reply(s, Err(NoAppointmentFound))
    case Some(i) =>
      var rest := RemoveAt(s.appointments, i);
      assert rest[..i] == s.appointments[..i];
      assert rest[i..] == s.appointments[i + 1..];
      Reply(s.(appointments := rest), Ok(s.appointments[i]))
  }

  /** The record that replaces `prev` in an update: an empty name keeps the old
      name, an age of zero keeps the old age, and the ID is always kept. */
  function Revised(prev: Patient, newName: string, newAge: int): (p: Patient)
    ensures p.patientId == prev.patientId
    ensures newName != [] ==> p.name == newName
    ensures newName == [] ==> p.name == prev.name
    ensures newAge != 0 ==> p.age == newAge
    ensures newAge == 0 ==> p.age == prev.age
  {
    Patient(if newName == [] then prev.name else newName,
            if newAge == 0 then prev.age else newAge,
            prev.patientId)
  }

  /** Replaces the first patient with ID `id` by a revised record in the same
      slot. Appointments keep the patient record they were scheduled with. */
  function UpdatePatientInfo(s: Store, id: string, newName: string, newAge: int): (r: Reply<Patient>)
    requires Valid(s)
    ensures Valid(r.state)
    ensures r.state.doctors == s.doctors && r.state.appointments == s.appointments
    ensures r.outcome.Err? <==> forall j :: 0 <= j < |s.patients| ==> s.patients[j].patientId != id
    ensures r.outcome.Err? ==> r.outcome.error == PatientNotFound && r.state == s
    ensures r.outcome.Ok? ==>
      exists i ::
        && 0 <= i < |s.patients|
        && s.patients[i].patientId == id
        && (forall j :: 0 <= j < i ==> s.patients[j].patientId != id)
        && r.outcome.value == Revised(s.patients[i], newName, newAge)
        && r.state.patients == s.patients[i := r.outcome.value]
  {
    match FindPatient(s.patients, id)
    case None => Reply(s, Err(PatientNotFound))
    case Some(i) =>
      var p := Revised(s.patients[i], newName, newAge);
      Reply(s.(patients := s.patients[i := p]), Ok(p))
  }

  /** What a display shows for a live prefix: the "none" message exactly when
      it is empty, otherwise every record in insertion order. */
  function Show<T>(live: seq<T>): (r: Listing<T>)
    ensures r.NoneAvailable? <==> |live| == 0
    ensures r.Entries? ==> r.items == live
  {
    if |live| == 0 then NoneAvailable else Entries(live)
  }

  /** The patients, in insertion order. */
  function DisplayPatients(s: Store): (r: Listing<Patient>)
    ensures r.NoneAvailable? <==> |s.patients| == 0
    ensures r.Entries? ==> r.items == s.patients
  {
    Show(s.patients)
  }

  /** The doctors, in insertion order. */
  function DisplayDoctors(s: Store): (r: Listing<Doctor>)
    ensures r.NoneAvailable? <==> |s.doctors| == 0
    ensures r.Entries? ==> r.items == s.doctors
  {
    Show(s.doctors)
  }

  /** The appointments, in their current order. */
  function ViewAppointments(s: Store): (r: Listing<Appointment>)
    ensures r.NoneAvailable? <==> |s.appointments| == 0
    ensures r.Entries? ==> r.items == s.appointments
  {
    Show(s.appointments)
  }
}
