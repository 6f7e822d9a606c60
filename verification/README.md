# Clinic record store — a Dafny model

This project models the in-memory record store of a small hospital
management console (class `Hospital` in `HospitalManagementSystem.java`).
The store keeps three fixed arrays of ten slots: patients, doctors and
appointments. Each array has a count, and its live prefix `[0, count)` is
what the operations read and write. The operations are:

- add a patient or a doctor;
- schedule an appointment after a patient lookup by exact ID and a doctor
  lookup by case-insensitive name;
- cancel a patient's first appointment, shifting later entries left;
- update a patient's name and age, where an empty name and an age of zero
  mean "keep the old value";
- list patients, doctors and appointments.

Layout:

- `wrappers.dfy` — `Option` and `Result`.
- `ignore_case.dfy` — module `IgnoreCase`: case-insensitive string equality.
- `records.dfy` — module `Records`: `Patient`, `Doctor`, `Date`,
  `Appointment`, and the key tests of the three linear scans.
- `hospital.dfy` — module `Hospital`: the store as an immutable `Store`
  value holding the three live prefixes. Each operation is a function that
  returns the new store and an outcome. Every console message that abandons
  an operation becomes a `Failure` value, and the store comes back unchanged.
- `hospital_loops.dfy` — module `HospitalLoops`: the source's loops, written
  over array images the way the source writes them. These are the
  first-match scan with `break`, the cancel loop with its inner shift-left,
  and the display walk. Each is proved to compute the matching function of
  `Hospital`.
- `hospital_lemmas.dfy` — module `HospitalLemmas`: properties that span
  several calls.

Appointments hold the patient and doctor records that were current when they
were scheduled. An update installs a new record in the patient's slot, so
existing appointments keep the old name and age. Immutable datatypes give
this snapshot behaviour directly, and `UpdatePatientInfo` states that the
appointments do not change.

The code does not enforce unique patient IDs, and this model follows the
code. `AddPatient` accepts duplicate IDs. `AddPatientThenFind` states that
an earlier patient with the same ID shadows the new one in later lookups.
Double booking is not checked either.

Scheduling can fail because the patient is not found, the doctor is not
found, the appointment list is full, or the date does not parse. Besides
those four failures, the code refuses when there are no patients or no
doctors at all, before any lookup. The model keeps this as
`NoPatientsOrDoctors`, and checks it before the appointment-capacity check,
in the code's order.

An update writes the revised record into the slot that
`Arrays.asList(patients).indexOf(patient)` returns
(`HospitalManagementSystem.java:252`). `Patient` does not override
`equals`, so `indexOf` compares by identity and returns the first slot
holding that very object. Every add and every update creates a new object,
so each object sits in at most one slot. That slot is the one the scan at
lines 233-238 stopped at. The model therefore writes at the scan index.

## Model

| member | source | states |
|---|---|---|
| Hospital.FirstMatch | HospitalManagementSystem.java:161-166 | the lookup result is the lowest index whose element matches the key; it is absent exactly when no element matches; `FindPatient`, `FindDoctor` and `FindAppointment` instantiate it with their key tests |
| Hospital.FindPatient | HospitalManagementSystem.java:233-238 | the patient lookup returns the lowest index whose patient ID equals the key exactly, and nothing exactly when no stored patient has that ID |
| Hospital.FindDoctor | HospitalManagementSystem.java:175-180 | the doctor lookup returns the lowest index whose name equals the key ignoring case (`IgnoreCase.Equal`), and nothing exactly when no doctor's name matches |
| Hospital.FindAppointment | HospitalManagementSystem.java:212-213 | the cancel search returns the lowest index whose appointment holds a patient with the given ID, and nothing exactly when none does |
| HospitalLoops.Scan | HospitalManagementSystem.java:175-180 | the scan loop that stops at the first match returns the same index as `FirstMatch` |
| Hospital.AddPatient | HospitalManagementSystem.java:114-128 | rejected with "list full", store unchanged, exactly when the count is 10; otherwise the new patient sits at the old count, the count grows by one, and earlier entries and the other arrays stay as they were; IDs are not checked for uniqueness |
| Hospital.AddDoctor | HospitalManagementSystem.java:131-145 | the same capacity rule and append behaviour for doctors |
| Hospital.ScheduleAppointment | HospitalManagementSystem.java:148-196 | each failure is reported exactly when the earlier checks pass and its own check fails: no patients or doctors, appointments full, no patient with the ID, no doctor with the name ignoring case, unparsable date; every failure leaves the store unchanged; the request succeeds exactly when every check passes, and a success appends one appointment linking the first matching patient and doctor at the given date |
| HospitalLoops.ScheduleAppointment | HospitalManagementSystem.java:149-191 | the guard-then-scan-then-append code produces exactly the reply of `Hospital.ScheduleAppointment` |
| Hospital.CancelAppointment | HospitalManagementSystem.java:208-226 | fails, changing nothing, exactly when no appointment holds the ID; otherwise removes the first such appointment and returns it: entries before it unchanged, later ones one place left in the same order, count one less, and the remaining entries plus the removed one form the old multiset |
| HospitalLoops.CancelAppointment | HospitalManagementSystem.java:211-222 | the outer search loop with the inner shift-left loop and the count decrement produce exactly the reply of `Hospital.CancelAppointment` |
| Hospital.RemoveAt | HospitalManagementSystem.java:216-219 | closing the gap at `i` keeps the entries before `i`, moves every later entry one place left, shortens the prefix by one and loses only the removed element |
| Hospital.Revised | HospitalManagementSystem.java:252-256 | the replacement record keeps the patient ID; an empty new name keeps the old name and an age of 0 keeps the old age; otherwise the new values are used |
| Hospital.UpdatePatientInfo | HospitalManagementSystem.java:228-258 | fails with "patient not found", changing nothing, exactly when no patient has the ID; otherwise only the first matching slot is replaced by the revised record; doctors and appointments are untouched |
| HospitalLoops.UpdatePatientInfo | HospitalManagementSystem.java:233-256 | the scan and slot write produce exactly the reply of `Hospital.UpdatePatientInfo` |
| Hospital.Show | HospitalManagementSystem.java:198-206 | a listing shows the "none" message exactly when the count is 0, and otherwise every live record in order; the three displays below instantiate it |
| Hospital.DisplayPatients | HospitalManagementSystem.java:260-269 | "no patients available" exactly when there are no patients, otherwise every patient in insertion order |
| Hospital.DisplayDoctors | HospitalManagementSystem.java:271-280 | "no doctors available" exactly when there are no doctors, otherwise every doctor in insertion order |
| Hospital.ViewAppointments | HospitalManagementSystem.java:198-206 | "no appointments scheduled" exactly when the count is 0, otherwise every appointment in its current order |
| HospitalLoops.Walk | HospitalManagementSystem.java:266-268 | the display loop over the live prefix yields exactly what `Show` describes |
| IgnoreCase.EqualIffSameLower | HospitalManagementSystem.java:176 | the key test `IgnoreCase.Equal` holds of two names exactly when their lower-cased forms are equal |
| IgnoreCase.IsEquivalence | HospitalManagementSystem.java:176 | equality ignoring case is reflexive, symmetric and transitive |
| HospitalLemmas.FirstMatchUnique | HospitalManagementSystem.java:161-166 | any answer that is the lowest matching index, or absent when nothing matches, is the answer of the lookup |
| HospitalLemmas.FirstMatchAppend | HospitalManagementSystem.java:161-166 | appending an element does not change an existing first match; otherwise the new element is found exactly when it matches |
| HospitalLemmas.AddPatientThenFind | HospitalManagementSystem.java:126 | after an add, a lookup by the new ID returns the new record when the ID was new; if an earlier patient had the same ID, the lookup still returns that earlier patient |
| HospitalLemmas.AddDoctorThenFind | HospitalManagementSystem.java:143 | after adding a doctor, a lookup by that name returns the new record when no earlier doctor had the name up to case; otherwise the earlier doctor still shadows it |
| HospitalLemmas.AddPatients | HospitalManagementSystem.java:114-128 | repeated adds keep every count within 10 and leave doctors and appointments untouched |
| HospitalLemmas.AddPatientsSaturates | HospitalManagementSystem.java:115-126 | after a batch of adds the count is the smaller of demand and capacity; the stored patients are the old ones followed by the accepted prefix of the batch; every excess attempt is rejected |
| HospitalLemmas.ScheduleThenCancel | HospitalManagementSystem.java:191 | cancelling right after a patient's only appointment was scheduled returns that appointment and restores the previous store exactly |
| HospitalLemmas.CancelOnlyThenNotFound | HospitalManagementSystem.java:211-225 | cancelling a patient's only appointment removes exactly that entry and keeps the rest in order; a second cancel for that ID reports not found and changes nothing |
| HospitalLemmas.UpdateWithSentinelsChangesNothing | HospitalManagementSystem.java:252-256 | an update with an empty name and an age of 0 leaves the whole store unchanged, whether or not the ID is found |
| HospitalLemmas.UpdateThenFind | HospitalManagementSystem.java:233-256 | after updating a stored patient, a lookup by the same ID finds the same slot holding the revised record; with a non-empty name and non-zero age both fields are replaced and the ID is kept |
| HospitalLemmas.FindDoctorIgnoresKeyCase | HospitalManagementSystem.java:175-180 | two doctor-name keys that are equal ignoring case find the same doctor |
| HospitalLemmas.ClinicExample | HospitalManagementSystem.java:114-226 | adding Alice and Dr. Smith, scheduling them with the doctor name in lower case, and cancelling goes from one listed appointment to "none scheduled" |

## Left out

- Console I/O and the menu loop (`main`, the `Scanner` prompts, the printed messages). Inputs are parameters and messages are `Failure` values or outcomes. Inputs are only read after the earlier checks pass, and the model does not track that order of input consumption.
- Date parsing with `SimpleDateFormat`, which is a library call. A date is a `Date` holding epoch milliseconds, and the parse result is passed in as `Option<Date>`, with `None` meaning the text did not parse.
- IgnoreCase.Equal: folds only the ASCII letters A-Z, while Java's `equalsIgnoreCase` also folds other Unicode letters, which needs Unicode case tables.
- `InputMismatchException` from `nextInt` on non-numeric input, which is input parsing rather than store logic.
- `getDetails` and `toString`, which only render text, and `Date.toString` is a library call.
- The `HospitalManagement` interface and the abstract class `Person`. They hold no logic, so `Patient` and `Doctor` are two datatypes that each carry a name and an age.
- Ages are unbounded integers, not 32-bit `int`. No arithmetic is done on them, so the width does not matter.
- Array slots at or after the count. After a cancel, the Java array still holds a stale reference in the last slot, but it is never read, so the model keeps only the live prefix.
