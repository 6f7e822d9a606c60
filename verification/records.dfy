/** The entities of the clinic: patients, doctors and appointments.
    They are immutable values, so an appointment holds a snapshot of the
    patient and doctor records that were current when it was scheduled. */
module Records {
  import IgnoreCase

  /** A patient; `patientId` is the key used to look patients up. */
  datatype Patient = Patient(name: string, age: int, patientId: string)

  /** A doctor; doctors are looked up by name, ignoring case. */
  datatype Doctor = Doctor(name: string, age: int, specialty: string)

  /** A point in time, as milliseconds since the epoch. */
  datatype Date = Date(epochMillis: int)

  /** An appointment between a patient and a doctor at a given date. */
  datatype Appointment = Appointment(patient: Patient, doctor: Doctor, date: Date)

  /** The patient key test of the linear scans: exact string equality. */
  predicate HasPatientId(p: Patient, id: string) {
    p.patientId == id
  }

  /** The doctor key test of the linear scan: name equality ignoring case. */
  predicate HasName(d: Doctor, name: string) {
    IgnoreCase.Equal(d.name, name)
  }

  /** An appointment matches a patient ID when the patient it holds has that ID. */
  predicate IsFor(a: Appointment, id: string) {
    a.patient.patientId == id
  }
}
