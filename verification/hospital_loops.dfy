/** The loops of the `Hospital` class, written over array images (value
    sequences) the way the source writes them: the linear scan that stops at
    the first match, the cancel loop that shifts later entries left, and the
    display walk. Each is proved to compute the operation of module Hospital. */
module HospitalLoops {
  import opened Wrappers
  import opened Records
  import H = Hospital

  /** Linear scan over `s` in index order, stopping at the first element that
      matches `key`. */
  method Scan<T, K>(s: seq<T>, key: K, matches: (T, K) -> bool) returns (r: Option<nat>)
    ensures r == H.FirstMatch(s, key, matches)
  {
    var i := 0;
    while i < |s|
      invariant 0 <= i <= |s|
      invariant forall j :: 0 <= j < i ==> !matches(s[j], key)
    {
      if matches(s[i], key) {
        return Some(i);
      }
      i := i + 1;
    }
    return None;
  }

  /** Schedules an appointment: the two guards, the patient scan, the doctor
      scan and the date, in the source's order. */
  method ScheduleAppointment(s: H.Store, patientId: string, doctorName: string, date: Option<Date>)
    returns (r: H.Reply<Appointment>)
    requires H.Valid(s)
    ensures r == H.ScheduleAppointment(s, patientId, doctorName, date)
  {
    if |s.patients| == 0 || |s.doctors| == 0 {
      return H.Reply(s, Err(H.NoPatientsOrDoctors));
    }
    if |s.appointments| == H.Capacity {
      return H.Reply(s, Err(H.AppointmentListFull));
    }
    var patient := Scan(s.patients, patientId, HasPatientId);
    if patient.None? {
      return H.Reply(s, Err(H.PatientNotFound));
    }
    var doctor := Scan(s.doctors, doctorName, HasName);
    if doctor.None? {
      return H.Reply(s, Err(H.DoctorNotFound));
    }
    if date.None? {
      return H.Reply(s, Err(H.InvalidDateFormat));
    }
    var a := Appointment(s.patients[patient.value], s.doctors[doctor.value], date.value);
    return H.Reply(s.(appointments := s.appointments + [a]), Ok(a));
  }

  /** Cancels the first appointment of patient `id`: the outer loop looks for
      it, the inner loop moves every later entry one slot to the left, and the
      count drops by one, which ends the live prefix one slot earlier. */
  method CancelAppointment(s: H.Store, id: string) returns (r: H.Reply<Appointment>)
    requires H.Valid(s)
    ensures r == H.CancelAppointment(s, id)
  {
    var slots := s.appointments;
    var count := |slots|;
    var i := 0;
    while i < count
      invariant 0 <= i <= count == |slots|
      invariant slots == s.appointments
      invariant forall j :: 0 <= j < i ==> !IsFor(slots[j], id)
    {
      if IsFor(slots[i], id) {
        var removed := slots[i];
        var j := i;
        while j < count - 1
          invariant i <= j <= count - 1
          invariant |slots| == count
          invariant forall k :: 0 <= k < i ==> slots[k] == s.appointments[k]
          invariant forall k :: i <= k < j ==> slots[k] == s.appointments[k + 1]
          invariant forall k :: j <= k < count ==> slots[k] == s.appointments[k]
        {
          slots := slots[j := slots[j + 1]];
          j := j + 1;
        }
        count := count - 1;
        assert slots[..count] == H.RemoveAt(s.appointments, i);
        return H.Reply(s.(appointments := slots[..count]), Ok(removed));
      }
      i := i + 1;
    }
    return H.Reply(s, Err(H.NoAppointmentFound));
  }

  /** Updates the first patient with ID `id`, writing the revised record back
      into the slot the scan found. */
  method UpdatePatientInfo(s: H.Store, id: string, newName: string, newAge: int)
    returns (r: H.Reply<Patient>)
    requires H.Valid(s)
    ensures r == H.UpdatePatientInfo(s, id, newName, newAge)
  {
    var found := Scan(s.patients, id, HasPatientId);
    if found.None? {
      return H.Reply(s, Err(H.PatientNotFound));
    }
    var current := s.patients[found.value];
    var p := Patient(if newName == [] then current.name else newName,
                     if newAge == 0 then current.age else newAge,
                     current.patientId);
    return H.Reply(s.(patients := s.patients[found.value := p]), Ok(p));
  }

  /** Walks a live prefix in index order, collecting what the display prints. */
  method Walk<T>(live: seq<T>) returns (r: H.Listing<T>)
    ensures r == H.Show(live)
  {
    if |live| == 0 {
      return H.NoneAvailable;
    }
    var shown: seq<T> := [];
    var i := 0;
    while i < |live|
      invariant 0 <= i <= |live|
      invariant shown == live[..i]
    {
      shown := shown + [live[i]];
      i := i + 1;
    }
    return H.Entries(shown);
  }
}
