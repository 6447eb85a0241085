/** OCPP 1.6 charging profiles as they are installed. */
module Profiles {
  import opened Timetables

  datatype Purpose = ChargePointMaxProfile | TxDefaultProfile | TxProfile

  /** `timetable` holds the profile's kind, recurrency, validity window and charging schedule. */
  datatype Profile = Profile(id: int, stackLevel: int, purpose: Purpose, timetable: Timetable)
}
