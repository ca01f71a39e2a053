/** The documents the pages read from the store, as plain values. */
module Store {
  import opened CivilTime

  /**
    A document of the unavailableTimes or partTimeShifts collection:
    { name, date, startTime, endTime, recurrence, color }.
  */
  datatype StoredRecord = StoredRecord(
    name: string, date: Civil, startTime: Minute, endTime: Minute, recurrence: string, color: string)

  /** A document of the jobs collection. */
  datatype Job = Job(name: string, color: string, storeOpenTime: Minute, storeCloseTime: Minute)
}
