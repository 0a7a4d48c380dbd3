/**
 * The calculate button as a whole: read and validate the four fields, compute, and on
 * success append the inputs and results to the history log under the given timestamp
 * (the clock reading is a parameter).
 */
module Calculator {
  import opened Stoichiometry
  import History

  method Calculate(log: History.HistoryManager, timestamp: string, loading: Entry, support: Entry, mx: Entry, mz: Entry)
    returns (o: Outcome)
    modifies log
    ensures o == CalculateEntries(loading, support, mx, mz)
    ensures o.Computed? ==>
      && log.history == History.Retain(old(log.history) + [History.Record(timestamp, o.inputs, o.results)])
      && log.persisted == log.history
    ensures o.Rejected? ==> log.history == old(log.history) && log.persisted == old(log.persisted)
  {
    o := CalculateEntries(loading, support, mx, mz);
    if o.Computed? {
      log.AddRecord(timestamp, o.inputs, o.results);
    }
  }
}
