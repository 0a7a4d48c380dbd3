/**
 * The history log: an ordered list of calculation records, oldest first, of which only
 * the newest 100 are kept. Every change is followed by a save of the whole list; the
 * file is modelled by the ghost field `persisted`, the list last written.
 */
module History {
  import opened Wrappers
  import Stoichiometry

  /** How many records the log keeps. */
  const MaxRecords: nat := 100

  /** One calculation: when it ran (an opaque timestamp string), what went in, what came out. */
  datatype Record = Record(timestamp: string, inputs: Stoichiometry.Inputs, results: Stoichiometry.Results)

  /**
   * The list `self.history[-100:]` keeps when it is longer than 100: the newest records,
   * as many as fit, in their original order.
   */
  function Retain(s: seq<Record>): (r: seq<Record>)
    ensures |r| == if |s| > MaxRecords then MaxRecords else |s|
    ensures r == s[|s| - |r|..]
  {
    if |s| > MaxRecords then s[|s| - MaxRecords..] else s
  }

  /**
   * Adding a record to any log keeps min(n + 1, 100) records, the new one last, preceded
   * by the newest of the old ones: only the oldest records are dropped.
   */
  lemma AddKeepsNewest(h: seq<Record>, rec: Record)
    ensures var r := Retain(h + [rec]);
      && |r| == (if |h| + 1 > MaxRecords then MaxRecords else |h| + 1)
      && r[|r| - 1] == rec
      && r[..|r| - 1] == h[|h| + 1 - |r|..]
  {
    var s := h + [rec];
    var r := Retain(s);
    assert r[..|r| - 1] == s[|s| - |r|..|s| - 1];
    assert s[..|h|] == h;
  }

  /**
   * The log after a run of `add_record` calls, one per record of `recs`, in order: no
   * call leaves the log unchanged, and any call leaves at most 100 records, the last one
   * added at the end.
   */
  function AddAll(h: seq<Record>, recs: seq<Record>): (r: seq<Record>)
    ensures recs == [] ==> r == h
    ensures recs != [] ==> 1 <= |r| <= MaxRecords && r[|r| - 1] == recs[|recs| - 1]
    decreases |recs|
  {
    if recs == [] then h else AddAll(Retain(h + [recs[0]]), recs[1..])
  }

  /** Trimming before appending more records keeps the same newest 100. */
  lemma RetainAbsorbs(s: seq<Record>, t: seq<Record>)
    ensures Retain(Retain(s) + t) == Retain(s + t)
  {
    var r := Retain(s);
    if |s| > MaxRecords {
      var u := r + t;
      var v := s + t;
      assert Retain(u) == u[|u| - MaxRecords..];
      assert u[|u| - MaxRecords..] == v[|v| - MaxRecords..] by {
        forall i | |u| - MaxRecords <= i < |u|
          ensures u[i] == v[i + |v| - |u|]
        {
          if i < |r| {
            assert u[i] == r[i] == s[|s| - MaxRecords + i];
          } else {
            assert u[i] == t[i - |r|];
          }
        }
      }
    }
  }

  /**
   * After at least one insertion the log is the newest 100 records of the old log followed
   * by all the inserted ones.
   */
  lemma {:induction false} AddAllRetains(h: seq<Record>, recs: seq<Record>)
    requires |recs| >= 1
    ensures AddAll(h, recs) == Retain(h + recs)
    decreases |recs|
  {
    var r0, rest := recs[0], recs[1..];
    var h1 := Retain(h + [r0]);
    assert recs == [r0] + rest;
    assert h + recs == (h + [r0]) + rest;
    assert AddAll(h, recs) == AddAll(h1, rest);
    if rest != [] {
      AddAllRetains(h1, rest);
      RetainAbsorbs(h + [r0], rest);
    }
  }

  /**
   * Inserting at least 100 records leaves exactly the last 100 inserted, whatever the log
   * held before: the oldest are the ones discarded.
   */
  lemma ManyAddsKeepLatest(h: seq<Record>, recs: seq<Record>)
    requires |recs| >= MaxRecords
    ensures AddAll(h, recs) == recs[|recs| - MaxRecords..]
  {
    AddAllRetains(h, recs);
    var s := h + recs;
    assert s[|s| - MaxRecords..] == recs[|recs| - MaxRecords..];
  }

  class HistoryManager {
    /** The records, oldest first. */
    var history: seq<Record>
    /**
     * The list the history file holds: what the last save wrote, or what was loaded. Before
     * the first save, when the file was missing or did not decode, this is `[]` while the
     * real file holds nothing or bytes that do not decode to a list.
     */
    ghost var persisted: seq<Record>

    /**
     * Loading at start-up: `stored` is the decoded file, `None` when it is missing or does
     * not decode, which gives an empty log. The loaded list is not trimmed to 100.
     */
    constructor (stored: Option<seq<Record>>)
      ensures history == stored.GetOr([])
      ensures persisted == history
    {
      history := stored.GetOr([]);
      persisted := history;
    }

    /** Writes the whole list to the history file. */
    method SaveHistory()
      modifies this
      ensures history == old(history)
      ensures persisted == history
    {
      persisted := history;
    }

    /** Appends a record, keeps the newest 100, and saves. */
    method AddRecord(timestamp: string, inputs: Stoichiometry.Inputs, results: Stoichiometry.Results)
      modifies this
      ensures history == Retain(old(history) + [Record(timestamp, inputs, results)])
      ensures |history| <= MaxRecords && history[|history| - 1] == Record(timestamp, inputs, results)
      ensures persisted == history
    {
      history := history + [Record(timestamp, inputs, results)];
      if |history| > MaxRecords {
        history := history[|history| - MaxRecords..];
      }
      SaveHistory();
    }

    /** A copy of the records; the log itself is not touched. */
    method GetHistory() returns (copy: seq<Record>)
      ensures copy == history
    {
      copy := history;
    }

    /** Empties the log and saves the empty list. */
    method Clear()
      modifies this
      ensures history == [] && persisted == []
    {
      history := [];
      SaveHistory();
    }
  }
}
