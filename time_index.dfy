/**
 * The time index: what one full forward scan of a file records.
 *
 * `RecordMap` is `recordIndex` (timestamp to offset, for every record inside
 * the window) and `ScanMap` is `scanStartIndex` (the same, for the records
 * whose scan flag is 1). Both are defined as the scan builds them: record by
 * record in file order, a later record overwriting the entry of an earlier
 * one with the same timestamp.
 */
module TimeIndex {
  import opened RecordFile

  /** The inclusive time window [sTime, eTime] of a reader. Nothing checks
      that sTime <= eTime; an inverted window simply contains no time. */
  datatype Window = Window(sTime: int, eTime: int)
  {
    predicate Contains(t: int)
    {
      sTime <= t && t <= eTime
    }
  }

  /** The timestamp-to-offset dictionary after scanning the records `recs`. */
  function RecordMap(recs: seq<Rec>, w: Window): (m: map<int, nat>)
    ensures forall t :: t in m ==> w.Contains(t)
  {
    if recs == [] then map[]
    else
      var r := recs[|recs| - 1];
      var m0 := RecordMap(recs[..|recs| - 1], w);
      if w.Contains(r.time) then m0[r.time := r.offset] else m0
  }

  /** The scan-start dictionary after scanning the records `recs`: its keys are
      always keys of the record dictionary. */
  function ScanMap(recs: seq<Rec>, w: Window): (m: map<int, nat>)
    ensures forall t :: t in m ==> w.Contains(t)
    ensures m.Keys <= RecordMap(recs, w).Keys
  {
    if recs == [] then map[]
    else
      var r := recs[|recs| - 1];
      var m0 := ScanMap(recs[..|recs| - 1], w);
      if w.Contains(r.time) && r.scan == 1 then m0[r.time := r.offset] else m0
  }

  /** No two records of `recs` share a timestamp. */
  ghost predicate UniqueTimes(recs: seq<Rec>)
  {
    forall i, j :: 0 <= i < j < |recs| ==> recs[i].time != recs[j].time
  }

  /** Every in-window record has its timestamp as a key of the record
      dictionary. */
  lemma {:induction false} RecordMapComplete(recs: seq<Rec>, w: Window, i: nat)
    requires i < |recs| && w.Contains(recs[i].time)
    ensures recs[i].time in RecordMap(recs, w)
    decreases |recs|
  {
    if i < |recs| - 1 {
      var pre := recs[..|recs| - 1];
      assert pre[i] == recs[i];
      RecordMapComplete(pre, w, i);
    }
  }

  /** An in-window record that no later record shares its timestamp with is
      the one its timestamp maps to: later writes win. */
  lemma {:induction false} RecordMapLastWins(recs: seq<Rec>, w: Window, i: nat)
    requires i < |recs| && w.Contains(recs[i].time)
    requires forall j :: i < j < |recs| ==> recs[j].time != recs[i].time
    ensures recs[i].time in RecordMap(recs, w)
    ensures RecordMap(recs, w)[recs[i].time] == recs[i].offset
    decreases |recs|
  {
    if i < |recs| - 1 {
      var pre := recs[..|recs| - 1];
      assert pre[i] == recs[i];
      assert recs[|recs| - 1].time != recs[i].time;
      RecordMapLastWins(pre, w, i);
    }
  }

  /** Every entry of the record dictionary comes from an in-window record with
      that timestamp, the last one in file order. */
  lemma {:induction false} RecordMapSound(recs: seq<Rec>, w: Window, t: int)
    requires t in RecordMap(recs, w)
    ensures w.Contains(t)
    ensures exists i :: 0 <= i < |recs| && recs[i].time == t && recs[i].offset == RecordMap(recs, w)[t]
                        && forall j :: i < j < |recs| ==> recs[j].time != t
    decreases |recs|
  {
    var pre := recs[..|recs| - 1];
    var r := recs[|recs| - 1];
    if w.Contains(r.time) && r.time == t {
      assert recs[|recs| - 1].time == t;
    } else {
      RecordMapSound(pre, w, t);
      var i :| 0 <= i < |pre| && pre[i].time == t && pre[i].offset == RecordMap(pre, w)[t]
               && forall j :: i < j < |pre| ==> pre[j].time != t;
      assert recs[i] == pre[i];
      assert forall j :: i < j < |recs| ==> recs[j].time != t by {
        forall j | i < j < |recs| ensures recs[j].time != t {
          if j < |pre| { assert recs[j] == pre[j]; }
        }
      }
    }
  }

  /** Every in-window record whose scan flag is 1 has its timestamp as a key of
      the scan-start dictionary. */
  lemma {:induction false} ScanMapComplete(recs: seq<Rec>, w: Window, i: nat)
    requires i < |recs| && w.Contains(recs[i].time) && recs[i].scan == 1
    ensures recs[i].time in ScanMap(recs, w)
    decreases |recs|
  {
    if i < |recs| - 1 {
      var pre := recs[..|recs| - 1];
      assert pre[i] == recs[i];
      ScanMapComplete(pre, w, i);
    }
  }

  /** A scan-start record that no later scan-start record shares its timestamp
      with is the one its timestamp maps to in the scan-start dictionary. */
  lemma {:induction false} ScanMapLastWins(recs: seq<Rec>, w: Window, i: nat)
    requires i < |recs| && w.Contains(recs[i].time) && recs[i].scan == 1
    requires forall j :: i < j < |recs| && recs[j].scan == 1 ==> recs[j].time != recs[i].time
    ensures recs[i].time in ScanMap(recs, w)
    ensures ScanMap(recs, w)[recs[i].time] == recs[i].offset
    decreases |recs|
  {
    if i < |recs| - 1 {
      var pre := recs[..|recs| - 1];
      assert pre[i] == recs[i];
      ScanMapLastWins(pre, w, i);
    }
  }

  /** Every entry of the scan-start dictionary comes from an in-window record
      with that timestamp and scan flag 1, the last such in file order. */
  lemma {:induction false} ScanMapSound(recs: seq<Rec>, w: Window, t: int)
    requires t in ScanMap(recs, w)
    ensures w.Contains(t)
    ensures exists i :: 0 <= i < |recs| && recs[i].time == t && recs[i].scan == 1
                        && recs[i].offset == ScanMap(recs, w)[t]
                        && forall j :: i < j < |recs| && recs[j].scan == 1 ==> recs[j].time != t
    decreases |recs|
  {
    var pre := recs[..|recs| - 1];
    var r := recs[|recs| - 1];
    if w.Contains(r.time) && r.scan == 1 && r.time == t {
      assert recs[|recs| - 1].time == t;
    } else {
      ScanMapSound(pre, w, t);
      var i :| 0 <= i < |pre| && pre[i].time == t && pre[i].scan == 1
               && pre[i].offset == ScanMap(pre, w)[t]
               && forall j :: i < j < |pre| && pre[j].scan == 1 ==> pre[j].time != t;
      assert recs[i] == pre[i];
      assert forall j :: i < j < |recs| && recs[j].scan == 1 ==> recs[j].time != t by {
        forall j | i < j < |recs| && recs[j].scan == 1 ensures recs[j].time != t {
          if j < |pre| { assert recs[j] == pre[j]; }
        }
      }
    }
  }

  /** When no two records share a timestamp, the scan-start dictionary is a
      sub-map of the record dictionary: same keys give the same offsets. */
  lemma ScanMapIsSubMap(recs: seq<Rec>, w: Window)
    requires UniqueTimes(recs)
    ensures forall t :: t in ScanMap(recs, w) ==> ScanMap(recs, w)[t] == RecordMap(recs, w)[t]
  {
    forall t | t in ScanMap(recs, w) ensures ScanMap(recs, w)[t] == RecordMap(recs, w)[t] {
      ScanMapSound(recs, w, t);
      var i :| 0 <= i < |recs| && recs[i].time == t && recs[i].scan == 1
               && recs[i].offset == ScanMap(recs, w)[t]
               && forall j :: i < j < |recs| && recs[j].scan == 1 ==> recs[j].time != t;
      RecordMapLastWins(recs, w, i);
    }
  }

  /** With a repeated timestamp the sub-map relation can fail: a scan-start
      record followed by an ordinary record at the same time leaves the two
      dictionaries pointing at different offsets. */
  lemma DuplicateTimeSplitsMaps()
    ensures var recs := [Rec(0, 5, 1), Rec(10, 5, 0)];
            && ScanMap(recs, Window(0, 10)) == map[5 := 0]
            && RecordMap(recs, Window(0, 10)) == map[5 := 10]
  {
    var recs := [Rec(0, 5, 1), Rec(10, 5, 0)];
    assert recs[..1] == [Rec(0, 5, 1)];
    assert recs[..1][..0] == [];
  }

  /** `o in index.values()`: some timestamp of the index maps to offset o. */
  predicate IsIndexedOffset(index: map<int, nat>, o: nat)
    ensures IsIndexedOffset(index, o) ==> o in index.Values
  {
    exists t :: t in index && index[t] == o
  }

  /** Every offset stored in the record dictionary of a file is the start of a
      record, so it is never the end of the file. */
  lemma IndexedOffsetsAreRecordStarts(f: File, w: Window, o: nat)
    requires WellFormed(f) && IsIndexedOffset(RecordMap(f.recs, w), o)
    ensures o != f.size
    ensures exists k :: 0 <= k < |f.recs| && f.recs[k].offset == o
  {
    var m := RecordMap(f.recs, w);
    var t :| t in m && m[t] == o;
    RecordMapSound(f.recs, w, t);
  }
}
