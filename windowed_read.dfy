/**
 * What one `read` call does, as a function of the cursor: decode records one
 * after another, skip those earlier than the window, and stop at the first
 * in-window record (returned), at the first record later than the window
 * (consumed, nothing returned) or at the end of the data (nothing returned).
 */
module WindowedRead {
  import opened Wrappers
  import opened RecordFile
  import opened TimeIndex

  /** The record a read returns, if any, and where it leaves the cursor. */
  datatype ReadResult = ReadResult(rec: Option<Rec>, cursor: nat)

  /** The read loop, from cursor pos. A returned record is always inside the
      window and is a record of the file. */
  function ReadFrom(f: File, w: Window, pos: nat): (res: ReadResult)
    requires WellFormed(f)
    ensures res.rec.Some? ==> w.Contains(res.rec.value.time) && res.rec.value in f.recs
    decreases f.size - pos
  {
    match Decode(f, pos)
    case None => ReadResult(None, pos)
    case Some(d) =>
      if d.rec.time > w.eTime then ReadResult(None, d.next)
      else if w.Contains(d.rec.time) then ReadResult(Some(d.rec), d.next)
      else ReadFrom(f, w, d.next)
  }

  /** A read passes over a record at time t when t is before the window start
      and not after its end (the end is compared first; for a window with
      sTime <= eTime this is just t < sTime). */
  predicate Skipped(w: Window, t: int)
  {
    t < w.sTime && t <= w.eTime
  }

  /** The first record from index k on that a read does not pass over, or
      |recs| when there is none. */
  function FirstNotSkipped(recs: seq<Rec>, w: Window, k: nat): (j: nat)
    requires k <= |recs|
    ensures k <= j <= |recs|
    ensures forall i :: k <= i < j ==> Skipped(w, recs[i].time)
    ensures j < |recs| ==> !Skipped(w, recs[j].time)
    decreases |recs| - k
  {
    if k == |recs| || !Skipped(w, recs[k].time) then k else FirstNotSkipped(recs, w, k + 1)
  }

  /** A read from the start of record k is decided by the first record j at
      or after k that it does not pass over: j is returned when it is inside
      the window, and it is consumed either way; when there is none, the read
      ends at the end of the file with nothing returned. */
  lemma {:induction false} ReadFromFirst(f: File, w: Window, k: nat)
    requires WellFormed(f) && k <= |f.recs|
    ensures var j := FirstNotSkipped(f.recs, w, k);
            ReadFrom(f, w, PosOf(f, k)) ==
              if j == |f.recs| then ReadResult(None, f.size)
              else if w.Contains(f.recs[j].time) then ReadResult(Some(f.recs[j]), PosOf(f, j + 1))
              else ReadResult(None, PosOf(f, j + 1))
    decreases |f.recs| - k
  {
    DecodeAt(f, k);
    if k < |f.recs| && Skipped(w, f.recs[k].time) {
      ReadFromFirst(f, w, k + 1);
    }
  }

  /** Reading from the offset the record dictionary holds for timestamp t
      returns a record with timestamp t, the one that starts at that offset. */
  lemma SeekThenRead(f: File, w: Window, t: int)
    requires WellFormed(f) && t in RecordMap(f.recs, w)
    ensures ReadFrom(f, w, RecordMap(f.recs, w)[t]).rec.Some?
    ensures ReadFrom(f, w, RecordMap(f.recs, w)[t]).rec.value.time == t
    ensures ReadFrom(f, w, RecordMap(f.recs, w)[t]).rec.value.offset == RecordMap(f.recs, w)[t]
  {
    RecordMapSound(f.recs, w, t);
    var i :| 0 <= i < |f.recs| && f.recs[i].time == t && f.recs[i].offset == RecordMap(f.recs, w)[t]
             && forall j :: i < j < |f.recs| ==> f.recs[j].time != t;
    DecodeAt(f, i);
  }
}
