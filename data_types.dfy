/**
 * The data pointer: a reader over one data file, bound to a time window and
 * to one data type (dmap or json) chosen at construction.
 *
 * Its state is the file cursor (a byte offset), whether the file is open, and
 * the two dictionaries the index scan fills: `recordIndex` (timestamp to
 * offset of every in-window record) and `scanStartIndex` (the same for the
 * in-window records that start a scan). The file's content is fixed: the
 * reader never writes it.
 */
module DataTypes {
  import opened Wrappers
  import opened RecordFile
  import opened TimeIndex
  import opened WindowedRead

  /** The data types a reader can be built for. */
  datatype DataType = Dmap | Json

  /** Where the index scan leaves the cursor, given where it was. The dmap
      reader goes back with a non-forced seek, which succeeds only when the
      starting offset is an indexed one; otherwise the cursor stays at the end
      of the file, where the scan stopped. The json reader goes back
      unconditionally. */
  function RestoredCursor(dType: DataType, f: File, w: Window, start: nat): (c: nat)
    requires WellFormed(f)
    ensures dType == Json || IsIndexedOffset(RecordMap(f.recs, w), start) ==> c == start
    ensures c == start || Decode(f, c) == None
  {
    match dType
    case Dmap => if IsIndexedOffset(RecordMap(f.recs, w), start) then start else f.size
    case Json => start
  }

  /** After a dmap index scan the cursor is on an indexed offset exactly when
      it started on one; when it did not, it is at the end of the data, so the
      next read returns nothing and leaves it there. */
  lemma DmapRestoreOutcome(f: File, w: Window, start: nat)
    requires WellFormed(f)
    ensures IsIndexedOffset(RecordMap(f.recs, w), RestoredCursor(Dmap, f, w, start))
            <==> IsIndexedOffset(RecordMap(f.recs, w), start)
    ensures !IsIndexedOffset(RecordMap(f.recs, w), start) ==>
              ReadFrom(f, w, RestoredCursor(Dmap, f, w, start)) == ReadResult(None, f.size)
  {
    if !IsIndexedOffset(RecordMap(f.recs, w), start) {
      if IsIndexedOffset(RecordMap(f.recs, w), f.size) {
        IndexedOffsetsAreRecordStarts(f, w, f.size);
      }
      DecodeAt(f, |f.recs|);
    }
  }

  class DataPtr {
    const sTime: int
    const eTime: int
    const dType: DataType
    /** The records behind the file descriptor. */
    const file: File

    var ptrOpen: bool
    var cursor: nat
    var recordIndex: Option<map<int, nat>>
    var scanStartIndex: Option<map<int, nat>>

    function TimeWindow(): Window
    {
      Window(sTime, eTime)
    }

    /** The file is well formed, and the dictionaries are either both absent
        (no index built yet) or exactly what a scan of the file yields. */
    ghost predicate Valid()
      reads this
    {
      && WellFormed(file)
      && (recordIndex.None? <==> scanStartIndex.None?)
      && (recordIndex.Some? ==> recordIndex.value == RecordMap(file.recs, TimeWindow()))
      && (scanStartIndex.Some? ==> scanStartIndex.value == ScanMap(file.recs, TimeWindow()))
    }

    /** A reader for `file` over [sTime, eTime]; no file is open and no index
        exists yet. */
    constructor (sTime: int, dataType: DataType, eTime: int, file: File)
      requires WellFormed(file)
      ensures Valid() && !ptrOpen
      ensures this.sTime == sTime && this.eTime == eTime && dType == dataType && this.file == file
      ensures recordIndex == None && scanStartIndex == None
    {
      this.sTime := sTime;
      this.eTime := eTime;
      dType := dataType;
      this.file := file;
      ptrOpen := false;
      cursor := 0;
      recordIndex := None;
      scanStartIndex := None;
    }

    /** Opens the file: a fresh descriptor, positioned at offset 0. Nothing
        guards against opening twice; doing so starts over at offset 0. */
    method Open()
      requires Valid()
      modifies this`ptrOpen, this`cursor
      ensures Valid() && ptrOpen && cursor == 0
    {
      ptrOpen := true;
      cursor := 0;
    }

    /** Closes the file; closing a closed file does nothing more. */
    method Close()
      requires Valid()
      modifies this`ptrOpen
      ensures Valid() && !ptrOpen
    {
      ptrOpen := false;
    }

    /** The current byte offset. */
    method OffsetTell() returns (o: nat)
      requires ptrOpen
      ensures o == cursor
    {
      o := cursor;
    }

    /** Moves the cursor to the beginning of the file. */
    method Rewind()
      requires Valid() && ptrOpen
      modifies this`cursor
      ensures Valid() && cursor == 0
    {
      cursor := 0;
    }

    /** The non-forced seek once an index exists: move to `offset` only when
        it is one of the indexed offsets, otherwise stay. */
    method SeekIndexed(offset: nat) returns (o: nat)
      requires recordIndex.Some?
      modifies this`cursor
      ensures cursor == (if IsIndexedOffset(recordIndex.value, offset) then offset else old(cursor))
      ensures o == cursor
    {
      if IsIndexedOffset(recordIndex.value, offset) {
        cursor := offset;
      }
      o := cursor;
    }

    /** Scans the whole file from offset 0, rebuilds both dictionaries from
        the in-window records, stores and returns them, then tries to put the
        cursor back where it was. */
    method CreateIndex() returns (records: map<int, nat>, scans: map<int, nat>)
      requires Valid() && ptrOpen
      modifies this`cursor, this`recordIndex, this`scanStartIndex
      ensures Valid()
      ensures records == RecordMap(file.recs, TimeWindow())
      ensures scans == ScanMap(file.recs, TimeWindow())
      ensures recordIndex == Some(records) && scanStartIndex == Some(scans)
      ensures cursor == RestoredCursor(dType, file, TimeWindow(), old(cursor))
    {
      var recordDict: map<int, nat> := map[];
      var scanStartDict: map<int, nat> := map[];
      var startingOffset := OffsetTell();
      Rewind();
      ghost var k: nat := 0;
      while true
        invariant k <= |file.recs| && cursor == PosOf(file, k)
        invariant recordDict == RecordMap(file.recs[..k], TimeWindow())
        invariant scanStartDict == ScanMap(file.recs[..k], TimeWindow())
        decreases |file.recs| - k
      {
        var offset := OffsetTell();
        DecodeAt(file, k);
        var d := Decode(file, cursor);
        if d.None? {
          break;
        }
        cursor := d.value.next;
        var rec := d.value.rec;
        if TimeWindow().Contains(rec.time) {
          recordDict := recordDict[rec.time := offset];
          if rec.scan == 1 {
            scanStartDict := scanStartDict[rec.time := offset];
          }
        }
        assert file.recs[..k + 1][..k] == file.recs[..k];
        k := k + 1;
      }
      assert file.recs[..k] == file.recs;
      recordIndex := Some(recordDict);
      match dType {
        case Dmap =>
          var _ := SeekIndexed(startingOffset);
        case Json =>
          cursor := startingOffset;
      }
      scanStartIndex := Some(scanStartDict);
      records, scans := recordDict, scanStartDict;
    }

    /** Moves the cursor to `offset`. Forced, unconditionally. Otherwise the
        index is built first if there is none yet, and the cursor moves only
        when `offset` is one of the indexed offsets; a refused seek leaves the
        cursor where it was (after that first index build, if there was one).
        Returns the resulting offset. */
    method OffsetSeek(offset: nat, force: bool) returns (o: nat)
      requires Valid() && ptrOpen
      modifies this`cursor, this`recordIndex, this`scanStartIndex
      ensures Valid() && o == cursor
      ensures force ==> cursor == offset
      ensures force ==> recordIndex == old(recordIndex) && scanStartIndex == old(scanStartIndex)
      ensures !force ==> recordIndex == Some(RecordMap(file.recs, TimeWindow()))
      ensures !force ==> scanStartIndex == Some(ScanMap(file.recs, TimeWindow()))
      ensures !force ==>
        var before := if old(recordIndex).None?
                      then RestoredCursor(dType, file, TimeWindow(), old(cursor))
                      else old(cursor);
        cursor == if IsIndexedOffset(RecordMap(file.recs, TimeWindow()), offset) then offset else before
    {
      if force {
        cursor := offset;
        o := cursor;
      } else {
        if recordIndex.None? {
          var _, _ := CreateIndex();
        }
        o := SeekIndexed(offset);
      }
    }

    /** Reads records from the cursor on, skipping those before the window,
        and returns the first one inside it. Returns None (and stops) at the
        end of the data or at the first record after the window, which is
        consumed. Returns None without moving when no file is open. */
    method Read() returns (r: Option<Rec>)
      requires Valid()
      modifies this`cursor
      ensures Valid()
      ensures !ptrOpen ==> r == None && cursor == old(cursor)
      ensures ptrOpen ==> ReadResult(r, cursor) == ReadFrom(file, TimeWindow(), old(cursor))
    {
      if !ptrOpen {
        return None;
      }
      while true
        invariant ReadFrom(file, TimeWindow(), cursor) == ReadFrom(file, TimeWindow(), old(cursor))
        decreases file.size - cursor
      {
        var d := Decode(file, cursor);
        if d.None? {
          return None;
        }
        cursor := d.value.next;
        if d.value.rec.time > eTime {
          return None;
        }
        if TimeWindow().Contains(d.value.rec.time) {
          return Some(d.value.rec);
        }
      }
    }
  }

  /** Rewinding and then telling gives offset 0, wherever the cursor was. */
  method RewindThenTell(p: DataPtr) returns (o: nat)
    requires p.Valid() && p.ptrOpen
    modifies p
    ensures o == 0
  {
    p.Rewind();
    o := p.OffsetTell();
  }

  /** Index, seek to the offset indexed for timestamp t, tell, read: the told
      offset is the indexed one and the record read has timestamp t. */
  method SeekTellRead(p: DataPtr, t: int) returns (offset: nat, r: Option<Rec>)
    requires p.Valid() && p.ptrOpen
    requires t in RecordMap(p.file.recs, p.TimeWindow())
    modifies p
    ensures offset == RecordMap(p.file.recs, p.TimeWindow())[t]
    ensures r.Some? && r.value.time == t && r.value.offset == offset
  {
    var index, _ := p.CreateIndex();
    var _ := p.OffsetSeek(index[t], false);
    offset := p.OffsetTell();
    r := p.Read();
    SeekThenRead(p.file, p.TimeWindow(), t);
  }

  /** Indexing twice in a row yields the same dictionaries and leaves the
      cursor where the first indexing left it. */
  method CreateIndexTwice(p: DataPtr)
    returns (records1: map<int, nat>, scans1: map<int, nat>, after1: nat,
             records2: map<int, nat>, scans2: map<int, nat>, after2: nat)
    requires p.Valid() && p.ptrOpen
    modifies p
    ensures records2 == records1 && scans2 == scans1 && after2 == after1
    ensures after1 == RestoredCursor(p.dType, p.file, p.TimeWindow(), old(p.cursor))
  {
    records1, scans1 := p.CreateIndex();
    after1 := p.OffsetTell();
    records2, scans2 := p.CreateIndex();
    after2 := p.OffsetTell();
  }
}
