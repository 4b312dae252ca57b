# DataPtr: a time-indexed record reader

This project models the record cursor and time index of davitpy's `DataPtr`
(the generic SuperDARN data pointer). A data file is read as a sequence of
records. Each record has a byte offset, a timestamp and a `scan` flag (1 when
the record starts a new radar scan). A reader is bound to a time window
`[sTime, eTime]` and to one data type, `dmap` or `json`, chosen when it is
built. Its state is:

- the file cursor (a byte offset);
- whether the file is open;
- `recordIndex`: timestamp to offset, for every in-window record;
- `scanStartIndex`: the same, for in-window records with `scan == 1`.

Five operations act on that state:

- `createIndex` scans the whole file from offset 0 and rebuilds both
  dictionaries, then tries to put the cursor back.
- `offsetSeek` moves the cursor. A forced seek always moves. A non-forced
  seek moves only to an indexed offset, building the index first if there is
  none.
- `offsetTell` reports the cursor.
- `rewind` moves the cursor to 0.
- `read` returns the next in-window record. It returns nothing at the end of
  the data or at the first record after the window.

Layout:

- `wrappers.dfy`: `Option`.
- `record_file.dfy` (module `RecordFile`): the file as records with
  strictly increasing offsets, and `Decode`, which stands in for the external
  dmap codec (read one record at an offset, report the next offset).
- `time_index.dfy` (module `TimeIndex`): the window, and the two
  dictionaries as functions of the record list, built record by record as the
  scan does. Also the lemmas that characterise them.
- `windowed_read.dfy` (module `WindowedRead`): what one `read` returns and
  where it leaves the cursor. Also an independent reference definition and
  the lemma tying the two together.
- `data_types.dfy` (module `DataTypes`): the class `DataPtr`, with the
  cursor and the dictionaries as fields and one method per operation. Each
  method's `ensures` ties the new state to the functions above. A few client
  methods chain the operations.
- `scenario.dfy` (module `Scenario`): the 2012-11-24 04:00–05:00 example
  with three records.

Timestamps are integers, for example microseconds since the epoch, because
the reader only compares them. Offsets are natural numbers.

In a few places the code behaves differently from how this reader is often
described. The model follows the code:

- After the index scan, the dmap reader restores the cursor with a
  NON-forced seek (`DataTypes.py:198`). So the cursor goes back to its
  starting offset only when that offset is an indexed one. Otherwise it stays
  at the end of the file, where the scan stopped. The json reader restores
  unconditionally (`DataTypes.py:325`).
- `read` consumes the first record later than `eTime` before it returns
  nothing. The cursor ends after that record, not at it.
- Nothing checks that `sTime <= eTime`. An inverted window holds no
  timestamp, so its index is empty. `read` tests `time > eTime` first, so it
  then stops at, and consumes, the first record later than `eTime`. Every
  other record is earlier than `sTime` and is skipped.
- With repeated timestamps, the later in-window record wins in each
  dictionary. As a result, `scanStartIndex` is not always a sub-map of
  `recordIndex`. Its keys are always keys of `recordIndex`, but a scan-start
  record followed by an ordinary record with the same time leaves the two
  dictionaries pointing at different offsets (`DuplicateTimeSplitsMaps`).
  With unique timestamps it is a sub-map (`ScanMapIsSubMap`).
- Opening twice is not guarded against. `read` returns nothing when no file
  is open.

## Model

| member | source | states |
|---|---|---|
| `RecordFile.Decode` | davitpy/pydarn/sdio/DataTypes.py:270-271 | the codec step: when a record starts at the offset, yields that record of the file and a next offset strictly after it and not past the end of the file; yields nothing exactly when no record starts there |
| `TimeIndex.RecordMap` | davitpy/pydarn/sdio/DataTypes.py:182-194 | every key of the record dictionary lies inside `[sTime, eTime]` |
| `TimeIndex.ScanMap` | davitpy/pydarn/sdio/DataTypes.py:191-195 | every key of the scan-start dictionary lies inside the window and is also a key of the record dictionary |
| `TimeIndex.RecordMapComplete` | davitpy/pydarn/sdio/DataTypes.py:191-194 | every in-window record of the file has its timestamp as a key of the record dictionary |
| `TimeIndex.RecordMapLastWins` | davitpy/pydarn/sdio/DataTypes.py:194 | an in-window record that no later record shares a timestamp with is the offset its timestamp maps to (later writes overwrite earlier ones) |
| `TimeIndex.RecordMapSound` | davitpy/pydarn/sdio/DataTypes.py:191-194 | each entry of the record dictionary is the offset of the last record in file order with that timestamp, and that timestamp is in the window |
| `TimeIndex.ScanMapComplete` | davitpy/pydarn/sdio/DataTypes.py:195 | every in-window record with `scan == 1` has its timestamp as a key of the scan-start dictionary |
| `TimeIndex.ScanMapLastWins` | davitpy/pydarn/sdio/DataTypes.py:195 | an in-window scan-start record that no later scan-start record shares a timestamp with is the offset its timestamp maps to |
| `TimeIndex.ScanMapSound` | davitpy/pydarn/sdio/DataTypes.py:191-195 | each entry of the scan-start dictionary is the offset of the last in-window record with that timestamp and `scan == 1` |
| `TimeIndex.ScanMapIsSubMap` | davitpy/pydarn/sdio/DataTypes.py:194-195 | with unique timestamps, the scan-start dictionary is a sub-map of the record dictionary (same keys give the same offsets) |
| `TimeIndex.DuplicateTimeSplitsMaps` | davitpy/pydarn/sdio/DataTypes.py:194-195 | a scan-start record followed by an ordinary record at the same time maps that time to different offsets in the two dictionaries |
| `TimeIndex.IsIndexedOffset` | davitpy/pydarn/sdio/DataTypes.py:217 | the test `offset in self.recordIndex.values()`: it holds when some timestamp of the index maps to the offset, and then the offset is one of the index's values |
| `TimeIndex.IndexedOffsetsAreRecordStarts` | davitpy/pydarn/sdio/DataTypes.py:184-194 | every indexed offset is the start of a record of the file, so never the end-of-file offset |
| `WindowedRead.ReadFrom` | davitpy/pydarn/sdio/DataTypes.py:269-281 | a record returned by a read is a record of the file whose timestamp lies inside `[sTime, eTime]` |
| `WindowedRead.FirstNotSkipped` | davitpy/pydarn/sdio/DataTypes.py:273-281 | reference for the read loop: the first record from a position on that the loop does not pass over; all records before it are earlier than `sTime` |
| `WindowedRead.ReadFromFirst` | davitpy/pydarn/sdio/DataTypes.py:269-281 | a read from record k returns the first record j from k on that is not earlier than the window, if j is inside the window. If j is after the window it returns nothing and still consumes j. With no such record it returns nothing at the end of the file |
| `WindowedRead.SeekThenRead` | davitpy/pydarn/sdio/DataTypes.py:527-533 | reading from the offset indexed for timestamp t returns the record with timestamp t that starts at that offset |
| `DataTypes.RestoredCursor` | davitpy/pydarn/sdio/DataTypes.py:196-198 | where the index scan leaves the cursor. dmap: the starting offset if it is indexed, else the end of file. json (line 325): the starting offset. Either way it is the starting offset or an offset where no record starts |
| `DataTypes.DmapRestoreOutcome` | davitpy/pydarn/sdio/DataTypes.py:196-198 | after the dmap index scan the cursor is on an indexed offset exactly when it started on one. When it did not, it is left at the end of the data, so the next read returns nothing |
| `DataTypes.DataPtr.constructor` | davitpy/pydarn/sdio/DataTypes.py:85-132 | the window and data type are fixed at construction; no file is open and neither dictionary exists yet |
| `DataTypes.DataPtr.Open` | davitpy/pydarn/sdio/DataTypes.py:143-147 | opening gives a fresh descriptor at offset 0; the dictionaries are kept |
| `DataTypes.DataPtr.Close` | davitpy/pydarn/sdio/DataTypes.py:149-156 | closing marks the file closed and changes nothing else |
| `DataTypes.DataPtr.OffsetTell` | davitpy/pydarn/sdio/DataTypes.py:222-232 | reports the current offset without moving |
| `DataTypes.DataPtr.Rewind` | davitpy/pydarn/sdio/DataTypes.py:234-242 | the cursor is at offset 0 afterwards |
| `DataTypes.DataPtr.SeekIndexed` | davitpy/pydarn/sdio/DataTypes.py:217-220 | with an index present, moves to the offset if it is one of the indexed offsets and otherwise stays; returns the resulting offset |
| `DataTypes.DataPtr.CreateIndex` | davitpy/pydarn/sdio/DataTypes.py:166-200 | both dictionaries are rebuilt from scratch as exactly the scan of the whole file (`RecordMap`, `ScanMap`). They are stored and returned. The cursor ends at `RestoredCursor`: the dmap reader uses a non-forced seek back, the json reader (lines 289-327) a forced one |
| `DataTypes.DataPtr.OffsetSeek` | davitpy/pydarn/sdio/DataTypes.py:202-220 | forced: the cursor becomes the offset and the index is untouched. Not forced: the index exists afterwards (built first if absent). The cursor moves to the offset exactly when it is an indexed offset; otherwise it stays where it was (after any index build). Returns the resulting offset |
| `DataTypes.DataPtr.Read` | davitpy/pydarn/sdio/DataTypes.py:244-281 | with the file open, the returned record and the new cursor are those of `ReadFrom` from the old cursor; with no open file it returns nothing and does not move |
| `DataTypes.RewindThenTell` | davitpy/pydarn/sdio/DataTypes.py:234-242 | rewinding and then telling gives 0 wherever the cursor was |
| `DataTypes.SeekTellRead` | davitpy/pydarn/sdio/DataTypes.py:519-533 | index, non-forced seek to `index[t]`, tell, read: the told offset is `index[t]` and the record read has timestamp t |
| `DataTypes.CreateIndexTwice` | davitpy/pydarn/sdio/DataTypes.py:177-200 | calling `createIndex` twice on an unchanged file returns identical dictionaries, and the cursor after the second call is where the first left it |
| `Scenario.ExampleIndexAndReads` | davitpy/pydarn/sdio/DataTypes.py:476-533 | for the 04:00–05:00 window over records at 04:04:39.141, 04:10 and 05:30 with scan flags 1, 0, 1: the index has the first two records and the scan-start index only the first. Successive reads return the first two records and then nothing |

## Left out

- File handling in `open`, `close` and `__del__` (`os.open`, `os.fdopen`) is I/O. The model keeps only an open/closed flag and the fresh cursor at 0. As in the source, there is no guard against opening twice, and `close` leaves the file object set.
- The dmap codec (`readDmapRec`, `getDmapOffset`, `setDmapOffset` in `davitpy.pydarn.dmapio`) is not part of this model. `RecordFile.Decode` stands in for it. Decoding at an offset where no record starts is modelled as end of data, with the cursor left unchanged; what the real codec does there is not modelled.
- `__read_json_rec` (JSON decoding with `json.loads`, lines 406-444) is not modelled. It cannot run as written: it uses an undefined `f` and `datetime`, `__readJson` calls it with an extra argument, and it stores a time difference rather than epoch seconds as `time`. The json reader's `read` loop is modelled with the same abstract decoder as dmap.
- DataTypes.DataPtr.OffsetSeek: when the json reader seeks without an index, the source builds it with the dmap indexer (line 340). The model builds it with the reader's own indexer, so for json the cursor is restored unconditionally.
- DataTypes.DataPtr.OffsetSeek: returns the resulting offset for both data types. For json the source returns what Python 2's `file.seek` returns, which is `None`.
- DataTypes.DataPtr.Rewind: returns nothing. The dmap version returns the new offset and the json version returns `True`. The json failure path (`False` when the seek raises) is not modelled, because seeking an open file to 0 cannot fail here.
- `eTime = None` is not modelled and `eTime` is required. The source compares datetimes directly against `eTime`, which fails for `None` rather than meaning "unbounded".
- The conversion of timestamps through `datetime.utcfromtimestamp` is not modelled. Timestamps are integers that are only compared.
- Not modelled: the `print` diagnostics, the empty template methods for new data types (lines 453-462), the `testing` subclass, and the self-test block with remote file fetching (lines 467-544). Only its seek/tell/read sequence is mirrored, by `SeekTellRead` and `Scenario`.
- The unused `offset = getDmapOffset(...)` in `__readDmap` has no effect and is not modelled.
- pydarn/proc/__init__.py is module import plumbing only, with no logic to model.
- DataTypes.DataPtr.OffsetTell, DataTypes.DataPtr.Rewind, DataTypes.DataPtr.CreateIndex and DataTypes.DataPtr.OffsetSeek `requires ptrOpen`. In the source, calling them before `open`, or after `close` has set `_fd = None` (line 156), passes `None` to the codec and raises. The model does not represent that exception.
- Concurrent use of one reader is not modelled. The source gives no locking.
