/**
 * The worked example of a reader over 2012-11-24 04:00 to 05:00 UTC, with
 * timestamps in microseconds since the epoch: three records at 04:04:39.141,
 * 04:10:00 and 05:30:00 whose scan flags are 1, 0 and 1.
 */
module Scenario {
  import opened Wrappers
  import opened RecordFile
  import opened TimeIndex
  import opened WindowedRead

  const Start: int := 1353729600000000   // 2012-11-24 04:00:00
  const End: int := 1353733200000000     // 2012-11-24 05:00:00
  const T1: int := 1353729879141000      // 04:04:39.141
  const T2: int := 1353730200000000      // 04:10:00
  const T3: int := 1353735000000000      // 05:30:00

  function ExampleFile(): (f: File)
    ensures WellFormed(f)
  {
    File([Rec(0, T1, 1), Rec(100, T2, 0), Rec(200, T3, 1)], 300)
  }

  /** The index holds the two records inside the hour, the scan-start index
      only the first; reading from the start returns the first two records and
      then signals the end of the data, having consumed the 05:30 record. */
  lemma ExampleIndexAndReads()
    ensures RecordMap(ExampleFile().recs, Window(Start, End)) == map[T1 := 0, T2 := 100]
    ensures ScanMap(ExampleFile().recs, Window(Start, End)) == map[T1 := 0]
    ensures ReadFrom(ExampleFile(), Window(Start, End), 0) == ReadResult(Some(Rec(0, T1, 1)), 100)
    ensures ReadFrom(ExampleFile(), Window(Start, End), 100) == ReadResult(Some(Rec(100, T2, 0)), 200)
    ensures ReadFrom(ExampleFile(), Window(Start, End), 200) == ReadResult(None, 300)
    ensures ReadFrom(ExampleFile(), Window(Start, End), 300) == ReadResult(None, 300)
  {
    var f := ExampleFile();
    assert f.recs[..2] == [Rec(0, T1, 1), Rec(100, T2, 0)];
    assert f.recs[..2][..1] == [Rec(0, T1, 1)];
    assert f.recs[..2][..1][..0] == [];
    var w := Window(Start, End);
    assert RecordMap(f.recs[..2][..1], w) == map[T1 := 0];
    assert RecordMap(f.recs[..2], w) == map[T1 := 0, T2 := 100];
    assert ScanMap(f.recs[..2], w) == map[T1 := 0];
    DecodeAt(f, 0);
    DecodeAt(f, 1);
    DecodeAt(f, 2);
    DecodeAt(f, 3);
  }
}
