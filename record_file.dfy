/**
 * A data file seen as a sequence of records.
 *
 * The record codec (reading one record at the current offset, getting and
 * setting the offset) is an external collaborator; this module stands in for
 * it. A file is the list of its records, each with the byte offset where it
 * starts, its timestamp and its `scan` flag, plus the offset of the end of the
 * file. Decoding at an offset yields the record starting there and the offset
 * of the next record (or of the end of the file).
 */
module RecordFile {
  import opened Wrappers

  /** One record: where it starts, its timestamp (an integer, e.g. microseconds
      since the epoch) and its scan flag (1 for the first record of a scan). */
  datatype Rec = Rec(offset: nat, time: int, scan: int)

  /** The records of a file, in file order, and the offset of its end. */
  datatype File = File(recs: seq<Rec>, size: nat)

  /** What the codec yields at an offset where a record starts. */
  datatype Decoded = Decoded(rec: Rec, next: nat)

  /** Records start at offset 0 (an empty file ends there), follow each other
      and lie before the end. */
  ghost predicate WellFormed(f: File)
  {
    && (if |f.recs| > 0 then f.recs[0].offset == 0 else f.size == 0)
    && (forall i, j :: 0 <= i < j < |f.recs| ==> f.recs[i].offset < f.recs[j].offset)
    && (forall i :: 0 <= i < |f.recs| ==> f.recs[i].offset < f.size)
  }

  /** The offset of record k, or the end of the file when k is past the last. */
  function PosOf(f: File, k: nat): (p: nat)
    requires WellFormed(f) && k <= |f.recs|
    ensures k < |f.recs| ==> p < f.size
    ensures k == |f.recs| <==> p == f.size
    ensures forall j :: 0 <= j < k ==> f.recs[j].offset < p
  {
    if k < |f.recs| then f.recs[k].offset else f.size
  }

  /** Index of the record that starts at offset pos, searching from index i. */
  function FindFrom(recs: seq<Rec>, pos: nat, i: nat): (k: Option<nat>)
    requires i <= |recs|
    ensures k.Some? ==> i <= k.value < |recs| && recs[k.value].offset == pos
    ensures k.None? ==> forall j :: i <= j < |recs| ==> recs[j].offset != pos
    decreases |recs| - i
  {
    if i == |recs| then None
    else if recs[i].offset == pos then Some(i)
    else FindFrom(recs, pos, i + 1)
  }

  /** The codec's "read one record at the current offset": the record that
      starts at pos and the offset after it, or None (end of data) when no
      record starts at pos. */
  function Decode(f: File, pos: nat): (d: Option<Decoded>)
    requires WellFormed(f)
    ensures d.Some? ==> pos == d.value.rec.offset < d.value.next <= f.size
    ensures d.Some? ==> d.value.rec in f.recs
    ensures d.None? <==> forall j :: 0 <= j < |f.recs| ==> f.recs[j].offset != pos
  {
    match FindFrom(f.recs, pos, 0)
    case None => None
    case Some(k) => Some(Decoded(f.recs[k], PosOf(f, k + 1)))
  }

  /** Decoding at the start of record k yields record k and the start of
      record k + 1; decoding at the end of the file yields nothing. */
  lemma DecodeAt(f: File, k: nat)
    requires WellFormed(f) && k <= |f.recs|
    ensures k < |f.recs| ==> Decode(f, PosOf(f, k)) == Some(Decoded(f.recs[k], PosOf(f, k + 1)))
    ensures k == |f.recs| ==> Decode(f, PosOf(f, k)) == None
  {
  }
}
