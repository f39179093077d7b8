/** `PrepareTrainData._split_convert_upload`: the rows of a matrix are cut
    into `n_parts` contiguous ranges of `n // n_parts` rows, the last range
    also taking the remainder, and each range is uploaded as one object.
    The protobuf conversion and the upload itself are not modelled: each
    upload is the event `Upload(key, start, end, payload)`. */
module Chunking {
  import opened Wrappers
  import opened Paths

  /** One uploaded object: its key, the row range it holds and those rows. */
  datatype Upload<T> = Upload(key: string, start: nat, end: nat, payload: seq<T>)

  datatype UploadError = ZeroDivisionError

  lemma MulMonotone(a: nat, b: nat, c: nat)
    requires a <= b
    ensures a * c <= b * c
  {}

  /** `start` of part `i`. */
  function PartStart(n: nat, nParts: nat, i: nat): nat
    requires nParts > 0
  {
    i * (n / nParts)
  }

  /** `end` of part `i`: the last part runs to the end of the matrix. */
  function PartEnd(n: nat, nParts: nat, i: nat): nat
    requires nParts > 0
  {
    if i + 1 == nParts then n else (i + 1) * (n / nParts)
  }

  lemma PartBounds(n: nat, nParts: nat, i: nat)
    requires 0 <= i < nParts
    ensures PartStart(n, nParts, i) <= PartEnd(n, nParts, i) <= n
  {
    var c := n / nParts;
    MulMonotone(i, i + 1, c);
    MulMonotone(i + 1, nParts, c);
    assert nParts * c <= n;
  }

  /** The object emitted for part `i`. */
  function PartUpload<T>(rows: seq<T>, prefix: string, t: Template, nParts: nat, i: nat): (u: Upload<T>)
    requires i < nParts
    ensures u.start <= u.end <= |rows| && u.payload == rows[u.start..u.end]
  {
    var n := |rows|;
    PartBounds(n, nParts, i);
    var start, end := PartStart(n, nParts, i), PartEnd(n, nParts, i);
    Upload(ObjectKey(prefix, t, i), start, end, rows[start..end])
  }

  /** The uploads of a call with `n_parts > 0`, in the order they are made. */
  function PlannedUploads<T>(rows: seq<T>, prefix: string, t: Template, nParts: nat): (us: seq<Upload<T>>)
    requires nParts > 0
    ensures |us| == nParts
  {
    seq(nParts, i requires 0 <= i < nParts => PartUpload(rows, prefix, t, nParts, i))
  }

  lemma PlannedPrefixStep<T>(rows: seq<T>, prefix: string, t: Template, nParts: nat, i: nat)
    requires i < nParts
    ensures var planned := PlannedUploads(rows, prefix, t, nParts);
      planned[..i + 1] == planned[..i] + [PartUpload(rows, prefix, t, nParts, i)]
  {
    var planned := PlannedUploads(rows, prefix, t, nParts);
    assert planned[i] == PartUpload(rows, prefix, t, nParts, i);
    assert planned[..i + 1] == planned[..i] + [planned[i]];
  }

  /** The loop of `_split_convert_upload`. `n_parts == 0` raises
      ZeroDivisionError when the chunk size is computed; a negative
      `n_parts` makes `range(n_parts)` empty, so nothing is uploaded. */
  method SplitConvertUpload<T>(rows: seq<T>, prefix: string, t: Template, nParts: int)
    returns (r: Result<seq<Upload<T>>, UploadError>)
    ensures nParts == 0 ==> r == Failure(ZeroDivisionError)
    ensures nParts < 0 ==> r == Success([])
    ensures nParts > 0 ==> r == Success(PlannedUploads(rows, prefix, t, nParts))
  {
    if nParts == 0 {
      return Failure(ZeroDivisionError);
    }
    if nParts < 0 {
      return Success([]);
    }
    var chunkSize := |rows| / nParts;
    var uploads: seq<Upload<T>> := [];
    var i := 0;
    while i < nParts
      invariant 0 <= i <= nParts
      invariant uploads == PlannedUploads(rows, prefix, t, nParts)[..i]
    {
      var start := i * chunkSize;
      var end := (i + 1) * chunkSize;
      if i + 1 == nParts {
        end := |rows|;
      }
      assert start == PartStart(|rows|, nParts, i) && end == PartEnd(|rows|, nParts, i);
      PartBounds(|rows|, nParts, i);
      var u := Upload(ObjectKey(prefix, t, i), start, end, rows[start..end]);
      assert u == PartUpload(rows, prefix, t, nParts, i);
      PlannedPrefixStep(rows, prefix, t, nParts, i);
      uploads := uploads + [u];
      i := i + 1;
    }
    assert uploads == PlannedUploads(rows, prefix, t, nParts);
    return Success(uploads);
  }

  /** `us` cuts `rows` into consecutive slices: the first starts at row 0,
      each starts where the previous one ended, the last ends at the last
      row, and each carries the rows of its range. */
  ghost predicate Tiles<T>(rows: seq<T>, us: seq<Upload<T>>) {
    && |us| > 0
    && us[0].start == 0
    && us[|us| - 1].end == |rows|
    && (forall i :: 0 <= i < |us| ==> us[i].start <= us[i].end <= |rows|)
    && (forall i :: 0 <= i < |us| ==> us[i].payload == rows[us[i].start..us[i].end])
    && (forall i :: 0 <= i < |us| - 1 ==> us[i].end == us[i + 1].start)
  }

  lemma PartsMeet(n: nat, nParts: nat, i: nat)
    requires i + 1 < nParts
    ensures PartEnd(n, nParts, i) == PartStart(n, nParts, i + 1)
  {}

  /** Planned upload `i` covers the range of part `i`. */
  lemma PlannedRange<T>(rows: seq<T>, prefix: string, t: Template, nParts: nat, i: nat)
    requires i < nParts
    ensures var u := PlannedUploads(rows, prefix, t, nParts)[i];
      u.start == PartStart(|rows|, nParts, i) && u.end == PartEnd(|rows|, nParts, i)
  {
    assert PlannedUploads(rows, prefix, t, nParts)[i] == PartUpload(rows, prefix, t, nParts, i);
  }

  /** Upload `i` ends where upload `i + 1` starts. */
  lemma UploadsMeet<T>(rows: seq<T>, prefix: string, t: Template, nParts: nat, i: nat)
    requires i + 1 < nParts
    ensures var us := PlannedUploads(rows, prefix, t, nParts);
      us[i].end == us[i + 1].start
  {
    PlannedRange(rows, prefix, t, nParts, i);
    PlannedRange(rows, prefix, t, nParts, i + 1);
    PartsMeet(|rows|, nParts, i);
  }

  lemma UploadsEnds<T>(rows: seq<T>, prefix: string, t: Template, nParts: nat)
    requires nParts > 0
    ensures var us := PlannedUploads(rows, prefix, t, nParts);
      |us| > 0 && us[0].start == 0 && us[|us| - 1].end == |rows|
  {
    PlannedRange(rows, prefix, t, nParts, 0);
    PlannedRange(rows, prefix, t, nParts, nParts - 1);
  }

  lemma UploadsInRange<T>(rows: seq<T>, prefix: string, t: Template, nParts: nat)
    requires nParts > 0
    ensures var us := PlannedUploads(rows, prefix, t, nParts);
      forall i :: 0 <= i < |us| ==> us[i].start <= us[i].end <= |rows| && us[i].payload == rows[us[i].start..us[i].end]
  {
    var us := PlannedUploads(rows, prefix, t, nParts);
    forall i | 0 <= i < nParts
      ensures us[i].start <= us[i].end <= |rows| && us[i].payload == rows[us[i].start..us[i].end]
    {
      assert us[i] == PartUpload(rows, prefix, t, nParts, i);
    }
  }

  lemma UploadsChain<T>(rows: seq<T>, prefix: string, t: Template, nParts: nat)
    requires nParts > 0
    ensures var us := PlannedUploads(rows, prefix, t, nParts);
      forall i :: 0 <= i < |us| - 1 ==> us[i].end == us[i + 1].start
  {
    forall i | 0 <= i < nParts - 1
      ensures PlannedUploads(rows, prefix, t, nParts)[i].end == PlannedUploads(rows, prefix, t, nParts)[i + 1].start
    {
      UploadsMeet(rows, prefix, t, nParts, i);
    }
  }

  /** The ranges are consecutive and cover the matrix. */
  lemma PartsAreConsecutive<T>(rows: seq<T>, prefix: string, t: Template, nParts: nat)
    requires nParts > 0
    ensures Tiles(rows, PlannedUploads(rows, prefix, t, nParts))
  {
    UploadsEnds(rows, prefix, t, nParts);
    UploadsInRange(rows, prefix, t, nParts);
    UploadsChain(rows, prefix, t, nParts);
  }

  /** The part that holds row `row`. */
  function PartOf(n: nat, nParts: nat, row: nat): nat
    requires nParts > 0
  {
    var c := n / nParts;
    if c == 0 || row / c >= nParts - 1 then nParts - 1 else row / c
  }

  lemma DivBounds(row: nat, c: nat)
    requires c > 0
    ensures (row / c) * c <= row < (row / c) * c + c
  {}

  lemma MulSucc(a: nat, c: nat)
    ensures (a + 1) * c == a * c + c
  {}

  lemma MulZero(a: nat)
    ensures a * 0 == 0
  {}

  /** Row `row` lies in the range of part PartOf(row). */
  lemma RowInOwnPart(n: nat, nParts: nat, row: nat)
    requires nParts > 0 && row < n
    ensures var p := PartOf(n, nParts, row);
      p < nParts && PartStart(n, nParts, p) <= row < PartEnd(n, nParts, p)
  {
    var c := n / nParts;
    var p := PartOf(n, nParts, row);
    if c == 0 {
      assert p == nParts - 1;
      assert PartStart(n, nParts, p) == 0 by { MulZero(p); }
    } else {
      var q := row / c;
      DivBounds(row, c);
      if q >= nParts - 1 {
        assert p == nParts - 1;
        assert PartStart(n, nParts, p) == p * c;
        MulMonotone(p, q, c);
      } else {
        assert p == q;
        assert PartStart(n, nParts, p) == q * c;
        assert PartEnd(n, nParts, p) == (q + 1) * c;
        MulSucc(q, c);
      }
    }
  }

  /** Row `row` lies in the range of no other part. */
  lemma RowNotInOtherPart(n: nat, nParts: nat, row: nat, i: nat)
    requires nParts > 0 && row < n && i < nParts && i != PartOf(n, nParts, row)
    ensures !(PartStart(n, nParts, i) <= row < PartEnd(n, nParts, i))
  {
    var c := n / nParts;
    var p := PartOf(n, nParts, row);
    if c == 0 {
      assert i < nParts - 1;
      assert PartEnd(n, nParts, i) == (i + 1) * 0;
      MulZero(i + 1);
    } else {
      var q := row / c;
      DivBounds(row, c);
      if i < p {
        assert i + 1 <= q;
        assert PartEnd(n, nParts, i) == (i + 1) * c;
        MulMonotone(i + 1, q, c);
      } else {
        assert p == q && q + 1 <= i;
        assert PartStart(n, nParts, i) == i * c;
        MulSucc(q, c);
        MulMonotone(q + 1, i, c);
      }
    }
  }

  /** Every row lands in exactly one part: part `i` holds row `row` if and
      only if `i` is PartOf(row). */
  lemma RowInExactlyOnePart(n: nat, nParts: nat, row: nat, i: nat)
    requires nParts > 0 && row < n && i < nParts
    ensures PartStart(n, nParts, i) <= row < PartEnd(n, nParts, i) <==> i == PartOf(n, nParts, row)
  {
    if i == PartOf(n, nParts, row) {
      RowInOwnPart(n, nParts, row);
    } else {
      RowNotInOtherPart(n, nParts, row, i);
    }
  }

  /** Every part but the last has `n // n_parts` rows; the last one also
      takes the remainder `n % n_parts`. */
  lemma PartSizes<T>(rows: seq<T>, prefix: string, t: Template, nParts: nat, i: nat)
    requires 0 < nParts && i < nParts
    ensures var u := PlannedUploads(rows, prefix, t, nParts)[i];
      |u.payload| == u.end - u.start ==
        if i < nParts - 1 then |rows| / nParts else |rows| / nParts + |rows| % nParts
  {
    var n, c := |rows|, |rows| / nParts;
    if i == nParts - 1 {
      assert n == nParts * c + n % nParts;
      assert (nParts - 1) * c == nParts * c - c;
    }
  }

  /** With fewer rows than parts the chunk size is zero: every part but the
      last is empty and the last holds all rows. */
  lemma FewRowsGoToLastPart<T>(rows: seq<T>, prefix: string, t: Template, nParts: nat)
    requires 0 < nParts && |rows| < nParts
    ensures var us := PlannedUploads(rows, prefix, t, nParts);
      && (forall i :: 0 <= i < nParts - 1 ==> us[i].payload == [])
      && us[nParts - 1].payload == rows
  {
    assert |rows| / nParts == 0;
  }

  /** Exactly `n_parts` objects, part `i` under key
      `os.path.join(prefix, template.format(i))`, and no two under one key. */
  lemma KeysArePartNamesAndDistinct<T>(rows: seq<T>, prefix: string, t: Template, nParts: nat)
    requires nParts > 0
    ensures var us := PlannedUploads(rows, prefix, t, nParts);
      && |us| == nParts
      && (forall i :: 0 <= i < nParts ==> us[i].key == ObjectKey(prefix, t, i))
      && (forall i, j :: 0 <= i < j < nParts ==> us[i].key != us[j].key)
  {
    var us := PlannedUploads(rows, prefix, t, nParts);
    forall i, j | 0 <= i < j < nParts
      ensures us[i].key != us[j].key
    {
      ObjectKeysDistinct(prefix, t, i, j);
    }
  }

  /** The rows of the uploads, in upload order. */
  function Concat<T>(us: seq<Upload<T>>): seq<T> {
    if us == [] then [] else Concat(us[..|us| - 1]) + us[|us| - 1].payload
  }

  lemma {:induction false} ConcatOfTiles<T>(rows: seq<T>, us: seq<Upload<T>>, k: nat)
    requires Tiles(rows, us) && 0 < k <= |us|
    ensures Concat(us[..k]) == rows[..us[k - 1].end]
  {
    var u := us[k - 1];
    assert us[..k][..k - 1] == us[..k - 1];
    assert Concat(us[..k]) == Concat(us[..k - 1]) + u.payload;
    if k == 1 {
      assert us[..0] == [];
      assert u.payload == rows[..u.end];
    } else {
      ConcatOfTiles(rows, us, k - 1);
      var mid := u.start;
      assert us[k - 2].end == mid;
      assert rows[..u.end] == rows[..mid] + rows[mid..u.end];
    }
  }

  /** Reading the uploaded objects back in order gives the whole matrix:
      no row is lost, repeated or reordered. */
  lemma UploadsReassemble<T>(rows: seq<T>, prefix: string, t: Template, nParts: nat)
    requires nParts > 0
    ensures Concat(PlannedUploads(rows, prefix, t, nParts)) == rows
  {
    var us := PlannedUploads(rows, prefix, t, nParts);
    PartsAreConsecutive(rows, prefix, t, nParts);
    ConcatOfTiles(rows, us, nParts);
    assert us[..nParts] == us;
  }
}
