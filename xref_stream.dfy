/** Decoding a cross-reference stream (section 7.5.8 of ISO 32000-1:2008) as
    `readpdf` does it (pdfaudit.py:536-568): the decoded data is cut into rows
    of `sum(W)` bytes (one more for the predictor selector when
    `DecodeParms.Predictor > 1`), each field is the unsigned big-endian value
    of its `W[k]` bytes, and with a predictor every later row is added field
    by field to the row before it, with no modulo. */
module XrefStream {
  import opened Common
  import opened XrefTable

  /** A Python slice index: negative counts from the end, then clamped. */
  function SliceIndex(len: nat, x: int): (r: nat)
    ensures r <= len
    ensures 0 <= x <= len ==> r == x
  {
    if x < 0 then (if len + x < 0 then 0 else len + x)
    else if x > len then len else x
  }

  /** Python's `s[a:b]`. */
  function PySlice<T>(s: seq<T>, a: int, b: int): (r: seq<T>)
    ensures 0 <= a <= b <= |s| ==> r == s[a..b]
  {
    var lo := SliceIndex(|s|, a);
    var hi := SliceIndex(|s|, b);
    if lo < hi then s[lo..hi] else []
  }

  /** `[s[i:i+n] for i in range(0, len(s), n)]` */
  function Rows(s: seq<Byte>, n: nat): (r: seq<seq<Byte>>)
    requires n > 0
    decreases |s|
  {
    if s == [] then [] else if |s| <= n then [s] else [s[..n]] + Rows(s[n..], n)
  }

  function Min(a: int, b: int): int { if a < b then a else b }

  /** Row `i` is the `i`-th slice of `n` bytes (the last one may be shorter). */
  lemma {:induction false} RowsAt(s: seq<Byte>, n: nat, i: nat, b: nat)
    requires n > 0 && b == i * n && b < |s|
    ensures |Rows(s, n)| > i
    ensures Rows(s, n)[i] == s[b..Min(b + n, |s|)]
    decreases |s|
  {
    if i > 0 {
      MulStep(i, n);
      RowsAt(s[n..], n, i - 1, b - n);
      SuffixSlice(s, n, b - n, Min(b + n, |s|) - n);
    }
  }

  lemma MulStep(i: nat, n: nat)
    requires i > 0
    ensures i * n == (i - 1) * n + n
  {
  }

  lemma SuffixSlice(s: seq<Byte>, n: nat, lo: nat, hi: nat)
    requires n <= |s| && lo <= hi <= |s| - n
    ensures s[n..][lo..hi] == s[n + lo..n + hi]
  {
    SliceOfSlice(s, n, |s|, lo, hi);
  }

  lemma SliceOfSlice(s: seq<Byte>, b: nat, e: nat, lo: nat, hi: nat)
    requires b <= e <= |s| && lo <= hi <= e - b
    ensures s[b..e][lo..hi] == s[b + lo..b + hi]
  {
    assert forall k :: 0 <= k < hi - lo ==> s[b..e][lo..hi][k] == s[b + lo + k];
  }

  /** The rows cover the data: the last row starts before its end and each
      row but the last has `n` bytes, as `range(0, len(s), n)` promises. */
  lemma {:induction false} RowsCount(s: seq<Byte>, n: nat)
    requires n > 0
    ensures s == [] ==> Rows(s, n) == []
    ensures s != [] ==> (|Rows(s, n)| - 1) * n < |s| <= |Rows(s, n)| * n
    decreases |s|
  {
    if |s| > n {
      var k := |Rows(s[n..], n)|;
      RowsCount(s[n..], n);
      assert (k + 1) * n == k * n + n;
      assert (k + 1 - 1) * n == k * n;
      assert (k - 1) * n + n == k * n;
    }
  }

  function Pow256(k: nat): (r: nat)
    ensures r > 0
  {
    if k == 0 then 1 else 256 * Pow256(k - 1)
  }

  /** `int.from_bytes(s, byteorder='big', signed=False)` */
  function BigEndian(s: seq<Byte>): (r: nat)
    ensures r < Pow256(|s|)
  {
    if s == [] then 0 else BigEndian(s[..|s| - 1]) * 256 + s[|s| - 1]
  }

  /** The `w` bytes that write `v` big-endian. */
  function ToBigEndian(v: nat, w: nat): (r: seq<Byte>)
    ensures |r| == w
  {
    if w == 0 then [] else ToBigEndian(v / 256, w - 1) + [v % 256]
  }

  /** Writing a value that fits and reading it back gives the value. */
  lemma {:induction false} BigEndianRoundTrip(v: nat, w: nat)
    requires v < Pow256(w)
    ensures BigEndian(ToBigEndian(v, w)) == v
  {
    if w > 0 {
      var s := ToBigEndian(v, w);
      assert s[..w - 1] == ToBigEndian(v / 256, w - 1);
      BigEndianRoundTrip(v / 256, w - 1);
    }
  }

  /** Reading a field and writing it back gives the field: the value
      determines the bytes. */
  lemma {:induction false} BigEndianInjective(s: seq<Byte>)
    ensures ToBigEndian(BigEndian(s), |s|) == s
  {
    if s != [] {
      var p, b := s[..|s| - 1], s[|s| - 1];
      var v := BigEndian(s);
      assert v == BigEndian(p) * 256 + b as nat;
      DivMod256(BigEndian(p), b as nat);
      assert ToBigEndian(v, |s|) == ToBigEndian(BigEndian(p), |p|) + [b];
      BigEndianInjective(p);
      assert s == p + [b];
    }
  }

  lemma DivMod256(a: nat, b: nat)
    requires b < 256
    ensures (a * 256 + b) / 256 == a && (a * 256 + b) % 256 == b
  {
  }

  /** The three fields of one row's field bytes: field k is the slice from
      `sum(W[0:k])` to `sum(W[0:k]) + W[k]`. */
  function Fields(field: seq<Byte>, w0: int, w1: int, w2: int): (seq<Byte>, seq<Byte>, seq<Byte>)
  {
    (PySlice(field, 0, w0), PySlice(field, w0, w0 + w1), PySlice(field, w0 + w1, w0 + w1 + w2))
  }

  /** Each field read as an unsigned big-endian number. */
  function EntryOf(field: seq<Byte>, w0: int, w1: int, w2: int): Entry
  {
    var f := Fields(field, w0, w1, w2);
    Entry(BigEndian(f.0), BigEndian(f.1), BigEndian(f.2))
  }

  /** With non-negative widths and a full row, the fields are the plain
      consecutive slices of the row. */
  lemma FieldsOfFullRow(field: seq<Byte>, w0: nat, w1: nat, w2: nat)
    requires |field| >= w0 + w1 + w2
    ensures Fields(field, w0, w1, w2) == (field[..w0], field[w0..w0 + w1], field[w0 + w1..w0 + w1 + w2])
  {
    assert field[0..w0] == field[..w0];
  }

  /** The decoded rows: each row's selector (its first byte) and its entry.
      A row width of zero is Python's `range` with step 0; a negative width
      gives no rows. */
  function DecodeRows(data: seq<Byte>, w0: int, w1: int, w2: int, predictor: bool):
    (r: Result<(seq<Byte>, seq<Entry>)>)
    ensures r.Success? ==> |r.value.0| == |r.value.1|
  {
    var n := w0 + w1 + w2 + (if predictor then 1 else 0);
    if n == 0 then Failure(ZeroRowWidth)
    else if n < 0 then Success(([], []))
    else
      var rows := Rows(data, n);
      RowsNonEmpty(data, n);
      Success((Selectors(rows), Entries(rows, if predictor then 1 else 0, n, w0, w1, w2)))
  }

  lemma {:induction false} RowsNonEmpty(s: seq<Byte>, n: nat)
    requires n > 0
    ensures forall i :: 0 <= i < |Rows(s, n)| ==> |Rows(s, n)[i]| > 0
    decreases |s|
  {
    if |s| > n {
      RowsNonEmpty(s[n..], n);
    }
  }

  /** `[i[0] for i in objectlist]` */
  function Selectors(rows: seq<seq<Byte>>): (r: seq<Byte>)
    requires forall i :: 0 <= i < |rows| ==> |rows[i]| > 0
    ensures |r| == |rows| && forall i :: 0 <= i < |rows| ==> r[i] == rows[i][0]
  {
    if rows == [] then [] else [rows[0][0]] + Selectors(rows[1..])
  }

  /** The entries of `[i[fieldstart:n] for i in objectlist]`. */
  function Entries(rows: seq<seq<Byte>>, start: nat, n: nat, w0: int, w1: int, w2: int): (r: seq<Entry>)
    ensures |r| == |rows|
    ensures forall i :: 0 <= i < |rows| ==> r[i] == EntryOf(PySlice(rows[i], start, n), w0, w1, w2)
  {
    if rows == [] then []
    else [EntryOf(PySlice(rows[0], start, n), w0, w1, w2)] + Entries(rows[1..], start, n, w0, w1, w2)
  }

  /** Without a predictor, field k of entry i is the big-endian value of its
      bytes in the decoded data. */
  lemma EntryFields(data: seq<Byte>, w0: nat, w1: nat, w2: nat, i: nat, b: nat)
    requires w0 + w1 + w2 > 0
    requires b == i * (w0 + w1 + w2) && b + w0 + w1 + w2 <= |data|
    ensures DecodeRows(data, w0, w1, w2, false).Success?
    ensures var es := DecodeRows(data, w0, w1, w2, false).value.1;
      && i < |es|
      && es[i] == Entry(
           BigEndian(data[b..b + w0]),
           BigEndian(data[b + w0..b + w0 + w1]),
           BigEndian(data[b + w0 + w1..b + w0 + w1 + w2]))
  {
    var n := w0 + w1 + w2;
    RowsAt(data, n, i, b);
    DecodeRowsPlain(data, w0, w1, w2);
    RowFields(Rows(data, n)[i], data, b, w0, w1, w2);
  }

  /** Without a predictor the entries are those of the plain rows. */
  lemma DecodeRowsPlain(data: seq<Byte>, w0: nat, w1: nat, w2: nat)
    requires w0 + w1 + w2 > 0
    ensures var rows := Rows(data, w0 + w1 + w2);
      DecodeRows(data, w0, w1, w2, false).Success? &&
      DecodeRows(data, w0, w1, w2, false).value.1 == Entries(rows, 0, w0 + w1 + w2, w0, w1, w2)
  {
    RowsNonEmpty(data, w0 + w1 + w2);
  }

  /** The fields of the row at byte `b` are the slices of the data at
      `b`, `b + W[0]` and `b + W[0] + W[1]`. */
  lemma RowFields(row: seq<Byte>, data: seq<Byte>, b: nat, w0: nat, w1: nat, w2: nat)
    requires b + w0 + w1 + w2 <= |data|
    requires row == data[b..Min(b + w0 + w1 + w2, |data|)]
    ensures Fields(PySlice(row, 0, w0 + w1 + w2), w0, w1, w2) ==
      (data[b..b + w0], data[b + w0..b + w0 + w1], data[b + w0 + w1..b + w0 + w1 + w2])
  {
    var n := w0 + w1 + w2;
    assert row == data[b..b + n];
    assert PySlice(row, 0, n) == row;
    FieldsOfFullRow(row, w0, w1, w2);
    SliceOfSlice(data, b, b + n, 0, w0);
    SliceOfSlice(data, b, b + n, w0, w0 + w1);
    SliceOfSlice(data, b, b + n, w0 + w1, n);
    assert row[..w0] == row[0..w0];
  }
}
