/** The cross-reference table `crossreflist`, keyed by (object number,
    generation) and holding byte offsets, and the row updates of the classic
    table (pdfaudit.py:468-478) and of a cross-reference stream
    (pdfaudit.py:571-585). */
module XrefTable {
  import opened Common
  import OD = OrderedDict

  type Key = (int, int)
  type Table = OD.Dict<Key, int>

  /** The three integer fields of one decoded cross-reference stream row. */
  datatype Entry = Entry(kind: int, f2: int, f3: int)

  /** The free rule: when `(i, gen)` is present, `(i, gen - 1)` is deleted,
      and a missing `(i, gen - 1)` is then a KeyError; otherwise nothing
      changes. */
  function Free(t: Table, i: int, gen: int): (r: Result<Table>)
    ensures !OD.Has(t, (i, gen)) ==> r == Success(t)
    ensures OD.Has(t, (i, gen)) && !OD.Has(t, (i, gen - 1)) ==> r == Failure(MissingKey)
    ensures OD.Has(t, (i, gen)) && OD.Has(t, (i, gen - 1)) ==>
      && r.Success?
      && !OD.Has(r.value, (i, gen - 1))
      && forall k :: k != (i, gen - 1) ==> OD.Get(r.value, k) == OD.Get(t, k)
  {
    if !OD.Has(t, (i, gen)) then Success(t)
    else if !OD.Has(t, (i, gen - 1)) then Failure(MissingKey)
    else Success(OD.Remove(t, (i, gen - 1)))
  }

  /** One row `offset gen n|f` of a classic table for object `i`: 'n' inserts
      or overwrites, any other marker is taken as 'f'. */
  function TableRow(t: Table, i: int, offset: int, gen: int, inUse: string): (r: Result<Table>)
    ensures inUse == "n" ==> r.Success? && OD.Get(r.value, (i, gen)) == Some(offset)
    ensures inUse == "n" ==> forall k :: k != (i, gen) ==> OD.Get(r.value, k) == OD.Get(t, k)
    ensures inUse != "n" ==> r == Free(t, i, gen)
  {
    if inUse == "n" then Success(OD.Put(t, (i, gen), offset)) else Free(t, i, gen)
  }

  /** Row `i` of a cross-reference stream: type 1 is an object in use at
      offset `f2` with generation `f3`, type 0 is the free rule, and type 2
      (compressed) or any other type changes nothing. */
  function StreamRow(t: Table, i: int, e: Entry): (r: Result<Table>)
    ensures e.kind == 1 ==> r.Success? && OD.Get(r.value, (i, e.f3)) == Some(e.f2)
    ensures e.kind == 1 ==> forall k :: k != (i, e.f3) ==> OD.Get(r.value, k) == OD.Get(t, k)
    ensures e.kind == 0 ==> r == Free(t, i, e.f3)
    ensures e.kind != 0 && e.kind != 1 ==> r == Success(t)
  {
    if e.kind == 1 then Success(OD.Put(t, (i, e.f3), e.f2))
    else if e.kind == 0 then Free(t, i, e.f3)
    else Success(t)
  }

  /** A classic row as read: object number, offset, generation and marker. */
  datatype Row = Row(num: int, offset: int, gen: int, marker: string)

  /** The rows of a classic table applied in order. */
  function TableRows(t: Table, rows: seq<Row>): Result<Table>
    decreases |rows|
  {
    if rows == [] then Success(t)
    else match TableRow(t, rows[0].num, rows[0].offset, rows[0].gen, rows[0].marker)
      case Failure(e) => Failure(e)
      case Success(t') => TableRows(t', rows[1..])
  }

  /** Rows applied in two runs are the rows applied in one. */
  lemma {:induction false} TableRowsAppend(t: Table, a: seq<Row>, b: seq<Row>)
    ensures TableRows(t, a + b) ==
      match TableRows(t, a)
      case Failure(e) => Failure(e)
      case Success(t') => TableRows(t', b)
    decreases |a|
  {
    if a == [] {
      assert a + b == b;
    } else {
      assert (a + b)[0] == a[0];
      assert (a + b)[1..] == a[1..] + b;
      match TableRow(t, a[0].num, a[0].offset, a[0].gen, a[0].marker)
      case Failure(e) =>
      case Success(t') => TableRowsAppend(t', a[1..], b);
    }
  }

  /** A key whose object number no row mentions keeps its entry. */
  lemma {:induction false} TableRowsFrame(t: Table, rows: seq<Row>, k: Key)
    requires TableRows(t, rows).Success?
    requires forall j :: 0 <= j < |rows| ==> rows[j].num != k.0
    ensures OD.Get(TableRows(t, rows).value, k) == OD.Get(t, k)
    decreases |rows|
  {
    if rows != [] {
      var t' := TableRow(t, rows[0].num, rows[0].offset, rows[0].gen, rows[0].marker).value;
      TableRowsFrame(t', rows[1..], k);
    }
  }

  /** The last row that mentions an object decides its in-use entry: an 'n'
      row for `k` that no later row for the same object follows leaves `k` at
      that row's offset, whatever the table held before. */
  lemma {:induction false} TableRowsLastWins(t: Table, rows: seq<Row>, j: nat, k: Key)
    requires TableRows(t, rows).Success?
    requires j < |rows| && rows[j].marker == "n" && (rows[j].num, rows[j].gen) == k
    requires forall m :: j < m < |rows| ==> rows[m].num != k.0
    ensures OD.Get(TableRows(t, rows).value, k) == Some(rows[j].offset)
    decreases |rows|
  {
    var t' := TableRow(t, rows[0].num, rows[0].offset, rows[0].gen, rows[0].marker).value;
    if j == 0 {
      TableRowsFrame(t', rows[1..], k);
    } else {
      TableRowsLastWins(t', rows[1..], j - 1, k);
    }
  }

  /** The free rule tests the generation the row names, not the one it
      deletes: an object freed with generation 1 keeps its generation-0
      offset. */
  lemma FreeKeepsEarlierGeneration()
    ensures Free([((3, 0), 100)], 3, 1) == Success([((3, 0), 100)])
  {
    assert !OD.Has([((3, 0), 100)], (3, 1));
  }

  /** A cross-reference stream's rows applied in order; row `i` describes
      object `first + i`. */
  function StreamRows(t: Table, first: int, es: seq<Entry>): Result<Table>
    decreases |es|
  {
    if es == [] then Success(t)
    else match StreamRow(t, first, es[0])
      case Failure(e) => Failure(e)
      case Success(t') => StreamRows(t', first + 1, es[1..])
  }

  /** Compressed (type 2) and unknown rows leave the table as it was. */
  lemma {:induction false} StreamRowsIgnoreOtherTypes(t: Table, first: int, es: seq<Entry>)
    requires forall j :: 0 <= j < |es| ==> es[j].kind != 0 && es[j].kind != 1
    ensures StreamRows(t, first, es) == Success(t)
    decreases |es|
  {
    if es != [] {
      StreamRowsIgnoreOtherTypes(t, first + 1, es[1..]);
    }
  }

  /** A type-1 row that is the stream's last word on object `first + j` sets
      that object's entry. */
  lemma {:induction false} StreamRowsInUse(t: Table, first: int, es: seq<Entry>, j: nat)
    requires StreamRows(t, first, es).Success?
    requires j < |es| && es[j].kind == 1
    ensures OD.Get(StreamRows(t, first, es).value, (first + j, es[j].f3)) == Some(es[j].f2)
    decreases |es|
  {
    var t' := StreamRow(t, first, es[0]).value;
    if j == 0 {
      StreamRowsFrame(t', first + 1, es[1..], (first, es[0].f3));
    } else {
      StreamRowsInUse(t', first + 1, es[1..], j - 1);
    }
  }

  /** Rows for other objects do not touch a key. */
  lemma {:induction false} StreamRowsFrame(t: Table, first: int, es: seq<Entry>, k: Key)
    requires StreamRows(t, first, es).Success?
    requires k.0 < first
    ensures OD.Get(StreamRows(t, first, es).value, k) == OD.Get(t, k)
    decreases |es|
  {
    if es != [] {
      var t' := StreamRow(t, first, es[0]).value;
      StreamRowsFrame(t', first + 1, es[1..], k);
    }
  }
}
