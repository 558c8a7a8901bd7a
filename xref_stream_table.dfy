/** What a cross-reference stream dictionary does to the cross-reference table
    (pdfaudit.py:534-585): the field widths `W` and the predictor flag are read
    from the dictionary, the `Stream` entry is cut into rows and decoded, the
    predictor is applied, and the rows are applied to the table, row `i`
    describing object `i` (`Index` is not read). */
module XrefStreamTable {
  import opened Common
  import opened Values
  import opened XrefTable
  import opened XrefStream
  import opened XrefPredictor
  import OD = OrderedDict

  datatype Layout = Layout(w0: int, w1: int, w2: int, predictor: bool)

  /** `W` made three integers, and whether `DecodeParms.Predictor` (default
      "0") is above 1; a `DecodeParms` that is not a dictionary has no
      `.get`. */
  function LayoutOf(xd: seq<(string, Value)>): (r: Result<Layout>)
    ensures r.Success? ==> FirstThree(Lookup(xd, "W")).Success?
    ensures r.Success? && r.value.predictor ==> OD.Has(xd, "DecodeParms") && Lookup(xd, "DecodeParms").Dict?
    ensures !OD.Has(xd, "W") ==> r == Failure(WrongType)
  {
    var w :- FirstThree(Lookup(xd, "W"));
    var w0 :- Num(w.0);
    var w1 :- Num(w.1);
    var w2 :- Num(w.2);
    if OD.Has(xd, "DecodeParms") then
      var dp :- Values.Entries(Lookup(xd, "DecodeParms"));
      var p :- Num(OD.GetOr(dp, "Predictor", Str("0")));
      Success(Layout(w0, w1, w2, p > 1))
    else Success(Layout(w0, w1, w2, false))
  }

  /** Python's `len` on a value that has one. */
  function SizeOf(v: Value): nat
  {
    match v
    case Str(s) => |s|
    case Bytes(b) => |b|
    case List(items) => |items|
    case Dict(entries) => |entries|
    case NoneV => 0
  }

  /** The selectors and decoded entries of the `Stream` entry. `len(None)`
      raises before `range` refuses a zero step; the `Size` entry is
      concatenated to a message, so it must be a string; a stream that is
      not bytes fails once there is a row to convert. */
  function XrefRows(stream: Value, l: Layout, size: Value): (r: Result<(seq<Byte>, seq<Entry>)>)
    ensures r.Success? ==> |r.value.0| == |r.value.1|
    ensures stream.NoneV? ==> r == Failure(WrongType)
    ensures r.Success? ==> size.Str?
    ensures r.Success? && !stream.Bytes? ==> r.value.1 == []
  {
    var n := l.w0 + l.w1 + l.w2 + (if l.predictor then 1 else 0);
    if stream.NoneV? then Failure(WrongType)
    else if n == 0 then Failure(ZeroRowWidth)
    else if !size.Str? then Failure(WrongType)
    else if stream.Bytes? then DecodeRows(stream.b, l.w0, l.w1, l.w2, l.predictor)
    else if n < 0 || SizeOf(stream) == 0 then Success(([], []))
    else Failure(WrongType)
  }

  /** The entries after the predictor: unchanged without one, running sums
      when every later row is an "Up" row, and a stop otherwise. */
  function Predicted(sel: seq<Byte>, es: seq<Entry>, predictor: bool): (r: Result<seq<Entry>>)
    ensures !predictor ==> r == Success(es)
    ensures predictor ==> (r.Success? <==> AllUp(sel))
    ensures r.Success? ==> |r.value| == |es|
    ensures r.Failure? ==> r.error == PredictorNotImplemented
  {
    if !predictor then Success(es)
    else if AllUp(sel) then Success(RunningSums(es))
    else Failure(PredictorNotImplemented)
  }

  /** The table a cross-reference stream dictionary leaves. */
  function StreamTable(t: Table, xd: seq<(string, Value)>): Result<Table>
  {
    var l :- LayoutOf(xd);
    var rows :- XrefRows(Lookup(xd, "Stream"), l, Lookup(xd, "Size"));
    var es :- Predicted(rows.0, rows.1, l.predictor);
    StreamRows(t, 0, es)
  }

  /** Without a predictor, a full row `i` of type 1 puts object `i` into the
      table at the offset of its second field, under the generation of its
      third field. */
  lemma StreamTableInUse(t: Table, xd: seq<(string, Value)>, data: seq<Byte>,
                         w0: nat, w1: nat, w2: nat, i: nat, b: nat)
    requires LayoutOf(xd) == Success(Layout(w0, w1, w2, false)) && w0 + w1 + w2 > 0
    requires Lookup(xd, "Stream") == Bytes(data) && Lookup(xd, "Size").Str?
    requires b == i * (w0 + w1 + w2) && b + w0 + w1 + w2 <= |data|
    requires BigEndian(data[b..b + w0]) == 1
    requires StreamTable(t, xd).Success?
    ensures OD.Get(StreamTable(t, xd).value, (i, BigEndian(data[b + w0 + w1..b + w0 + w1 + w2])))
      == Some(BigEndian(data[b + w0..b + w0 + w1]))
  {
    PlainStreamTable(t, xd, data, w0, w1, w2);
    RowInUse(t, data, w0, w1, w2, i, b);
  }

  lemma RowInUse(t: Table, data: seq<Byte>, w0: nat, w1: nat, w2: nat, i: nat, b: nat)
    requires w0 + w1 + w2 > 0
    requires b == i * (w0 + w1 + w2) && b + w0 + w1 + w2 <= |data|
    requires BigEndian(data[b..b + w0]) == 1
    requires DecodeRows(data, w0, w1, w2, false).Success?
    requires StreamRows(t, 0, DecodeRows(data, w0, w1, w2, false).value.1).Success?
    ensures OD.Get(StreamRows(t, 0, DecodeRows(data, w0, w1, w2, false).value.1).value,
                   (i, BigEndian(data[b + w0 + w1..b + w0 + w1 + w2])))
      == Some(BigEndian(data[b + w0..b + w0 + w1]))
  {
    EntryFields(data, w0, w1, w2, i, b);
    InUseAt(t, DecodeRows(data, w0, w1, w2, false).value.1, i,
            BigEndian(data[b + w0..b + w0 + w1]), BigEndian(data[b + w0 + w1..b + w0 + w1 + w2]));
  }

  lemma InUseAt(t: Table, es: seq<Entry>, i: nat, offset: int, gen: int)
    requires i < |es| && es[i] == Entry(1, offset, gen)
    requires StreamRows(t, 0, es).Success?
    ensures OD.Get(StreamRows(t, 0, es).value, (i, gen)) == Some(offset)
  {
    StreamRowsInUse(t, 0, es, i);
  }

  lemma PlainStreamTable(t: Table, xd: seq<(string, Value)>, data: seq<Byte>, w0: nat, w1: nat, w2: nat)
    requires LayoutOf(xd) == Success(Layout(w0, w1, w2, false)) && w0 + w1 + w2 > 0
    requires Lookup(xd, "Stream") == Bytes(data) && Lookup(xd, "Size").Str?
    ensures DecodeRows(data, w0, w1, w2, false).Success?
    ensures StreamTable(t, xd) == StreamRows(t, 0, DecodeRows(data, w0, w1, w2, false).value.1)
  {
    DecodeRowsPlain(data, w0, w1, w2);
  }

  /** With the predictor, row `i` of the table update is the field-by-field
      sum of the decoded rows 0 to `i`. */
  lemma StreamTablePredicted(sel: seq<Byte>, es: seq<Entry>, i: nat)
    requires Predicted(sel, es, true).Success? && i < |es|
    ensures Predicted(sel, es, true).value[i] == Total(es, i + 1)
  {
    RunningSumsAreTotals(es, i);
  }
}
