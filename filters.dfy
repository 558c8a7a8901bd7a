/** The filter chain of a stream (pdfaudit.py:235-260). The codecs are not
    part of the model: they are the parameters `inflate` (zlib, which may
    fail), `ascii85` and `lzw`, together with `text`, Python's
    `decode('utf-8', 'ignore')`. */
module Filters {
  import opened Common
  import opened Values

  datatype Codecs = Codecs(
    inflate: seq<Byte> -> Option<seq<Byte>>,
    ascii85: seq<Byte> -> seq<Byte>,
    lzw: seq<Byte> -> seq<Byte>,
    text: seq<Byte> -> string)

  /** The filter names that change the data. */
  predicate Known(name: Value)
  {
    name == Str("FlateDecode") || name == Str("ASCII85Decode") || name == Str("LZWDecode")
  }

  /** One filter: a failed inflate keeps its input; CCITTFaxDecode, "/" and
      every other name leave the data as it is. */
  function ApplyFilter(c: Codecs, data: seq<Byte>, name: Value): (r: seq<Byte>)
    ensures !Known(name) ==> r == data
    ensures name == Str("FlateDecode") ==> r == (if c.inflate(data).Some? then c.inflate(data).value else data)
  {
    if name == Str("FlateDecode") then
      match c.inflate(data)
      case Some(d) => d
      case None => data
    else if name == Str("ASCII85Decode") then c.ascii85(data)
    else if name == Str("LZWDecode") then c.lzw(data)
    else data
  }

  /** Every name is a string. */
  predicate AllNames(names: seq<Value>)
  {
    forall i :: 0 <= i < |names| ==> names[i].Str?
  }

  /** The filters in the order the dictionary lists them. A name that is not
      a string matches none of the known names and reaches the "not
      implemented" message, whose string concatenation raises. */
  function Decode(c: Codecs, data: seq<Byte>, names: seq<Value>): (r: Result<seq<Byte>>)
    ensures r.Success? <==> AllNames(names)
    ensures r.Failure? ==> r.error == WrongType
    decreases |names|
  {
    if names == [] then Success(data)
    else if !names[0].Str? then Failure(WrongType)
    else
      match Decode(c, ApplyFilter(c, data, names[0]), names[1..])
      case Failure(e) => Failure(e)
      case Success(d) =>
        assert forall i :: 1 <= i < |names| ==> names[i] == names[1..][i - 1];
        Success(d)
  }

  /** The loop over the filter list. */
  method DecodeStream(c: Codecs, data: seq<Byte>, names: seq<Value>) returns (r: Result<seq<Byte>>)
    ensures r == Decode(c, data, names)
  {
    var d := data;
    var i := 0;
    while i < |names|
      invariant 0 <= i <= |names|
      invariant Decode(c, d, names[i..]) == Decode(c, data, names)
    {
      assert names[i..][1..] == names[i + 1..];
      if !names[i].Str? {
        return Failure(WrongType);
      }
      d := ApplyFilter(c, d, names[i]);
      i := i + 1;
    }
    return Success(d);
  }

  /** A chain is its first part followed by the rest: filters apply in order. */
  lemma {:induction false} DecodeSplit(c: Codecs, data: seq<Byte>, a: seq<Value>, b: seq<Value>)
    ensures Decode(c, data, a + b) ==
      match Decode(c, data, a)
      case Failure(e) => Failure(e)
      case Success(d) => Decode(c, d, b)
    decreases |a|
  {
    if a != [] {
      assert (a + b)[0] == a[0];
      assert (a + b)[1..] == a[1..] + b;
      if a[0].Str? {
        DecodeSplit(c, ApplyFilter(c, data, a[0]), a[1..], b);
      }
    } else {
      assert a + b == b;
    }
  }

  /** A chain of names the reader does not implement leaves the data
      unchanged. */
  lemma {:induction false} UnknownFiltersKeepData(c: Codecs, data: seq<Byte>, names: seq<Value>)
    requires AllNames(names)
    requires forall i :: 0 <= i < |names| ==> !Known(names[i])
    ensures Decode(c, data, names) == Success(data)
    decreases |names|
  {
    if names != [] {
      assert forall i :: 0 <= i < |names| - 1 ==> names[1..][i] == names[i + 1];
      UnknownFiltersKeepData(c, data, names[1..]);
    }
  }
}
