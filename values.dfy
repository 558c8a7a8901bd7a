/** The values the reader returns. Python gives them no common type: a word,
    a name, a number, a reference written out as "n g R" or a string is a
    `str`; an array is a `list`; a dictionary is a `dict` in insertion order;
    a cross-reference stream's payload is `bytes`; and `readindirectobject`
    returns `None` when it runs off the file. */
module Values {
  import opened Common
  import opened Numbers
  import OD = OrderedDict

  datatype Value =
    | Str(s: string)
    | Bytes(b: seq<Byte>)
    | List(items: seq<Value>)
    | Dict(entries: seq<(string, Value)>)
    | NoneV

  /** What `readobject` returns when it does not follow a reference: every
      branch gives a string, a list or a dictionary. */
  predicate Plain(v: Value)
  {
    v.Str? || v.List? || v.Dict?
  }

  /** `getarray`'s result for the elements before the closing ']': a lone
      element stands for itself, any other count stays a list. */
  function ArrayValue(elems: seq<Value>): (r: Value)
    ensures |elems| == 1 ==> r == elems[0]
    ensures |elems| != 1 ==> r == List(elems)
  {
    if |elems| == 1 then elems[0] else List(elems)
  }

  /** `num`: an integer from a string value, a stop for anything else. */
  function Num(v: Value): (r: Result<int>)
    ensures r.Success? ==> v.Str? && ParseInt(v.s) == r
    ensures r.Failure? ==> r.error == NotANumber
  {
    if v.Str? then ParseInt(v.s) else Failure(NotANumber)
  }

  /** A number written out by `str` and read back by `num` is the number:
      the round trip `iteratexref` and `readindirectobject` depend on. */
  lemma NumOfIntText(n: int)
    ensures Num(Str(IntToString(n))) == Success(n)
  {
    ParseIntToString(n);
  }

  /** `"".join(v)` on a dictionary value. */
  function Join(v: Value): (r: Result<string>)
    ensures v.Str? ==> r == Success(v.s)
    ensures v.NoneV? ==> r.Failure?
  {
    match v
    case Str(s) => Success(s)
    case List(items) => JoinItems(items)
    case Dict(entries) => Success(Concat(OD.Keys(entries)))
    case Bytes(b) => if b == [] then Success("") else Failure(WrongType)
    case NoneV => Failure(WrongType)
  }

  /** Joining a list needs every element to be a string, and gives their
      texts one after another. */
  function JoinItems(items: seq<Value>): (r: Result<string>)
    ensures r.Success? <==> forall i :: 0 <= i < |items| ==> items[i].Str?
    ensures r.Success? ==> r.value == Concat(Texts(items))
    ensures r.Failure? ==> r.error == WrongType
  {
    if items == [] then Success("")
    else if !items[0].Str? then Failure(WrongType)
    else match JoinItems(items[1..])
      case Failure(e) => Failure(e)
      case Success(t) => Success(items[0].s + t)
  }

  function Concat(ss: seq<string>): string
  {
    if ss == [] then "" else ss[0] + Concat(ss[1..])
  }

  /** The text of each string element (other elements give ""). */
  function Texts(items: seq<Value>): (r: seq<string>)
    ensures |r| == |items|
    ensures forall i :: 0 <= i < |items| && items[i].Str? ==> r[i] == items[i].s
  {
    if items == [] then [] else [if items[0].Str? then items[0].s else ""] + Texts(items[1..])
  }

  lemma {:induction false} ConcatAppend(a: seq<string>, b: seq<string>)
    ensures Concat(a + b) == Concat(a) + Concat(b)
  {
    if a == [] {
      assert a + b == b;
    } else {
      assert (a + b)[1..] == a[1..] + b;
      ConcatAppend(a[1..], b);
    }
  }

  lemma {:induction false} TextsAppend(a: seq<Value>, b: seq<Value>)
    ensures Texts(a + b) == Texts(a) + Texts(b)
  {
    if a == [] {
      assert a + b == b;
    } else {
      assert (a + b)[1..] == a[1..] + b;
      TextsAppend(a[1..], b);
    }
  }

  /** `"".join` over two lists one after the other is the two joins one after
      the other. */
  lemma {:induction false} JoinItemsAppend(a: seq<Value>, b: seq<Value>)
    requires JoinItems(a).Success? && JoinItems(b).Success?
    ensures JoinItems(a + b) == Success(JoinItems(a).value + JoinItems(b).value)
  {
    forall i | 0 <= i < |a + b|
      ensures (a + b)[i].Str?
    {
      if i < |a| {
        assert (a + b)[i] == a[i];
      } else {
        assert (a + b)[i] == b[i - |a|];
      }
    }
    TextsAppend(a, b);
    ConcatAppend(Texts(a), Texts(b));
  }

  /** The joined value under key "": a list of strings gives its texts one
      after another, a one-string list that string, and a dictionary its keys
      in insertion order. */
  lemma JoinList(items: seq<Value>)
    requires forall i :: 0 <= i < |items| ==> items[i].Str?
    ensures Join(List(items)) == Success(Concat(Texts(items)))
    ensures |items| == 1 ==> Join(List(items)) == Success(items[0].s)
  {
    if |items| == 1 {
      var s := items[0].s;
      assert items[1..] == [];
      assert Texts(items) == [s];
      assert [s][1..] == [];
      assert Concat([s]) == s + "" == s;
    }
  }

  lemma JoinDict(entries: seq<(string, Value)>)
    ensures Join(Dict(entries)) == Success(Concat(OD.Keys(entries)))
    ensures entries == [] ==> Join(Dict(entries)) == Success("")
  {
  }

  /** `filterlist = d.get("Filter")`, wrapped in a list when it is a string,
      then `list(filterlist)`: a dictionary contributes its keys. */
  function FilterNames(v: Value): (r: Result<seq<Value>>)
    ensures v.Str? ==> r == Success([v])
    ensures v.List? ==> r == Success(v.items)
  {
    match v
    case Str(_) => Success([v])
    case List(items) => Success(items)
    case Dict(entries) => Success(KeyValues(OD.Keys(entries)))
    case Bytes(_) => Failure(WrongType)
    case NoneV => Failure(WrongType)
  }

  /** Every filter a string or a dictionary names is a string, so the loop of
      `getdictionary` over them raises only for a list element that is not. */
  lemma FilterNamesAreStrings(v: Value, i: nat)
    requires v.Str? || v.Dict?
    requires FilterNames(v).Success? && i < |FilterNames(v).value|
    ensures FilterNames(v).value[i].Str?
    ensures v.Dict? ==> |FilterNames(v).value| == |OD.Keys(v.entries)|
    ensures v.Dict? ==> FilterNames(v).value[i].s == OD.Keys(v.entries)[i]
  {
  }

  function KeyValues(ks: seq<string>): (r: seq<Value>)
    ensures |r| == |ks| && forall i :: 0 <= i < |ks| ==> r[i] == Str(ks[i])
  {
    if ks == [] then [] else [Str(ks[0])] + KeyValues(ks[1..])
  }

  /** `w[0], w[1], w[2]` on the value of a `W` entry: a list gives its first
      three elements, a string its first three characters; anything else, or
      fewer than three, raises. */
  function FirstThree(v: Value): (r: Result<(Value, Value, Value)>)
    ensures v.List? && |v.items| >= 3 ==> r == Success((v.items[0], v.items[1], v.items[2]))
    ensures r.Success? ==> (v.List? && |v.items| >= 3) || (v.Str? && |v.s| >= 3)
  {
    if v.List? && |v.items| >= 3 then Success((v.items[0], v.items[1], v.items[2]))
    else if v.Str? && |v.s| >= 3 then Success((Str([v.s[0]]), Str([v.s[1]]), Str([v.s[2]])))
    else Failure(WrongType)
  }

  /** The entries of a dictionary value, for `.get`. */
  function Entries(v: Value): (r: Result<seq<(string, Value)>>)
    ensures r.Success? <==> v.Dict?
  {
    if v.Dict? then Success(v.entries) else Failure(NotADictionary)
  }

  /** `d.get(k)`, `None` when absent. */
  function Lookup(entries: seq<(string, Value)>, k: string): Value
  {
    OD.GetOr(entries, k, NoneV)
  }
}
