/** The object reader as functions of the file's bytes (pdfaudit.py:193-289,
    336-377, 391-450): what `readobject`, `getarray`, `getdictionary`,
    `iterateobjstm`, `readindirectobject` and `jumptoobject` return, where
    they leave the file, and what they do to the two tables they change, the
    object cache `scannedobjects` and the findings `counttable`. The methods of
    `Reader.Engine` are proved to compute exactly these results. Nesting is
    bounded by `depth`; running out of it is `DepthExceeded`. */
module ObjectReader {
  import opened Common
  import opened Lexer
  import opened Numbers
  import opened Values
  import opened Filters
  import opened Risk
  import opened XrefTable
  import opened ObjectSyntax
  import OD = OrderedDict

  /** What reading objects changes: `scannedobjects` and `counttable`. */
  datatype State = State(scanned: map<Key, Value>, counttable: CountTable)

  /** What reading objects consults without changing: the codecs,
      `crossreflist` and `currentobject`. */
  datatype Env = Env(codecs: Codecs, crossref: Table, current: ObjectId)

  /** `b` comes after `a`: no cached object is forgotten and no finding is
      lost or moved. */
  ghost predicate Grows(a: State, b: State)
  {
    a.scanned.Keys <= b.scanned.Keys && Keeps(a.counttable, b.counttable)
  }

  /** The pairs `getdictionary` read: the last one has ">" as its key or its
      value, and no earlier one does. */
  predicate ClosedPairs(ps: seq<(string, Value)>)
  {
    |ps| > 0 && Closes(ps[|ps| - 1]) && forall j :: 0 <= j < |ps| - 1 ==> !Closes(ps[j])
  }

  /** The stream of a dictionary whose pairs are `d`, read from `pos`, where
      the word "stream" was seen: `Length` is made an integer first, then
      "stream" and the line end are read, the data decoded by the filters
      listed under `Filter`, and "endstream" read. Gives the decoded data and
      the position after "endstream". */
  function StreamBytes(c: Codecs, buf: seq<Byte>, limit: nat, pos: nat, d: seq<(string, Value)>):
    (r: Result<(seq<Byte>, nat)>)
    ensures r.Success? ==> pos <= r.value.1 <= |buf|
    ensures !OD.Has(d, "Length") ==> r == Failure(NotANumber)
  {
    var n :- Num(Lookup(d, "Length"));
    var w :- Word(buf, limit, pos);
    var s :- StreamData(buf, w.1, n);
    var decoded :-
      if OD.Has(d, "Filter") then
        match FilterNames(Lookup(d, "Filter"))
        case Failure(e) => Failure(e)
        case Success(names) => Decode(c, s.0, names)
      else Success(s.0);
    var e :- Word(buf, limit, s.1);
    Success((decoded, e.1))
  }

  /** `readobject`: the object at `pos`, the position after it and the
      tables after reading it. A reference is followed only when `follow` is
      set; arrays, dictionaries and followed references use one level of
      `depth`. */
  function ReadValue(env: Env, buf: seq<Byte>, limit: nat, pos: nat, follow: bool, depth: nat, st: State):
    (r: Result<(Value, nat, State)>)
    ensures r.Success? ==> pos < r.value.1 <= |buf| && Grows(st, r.value.2)
    ensures r.Success? && !follow ==> Plain(r.value.0)
    decreases depth, 0, 1
  {
    var c :- Classify(buf, limit, pos);
    match c
    case Atom(w, p) => Success((Str(w), p, st))
    case Stray(w) => Failure(UnexpectedToken(w))
    case LiteralOpen(p) =>
      var l :- Literal(buf, p);
      Success((Str(l.0), l.1, st))
    case HexOpen(p) =>
      var h :- Hex(buf, p);
      Success((Str(h.0), h.1, st))
    case NameOpen(p) =>
      var w :- Word(buf, limit, p);
      Success((Str(w.0), w.1, st))
    case Reference(num, gen, p) => Followed(env, buf, limit, num, gen, p, follow, depth, st)
    case ArrayOpen(p) => Nested(env, buf, limit, p, true, depth, st)
    case DictOpen(p) => Nested(env, buf, limit, p, false, depth, st)
  }

  /** `readobject` after the words "num gen R", which end at `p`: the words
      themselves when references are not followed, otherwise the object
      they name; the position stays at `p` either way. */
  function Followed(env: Env, buf: seq<Byte>, limit: nat, num: string, gen: string, p: nat, follow: bool,
                    depth: nat, st: State): (r: Result<(Value, nat, State)>)
    ensures r.Success? ==> r.value.1 == p && Grows(st, r.value.2)
    ensures r.Success? && !follow ==> r.value.0 == Str(num + " " + gen + " R")
    ensures follow && depth > 0 ==>
      var v := JumpTo(env, buf, limit, num, gen, depth - 1, st);
      (r.Success? <==> v.Success?) && (r.Success? ==> r.value.0 == v.value.0 && r.value.2 == v.value.1)
    decreases depth, 0, 0
  {
    if !follow then Success((Str(num + " " + gen + " R"), p, st))
    else if depth == 0 then Failure(DepthExceeded)
    else
      var v :- JumpTo(env, buf, limit, num, gen, depth - 1, st);
      Success((v.0, p, v.1))
  }

  /** `readobject` after "[" (`isArray`) or "<<", which end at `p`: the array
      or the dictionary read from there, one level of `depth` down. */
  function Nested(env: Env, buf: seq<Byte>, limit: nat, p: nat, isArray: bool, depth: nat, st: State):
    (r: Result<(Value, nat, State)>)
    ensures r.Success? ==> p < r.value.1 <= |buf| && Grows(st, r.value.2) && Plain(r.value.0)
    ensures r.Success? && !isArray ==> r.value.0.Dict?
    decreases depth, 0, 0
  {
    if depth == 0 then Failure(DepthExceeded)
    else if isArray then
      var a :- Items(env, buf, limit, p, depth - 1, st, []);
      Success((ArrayValue(a.0), a.1, a.2))
    else Dictionary(env, buf, limit, p, depth - 1, st)
  }

  /** `readobject` at a word, a string or a name. */
  lemma ReadValueOfText(env: Env, buf: seq<Byte>, limit: nat, pos: nat, follow: bool, depth: nat, st: State, c: Start)
    requires Classify(buf, limit, pos) == Success(c)
    ensures c.Atom? ==> ReadValue(env, buf, limit, pos, follow, depth, st) == Success((Str(c.w), c.p, st))
    ensures c.Stray? ==> ReadValue(env, buf, limit, pos, follow, depth, st) == Failure(UnexpectedToken(c.w))
    ensures c.LiteralOpen? ==>
      var l := Literal(buf, c.p);
      && (l.Failure? ==> ReadValue(env, buf, limit, pos, follow, depth, st) == Failure(l.error))
      && (l.Success? ==> ReadValue(env, buf, limit, pos, follow, depth, st) == Success((Str(l.value.0), l.value.1, st)))
    ensures c.HexOpen? ==>
      var h := Hex(buf, c.p);
      && (h.Failure? ==> ReadValue(env, buf, limit, pos, follow, depth, st) == Failure(h.error))
      && (h.Success? ==> ReadValue(env, buf, limit, pos, follow, depth, st) == Success((Str(h.value.0), h.value.1, st)))
    ensures c.NameOpen? ==>
      var w := Word(buf, limit, c.p);
      && (w.Failure? ==> ReadValue(env, buf, limit, pos, follow, depth, st) == Failure(w.error))
      && (w.Success? ==> ReadValue(env, buf, limit, pos, follow, depth, st) == Success((Str(w.value.0), w.value.1, st)))
  {
  }

  /** The loop of `getarray` with `acc` read so far: objects, references not
      followed, up to the first value equal to the string "]" (a literal
      `(])` or a hex string `<]>` ends it too, since `getarray` tests equality),
      which is dropped. */
  function Items(env: Env, buf: seq<Byte>, limit: nat, pos: nat, depth: nat, st: State, acc: seq<Value>):
    (r: Result<(seq<Value>, nat, State)>)
    ensures r.Success? ==> pos < r.value.1 <= |buf| && Grows(st, r.value.2)
    ensures r.Success? ==> |acc| <= |r.value.0| && r.value.0[..|acc|] == acc
    ensures r.Success? ==> forall i :: |acc| <= i < |r.value.0| ==> Plain(r.value.0[i]) && r.value.0[i] != Str("]")
    decreases depth, 1, Left(pos, |buf|)
  {
    var v :- ReadValue(env, buf, limit, pos, false, depth, st);
    if v.0 == Str("]") then Success((acc, v.1, v.2))
    else Items(env, buf, limit, v.1, depth, v.2, acc + [v.0])
  }

  /** One pass of the loop of `getdictionary`: a key (not followed), then
      its value (followed when the key is "Length"). A key that is not a
      string cannot be stored. */
  function Pair(env: Env, buf: seq<Byte>, limit: nat, pos: nat, depth: nat, st: State):
    (r: Result<((string, Value), nat, State)>)
    ensures r.Success? ==> pos < r.value.1 <= |buf| && Grows(st, r.value.2)
    decreases depth, 1, 0
  {
    var k :- ReadValue(env, buf, limit, pos, false, depth, st);
    var v :- ReadValue(env, buf, limit, k.1, k.0 == Str("Length"), depth, k.2);
    if !k.0.Str? then Failure(UnhashableKey)
    else
      GrowsTrans(st, k.2, v.2);
      Success(((k.0.s, v.0), v.1, v.2))
  }

  /** The loop of `getdictionary` with `acc` read so far: pairs until one has
      ">" as its key or its value. */
  function Pairs(env: Env, buf: seq<Byte>, limit: nat, pos: nat, depth: nat, st: State, acc: seq<(string, Value)>):
    (r: Result<(seq<(string, Value)>, nat, State)>)
    ensures r.Success? ==> pos < r.value.1 <= |buf| && Grows(st, r.value.2)
    ensures r.Success? ==> |acc| < |r.value.0| && r.value.0[..|acc|] == acc
    ensures r.Success? ==> Closes(r.value.0[|r.value.0| - 1])
    ensures r.Success? ==> forall j :: |acc| <= j < |r.value.0| - 1 ==> !Closes(r.value.0[j])
    decreases depth, 2, Left(pos, |buf|)
  {
    var p :- Pair(env, buf, limit, pos, depth, st);
    if Closes(p.0) then Success((acc + [p.0], p.1, p.2))
    else
      var rest :- Pairs(env, buf, limit, p.1, depth, p.2, acc + [p.0]);
      Extends(acc, p.0, rest.0);
      GrowsTrans(st, p.2, rest.2);
      Success(rest)
  }

  lemma Extends<T>(acc: seq<T>, x: T, s: seq<T>)
    requires |acc| + 1 <= |s| && s[..|acc| + 1] == acc + [x]
    ensures s[..|acc|] == acc && s[|acc|] == x
  {
    assert s[..|acc|] == s[..|acc| + 1][..|acc|];
  }

  lemma GrowsTrans(a: State, b: State, c: State)
    requires Grows(a, b) && Grows(b, c)
    ensures Grows(a, c)
  {
    KeepsTrans(a.counttable, b.counttable, c.counttable);
  }

  /** The second loop of `iterateobjstm`: the remaining `n - i` objects are
      read one after the other, references not followed; only what reading
      them records is kept. */
  function ObjStmObjects(env: Env, buf: seq<Byte>, limit: nat, pos: nat, i: int, n: int, depth: nat, st: State):
    (r: Result<State>)
    ensures r.Success? ==> Grows(st, r.value)
    decreases depth, 1, if i < n then n - i else 0
  {
    if i >= n then Success(st)
    else
      var v :- ReadValue(env, buf, limit, pos, false, depth, st);
      ObjStmObjects(env, buf, limit, v.1, i + 1, n, depth, v.2)
  }

  /** `getarray` from `p`: the array succeeds exactly when its items do; a
      lone item stands for itself, any other count is the list of items. */
  lemma ArrayOfItems(env: Env, buf: seq<Byte>, limit: nat, p: nat, depth: nat, st: State)
    requires depth > 0
    ensures var a := Items(env, buf, limit, p, depth - 1, st, []);
      var r := Nested(env, buf, limit, p, true, depth, st);
      && (r.Success? <==> a.Success?)
      && (a.Failure? ==> r == Failure(a.error))
      && (a.Success? && |a.value.0| == 1 ==> r == Success((a.value.0[0], a.value.1, a.value.2)))
      && (a.Success? && |a.value.0| != 1 ==> r == Success((List(a.value.0), a.value.1, a.value.2)))
  {
  }

  /** `[ x ]`: when the object after "[" is followed by the word "]", the
      array is that object itself, read with one level of depth less. */
  lemma LoneElementArray(env: Env, buf: seq<Byte>, limit: nat, p: nat, depth: nat, st: State)
    requires depth > 0
    requires ReadValue(env, buf, limit, p, false, depth - 1, st).Success?
    requires var v := ReadValue(env, buf, limit, p, false, depth - 1, st).value;
      v.0 != Str("]") && ReadValue(env, buf, limit, v.1, false, depth - 1, v.2).Success?
      && ReadValue(env, buf, limit, v.1, false, depth - 1, v.2).value.0 == Str("]")
    ensures var v := ReadValue(env, buf, limit, p, false, depth - 1, st).value;
      var w := ReadValue(env, buf, limit, v.1, false, depth - 1, v.2).value;
      Nested(env, buf, limit, p, true, depth, st) == Success((v.0, w.1, w.2))
  {
    var v := ReadValue(env, buf, limit, p, false, depth - 1, st).value;
    var w := ReadValue(env, buf, limit, v.1, false, depth - 1, v.2).value;
    assert Items(env, buf, limit, v.1, depth - 1, v.2, [v.0]) == Success(([v.0], w.1, w.2));
    assert Items(env, buf, limit, p, depth - 1, st, []) == Success(([v.0], w.1, w.2));
  }

  /** `iterateobjstm` on an object stream whose copy is `buf`. */
  function ObjStm(env: Env, buf: seq<Byte>, limit: nat, pos: nat, n: int, depth: nat, st: State): (r: Result<State>)
    ensures r.Success? ==> Grows(st, r.value)
    decreases depth, 2, 0
  {
    var q :- ObjStmHeader(buf, limit, pos, 0, n);
    ObjStmObjects(env, buf, limit, q, 0, n, depth, st)
  }

  /** `range(n)` is empty for `n <= 0`: such an object stream reads nothing
      and records nothing. */
  lemma ObjStmEmpty(env: Env, buf: seq<Byte>, limit: nat, pos: nat, n: int, depth: nat, st: State)
    requires n <= 0
    ensures ObjStm(env, buf, limit, pos, n, depth, st) == Success(st)
  {
  }

  /** The part of `getdictionary` after the pairs `d`: when the next word is
      "stream", its data is read and decoded; a cross-reference stream keeps
      it as bytes under "Stream", an object stream is read object by object
      from a copy of the data followed by three carriage returns, and any
      other stream is stored as text. */
  function StreamPart(env: Env, buf: seq<Byte>, limit: nat, pos: nat, d: seq<(string, Value)>, depth: nat, st: State):
    (r: Result<(seq<(string, Value)>, nat, State)>)
    ensures r.Success? ==> pos <= r.value.1 && (pos <= |buf| ==> r.value.1 <= |buf|) && Grows(st, r.value.2)
    ensures r.Success? ==> r.value.0 == d || r.value.0 == OD.Put(d, "Stream", Lookup(r.value.0, "Stream"))
    decreases depth, 3, 0
  {
    var tw :- TwoWords(buf, limit, pos);
    if tw.0 != "stream" then Success((d, pos, st))
    else
      var s :- StreamBytes(env.codecs, buf, limit, pos, d);
      var kind := Lookup(d, "Type");
      if kind == Str("XRef") then
        var d' := OD.Put(d, "Stream", Bytes(s.0));
        Success((d', s.1, st))
      else if kind == Str("ObjStm") then
        var n :- Num(Lookup(d, "N"));
        var st' :- ObjStm(env, s.0 + [13, 13, 13], limit, 0, n, depth, st);
        Success((d, s.1, st'))
      else
        var d' := OD.Put(d, "Stream", Str(env.codecs.text(s.0)));
        Success((d', s.1, st))
  }

  /** `getdictionary`: the pairs, then the stream if one follows, then
      `checkdictionary`, which files the dictionary's findings under the
      current object. */
  function Dictionary(env: Env, buf: seq<Byte>, limit: nat, pos: nat, depth: nat, st: State):
    (r: Result<(Value, nat, State)>)
    ensures r.Success? ==> pos < r.value.1 <= |buf| && Grows(st, r.value.2) && r.value.0.Dict?
    decreases depth, 4, 0
  {
    var p :- Pairs(env, buf, limit, pos, depth, st, []);
    var s :- StreamPart(env, buf, limit, p.1, FromPairs(p.0), depth, p.2);
    var fs :- Findings(s.0, s.0, env.current);
    RecordKeeps(s.2.counttable, fs);
    Success((Dict(s.0), s.1, State(s.2.scanned, Record(s.2.counttable, fs))))
  }

  /** `readindirectobject` from `pos`: after "obj" or "trailer" one object,
      references not followed; "endobj" and "endstream" as they are; `None`
      at the end of the audited file. */
  function Indirect(env: Env, buf: seq<Byte>, limit: nat, pos: nat, depth: nat, st: State):
    (r: Result<(Value, State)>)
    ensures r.Success? ==> Grows(st, r.value.1)
    decreases depth, 1, 0
  {
    var m :- ScanIndirect(buf, limit, pos);
    match m
    case Off => Success((NoneV, st))
    case Closing(w) => Success((Str(w), st))
    case Body(p) =>
      var v :- ReadValue(env, buf, limit, p, false, depth, st);
      Success((v.0, v.2))
  }

  /** `jumptoobject`: the value of object `num gen`, from the cache when it
      was read before, otherwise read at its offset in the cross-reference
      table and cached. The reader's position is put back, so only the value
      and the tables are results. */
  function JumpTo(env: Env, buf: seq<Byte>, limit: nat, num: string, gen: string, depth: nat, st: State):
    (r: Result<(Value, State)>)
    ensures r.Success? ==> Grows(st, r.value.1)
    ensures r.Success? ==> ParseInt(num).Success? && ParseInt(gen).Success?
    ensures r.Success? ==> var key := (ParseInt(num).value, ParseInt(gen).value);
      key in r.value.1.scanned && r.value.1.scanned[key] == r.value.0
    decreases depth, 2, 0
  {
    if ParseInt(num).Failure? || ParseInt(gen).Failure? then Failure(NotANumber)
    else
      var key := (ParseInt(num).value, ParseInt(gen).value);
      if key in st.scanned then Success((st.scanned[key], st))
      else
        match OD.Get(env.crossref, key)
        case None => Failure(NotInCrossReference(key.0, key.1))
        case Some(offset) =>
          if offset < 0 then Failure(NegativeSeek)
          else
            var v :- Indirect(env, buf, limit, offset, depth, st);
            Success((v.0, State(v.1.scanned[key := v.0], v.1.counttable)))
  }

  /** A second `jumptoobject` to an object read before is answered from the
      cache: the same value, and no table changes. */
  lemma JumpToRepeats(env: Env, buf: seq<Byte>, limit: nat, num: string, gen: string, depth: nat, depth': nat,
                      st: State)
    requires JumpTo(env, buf, limit, num, gen, depth, st).Success?
    ensures var v := JumpTo(env, buf, limit, num, gen, depth, st).value;
      JumpTo(env, buf, limit, num, gen, depth', v.1) == Success(v)
  {
    var v := JumpTo(env, buf, limit, num, gen, depth, st).value;
    var key := (ParseInt(num).value, ParseInt(gen).value);
    assert key in v.1.scanned && v.1.scanned[key] == v.0;
  }

  /** An object that was not read before is read where the cross-reference
      table puts it: words are skipped from its offset up to "obj", and the
      object after that word, references not followed, is the value, which
      is then cached. */
  lemma JumpToReadsAtOffset(env: Env, buf: seq<Byte>, limit: nat, num: string, gen: string, depth: nat, st: State,
                            key: Key, offset: int, p: nat)
    requires ParseInt(num) == Success(key.0) && ParseInt(gen) == Success(key.1)
    requires key !in st.scanned && OD.Get(env.crossref, key) == Some(offset) && offset >= 0
    requires ScanIndirect(buf, limit, offset) == Success(Body(p))
    requires ReadValue(env, buf, limit, p, false, depth, st).Success?
    ensures var v := ReadValue(env, buf, limit, p, false, depth, st).value;
      JumpTo(env, buf, limit, num, gen, depth, st) == Success((v.0, State(v.2.scanned[key := v.0], v.2.counttable)))
  {
  }

  /** An object whose offset is past the end of the audited file is `None`,
      and is cached as such. */
  lemma JumpToPastEnd(env: Env, buf: seq<Byte>, limit: nat, num: string, gen: string, depth: nat, st: State,
                      key: Key, offset: int)
    requires ParseInt(num) == Success(key.0) && ParseInt(gen) == Success(key.1)
    requires key !in st.scanned && OD.Get(env.crossref, key) == Some(offset) && offset >= limit
    ensures JumpTo(env, buf, limit, num, gen, depth, st) == Success((NoneV, State(st.scanned[key := NoneV], st.counttable)))
  {
    ScanPastEnd(buf, limit, offset);
  }

  /** `getdictionary` stores every pair it reads: a key's value in the
      dictionary is that of the last pair with that key, unless the key is
      "Stream", which the stream part may set. */
  lemma DictionaryKeepsPairs(env: Env, buf: seq<Byte>, limit: nat, pos: nat, depth: nat, st: State, j: nat)
    requires Dictionary(env, buf, limit, pos, depth, st).Success?
    ensures Pairs(env, buf, limit, pos, depth, st, []).Success?
    ensures var ps := Pairs(env, buf, limit, pos, depth, st, []).value.0;
      j < |ps| && ps[j].0 != "Stream" && (forall m :: j < m < |ps| ==> ps[m].0 != ps[j].0) ==>
        OD.Get(Dictionary(env, buf, limit, pos, depth, st).value.0.entries, ps[j].0) == Some(ps[j].1)
  {
    var p := Pairs(env, buf, limit, pos, depth, st, []).value;
    var ps := p.0;
    if j < |ps| && ps[j].0 != "Stream" && (forall m :: j < m < |ps| ==> ps[m].0 != ps[j].0) {
      FromPairsLast(ps, j);
      var s := StreamPart(env, buf, limit, p.1, FromPairs(ps), depth, p.2).value;
      assert OD.Get(s.0, ps[j].0) == Some(ps[j].1);
    }
  }
}
