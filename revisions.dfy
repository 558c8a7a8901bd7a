/** The revisions of a file as functions of its bytes (pdfaudit.py:499-587):
    `readpdf` reads the trailer (or cross-reference stream dictionary) at the
    offset it is given, reads the earlier revision named by `Prev` first,
    then applies this revision's cross references, and then visits every
    object listed so far with `iteratexref`. The main line finds the first
    offset with `getstartxref`. The `Prev` chain is bounded by `chain`;
    running out of it is `DepthExceeded`. */
module Revisions {
  import opened Common
  import opened Numbers
  import opened Lexer
  import opened Values
  import opened Filters
  import opened Risk
  import opened XrefTable
  import opened XrefSyntax
  import opened XrefStreamTable
  import opened ObjectReader
  import OD = OrderedDict

  /** The four global tables of the script: `crossreflist`, then
      `scannedobjects` and `counttable`, then `currentobject`. */
  datatype Machine = Machine(crossref: Table, st: State, current: ObjectId)

  function EnvOf(c: Codecs, m: Machine): Env
  {
    Env(c, m.crossref, m.current)
  }

  /** `iteratexref` from the `i`-th of `keys`: each key becomes the current
      object and is read (or found in the cache), its numbers passing through
      `str` on the way to `jumptoobject`. */
  function IterateKeys(c: Codecs, buf: seq<Byte>, limit: nat, keys: seq<Key>, i: nat, depth: nat, m: Machine):
    (r: Result<Machine>)
    ensures r.Success? ==> r.value.crossref == m.crossref && Grows(m.st, r.value.st)
    ensures r.Success? ==> forall j :: i <= j < |keys| ==> keys[j] in r.value.st.scanned
    decreases |keys| - i
  {
    if i >= |keys| then Success(m)
    else
      var k := keys[i];
      var m' := Machine(m.crossref, m.st, Obj(k.0, k.1));
      var v :- JumpTo(EnvOf(c, m'), buf, limit, IntToString(k.0), IntToString(k.1), depth, m'.st);
      ParseIntToString(k.0);
      ParseIntToString(k.1);
      var r :- IterateKeys(c, buf, limit, keys, i + 1, depth, Machine(m.crossref, v.1, Obj(k.0, k.1)));
      GrowsTrans(m.st, v.1, r.st);
      Success(r)
  }

  /** Past the last key, `iteratexref` leaves the tables as they are. */
  lemma IterateKeysDone(c: Codecs, buf: seq<Byte>, limit: nat, keys: seq<Key>, i: nat, depth: nat, m: Machine)
    requires i >= |keys|
    ensures IterateKeys(c, buf, limit, keys, i, depth, m) == Success(m)
  {
  }

  /** One step of `iteratexref`: the `i`-th key is read, or its failure
      ends the loop. */
  lemma IterateKeysStep(c: Codecs, buf: seq<Byte>, limit: nat, keys: seq<Key>, i: nat, depth: nat, m: Machine)
    requires i < |keys|
    ensures var k := keys[i];
      var m' := Machine(m.crossref, m.st, Obj(k.0, k.1));
      var v := JumpTo(EnvOf(c, m'), buf, limit, IntToString(k.0), IntToString(k.1), depth, m'.st);
      && (v.Failure? ==> IterateKeys(c, buf, limit, keys, i, depth, m) == Failure(v.error))
      && (v.Success? ==> IterateKeys(c, buf, limit, keys, i, depth, m)
                         == IterateKeys(c, buf, limit, keys, i + 1, depth, Machine(m.crossref, v.value.1, Obj(k.0, k.1))))
  {
  }

  /** The first part of `readpdf` at `start`: the trailer is read, and when
      it has a `Prev` entry, the whole earlier revision at that offset. Gives
      the tables this revision's cross references are applied to. A
      `dictionary.get` on a trailer that is not a dictionary fails, and so
      does printing a `Prev` that is not a string. */
  function Earlier(c: Codecs, buf: seq<Byte>, limit: nat, start: nat, depth: nat, chain: nat, m: Machine):
    (r: Result<Machine>)
    ensures r.Success? ==> Grows(m.st, r.value.st)
    decreases chain, 0
  {
    var t :- Indirect(EnvOf(c, m), buf, limit, start, depth, m.st);
    if !t.0.Dict? then Failure(NotADictionary)
    else
      var m1 := Machine(m.crossref, t.1, m.current);
      if !OD.Has(t.0.entries, "Prev") then Success(m1)
      else
        var prev := Lookup(t.0.entries, "Prev");
        if !prev.Str? then Failure(WrongType)
        else
          var p :- ParseInt(prev.s);
          if chain == 0 then Failure(DepthExceeded)
          else
            var r :- Pdf(c, buf, limit, p, depth, chain - 1, m1);
            GrowsTrans(m.st, m1.st, r.st);
            Success(r)
  }

  /** `readpdf` processes an earlier revision completely before its own
      cross references: the trailer at `start` is a dictionary, and without a
      `Prev` entry the table is the one it started with; with one, the
      tables are those the whole `readpdf` at the offset `Prev` names left. */
  lemma EarlierFollowsPrev(c: Codecs, buf: seq<Byte>, limit: nat, start: nat, depth: nat, chain: nat, m: Machine)
    requires Earlier(c, buf, limit, start, depth, chain, m).Success?
    ensures var t := Indirect(EnvOf(c, m), buf, limit, start, depth, m.st);
      t.Success? && t.value.0.Dict?
    ensures var t := Indirect(EnvOf(c, m), buf, limit, start, depth, m.st).value;
      var e := Earlier(c, buf, limit, start, depth, chain, m).value;
      var m1 := Machine(m.crossref, t.1, m.current);
      && (!OD.Has(t.0.entries, "Prev") ==> e == m1)
      && (OD.Has(t.0.entries, "Prev") ==>
            && chain > 0 && Lookup(t.0.entries, "Prev").Str?
            && ParseInt(Lookup(t.0.entries, "Prev").s).Success?
            && Pdf(c, buf, limit, ParseInt(Lookup(t.0.entries, "Prev").s).value, depth, chain - 1, m1) == Success(e))
  {
  }

  /** The classic branch of `readpdf`: the subsections after the word
      "xref", which must leave the table non-empty. */
  function ClassicRevision(buf: seq<Byte>, limit: nat, pos: nat, m: Machine): (r: Result<Machine>)
    ensures r.Success? ==> r.value.st == m.st && r.value.current == m.current && r.value.crossref != []
    ensures r.Success? <==> Sections(buf, limit, pos, m.crossref, []).Success? && Sections(buf, limit, pos, m.crossref, []).value.0 != []
    ensures r.Success? ==> TableRows(m.crossref, Sections(buf, limit, pos, m.crossref, []).value.1) == Success(r.value.crossref)
  {
    var s :- Sections(buf, limit, pos, m.crossref, []);
    SectionsApply(buf, limit, pos, m.crossref, []);
    assert s.1[0..] == s.1;
    if s.0 == [] then Failure(EmptyCrossReference)
    else Success(Machine(s.0, m.st, m.current))
  }

  /** The cross-reference stream branch of `readpdf`: the object read from
      `pos` must be a dictionary, whose stream rows are applied to the
      table. */
  function StreamRevision(c: Codecs, buf: seq<Byte>, limit: nat, pos: nat, depth: nat, m: Machine): (r: Result<Machine>)
    ensures r.Success? ==> Grows(m.st, r.value.st) && r.value.current == m.current
    ensures r.Success? ==>
      var x := Indirect(EnvOf(c, m), buf, limit, pos, depth, m.st);
      && x.Success? && x.value.0.Dict? && x.value.1 == r.value.st
      && StreamTable(m.crossref, x.value.0.entries) == Success(r.value.crossref)
  {
    var x :- Indirect(EnvOf(c, m), buf, limit, pos, depth, m.st);
    if !x.0.Dict? then Failure(NotADictionary)
    else
      var t :- StreamTable(m.crossref, x.0.entries);
      Success(Machine(t, x.1, m.current))
  }

  /** This revision's cross references, read at `start` once more: a classic
      table after the word "xref", or else a cross-reference stream whose
      dictionary is the object read from there. */
  function CrossReferences(c: Codecs, buf: seq<Byte>, limit: nat, start: nat, depth: nat, m: Machine):
    (r: Result<Machine>)
    ensures r.Success? ==> Grows(m.st, r.value.st) && r.value.current == m.current
  {
    var w :- Word(buf, limit, start);
    if w.0 == "xref" then ClassicRevision(buf, limit, w.1, m)
    else StreamRevision(c, buf, limit, w.1, depth, m)
  }

  /** `readpdf` at `start`. */
  function Pdf(c: Codecs, buf: seq<Byte>, limit: nat, start: int, depth: nat, chain: nat, m: Machine):
    (r: Result<Machine>)
    ensures r.Success? ==> Grows(m.st, r.value.st)
    ensures r.Success? ==> forall i :: 0 <= i < |r.value.crossref| ==> r.value.crossref[i].0 in r.value.st.scanned
    decreases chain, 1
  {
    if start < 0 then Failure(NegativeSeek)
    else
      var e :- Earlier(c, buf, limit, start, depth, chain, m);
      var x :- CrossReferences(c, buf, limit, start, depth, e);
      var r :- IterateKeys(c, buf, limit, OD.Keys(x.crossref), 0, depth, x);
      GrowsTrans(m.st, e.st, x.st);
      GrowsTrans(m.st, x.st, r.st);
      Success(r)
  }

  /** The tables before anything is read. */
  const Initial: Machine := Machine([], State(map[], []), NoObject)

  /** The script's main line on the bytes of a whole file: the `startxref`
      offset, then `readpdf` from there. */
  function AuditOf(c: Codecs, buf: seq<Byte>, depth: nat, chain: nat): (r: Result<Machine>)
    ensures StartXref(buf, |buf|).Failure? ==> r == Failure(StartXref(buf, |buf|).error)
    ensures r.Success? ==> forall i :: 0 <= i < |r.value.crossref| ==> r.value.crossref[i].0 in r.value.st.scanned
  {
    var start :- StartXref(buf, |buf|);
    Pdf(c, buf, |buf|, start, depth, chain, Initial)
  }

  /** Of a classic revision, the current table wins: a row in use that is
      the last row for its object number puts its offset into the table the
      objects are read from, whatever the earlier revision said. */
  lemma {:induction false} PdfCurrentRevisionWins(c: Codecs, buf: seq<Byte>, limit: nat, start: nat, depth: nat,
                                                  chain: nat, m: Machine)
    requires Pdf(c, buf, limit, start, depth, chain, m).Success?
    requires Word(buf, limit, start).Success? && Word(buf, limit, start).value.0 == "xref"
    ensures Earlier(c, buf, limit, start, depth, chain, m).Success?
    ensures var e := Earlier(c, buf, limit, start, depth, chain, m).value;
      Sections(buf, limit, Word(buf, limit, start).value.1, e.crossref, []).Success?
    ensures var e := Earlier(c, buf, limit, start, depth, chain, m).value;
      var rows := Sections(buf, limit, Word(buf, limit, start).value.1, e.crossref, []).value.1;
      forall j :: 0 <= j < |rows| && rows[j].marker == "n" && (forall n :: j < n < |rows| ==> rows[n].num != rows[j].num) ==>
        OD.Get(Pdf(c, buf, limit, start, depth, chain, m).value.crossref, (rows[j].num, rows[j].gen)) == Some(rows[j].offset)
  {
    var e := Earlier(c, buf, limit, start, depth, chain, m).value;
    var pos := Word(buf, limit, start).value.1;
    var x := ClassicRevision(buf, limit, pos, e).value;
    var rows := Sections(buf, limit, pos, e.crossref, []).value.1;
    assert Pdf(c, buf, limit, start, depth, chain, m).value.crossref == x.crossref;
    forall j | 0 <= j < |rows| && rows[j].marker == "n" && (forall n :: j < n < |rows| ==> rows[n].num != rows[j].num)
      ensures OD.Get(x.crossref, (rows[j].num, rows[j].gen)) == Some(rows[j].offset)
    {
      TableRowsLastWins(e.crossref, rows, j, (rows[j].num, rows[j].gen));
    }
  }

  /** Of a classic revision, the earlier revision's entries stay where the
      current table has no row for the object number. */
  lemma {:induction false} PdfKeepsEarlier(c: Codecs, buf: seq<Byte>, limit: nat, start: nat, depth: nat,
                                           chain: nat, m: Machine, k: Key)
    requires Pdf(c, buf, limit, start, depth, chain, m).Success?
    requires Word(buf, limit, start).Success? && Word(buf, limit, start).value.0 == "xref"
    ensures Earlier(c, buf, limit, start, depth, chain, m).Success?
    ensures var e := Earlier(c, buf, limit, start, depth, chain, m).value;
      Sections(buf, limit, Word(buf, limit, start).value.1, e.crossref, []).Success?
    ensures var e := Earlier(c, buf, limit, start, depth, chain, m).value;
      var rows := Sections(buf, limit, Word(buf, limit, start).value.1, e.crossref, []).value.1;
      (forall j :: 0 <= j < |rows| ==> rows[j].num != k.0) ==>
        OD.Get(Pdf(c, buf, limit, start, depth, chain, m).value.crossref, k) == OD.Get(e.crossref, k)
  {
    var e := Earlier(c, buf, limit, start, depth, chain, m).value;
    var pos := Word(buf, limit, start).value.1;
    var x := ClassicRevision(buf, limit, pos, e).value;
    var rows := Sections(buf, limit, pos, e.crossref, []).value.1;
    assert Pdf(c, buf, limit, start, depth, chain, m).value.crossref == x.crossref;
    if forall j :: 0 <= j < |rows| ==> rows[j].num != k.0 {
      TableRowsFrame(e.crossref, rows, k);
    }
  }

  /** Of a cross-reference stream revision, the table the objects are read
      from is the earlier revision's table with the stream's rows applied,
      the stream's dictionary being the object read after the first word at
      `start`. */
  lemma {:induction false} PdfStreamRevision(c: Codecs, buf: seq<Byte>, limit: nat, start: nat, depth: nat,
                                             chain: nat, m: Machine)
    requires Pdf(c, buf, limit, start, depth, chain, m).Success?
    requires Word(buf, limit, start).Success? && Word(buf, limit, start).value.0 != "xref"
    ensures Earlier(c, buf, limit, start, depth, chain, m).Success?
    ensures var e := Earlier(c, buf, limit, start, depth, chain, m).value;
      var x := Indirect(EnvOf(c, e), buf, limit, Word(buf, limit, start).value.1, depth, e.st);
      && x.Success? && x.value.0.Dict?
      && StreamTable(e.crossref, x.value.0.entries) == Success(Pdf(c, buf, limit, start, depth, chain, m).value.crossref)
  {
    var e := Earlier(c, buf, limit, start, depth, chain, m).value;
    var pos := Word(buf, limit, start).value.1;
    var x := StreamRevision(c, buf, limit, pos, depth, e).value;
    assert Pdf(c, buf, limit, start, depth, chain, m).value.crossref == x.crossref;
  }
}
