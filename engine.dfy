/** The reader (pdfaudit.py:193-289, 336-450, 460-587): a class holding the
    four global tables of the script (the cross references `crossreflist`,
    the object cache `scannedobjects`, the findings `counttable` and
    `currentobject`), with one method per reading function. Every method
    works on the cursor it is given, which is the audited file or, inside an
    object stream, the stream's decoded copy, and is proved to compute what
    the functions of `ObjectReader` and `Revisions` say the script computes:
    the same value, the same position and the same tables. */
module Reader {
  import opened Common
  import opened Lexer
  import opened Numbers
  import opened Values
  import opened Filters
  import opened Risk
  import opened XrefTable
  import opened XrefSyntax
  import opened XrefStreamTable
  import opened XrefPredictor
  import opened ObjectSyntax
  import opened ObjectReader
  import opened Revisions
  import opened ByteCursor
  import OD = OrderedDict

  /** A method's result `r`, final position `pos` and tables `st` are those
      of the function result `f`; on failure only the error is stated. */
  ghost predicate Yields<T>(f: Result<(T, nat, State)>, r: Result<T>, pos: nat, st: State)
  {
    match f
    case Failure(e) => r == Failure(e)
    case Success(x) => r == Success(x.0) && pos == x.1 && st == x.2
  }

  /** The same without a position. */
  ghost predicate Returns<T>(f: Result<(T, State)>, r: Result<T>, st: State)
  {
    match f
    case Failure(e) => r == Failure(e)
    case Success(x) => r == Success(x.0) && st == x.1
  }

  /** An outcome and the final tables `m` are those of the function result `f`. */
  ghost predicate Reaches(f: Result<Machine>, r: Outcome, m: Machine)
  {
    match f
    case Failure(e) => r == Fail(e)
    case Success(x) => r == Pass && m == x
  }

  /** What one subsection still to be read from `pos` gives. */
  ghost predicate SectionLeaves(buf: seq<Byte>, limit: nat, pos: nat, t: Table, first: int, count: int,
                                acc: seq<Row>, section: Result<(Table, seq<Row>, nat)>)
  {
    SectionRows(buf, limit, pos, t, first, count, acc) == section
  }

  class Engine {
    const codecs: Codecs
    var crossref: Table
    var scanned: map<Key, Value>
    var counttable: CountTable
    var current: ObjectId

    constructor (codecs: Codecs)
      ensures this.codecs == codecs && Globals() == Initial
    {
      this.codecs := codecs;
      crossref := [];
      scanned := map[];
      counttable := [];
      current := NoObject;
    }

    /** What reading objects consults. */
    function Context(): Env
      reads this`crossref, this`current
    {
      Env(codecs, crossref, current)
    }

    /** What reading objects changes. */
    function Tables(): State
      reads this`scanned, this`counttable
    {
      State(scanned, counttable)
    }

    /** All four tables. */
    function Globals(): Machine
      reads this`crossref, this`scanned, this`counttable, this`current
    {
      Machine(crossref, State(scanned, counttable), current)
    }

    /** `readobject`. */
    method ReadObject(cur: Cursor, follow: bool, depth: nat) returns (r: Result<Value>)
      modifies this`scanned, this`counttable, cur`pos
      decreases depth, 0, 1
      ensures Yields(ReadValue(Context(), cur.buf, cur.limit, old(cur.pos), follow, depth, old(Tables())), r, cur.pos, Tables())
    {
      ghost var start := cur.pos;
      var s := cur.ReadStart();
      if s.Failure? {
        return Failure(s.error);
      }
      ReadValueOfText(Context(), cur.buf, cur.limit, start, follow, depth, Tables(), s.value);
      match s.value
      case Atom(w, _) =>
        r := Success(Str(w));
      case Stray(w) =>
        r := Failure(UnexpectedToken(w));
      case LiteralOpen(_) =>
        var t := cur.GetLiteralString();
        r := if t.Success? then Success(Str(t.value)) else Failure(t.error);
      case HexOpen(_) =>
        var t := cur.GetHexString();
        r := if t.Success? then Success(Str(t.value)) else Failure(t.error);
      case NameOpen(_) =>
        var t := cur.GetWord();
        r := if t.Success? then Success(Str(t.value)) else Failure(t.error);
      case Reference(num, gen, _) =>
        r := ReadReference(cur, num, gen, follow, depth);
      case ArrayOpen(_) =>
        r := ReadNested(cur, true, depth);
      case DictOpen(_) =>
        r := ReadNested(cur, false, depth);
    }

    /** `readobject` after "n g R". */
    method ReadReference(cur: Cursor, num: string, gen: string, follow: bool, depth: nat) returns (r: Result<Value>)
      modifies this`scanned, this`counttable, cur`pos
      decreases depth, 0, 0
      ensures Yields(Followed(Context(), cur.buf, cur.limit, num, gen, old(cur.pos), follow, depth, old(Tables())),
                     r, cur.pos, Tables())
    {
      if !follow {
        return Success(Str(num + " " + gen + " R"));
      } else if depth == 0 {
        return Failure(DepthExceeded);
      }
      r := JumpToObject(cur, num, gen, depth - 1);
    }

    /** `readobject` after "[" (`isArray`) or "<<". */
    method ReadNested(cur: Cursor, isArray: bool, depth: nat) returns (r: Result<Value>)
      modifies this`scanned, this`counttable, cur`pos
      decreases depth, 0, 0
      ensures Yields(Nested(Context(), cur.buf, cur.limit, old(cur.pos), isArray, depth, old(Tables())), r, cur.pos, Tables())
    {
      if depth == 0 {
        return Failure(DepthExceeded);
      }
      if isArray {
        r := GetArray(cur, depth - 1);
      } else {
        r := GetDictionary(cur, depth - 1);
      }
    }

    /** `getarray`: objects (references not followed) up to the first one
        equal to the string "]" (the word, or a literal or hex string with that
        text), which is dropped; a lone element stands for
        itself. */
    method GetArray(cur: Cursor, depth: nat) returns (r: Result<Value>)
      modifies this`scanned, this`counttable, cur`pos
      decreases depth, 1, 0
      ensures var f := Items(Context(), cur.buf, cur.limit, old(cur.pos), depth, old(Tables()), []);
        && (f.Failure? ==> r == Failure(f.error))
        && (f.Success? ==> r == Success(ArrayValue(f.value.0)) && cur.pos == f.value.1 && Tables() == f.value.2)
    {
      ghost var goal := Items(Context(), cur.buf, cur.limit, cur.pos, depth, Tables(), []);
      var elems := [];
      while true
        invariant Items(Context(), cur.buf, cur.limit, cur.pos, depth, Tables(), elems) == goal
        decreases Left(cur.pos, |cur.buf|)
      {
        var v := ReadObject(cur, false, depth);
        if v.Failure? {
          return Failure(v.error);
        }
        if v.value == Str("]") {
          return Success(ArrayValue(elems));
        }
        elems := elems + [v.value];
      }
    }

    /** One pass of the loop of `getdictionary`: a key (not followed), then
        its value (followed when the key is "Length"). */
    method ReadPair(cur: Cursor, depth: nat) returns (r: Result<(string, Value)>)
      modifies this`scanned, this`counttable, cur`pos
      decreases depth, 1, 0
      ensures Yields(Pair(Context(), cur.buf, cur.limit, old(cur.pos), depth, old(Tables())), r, cur.pos, Tables())
    {
      var k := ReadObject(cur, false, depth);
      if k.Failure? {
        return Failure(k.error);
      }
      var v := ReadObject(cur, k.value == Str("Length"), depth);
      if v.Failure? {
        return Failure(v.error);
      }
      if !k.value.Str? {
        return Failure(UnhashableKey);
      }
      return Success((k.value.s, v.value));
    }

    /** The loop of `getdictionary`: each pair is stored as it is read,
        until a pair has ">" as its key or value. */
    method ReadPairs(cur: Cursor, depth: nat) returns (r: Result<seq<(string, Value)>>, ghost pairs: seq<(string, Value)>)
      modifies this`scanned, this`counttable, cur`pos
      decreases depth, 2, 0
      ensures var f := Pairs(Context(), cur.buf, cur.limit, old(cur.pos), depth, old(Tables()), []);
        && (f.Failure? ==> r == Failure(f.error))
        && (f.Success? ==> pairs == f.value.0 && r == Success(FromPairs(pairs)) && cur.pos == f.value.1 && Tables() == f.value.2)
    {
      ghost var goal := Pairs(Context(), cur.buf, cur.limit, cur.pos, depth, Tables(), []);
      var d: seq<(string, Value)> := [];
      pairs := [];
      while true
        invariant d == FromPairs(pairs)
        invariant Pairs(Context(), cur.buf, cur.limit, cur.pos, depth, Tables(), pairs) == goal
        decreases Left(cur.pos, |cur.buf|)
      {
        var p := ReadPair(cur, depth);
        if p.Failure? {
          return Failure(p.error), pairs;
        }
        assert (pairs + [p.value])[..|pairs|] == pairs;
        d := OD.Put(d, p.value.0, p.value.1);
        pairs := pairs + [p.value];
        if Closes(p.value) {
          return Success(d), pairs;
        }
      }
    }

    /** The stream bytes of a dictionary with pairs `d`, the word "stream"
        being next. */
    method ReadStreamBytes(cur: Cursor, d: seq<(string, Value)>) returns (r: Result<seq<Byte>>)
      modifies cur`pos
      ensures var s := StreamBytes(codecs, cur.buf, cur.limit, old(cur.pos), d);
        && (r.Success? <==> s.Success?)
        && (r.Success? ==> r.value == s.value.0 && cur.pos == s.value.1)
        && (r.Failure? ==> r.error == s.error)
    {
      var n := Num(Lookup(d, "Length"));
      if n.Failure? {
        return Failure(n.error);
      }
      var w := cur.GetWord();
      if w.Failure? {
        return Failure(w.error);
      }
      var data := cur.ReadStreamData(n.value);
      if data.Failure? {
        return Failure(data.error);
      }
      var decoded := data.value;
      if OD.Has(d, "Filter") {
        var names := FilterNames(Lookup(d, "Filter"));
        if names.Failure? {
          return Failure(names.error);
        }
        var dec := DecodeStream(codecs, data.value, names.value);
        if dec.Failure? {
          return Failure(dec.error);
        }
        decoded := dec.value;
      }
      var e := cur.GetWord();
      if e.Failure? {
        return Failure(e.error);
      }
      return Success(decoded);
    }

    /** The part of `getdictionary` after the pairs: the stream, if the next
        word is "stream". An object stream is read from a cursor of its own
        over the decoded data and three carriage returns. */
    method ReadStreamPart(cur: Cursor, d: seq<(string, Value)>, depth: nat) returns (r: Result<seq<(string, Value)>>)
      modifies this`scanned, this`counttable, cur`pos
      decreases depth, 3, 0
      ensures Yields(StreamPart(Context(), cur.buf, cur.limit, old(cur.pos), d, depth, old(Tables())), r, cur.pos, Tables())
    {
      var tw := cur.GetNextTwoWords();
      if tw.Failure? {
        return Failure(tw.error);
      }
      if tw.value.0 != "stream" {
        return Success(d);
      }
      var data := ReadStreamBytes(cur, d);
      if data.Failure? {
        return Failure(data.error);
      }
      var kind := Lookup(d, "Type");
      if kind == Str("XRef") {
        return Success(OD.Put(d, "Stream", Bytes(data.value)));
      } else if kind == Str("ObjStm") {
        var n := Num(Lookup(d, "N"));
        if n.Failure? {
          return Failure(n.error);
        }
        var tmp := new Cursor(data.value + [13, 13, 13], cur.limit);
        var o := IterateObjStm(tmp, n.value, depth);
        if o.Fail? {
          return Failure(o.error);
        }
        return Success(d);
      }
      return Success(OD.Put(d, "Stream", Str(codecs.text(data.value))));
    }

    /** `iterateobjstm`: the `n` number/offset pairs of the header are read
        and ignored, then `n` objects are read one after the other. Their
        values are not kept; only what reading them records remains. */
    method IterateObjStm(tmp: Cursor, n: int, depth: nat) returns (r: Outcome)
      modifies this`scanned, this`counttable, tmp`pos
      decreases depth, 2, 0
      ensures var f := ObjStm(Context(), tmp.buf, tmp.limit, old(tmp.pos), n, depth, old(Tables()));
        && (f.Failure? ==> r == Fail(f.error))
        && (f.Success? ==> r == Pass && Tables() == f.value)
    {
      r := tmp.SkipObjStmHeader(n);
      if r.Fail? {
        return;
      }
      r := ReadObjStmObjects(tmp, n, depth);
    }

    /** The second loop of `iterateobjstm`. */
    method ReadObjStmObjects(tmp: Cursor, n: int, depth: nat) returns (r: Outcome)
      modifies this`scanned, this`counttable, tmp`pos
      decreases depth, 1, 0
      ensures var f := ObjStmObjects(Context(), tmp.buf, tmp.limit, old(tmp.pos), 0, n, depth, old(Tables()));
        && (f.Failure? ==> r == Fail(f.error))
        && (f.Success? ==> r == Pass && Tables() == f.value)
    {
      ghost var goal := ObjStmObjects(Context(), tmp.buf, tmp.limit, tmp.pos, 0, n, depth, Tables());
      var i := 0;
      while i < n
        invariant ObjStmObjects(Context(), tmp.buf, tmp.limit, tmp.pos, i, n, depth, Tables()) == goal
      {
        var v := ReadObject(tmp, false, depth);
        if v.Failure? {
          return Fail(v.error);
        }
        i := i + 1;
      }
      return Pass;
    }

    /** `getdictionary`: the pairs, then the stream if one follows, then
        `checkdictionary` on the finished dictionary. */
    method GetDictionary(cur: Cursor, depth: nat) returns (r: Result<Value>)
      modifies this`scanned, this`counttable, cur`pos
      decreases depth, 4, 0
      ensures Yields(Dictionary(Context(), cur.buf, cur.limit, old(cur.pos), depth, old(Tables())), r, cur.pos, Tables())
    {
      var d, pairs := ReadPairs(cur, depth);
      if d.Failure? {
        return Failure(d.error);
      }
      var s := ReadStreamPart(cur, d.value, depth);
      if s.Failure? {
        return Failure(s.error);
      }
      var c := CheckDictionary(s.value);
      if c.Fail? {
        return Failure(c.error);
      }
      return Success(Dict(s.value));
    }

    /** `checkdictionary`: one finding for each entry that matches a risk
        rule, in the dictionary's order, appended to its category. */
    method CheckDictionary(d: seq<(string, Value)>) returns (r: Outcome)
      modifies this`counttable
      ensures r.Pass? <==> Findings(d, d, current).Success?
      ensures r.Pass? ==> counttable == Record(old(counttable), Findings(d, d, current).value)
      ensures r.Fail? ==> Findings(d, d, current) == Failure(r.error)
      ensures Keeps(old(counttable), counttable)
    {
      var obj := current;
      var t0 := counttable;
      var t := t0;
      ghost var done: seq<(string, Finding)> := [];
      ghost var goal := Findings(d, d, obj);
      var i := 0;
      assert d[0..] == d;
      match goal {
        case Failure(_) =>
        case Success(fs) => assert done + fs == fs;
      }
      while i < |d|
        invariant 0 <= i <= |d|
        invariant goal == Prepend(done, Findings(d, d[i..], obj))
        invariant t == Record(t0, done)
      {
        CheckStep(t0, d, i, done, obj);
        var f := EntryFinding(d, d[i].0, d[i].1, obj);
        if f.Failure? {
          RecordKeeps(t0, done);
          counttable := t;
          return Fail(f.error);
        }
        ghost var done' := done + Listed(f.value);
        assert goal == Prepend(done', Findings(d, d[i + 1..], obj));
        if f.value.Some? {
          t := AppendFinding(t, f.value.value.0, f.value.value.1);
        }
        assert t == Record(t0, done');
        done := done';
        i := i + 1;
      }
      assert d[i..] == [];
      assert done + [] == done;
      RecordKeeps(t0, done);
      counttable := t;
      return Pass;
    }

    /** `jumptoobject`: the value of object `num gen`, from the cache when it
        was read before, otherwise read at its offset in the cross-reference
        table (the position put back afterwards) and cached. */
    method JumpToObject(cur: Cursor, num: string, gen: string, depth: nat) returns (r: Result<Value>)
      modifies this`scanned, this`counttable, cur`pos
      decreases depth, 2, 0
      ensures Returns(JumpTo(Context(), cur.buf, cur.limit, num, gen, depth, old(Tables())), r, Tables())
      ensures r.Success? ==> cur.pos == old(cur.pos)
    {
      var a := ParseInt(num);
      var b := ParseInt(gen);
      if a.Failure? || b.Failure? {
        return Failure(NotANumber);
      }
      var key := (a.value, b.value);
      if key in scanned {
        return Success(scanned[key]);
      }
      var start := cur.pos;
      var offset := OD.Get(crossref, key);
      if offset.None? {
        return Failure(NotInCrossReference(key.0, key.1));
      }
      var sk := cur.Seek(offset.value);
      if sk.Fail? {
        return Failure(sk.error);
      }
      r := ReadIndirectObject(cur, depth);
      if r.Failure? {
        return;
      }
      var _ := cur.Seek(start);
      scanned := scanned[key := r.value];
    }

    /** `readindirectobject`: words are skipped up to "obj" or "trailer"
        (then one object is read, references not followed) or "endobj" or
        "endstream" (returned as they are); at the end of the audited file
        the result is `None`. */
    method ReadIndirectObject(cur: Cursor, depth: nat) returns (r: Result<Value>)
      modifies this`scanned, this`counttable, cur`pos
      decreases depth, 1, 0
      ensures Returns(Indirect(Context(), cur.buf, cur.limit, old(cur.pos), depth, old(Tables())), r, Tables())
    {
      while cur.pos < cur.limit
        invariant ScanIndirect(cur.buf, cur.limit, cur.pos) == ScanIndirect(cur.buf, cur.limit, old(cur.pos))
        invariant Tables() == old(Tables())
        decreases Left(cur.pos, |cur.buf|)
      {
        var w := cur.GetWord();
        if w.Failure? {
          return Failure(w.error);
        }
        if w.value == "obj" || w.value == "trailer" {
          r := ReadObject(cur, false, depth);
          return;
        }
        if w.value == "endobj" || w.value == "endstream" {
          return Success(Str(w.value));
        }
        if w.value == "" {
          if cur.pos < cur.limit {
            return Failure(Hang);
          }
          return Success(NoneV);
        }
      }
      return Success(NoneV);
    }

    /** `getxref`: the subsections of a classic table, each row applied to
        the cross references as soon as it is read. */
    method GetXref(cur: Cursor) returns (r: Outcome)
      modifies this`crossref, cur`pos
      ensures var s := Sections(cur.buf, cur.limit, old(cur.pos), old(crossref), []);
        && (r.Pass? <==> s.Success?)
        && (r.Pass? ==> crossref == s.value.0 && cur.pos == s.value.2)
        && (r.Fail? ==> s == Failure(r.error))
    {
      ghost var goal := Sections(cur.buf, cur.limit, cur.pos, crossref, []);
      ghost var rows: seq<Row> := [];
      while true
        invariant Sections(cur.buf, cur.limit, cur.pos, crossref, rows) == goal
        decreases Left(cur.pos, |cur.buf|)
      {
        ghost var p0 := cur.pos;
        var tw := cur.GetNextTwoWords();
        if tw.Failure? {
          return Fail(tw.error);
        }
        if !(IsNum(tw.value.0) && IsNum(tw.value.1)) {
          return Pass;
        }
        var a := cur.GetWord();
        assert a.Success?;
        var first := ParseInt(a.value);
        if first.Failure? {
          return Fail(first.error);
        }
        var b := cur.GetWord();
        assert b.Success?;
        var count := ParseInt(b.value);
        if count.Failure? {
          return Fail(count.error);
        }
        assert p0 < cur.pos <= |cur.buf|;
        var o;
        o, rows := ReadSection(cur, first.value, count.value, rows);
        if o.Fail? {
          return o;
        }
      }
    }

    /** One row of a subsection: offset, generation and marker. */
    method ReadRow(cur: Cursor) returns (r: Result<(int, int, string)>)
      modifies cur`pos
      ensures var w := RowWords(cur.buf, cur.limit, old(cur.pos));
        && (r.Success? <==> w.Success?)
        && (r.Success? ==> w.value == (r.value.0, r.value.1, r.value.2, cur.pos))
        && (r.Failure? ==> w == Failure(r.error))
    {
      var o := cur.GetWord();
      if o.Failure? {
        return Failure(o.error);
      }
      var offset := ParseInt(o.value);
      if offset.Failure? {
        return Failure(offset.error);
      }
      var g := cur.GetWord();
      if g.Failure? {
        return Failure(g.error);
      }
      var generation := ParseInt(g.value);
      if generation.Failure? {
        return Failure(generation.error);
      }
      var m := cur.GetWord();
      if m.Failure? {
        return Failure(m.error);
      }
      return Success((offset.value, generation.value, m.value));
    }

    /** Read one row of a subsection and apply it to `table`. */
    method ApplyRow(cur: Cursor, table: Table, i: int, left: int, ghost rows: seq<Row>,
                    ghost section: Result<(Table, seq<Row>, nat)>)
      returns (r: Result<Table>, ghost rows': seq<Row>, next: int, left': int)
      requires left > 0
      requires SectionRows(cur.buf, cur.limit, cur.pos, table, i, left, rows) == section
      modifies cur`pos
      ensures next == i + 1 && left' == left - 1
      ensures r.Failure? ==> section == Failure(r.error)
      ensures r.Success? ==> SectionLeaves(cur.buf, cur.limit, cur.pos, r.value, next, left', rows', section)
    {
      ghost var start := cur.pos;
      rows' := rows;
      next, left' := i + 1, left - 1;
      var w := ReadRow(cur);
      if w.Failure? {
        return Failure(w.error), rows', next, left';
      }
      var offset, generation, marker := w.value.0, w.value.1, w.value.2;
      SectionRowsStep(cur.buf, cur.limit, start, table, i, left, rows, offset, generation, marker, cur.pos, next, left');
      r := TableRow(table, i, offset, generation, marker);
      rows' := rows + [Row(i, offset, generation, marker)];
    }

    /** The `for` loop of `getxref`: `count` rows for the objects from
        `first` on, each applied as soon as it is read; `rows` are the rows
        of the earlier subsections. */
    method ReadSection(cur: Cursor, first: int, count: int, ghost rows: seq<Row>) returns (r: Outcome, ghost rows': seq<Row>)
      modifies this`crossref, cur`pos
      ensures var s := SectionRows(cur.buf, cur.limit, old(cur.pos), old(crossref), first, count, rows);
        && (r.Pass? <==> s.Success?)
        && (r.Pass? ==> s.value == (crossref, rows', cur.pos))
        && (r.Fail? ==> s == Failure(r.error))
    {
      ghost var section := SectionRows(cur.buf, cur.limit, cur.pos, crossref, first, count, rows);
      rows' := rows;
      var table := crossref;
      var i, left := first, count;
      while left > 0
        invariant SectionLeaves(cur.buf, cur.limit, cur.pos, table, i, left, rows', section)
      {
        var step: Result<Table>;
        step, rows', i, left := ApplyRow(cur, table, i, left, rows', section);
        if step.Failure? {
          crossref := table;
          return Fail(step.error), rows';
        }
        table := step.value;
      }
      crossref := table;
      return Pass, rows';
    }

    /** The rows of a decoded cross-reference stream, row `i` for object
        `i`, applied to the cross references. */
    method ApplyStreamEntries(es: seq<Entry>) returns (r: Outcome)
      modifies this`crossref
      ensures var s := StreamRows(old(crossref), 0, es);
        && (r.Pass? <==> s.Success?)
        && (r.Pass? ==> crossref == s.value)
        && (r.Fail? ==> s == Failure(r.error))
    {
      var i := 0;
      while i < |es|
        invariant 0 <= i <= |es|
        invariant StreamRows(crossref, i, es[i..]) == StreamRows(old(crossref), 0, es)
      {
        assert es[i..][1..] == es[i + 1..];
        var t := StreamRow(crossref, i, es[i]);
        if t.Failure? {
          return Fail(t.error);
        }
        crossref := t.value;
        i := i + 1;
      }
      return Pass;
    }

    /** The cross-reference stream branch of `readpdf`: read the dictionary,
        decode its rows, apply the predictor in place, and apply the rows. */
    method ReadXrefStream(cur: Cursor, depth: nat) returns (r: Outcome)
      modifies this`crossref, this`scanned, this`counttable, cur`pos
      ensures Reaches(StreamRevision(codecs, cur.buf, cur.limit, old(cur.pos), depth, old(Globals())), r, Globals())
    {
      var v := ReadIndirectObject(cur, depth);
      if v.Failure? {
        return Fail(v.error);
      }
      if !v.value.Dict? {
        return Fail(NotADictionary);
      }
      var entries := v.value.entries;
      var layout := LayoutOf(entries);
      if layout.Failure? {
        return Fail(layout.error);
      }
      var rows := XrefRows(Lookup(entries, "Stream"), layout.value, Lookup(entries, "Size"));
      if rows.Failure? {
        return Fail(rows.error);
      }
      var es := rows.value.1;
      if layout.value.predictor {
        var a := new Entry[|es|](i requires 0 <= i < |es| => es[i]);
        assert a[..] == es;
        var ok := ApplyUpPredictor(a, rows.value.0);
        if !ok {
          return Fail(PredictorNotImplemented);
        }
        es := a[..];
      }
      r := ApplyStreamEntries(es);
    }

    /** One pass of the loop of `iteratexref`: the `i`-th key becomes the
        current object and is read, its numbers written out by `str`; the
        rest of the loop, `IterateKeys` from `i + 1`, still leads to `goal`. */
    method VisitKey(cur: Cursor, keys: seq<Key>, i: nat, depth: nat, ghost goal: Result<Machine>) returns (r: Outcome)
      requires i < |keys|
      requires IterateKeys(codecs, cur.buf, cur.limit, keys, i, depth, Globals()) == goal
      modifies this`scanned, this`counttable, this`current, cur`pos
      ensures current == Obj(keys[i].0, keys[i].1)
      ensures r.Fail? ==> goal == Failure(r.error)
      ensures r.Pass? ==> IterateKeys(codecs, cur.buf, cur.limit, keys, i + 1, depth, Globals()) == goal
      ensures r.Pass? ==> cur.pos == old(cur.pos)
    {
      IterateKeysStep(codecs, cur.buf, cur.limit, keys, i, depth, Globals());
      current := Obj(keys[i].0, keys[i].1);
      var v := JumpToObject(cur, IntToString(keys[i].0), IntToString(keys[i].1), depth);
      if v.Failure? {
        return Fail(v.error);
      }
      return Pass;
    }

    /** `iteratexref`: every object of the cross-reference table, in the
        table's order, becomes the current object and is read (or found in
        the cache), its numbers passing through `str` and back through
        `int`. */
    method IterateXref(cur: Cursor, depth: nat) returns (r: Outcome)
      modifies this`scanned, this`counttable, this`current, cur`pos
      ensures Reaches(IterateKeys(codecs, cur.buf, cur.limit, OD.Keys(old(crossref)), 0, depth, old(Globals())), r, Globals())
      ensures r.Pass? ==> cur.pos == old(cur.pos)
    {
      var keys := OD.Keys(crossref);
      ghost var goal := IterateKeys(codecs, cur.buf, cur.limit, keys, 0, depth, Globals());
      assert goal == IterateKeys(codecs, cur.buf, cur.limit, OD.Keys(old(crossref)), 0, depth, old(Globals()));
      var i := 0;
      while i < |keys|
        invariant 0 <= i <= |keys|
        invariant IterateKeys(codecs, cur.buf, cur.limit, keys, i, depth, Globals()) == goal
        invariant cur.pos == old(cur.pos)
      {
        r := VisitKey(cur, keys, i, depth, goal);
        if r.Fail? {
          return;
        }
        i := i + 1;
      }
      IterateKeysDone(codecs, cur.buf, cur.limit, keys, i, depth, Globals());
      return Pass;
    }

    /** The first part of `readpdf`: the trailer at `start`, and when it
        names an earlier revision under `Prev`, that whole revision. */
    method ReadEarlier(cur: Cursor, start: nat, depth: nat, chain: nat) returns (r: Outcome)
      requires cur.pos == start
      modifies this`crossref, this`scanned, this`counttable, this`current, cur`pos
      decreases chain, 0
      ensures Reaches(Earlier(codecs, cur.buf, cur.limit, start, depth, chain, old(Globals())), r, Globals())
      ensures r.Pass? ==> Word(cur.buf, cur.limit, start).Success?
    {
      var t := ReadIndirectObject(cur, depth);
      if t.Failure? {
        return Fail(t.error);
      }
      if !t.value.Dict? {
        return Fail(NotADictionary);
      }
      // The trailer was found by scanning words from `start`, so the word
      // there can be read again.
      ghost var m := ScanIndirect(cur.buf, cur.limit, start);
      assert m.Success? && m.value.Body?;
      assert Word(cur.buf, cur.limit, start).Success?;
      var trailer := t.value.entries;
      if !OD.Has(trailer, "Prev") {
        return Pass;
      }
      var prev := Lookup(trailer, "Prev");
      if !prev.Str? {
        return Fail(WrongType);
      }
      var p := ParseInt(prev.s);
      if p.Failure? {
        return Fail(p.error);
      }
      if chain == 0 {
        return Fail(DepthExceeded);
      }
      r := ReadPdf(cur, p.value, depth, chain - 1);
    }

    /** The second part of `readpdf`: this revision's cross references, read
        at `start` once more. */
    method ReadCrossReferences(cur: Cursor, start: nat, depth: nat) returns (r: Outcome)
      requires Word(cur.buf, cur.limit, start).Success?
      modifies this`crossref, this`scanned, this`counttable, cur`pos
      ensures Reaches(CrossReferences(codecs, cur.buf, cur.limit, start, depth, old(Globals())), r, Globals())
    {
      var _ := cur.Seek(start);
      var w := cur.GetWord();
      if w.value == "xref" {
        var g := GetXref(cur);
        if g.Fail? {
          return g;
        }
        if crossref == [] {
          return Fail(EmptyCrossReference);
        }
        return Pass;
      }
      r := ReadXrefStream(cur, depth);
    }

    /** `readpdf`: the trailer (or cross-reference stream dictionary) at
        `start`, the earlier revision it names under `Prev` first, then this
        revision's cross references, then every object listed so far. */
    method ReadPdf(cur: Cursor, start: int, depth: nat, chain: nat) returns (r: Outcome)
      modifies this`crossref, this`scanned, this`counttable, this`current, cur`pos
      decreases chain, 1
      ensures Reaches(Pdf(codecs, cur.buf, cur.limit, start, depth, chain, old(Globals())), r, Globals())
    {
      var s := cur.Seek(start);
      if s.Fail? {
        return s;
      }
      var e := ReadEarlier(cur, start, depth, chain);
      if e.Fail? {
        return e;
      }
      var x := ReadCrossReferences(cur, start, depth);
      if x.Fail? {
        return x;
      }
      r := IterateXref(cur, depth);
    }
  }

  /** `findstartback`: from four bytes before the end, one byte further back
      each time, until the word read there is `word`. */
  method FindStartBack(cur: Cursor, word: string) returns (r: Outcome)
    modifies cur`pos
    ensures var s := StartBack(cur.buf, cur.limit, 4, word);
      && (r.Pass? <==> s.Success?)
      && (r.Pass? ==> cur.pos == s.value)
      && (r.Fail? ==> s == Failure(r.error))
  {
    var back: nat := 4;
    while true
      invariant StartBack(cur.buf, cur.limit, back, word) == StartBack(cur.buf, cur.limit, 4, word)
      decreases Left(back, |cur.buf|)
    {
      if back > |cur.buf| {
        return Fail(StartxrefNotFound);
      }
      var _ := cur.Seek(|cur.buf| - back);
      var w := cur.GetWord();
      if w.Failure? {
        return Fail(w.error);
      }
      if w.value == word {
        return Pass;
      }
      back := back + 1;
    }
  }

  /** `getstartxref`: after "startxref", the last numeric word up to the
      end of the file, made an integer; the file is then put back at its
      start. */
  method GetStartXref(cur: Cursor) returns (r: Result<int>)
    modifies cur`pos
    ensures r == StartXref(cur.buf, cur.limit)
    ensures r.Success? ==> cur.pos == 0
  {
    var f := FindStartBack(cur, "startxref");
    if f.Fail? {
      return Failure(f.error);
    }
    var start: Option<int> := None;
    while cur.pos < cur.limit
      invariant LastNumber(cur.buf, cur.limit, cur.pos, start) == StartXref(cur.buf, cur.limit)
      decreases Left(cur.pos, |cur.buf|)
    {
      var w := cur.GetWord();
      if w.Failure? {
        return Failure(w.error);
      }
      if w.value == "" {
        if cur.pos < cur.limit {
          return Failure(Hang);
        }
        break;
      }
      if IsNum(w.value) {
        var n := ParseInt(w.value);
        if n.Failure? {
          return Failure(n.error);
        }
        start := Some(n.value);
      }
    }
    if start.None? {
      return Failure(NoStartxref);
    }
    var _ := cur.Seek(0);
    return Success(start.value);
  }

  /** The script's main line on the bytes of a whole file: find the
      `startxref` offset, then read the file from there. Gives the findings,
      the cross references and the object cache. */
  method Audit(buf: seq<Byte>, codecs: Codecs, depth: nat, chain: nat)
    returns (r: Outcome, findings: CountTable, table: Table, objects: map<Key, Value>)
    ensures var a := AuditOf(codecs, buf, depth, chain);
      && (a.Failure? ==> r == Fail(a.error))
      && (a.Success? ==> r == Pass && findings == a.value.st.counttable && table == a.value.crossref
                         && objects == a.value.st.scanned)
  {
    var cur := new Cursor(buf, |buf|);
    var engine := new Engine(codecs);
    var start := GetStartXref(cur);
    if start.Failure? {
      return Fail(start.error), [], [], map[];
    }
    r := engine.ReadPdf(cur, start.value, depth, chain);
    findings := engine.counttable;
    table := engine.crossref;
    objects := engine.scanned;
  }
}
