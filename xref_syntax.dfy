/** The pure shape of the two scans over the file's words that find the
    cross references: the classic table read by `getxref`
    (pdfaudit.py:460-481), applied row by row as it is read, and the search
    for the `startxref` offset by `findstartback` and `getstartxref`
    (pdfaudit.py:483-499). */
module XrefSyntax {
  import opened Common
  import opened Lexer
  import opened Numbers
  import opened XrefTable
  import ObjectSyntax

  /** One row of a subsection: an offset and a generation, both made
      integers as they are read, then the marker, and where the reading
      stops. */
  function RowWords(buf: seq<Byte>, limit: nat, pos: nat): (r: Result<(int, int, string, nat)>)
    ensures r.Success? ==> pos <= r.value.3 && (pos <= |buf| ==> r.value.3 <= |buf|)
  {
    var a :- Word(buf, limit, pos);
    var offset :- ParseInt(a.0);
    var b :- Word(buf, limit, a.1);
    var gen :- ParseInt(b.0);
    var m :- Word(buf, limit, b.1);
    Success((offset, gen, m.0, m.1))
  }

  /** The rows of one subsection, object numbers `first`, `first + 1`, ...,
      each applied to the table before the next row is read. `acc` holds the
      rows read so far. */
  function SectionRows(buf: seq<Byte>, limit: nat, pos: nat, t: Table, first: int, count: int, acc: seq<Row>):
    (r: Result<(Table, seq<Row>, nat)>)
    ensures r.Success? ==> pos <= r.value.2 && (pos <= |buf| ==> r.value.2 <= |buf|)
    decreases if count > 0 then count else 0
  {
    if count <= 0 then Success((t, acc, pos))
    else
      var w :- RowWords(buf, limit, pos);
      var t' :- TableRow(t, first, w.0, w.1, w.2);
      SectionRows(buf, limit, w.3, t', first + 1, count - 1, acc + [Row(first, w.0, w.1, w.2)])
  }

  /** One row read and applied: the rest of the subsection is read from
      where the row ends, under the next object number. */
  lemma SectionRowsStep(buf: seq<Byte>, limit: nat, pos: nat, t: Table, first: int, count: int, acc: seq<Row>,
                        offset: int, gen: int, marker: string, q: nat, next: int, rest: int)
    requires count > 0 && next == first + 1 && rest == count - 1
    requires RowWords(buf, limit, pos) == Success((offset, gen, marker, q))
    ensures var t' := TableRow(t, first, offset, gen, marker);
      && (t'.Failure? ==> SectionRows(buf, limit, pos, t, first, count, acc) == Failure(t'.error))
      && (t'.Success? ==>
            SectionRows(buf, limit, pos, t, first, count, acc)
            == SectionRows(buf, limit, q, t'.value, next, rest, acc + [Row(first, offset, gen, marker)]))
  {
  }

  /** The subsections of `getxref`: while the next two words (only peeked at)
      are both numeric, they are read as the first object number and the
      count, and that many rows follow. */
  function Sections(buf: seq<Byte>, limit: nat, pos: nat, t: Table, acc: seq<Row>):
    (r: Result<(Table, seq<Row>, nat)>)
    ensures r.Success? ==> pos <= r.value.2
    ensures r.Success? ==> var tw := TwoWords(buf, limit, r.value.2);
      tw.Success? && !(IsNum(tw.value.0) && IsNum(tw.value.1))
    decreases ObjectSyntax.Left(pos, |buf|)
  {
    var tw :- TwoWords(buf, limit, pos);
    if !(IsNum(tw.0) && IsNum(tw.1)) then Success((t, acc, pos))
    else
      // The words were peeked at, so reading them again cannot fail.
      match Word(buf, limit, pos)
      case Failure(e) => Failure(e)
      case Success(a) =>
        var start :- ParseInt(a.0);
        match Word(buf, limit, a.1)
        case Failure(e) => Failure(e)
        case Success(b) =>
          var count :- ParseInt(b.0);
          var s :- SectionRows(buf, limit, b.1, t, start, count, acc);
          Sections(buf, limit, s.2, s.0, s.1)
  }

  /** Reading a subsection applies its rows in order: the table it leaves is
      the table `TableRows` computes from the rows it read. */
  lemma {:induction false} SectionRowsApply(buf: seq<Byte>, limit: nat, pos: nat, t: Table, first: int, count: int, acc: seq<Row>)
    requires SectionRows(buf, limit, pos, t, first, count, acc).Success?
    ensures var r := SectionRows(buf, limit, pos, t, first, count, acc).value;
      |acc| <= |r.1| && r.1[..|acc|] == acc && TableRows(t, r.1[|acc|..]) == Success(r.0)
    decreases if count > 0 then count else 0
  {
    var r := SectionRows(buf, limit, pos, t, first, count, acc).value;
    if count <= 0 {
      assert r.1 == acc && r.0 == t;
      assert r.1[|acc|..] == [];
    } else {
      var w := RowWords(buf, limit, pos).value;
      var row := Row(first, w.0, w.1, w.2);
      var t' := TableRow(t, first, w.0, w.1, w.2).value;
      assert r == SectionRows(buf, limit, w.3, t', first + 1, count - 1, acc + [row]).value;
      SectionRowsApply(buf, limit, w.3, t', first + 1, count - 1, acc + [row]);
      RowsStep(r.1, acc, row);
      assert TableRows(t, r.1[|acc|..]) == TableRows(t', r.1[|acc| + 1..]);
    }
  }

  lemma RowsStep(rows: seq<Row>, acc: seq<Row>, row: Row)
    requires |acc| + 1 <= |rows| && rows[..|acc| + 1] == acc + [row]
    ensures rows[..|acc|] == acc
    ensures rows[|acc|..][0] == row && rows[|acc|..][1..] == rows[|acc| + 1..]
  {
    assert rows[..|acc|] == rows[..|acc| + 1][..|acc|];
    assert rows[|acc|] == rows[..|acc| + 1][|acc|];
  }

  /** The whole table: `getxref` leaves the cross references as `TableRows`
      computes them from every row of every subsection, in order. */
  lemma {:induction false} SectionsApply(buf: seq<Byte>, limit: nat, pos: nat, t: Table, acc: seq<Row>)
    requires Sections(buf, limit, pos, t, acc).Success?
    ensures var r := Sections(buf, limit, pos, t, acc).value;
      |acc| <= |r.1| && r.1[..|acc|] == acc && TableRows(t, r.1[|acc|..]) == Success(r.0)
    decreases ObjectSyntax.Left(pos, |buf|)
  {
    var r := Sections(buf, limit, pos, t, acc).value;
    var tw := TwoWords(buf, limit, pos).value;
    if IsNum(tw.0) && IsNum(tw.1) {
      var a := Word(buf, limit, pos).value;
      var start := ParseInt(a.0).value;
      var b := Word(buf, limit, a.1).value;
      var count := ParseInt(b.0).value;
      var s := SectionRows(buf, limit, b.1, t, start, count, acc).value;
      assert r == Sections(buf, limit, s.2, s.0, s.1).value;
      SectionRowsApply(buf, limit, b.1, t, start, count, acc);
      SectionsApply(buf, limit, s.2, s.0, s.1);
      RowsJoin(r.1, s.1, acc);
      TableRowsAppend(t, s.1[|acc|..], r.1[|s.1|..]);
    } else {
      assert r.1 == acc && r.0 == t;
      assert r.1[|acc|..] == [];
    }
  }

  lemma RowsJoin(rows: seq<Row>, mid: seq<Row>, acc: seq<Row>)
    requires |acc| <= |mid| <= |rows| && mid[..|acc|] == acc && rows[..|mid|] == mid
    ensures rows[..|acc|] == acc
    ensures rows[|acc|..] == mid[|acc|..] + rows[|mid|..]
  {
    assert rows[..|acc|] == rows[..|mid|][..|acc|];
  }

  /** `findstartback`: from four bytes before the end, step back one byte at
      a time until the word there is `word`; stepping before the start of the
      file is an error. Gives the position after the word. */
  function StartBack(buf: seq<Byte>, limit: nat, back: nat, word: string): (r: Result<nat>)
    ensures r.Success? ==>
      exists p: nat :: p + back <= |buf| && Word(buf, limit, p) == Success((word, r.value)) &&
        (forall c: nat :: p < c && c + back <= |buf| ==> Word(buf, limit, c).Success? && Word(buf, limit, c).value.0 != word)
    decreases ObjectSyntax.Left(back, |buf|)
  {
    if back > |buf| then Failure(StartxrefNotFound)
    else
      var w :- Word(buf, limit, |buf| - back);
      if w.0 == word then Success(w.1) else StartBack(buf, limit, back + 1, word)
  }

  /** The loop of `getstartxref` after "startxref": every numeric word is made
      an integer (which may fail) and the last one is kept; with none, the
      variable is never assigned. */
  function LastNumber(buf: seq<Byte>, limit: nat, pos: nat, start: Option<int>): (r: Result<int>)
    ensures start.None? && r.Success? ==> pos < limit
    ensures r.Success? ==> start == Some(r.value) || exists q :: pos <= q < limit && NumberAt(buf, limit, q, r.value)
    decreases ObjectSyntax.Left(pos, |buf|)
  {
    if pos >= limit then Kept(start)
    else
      var w :- Word(buf, limit, pos);
      if w.0 == "" then (if w.1 < limit then Failure(Hang) else Kept(start))
      else if IsNum(w.0) then
        var n :- ParseInt(w.0);
        assert NumberAt(buf, limit, pos, n);
        LastNumber(buf, limit, w.1, Some(n))
      else LastNumber(buf, limit, w.1, start)
  }

  /** The word read at `q` is numeric and is made the integer `n`. */
  predicate NumberAt(buf: seq<Byte>, limit: nat, q: nat, n: int)
  {
    var w := Word(buf, limit, q);
    w.Success? && IsNum(w.value.0) && ParseInt(w.value.0) == Success(n)
  }

  /** The offset is the last numeric word: either it was already kept and no
      numeric word follows, or it is the number read at some `q`, after which
      no numeric word follows. */
  lemma {:induction false} LastNumberIsLast(buf: seq<Byte>, limit: nat, pos: nat, start: Option<int>)
    ensures var r := LastNumber(buf, limit, pos, start);
      r.Success? ==>
        || (start == Some(r.value) && LastNumber(buf, limit, pos, None) == Failure(NoStartxref))
        || exists q :: pos <= q < limit && NumberAt(buf, limit, q, r.value) &&
             LastNumber(buf, limit, Word(buf, limit, q).value.1, None) == Failure(NoStartxref)
    decreases ObjectSyntax.Left(pos, |buf|)
  {
    var r := LastNumber(buf, limit, pos, start);
    if pos < limit && r.Success? {
      var w := Word(buf, limit, pos).value;
      if w.0 != "" {
        if IsNum(w.0) {
          var n := ParseInt(w.0).value;
          LastNumberIsLast(buf, limit, w.1, Some(n));
          if r.value == n && LastNumber(buf, limit, w.1, None) == Failure(NoStartxref) {
            assert NumberAt(buf, limit, pos, r.value);
          }
        } else {
          LastNumberIsLast(buf, limit, w.1, start);
        }
      }
    }
  }

  /** On the audited file, whose limit is its length, the loop of
      `getstartxref` always ends. */
  lemma {:induction false} LastNumberOnFile(buf: seq<Byte>, pos: nat, start: Option<int>)
    ensures LastNumber(buf, |buf|, pos, start) != Failure(Hang)
    decreases ObjectSyntax.Left(pos, |buf|)
  {
    if pos < |buf| {
      var w := Word(buf, |buf|, pos);
      WordNeverFailsOnFile(buf, pos, "");
      assert w == WordFrom(buf, |buf|, pos, "");
      if w.value.0 != "" {
        if IsNum(w.value.0) {
          if ParseInt(w.value.0).Success? { LastNumberOnFile(buf, w.value.1, Some(ParseInt(w.value.0).value)); }
        } else {
          LastNumberOnFile(buf, w.value.1, start);
        }
      }
    }
  }

  /** `startxref 7 42`: the last number is the offset. */
  lemma LastOfTwoNumbers()
    ensures LastNumber([55, 32, 52, 50, 10], 5, 0, None) == Success(42)
  {
    var b: seq<Byte> := [55, 32, 52, 50, 10];
    SevenThenFortyTwo();
    SmallNumbers();
    assert LastNumber(b, 5, 5, Some(42)) == Success(42);
    assert LastNumber(b, 5, 2, Some(7)) == Success(42);
  }

  lemma SevenThenFortyTwo()
    ensures Word([55, 32, 52, 50, 10], 5, 0) == Success(("7", 2))
    ensures Word([55, 32, 52, 50, 10], 5, 2) == Success(("42", 5))
  {
    var b: seq<Byte> := [55, 32, 52, 50, 10];
    RegularRun(b, 5, 0, 1, "");
    assert Chars(b[0..1]) == "7";
    RegularRun(b, 5, 2, 4, "");
    assert Chars(b[2..4]) == "42";
  }

  lemma SmallNumbers()
    ensures IsNum("7") && ParseInt("7") == Success(7)
    ensures IsNum("42") && ParseInt("42") == Success(42)
  {
    DecimalIsNum("7", false);
    ParseIntDigits("7");
    DecimalIsNum("42", false);
    ParseIntDigits("42");
  }

  /** `startxref %%EOF`: with no number after it there is no offset. */
  lemma NoNumberNoOffset()
    ensures LastNumber([37, 37, 69, 79, 70], 5, 0, None) == Failure(NoStartxref)
  {
    var b: seq<Byte> := [37, 37, 69, 79, 70];
    assert CommentEnd(b, 5, 1) == Success(5);
    assert Word(b, 5, 0) == Success(("", 5));
  }

  function Kept(start: Option<int>): (r: Result<int>)
    ensures r.Success? <==> start.Some?
  {
    if start.Some? then Success(start.value) else Failure(NoStartxref)
  }

  /** `getstartxref`: the offset is a number read after the last
      "startxref". */
  function StartXref(buf: seq<Byte>, limit: nat): (r: Result<int>)
    ensures r.Success? ==> var q := StartBack(buf, limit, 4, "startxref");
      q.Success? && exists p :: q.value <= p < limit && NumberAt(buf, limit, p, r.value)
  {
    var q :- StartBack(buf, limit, 4, "startxref");
    LastNumber(buf, limit, q, None)
  }
}
