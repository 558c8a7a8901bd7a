/** The pure shape of what the object reader scans, against which the
    methods of `Reader.Engine` are proved: how `readobject` dispatches on its
    first word (pdfaudit.py:391-428), how `readindirectobject` looks for the
    start of an object (pdfaudit.py:430-450), where a stream's bytes lie
    (pdfaudit.py:223-232) and how the key/value pairs of `getdictionary`
    become a dictionary (pdfaudit.py:216-221). */
module ObjectSyntax {
  import opened Common
  import opened Lexer
  import opened Numbers
  import opened Values
  import OD = OrderedDict

  /** `readobjectdefaultlist`: the words `readobject` returns as they are. */
  const DefaultWords: seq<string> := ["true", "false", "endobj", ">", "]", "null"]

  /** What the first word of an object tells `readobject` to do, with the
      position the rest of the reading starts from. */
  datatype Start =
    | DictOpen(p: nat)                             // "<<"
    | HexOpen(p: nat)                              // "<" and anything else
    | LiteralOpen(p: nat)                          // "("
    | ArrayOpen(p: nat)                            // "["
    | NameOpen(p: nat)                             // "/"
    | Reference(num: string, gen: string, p: nat)  // "n g R", all three read
    | Atom(w: string, p: nat)                      // a number or a default word
    | Stray(w: string)                             // anything else: the reader exits

  /** The dispatch of `readobject`. The number test comes before the test of
      the first character, so an empty word (the end of the data) fails only
      there, as `ord('')` does; a second '<' is looked at without being
      read, and the end of the data there is an error. */
  function Classify(buf: seq<Byte>, limit: nat, pos: nat): (r: Result<Start>)
    ensures r.Success? && !r.value.Stray? ==> pos < r.value.p <= |buf|
    ensures r.Success? && r.value.Atom? ==> IsNum(r.value.w) || r.value.w in DefaultWords
    ensures r.Success? && r.value.Stray? ==> !IsNum(r.value.w) && r.value.w !in DefaultWords
  {
    match Word(buf, limit, pos)
    case Failure(e) => Failure(e)
    case Success((w, p)) =>
      if w == "<" then
        if p < |buf| then Success(if buf[p] == 60 then DictOpen(p + 1) else HexOpen(p))
        else Failure(EndOfData)
      else if w == "(" then Success(LiteralOpen(p))
      else if w == "[" then Success(ArrayOpen(p))
      else if IsNum(w) then
        match TwoWords(buf, limit, p)
        case Failure(e) => Failure(e)
        case Success((n, nn)) =>
          if IsNum(n) && nn == "R" then
            match Word(buf, limit, p)
            case Failure(e) => Failure(e)
            case Success((_, p1)) =>
              match Word(buf, limit, p1)
              case Failure(e) => Failure(e)
              case Success((_, p2)) => Success(Reference(w, n, p2))
          else Success(Atom(w, p))
      else if w == "" then Failure(EmptyToken)
      else if w[0] == '/' then Success(NameOpen(p))
      else if w in DefaultWords then Success(Atom(w, p))
      else Success(Stray(w))
  }

  /** The word after a reference's number is read back: `Classify` sees a
      reference exactly when the two words after a number are a number and
      "R", and then the reader stands after the "R". */
  lemma {:induction false} ReferenceShape(buf: seq<Byte>, limit: nat, pos: nat)
    requires Classify(buf, limit, pos).Success? && Classify(buf, limit, pos).value.Reference?
    ensures var c := Classify(buf, limit, pos).value;
      var (w, p) := Word(buf, limit, pos).value;
      && IsNum(c.num) && c.num == w && IsNum(c.gen)
      && TwoWords(buf, limit, p) == Success((c.gen, "R"))
      && c.p == Word(buf, limit, Word(buf, limit, p).value.1).value.1
  {
    var (w, p) := Word(buf, limit, pos).value;
    var (_, p1) := Word(buf, limit, p).value;
    var (_, p2) := Word(buf, limit, p1).value;
    assert p2 >= p1 >= p;
  }

  /** What `readindirectobject` finds scanning word by word: the start of a
      body after "obj" or "trailer", a closing word it returns, or the end of
      the audited file, where it returns `None`. */
  datatype Marker = Body(p: nat) | Closing(w: string) | Off

  function Left(pos: nat, len: nat): nat
  {
    if pos <= len then len - pos + 1 else 0
  }

  /** The scan of `readindirectobject`. An empty word before the audited
      file's end means the data ran out first (only possible in an object
      stream's copy, which is shorter than the file): the source loops for
      ever there, and the model reports `Hang`. */
  function ScanIndirect(buf: seq<Byte>, limit: nat, pos: nat): (r: Result<Marker>)
    ensures r.Success? && r.value.Body? ==> pos < r.value.p <= |buf|
    decreases Left(pos, |buf|)
  {
    if pos >= limit then Success(Off)
    else
      match Word(buf, limit, pos)
      case Failure(e) => Failure(e)
      case Success((w, q)) =>
        if w == "obj" || w == "trailer" then Success(Body(q))
        else if w == "endobj" || w == "endstream" then Success(Closing(w))
        else if w == "" then (if q < limit then Failure(Hang) else Success(Off))
        else ScanIndirect(buf, limit, q)
  }

  /** Past the audited file's end nothing is found: `jumptoobject` to an
      offset beyond the file reads `None`. */
  lemma ScanPastEnd(buf: seq<Byte>, limit: nat, pos: nat)
    requires pos >= limit
    ensures ScanIndirect(buf, limit, pos) == Success(Off)
  {
  }

  /** Words that are not markers are skipped: the scan from a word that is
      not one of the markers, and not the end, is the scan after it. */
  lemma {:induction false} ScanSkipsWord(buf: seq<Byte>, limit: nat, pos: nat)
    requires pos < limit
    requires Word(buf, limit, pos).Success?
    requires var w := Word(buf, limit, pos).value.0;
      w !in ["obj", "trailer", "endobj", "endstream", ""]
    ensures ScanIndirect(buf, limit, pos) == ScanIndirect(buf, limit, Word(buf, limit, pos).value.1)
  {
    var w := Word(buf, limit, pos).value.0;
    assert w != "obj" && w != "trailer" && w != "endobj" && w != "endstream" && w != "";
  }

  /** The bytes of a stream, `Length` already made the integer `n` (by
      `num`, before "stream" is read). `getword` has read "stream" and stands
      at `q`; the reader steps back one byte and reads it: after a line feed
      the data starts at `q`, after anything else (the carriage return of
      "\r\n") one byte later. Then `read(n)`: -1 reads all that is left, a
      shorter file gives fewer bytes, and a smaller `n` raises. */
  function StreamData(buf: seq<Byte>, q: nat, n: int): (r: Result<(seq<Byte>, nat)>)
    ensures r.Success? ==> q <= r.value.1 <= |buf|
    ensures q == 0 ==> r == Failure(NegativeSeek)
    ensures 0 < q && q > |buf| ==> r == Failure(EndOfData)
    ensures 0 < q <= |buf| ==> (r.Failure? <==> n < -1)
  {
    if q == 0 then Failure(NegativeSeek)
    else if q - 1 >= |buf| then Failure(EndOfData)
    else
      var start := if buf[q - 1] == 10 then q else Min(q + 1, |buf|);
      if n < -1 then Failure(BadReadLength)
      else
        var end: nat := if n == -1 || start + n > |buf| then |buf| else start + n;
        Success((buf[start..end], end))
  }

  function Min(a: int, b: int): int { if a < b then a else b }

  /** A `Length` that fits gives exactly that many bytes right after the line
      end, whichever line end follows "stream". */
  lemma StreamDataExact(buf: seq<Byte>, q: nat, n: nat)
    requires 0 < q <= |buf|
    requires var start := if buf[q - 1] == 10 then q else q + 1; start + n <= |buf|
    ensures var start := if buf[q - 1] == 10 then q else q + 1;
      StreamData(buf, q, n) == Success((buf[start..start + n], start + n))
  {
  }

  /** The loop of `getdictionary` stops after the pair whose key or value is
      the word ">". */
  predicate Closes(pair: (string, Value))
  {
    pair.0 == ">" || pair.1 == Str(">")
  }

  /** `dictionary[getkey] = getobject` for the pairs in reading order. */
  function FromPairs(ps: seq<(string, Value)>): seq<(string, Value)>
  {
    if ps == [] then [] else OD.Put(FromPairs(ps[..|ps| - 1]), ps[|ps| - 1].0, ps[|ps| - 1].1)
  }

  /** A key no pair has is absent. */
  lemma {:induction false} FromPairsAbsent(ps: seq<(string, Value)>, k: string)
    requires forall j :: 0 <= j < |ps| ==> ps[j].0 != k
    ensures OD.Get(FromPairs(ps), k) == None
  {
    if ps != [] {
      FromPairsAbsent(ps[..|ps| - 1], k);
    }
  }

  /** A key's value is the one of its last pair: later pairs overwrite
      earlier ones. */
  lemma {:induction false} FromPairsLast(ps: seq<(string, Value)>, j: nat)
    requires j < |ps|
    requires forall m :: j < m < |ps| ==> ps[m].0 != ps[j].0
    ensures OD.Get(FromPairs(ps), ps[j].0) == Some(ps[j].1)
  {
    if j < |ps| - 1 {
      var init := ps[..|ps| - 1];
      assert init[j] == ps[j];
      FromPairsLast(init, j);
    }
  }

  /** The first loop of `iterateobjstm`: the words of the `n - i` remaining
      number/offset pairs are read and ignored. */
  function ObjStmHeader(buf: seq<Byte>, limit: nat, pos: nat, i: int, n: int): (r: Result<nat>)
    ensures r.Success? ==> pos <= r.value
    decreases if i < n then n - i else 0
  {
    if i >= n then Success(pos)
    else
      var a :- Word(buf, limit, pos);
      var b :- Word(buf, limit, a.1);
      ObjStmHeader(buf, limit, b.1, i + 1, n)
  }
}
