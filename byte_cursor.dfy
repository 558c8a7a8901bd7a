/** The seekable file the reader works on: a byte buffer and a position. The
    audited file and the in-memory copy of an object stream are both cursors;
    both carry as `limit` the size of the audited file, because `noteof`
    (pdfaudit.py:107-109) always asks for that file's size. Each method mirrors
    the loop of the Python function it names and is proved to compute the scan
    that `Lexer` defines. */
module ByteCursor {
  import opened Common
  import opened Lexer
  import opened Numbers
  import opened ObjectSyntax

  class Cursor {
    const buf: seq<Byte>
    const limit: nat
    var pos: nat

    constructor (buf: seq<Byte>, limit: nat)
      ensures this.buf == buf && this.limit == limit && pos == 0
    {
      this.buf := buf;
      this.limit := limit;
      pos := 0;
    }

    /** `noteof`. */
    predicate NotEof()
      reads this
    {
      pos < limit
    }

    /** `file.read(1)`: a byte and one step forward, or nothing at the end. */
    method ReadByte() returns (b: Option<Byte>)
      modifies this`pos
      ensures old(pos) < |buf| ==> b == Some(buf[old(pos)]) && pos == old(pos) + 1
      ensures old(pos) >= |buf| ==> b == None && pos == old(pos)
    {
      if pos < |buf| {
        b := Some(buf[pos]);
        pos := pos + 1;
      } else {
        b := None;
      }
    }

    /** `file.read(n)`: at most `n` bytes, everything left for -1; other
        negative lengths are refused. */
    method ReadN(n: int) returns (r: Result<seq<Byte>>)
      modifies this`pos
      ensures n < -1 <==> r == Failure(BadReadLength)
      ensures n >= -1 && old(pos) >= |buf| ==> r == Success([]) && pos == old(pos)
      ensures n >= -1 && old(pos) < |buf| ==>
        var end := if n == -1 || old(pos) + n > |buf| then |buf| else old(pos) + n;
        r == Success(buf[old(pos)..end]) && pos == end
    {
      if n < -1 {
        return Failure(BadReadLength);
      }
      if pos >= |buf| {
        return Success([]);
      }
      var end := if n == -1 || pos + n > |buf| then |buf| else pos + n;
      r := Success(buf[pos..end]);
      pos := end;
    }

    /** `nextchar`: the next character, the position left as it was. */
    method NextChar() returns (r: Result<char>)
      modifies this`pos
      ensures pos == old(pos)
      ensures r == if pos < |buf| then Success(Chr(buf[pos])) else Failure(EndOfData)
    {
      var b := ReadByte();
      if b.None? {
        return Failure(EndOfData);
      }
      pos := pos - 1;
      r := Success(Chr(b.value));
    }

    /** `readcomment`, called just after a '%'. */
    method ReadComment() returns (r: Outcome)
      modifies this`pos
      ensures r.Pass? <==> CommentEnd(buf, limit, old(pos)).Success?
      ensures r.Pass? ==> pos == CommentEnd(buf, limit, old(pos)).value
      ensures r.Fail? ==> CommentEnd(buf, limit, old(pos)) == Failure(r.error)
    {
      var notNewline := true;
      while notNewline && pos < limit
        invariant notNewline ==> CommentEnd(buf, limit, pos) == CommentEnd(buf, limit, old(pos))
        invariant !notNewline ==> CommentEnd(buf, limit, old(pos)) == Success(pos)
        decreases limit - pos
      {
        var b := ReadByte();
        if b.None? {
          return Fail(EndOfData);
        }
        notNewline := !IsNewline(b.value);
      }
      return Pass;
    }

    /** `file.seek(p)`: a negative position is refused; a position past the
        end is allowed, and reading there gives nothing. */
    method Seek(p: int) returns (r: Outcome)
      modifies this`pos
      ensures r.Fail? <==> p < 0
      ensures r.Fail? ==> r.error == NegativeSeek && pos == old(pos)
      ensures r.Pass? ==> pos == p
    {
      if p < 0 {
        return Fail(NegativeSeek);
      }
      pos := p;
      return Pass;
    }

    /** The first loop of `iterateobjstm`: the `n` number/offset pairs of an
        object stream's header, read and ignored. */
    method SkipObjStmHeader(n: int) returns (r: Outcome)
      modifies this`pos
      ensures var h := ObjStmHeader(buf, limit, old(pos), 0, n);
        && (h.Failure? ==> r == Fail(h.error))
        && (h.Success? ==> r == Pass && pos == h.value)
    {
      ghost var header := ObjStmHeader(buf, limit, pos, 0, n);
      var i := 0;
      while i < n
        invariant ObjStmHeader(buf, limit, pos, i, n) == header
      {
        var num := GetWord();
        if num.Failure? {
          return Fail(num.error);
        }
        var offset := GetWord();
        if offset.Failure? {
          return Fail(offset.error);
        }
        i := i + 1;
      }
      return Pass;
    }

    /** `getword`. */
    method GetWord() returns (r: Result<string>)
      modifies this`pos
      ensures r.Success? <==> Word(buf, limit, old(pos)).Success?
      ensures r.Success? ==> Word(buf, limit, old(pos)).value == (r.value, pos)
      ensures r.Failure? ==> Word(buf, limit, old(pos)) == Failure(r.error)
      ensures r.Success? && r.value != "" ==> old(pos) < pos <= |buf|
      ensures r.Success? && r.value == "" ==> pos == Max(old(pos), |buf|)
    {
      var foundWord := "";
      var delimiter := false;
      while !delimiter
        invariant !delimiter ==> WordFrom(buf, limit, pos, foundWord) == Word(buf, limit, old(pos))
        invariant !delimiter && foundWord != "" ==> pos <= |buf|
        invariant delimiter ==> Word(buf, limit, old(pos)) == Success((foundWord, pos))
        decreases |buf| - pos + (if delimiter then 0 else 1)
      {
        var single := ReadByte();
        if single.None? {
          return Success("");
        }
        var b := single.value;
        delimiter := IsWhite(b) || IsDelim(b);
        if foundWord == "" && IsWhite(b) {
          delimiter := false;
        } else if b == Percent {
          var c := ReadComment();
          if c.Fail? {
            return Failure(c.error);
          }
        } else if !delimiter {
          foundWord := foundWord + [Chr(b)];
        } else if IsDelim(b) {
          if foundWord == "" {
            foundWord := [Chr(b)];
          } else {
            pos := pos - 1;
          }
        }
      }
      return Success(foundWord);
    }

    /** `getnexttwowords`: peek at the next two words. */
    method GetNextTwoWords() returns (r: Result<(string, string)>)
      modifies this`pos
      ensures pos == old(pos)
      ensures r == TwoWords(buf, limit, pos)
    {
      var start := pos;
      var w1 := GetWord();
      if w1.Failure? {
        pos := start;
        return Failure(w1.error);
      }
      var w2 := GetWord();
      pos := start;
      if w2.Failure? {
        return Failure(w2.error);
      }
      return Success((w1.value, w2.value));
    }

    /** `getliteralstring`, called just after the opening '('. */
    method GetLiteralString() returns (r: Result<string>)
      modifies this`pos
      ensures r.Success? <==> Literal(buf, old(pos)).Success?
      ensures r.Success? ==> Literal(buf, old(pos)).value == (r.value, pos)
      ensures r.Failure? ==> Literal(buf, old(pos)) == Failure(r.error)
      ensures r.Success? ==> old(pos) < pos <= |buf|
    {
      var foundString := "";
      var depth: nat := 1;
      while depth > 0
        invariant pos == old(pos) || old(pos) < pos <= |buf|
        invariant depth == 0 ==> old(pos) < pos
        invariant depth > 0 ==> LiteralFrom(buf, pos, depth, foundString) == Literal(buf, old(pos))
        invariant depth == 0 ==> Literal(buf, old(pos)) == Success((foundString, pos))
        decreases |buf| - pos
      {
        var single := ReadByte();
        if single.None? {
          return Failure(EndOfData);
        }
        var c := single.value;
        var d := depth + ParenStep(c);
        depth := if d > 0 then d else 0;
        if depth > 0 {
          foundString := foundString + [Chr(c)];
        }
      }
      return Success(foundString);
    }

    /** `gethexstring`, called just after the '<'. */
    method GetHexString() returns (r: Result<string>)
      modifies this`pos
      ensures r.Success? <==> Hex(buf, old(pos)).Success?
      ensures r.Success? ==> Hex(buf, old(pos)).value == (r.value, pos)
      ensures r.Failure? ==> Hex(buf, old(pos)) == Failure(r.error)
      ensures r.Success? ==> old(pos) < pos <= |buf|
    {
      var hexString := "";
      var single: Byte := 0;
      while single != 62
        invariant pos == old(pos) || old(pos) < pos <= |buf|
        invariant single == 62 ==> old(pos) < pos
        invariant single != 62 ==> HexFrom(buf, pos, hexString) == Hex(buf, old(pos))
        invariant single == 62 ==> Hex(buf, old(pos)) == Success((hexString, pos))
        decreases |buf| - pos
      {
        var b := ReadByte();
        if b.None? {
          return Failure(EndOfData);
        }
        single := b.value;
        if single != 62 {
          hexString := hexString + [Chr(single)];
        }
      }
      return Success(hexString);
    }

    /** The first part of `readobject`: read the first word and as much
        after it as decides what follows ('<' and the byte after it, or a
        number and, when it starts a reference, the two words after it). */
    method ReadStart() returns (r: Result<Start>)
      modifies this`pos
      ensures r == Classify(buf, limit, old(pos))
      ensures r.Success? && !r.value.Stray? ==> pos == r.value.p
    {
      var w := GetWord();
      if w.Failure? {
        return Failure(w.error);
      }
      var word := w.value;
      if word == "<" {
        var c := NextChar();
        if c.Failure? {
          return Failure(c.error);
        }
        if c.value == '<' {
          var _ := ReadByte();
          return Success(DictOpen(pos));
        }
        return Success(HexOpen(pos));
      } else if word == "(" {
        return Success(LiteralOpen(pos));
      } else if word == "[" {
        return Success(ArrayOpen(pos));
      } else if IsNum(word) {
        var tw := GetNextTwoWords();
        if tw.Failure? {
          return Failure(tw.error);
        }
        if IsNum(tw.value.0) && tw.value.1 == "R" {
          var n := GetWord();
          var rr := GetWord();
          assert n.Success? && rr.Success?;
          return Success(Reference(word, tw.value.0, pos));
        }
        return Success(Atom(word, pos));
      } else if word == "" {
        return Failure(EmptyToken);
      } else if word[0] == '/' {
        return Success(NameOpen(pos));
      } else if word in DefaultWords {
        return Success(Atom(word, pos));
      }
      return Success(Stray(word));
    }

    /** The stream part of `getdictionary` after the word "stream": step
        back one byte, look at it, skip the line end and read `n` bytes. */
    method ReadStreamData(n: int) returns (r: Result<seq<Byte>>)
      modifies this`pos
      ensures var s := StreamData(buf, old(pos), n);
        && (r.Success? <==> s.Success?)
        && (r.Success? ==> r.value == s.value.0 && pos == s.value.1)
        && (r.Failure? ==> r.error == s.error)
    {
      if pos == 0 {
        return Failure(NegativeSeek);
      }
      pos := pos - 1;
      var c := NextChar();
      if c.Failure? {
        return Failure(c.error);
      }
      var skip := if c.value == '\n' then 1 else 2;
      var _ := ReadN(skip);
      r := ReadN(n);
    }
  }
}
