/** The lexical layer of the reader as functions of the file's bytes and a
    cursor position: what `readcomment`, `getword`, `getliteralstring` and
    `gethexstring` read and where they leave the cursor (pdfaudit.py:139-177,
    296-334, 380-389). White space and delimiters are the byte classes of
    section 7.2.2 of ISO 32000-1:2008 (pdfaudit.py:75-77). The methods of
    `ByteCursor.Cursor` run these scans with loops and are proved equal to them.

    `limit` is the file size `noteof` compares the cursor with: it is the size
    of the audited file even while an object stream's in-memory copy is read. */
module Lexer {
  import opened Common

  /** NUL, TAB, LF, FF, CR and SPACE. */
  predicate IsWhite(b: int)
  {
    b == 0 || b == 9 || b == 10 || b == 12 || b == 13 || b == 32
  }

  /** ( ) < > [ ] { } / */
  predicate IsDelim(b: int)
  {
    b == 40 || b == 41 || b == 60 || b == 62 || b == 91 || b == 93 || b == 123 || b == 125 || b == 47
  }

  predicate IsNewline(b: int) { b == 13 || b == 10 }

  const Percent: Byte := 37

  /** A byte that becomes part of a word. */
  predicate IsRegular(b: int)
  {
    !IsWhite(b) && !IsDelim(b) && b != Percent
  }

  predicate AllRegular(w: string)
  {
    forall i :: 0 <= i < |w| ==> IsRegular(w[i] as int)
  }

  /** `readcomment`, entered just after a '%': it reads through the first CR or
      LF, or until `noteof` fails, and runs off the buffer when the buffer is
      shorter than `limit`. The result is the position after the comment. */
  function CommentEnd(buf: seq<Byte>, limit: nat, pos: nat): (r: Result<nat>)
    ensures r.Success? ==> pos <= r.value && (pos <= |buf| ==> r.value <= |buf|)
    ensures pos >= limit ==> r == Success(pos)
    ensures r.Success? && pos < limit ==>
      && pos < r.value <= limit && r.value <= |buf|
      && (forall k :: pos <= k < r.value - 1 ==> !IsNewline(buf[k]))
      && (IsNewline(buf[r.value - 1]) || r.value == limit)
    ensures r.Failure? ==>
      && r.error == EndOfData && pos < limit && |buf| < limit
      && forall k :: pos <= k < |buf| ==> !IsNewline(buf[k])
    decreases limit - pos
  {
    if pos >= limit then Success(pos)
    else if pos >= |buf| then Failure(EndOfData)
    else if IsNewline(buf[pos]) then Success(pos + 1)
    else CommentEnd(buf, limit, pos + 1)
  }

  /** The converse: when the first CR or LF from `pos` is at `j`, before
      `limit`, the comment ends just past it. */
  lemma {:induction false} CommentEndAtNewline(buf: seq<Byte>, limit: nat, pos: nat, j: nat)
    requires pos <= j < limit && j < |buf| && IsNewline(buf[j])
    requires forall k :: pos <= k < j ==> !IsNewline(buf[k])
    ensures CommentEnd(buf, limit, pos) == Success(j + 1)
    decreases j - pos
  {
    if pos < j {
      CommentEndAtNewline(buf, limit, pos + 1, j);
    }
  }

  /** One pass of `getword`'s loop with `acc` read so far. */
  function WordFrom(buf: seq<Byte>, limit: nat, pos: nat, acc: string): (r: Result<(string, nat)>)
    ensures r.Success? ==> pos <= r.value.1
    ensures r.Success? && pos <= |buf| ==> r.value.1 <= |buf|
    ensures r.Success? && pos < |buf| && acc == "" ==> pos < r.value.1
    ensures r.Success? && r.value.0 != "" ==> pos < |buf| && r.value.1 <= |buf|
    ensures r.Success? && r.value.0 == "" ==> r.value.1 == Max(pos, |buf|)
    decreases |buf| - pos
  {
    if pos >= |buf| then Success(("", pos))
    else
      var b := buf[pos];
      if acc == "" && IsWhite(b) then WordFrom(buf, limit, pos + 1, acc)
      else if b == Percent then
        match CommentEnd(buf, limit, pos + 1)
        case Failure(e) => Failure(e)
        case Success(c) => WordFrom(buf, limit, c, acc)
      else if IsRegular(b) then WordFrom(buf, limit, pos + 1, acc + [Chr(b)])
      else if IsDelim(b) then
        if acc == "" then Success(([Chr(b)], pos + 1)) else Success((acc, pos))
      else Success((acc, pos + 1))
  }

  /** `getword`: the next word and the position after it. */
  function Word(buf: seq<Byte>, limit: nat, pos: nat): Result<(string, nat)>
  {
    WordFrom(buf, limit, pos, "")
  }

  /** `getnexttwowords`: the next two words (the cursor is put back). */
  function TwoWords(buf: seq<Byte>, limit: nat, pos: nat): Result<(string, string)>
  {
    match Word(buf, limit, pos)
    case Failure(e) => Failure(e)
    case Success((w1, p1)) =>
      match Word(buf, limit, p1)
      case Failure(e) => Failure(e)
      case Success((w2, _)) => Success((w1, w2))
  }

  function Max(a: int, b: int): int { if a < b then b else a }

  /** The shape of every word: empty at the end of the data, a lone delimiter,
      or a run of regular bytes that ended at a delimiter (left unread) or at a
      white-space byte (consumed). */
  predicate WordShape(buf: seq<Byte>, pos: nat, acc: string, w: string, p: nat)
  {
    || (w == "" && p == Max(pos, |buf|))
    || (acc == "" && |w| == 1 && IsDelim(w[0] as int) && 0 < p <= |buf| && w[0] == Chr(buf[p - 1]))
    || (w != "" && AllRegular(w) && p <= |buf| && |acc| <= |w| && w[..|acc|] == acc &&
        ((p < |buf| && IsDelim(buf[p])) || (0 < p && IsWhite(buf[p - 1]))))
  }

  lemma {:induction false} WordFromShape(buf: seq<Byte>, limit: nat, pos: nat, acc: string)
    requires AllRegular(acc)
    requires acc != "" ==> pos <= |buf|
    ensures WordFrom(buf, limit, pos, acc).Success? ==>
      var (w, p) := WordFrom(buf, limit, pos, acc).value; WordShape(buf, pos, acc, w, p)
    decreases |buf| - pos
  {
    if pos < |buf| {
      var b := buf[pos];
      if acc == "" && IsWhite(b) {
        WordFromShape(buf, limit, pos + 1, acc);
      } else if b == Percent {
        var c := CommentEnd(buf, limit, pos + 1);
        if c.Success? { WordFromShape(buf, limit, c.value, acc); }
      } else if IsRegular(b) {
        var acc' := acc + [Chr(b)];
        assert AllRegular(acc') by {
          forall i | 0 <= i < |acc'| ensures IsRegular(acc'[i] as int) {
            if i < |acc| { assert acc'[i] == acc[i]; }
          }
        }
        WordFromShape(buf, limit, pos + 1, acc');
        var r := WordFrom(buf, limit, pos + 1, acc');
        if r.Success? && r.value.0 != "" {
          var (w, p) := r.value;
          assert w[..|acc'|] == acc';
          assert w[..|acc|] == acc'[..|acc|] == acc;
        }
      }
    }
  }

  /** `getword`'s result has one of the three shapes. */
  lemma WordIsWellShaped(buf: seq<Byte>, limit: nat, pos: nat)
    ensures Word(buf, limit, pos).Success? ==>
      var (w, p) := Word(buf, limit, pos).value; WordShape(buf, pos, "", w, p)
  {
    WordFromShape(buf, limit, pos, "");
  }

  /** A word still being collected when the data runs out is thrown away. */
  lemma {:induction false} PartialWordAtEnd(buf: seq<Byte>, limit: nat, pos: nat, acc: string)
    requires pos <= |buf|
    requires acc != ""
    requires forall i :: pos <= i < |buf| ==> IsRegular(buf[i])
    ensures WordFrom(buf, limit, pos, acc) == Success(("", |buf|))
    decreases |buf| - pos
  {
    if pos < |buf| {
      PartialWordAtEnd(buf, limit, pos + 1, acc + [Chr(buf[pos])]);
    }
  }

  /** A delimiter that is the first byte after white space is the word. */
  lemma {:induction false} DelimiterAfterWhite(buf: seq<Byte>, limit: nat, pos: nat, j: nat)
    requires pos <= j < |buf|
    requires forall i :: pos <= i < j ==> IsWhite(buf[i])
    requires IsDelim(buf[j])
    ensures Word(buf, limit, pos) == Success(([Chr(buf[j])], j + 1))
    decreases j - pos
  {
    if pos < j {
      DelimiterAfterWhite(buf, limit, pos + 1, j);
    }
  }

  /** A run of regular bytes is the word: a delimiter after it stays unread, a
      white-space byte after it is consumed. */
  lemma {:induction false} RegularRun(buf: seq<Byte>, limit: nat, pos: nat, end: nat, acc: string)
    requires pos <= end < |buf|
    requires acc != "" || pos < end
    requires forall i :: pos <= i < end ==> IsRegular(buf[i])
    requires IsDelim(buf[end]) || IsWhite(buf[end])
    ensures WordFrom(buf, limit, pos, acc) ==
      Success((acc + Chars(buf[pos..end]), if IsDelim(buf[end]) then end else end + 1))
    decreases end - pos
  {
    if pos < end {
      var a := acc + [Chr(buf[pos])];
      RegularRun(buf, limit, pos + 1, end, a);
      CharsStep(acc, buf, pos, end);
    } else {
      assert buf[pos..end] == [];
      assert acc + Chars(buf[pos..end]) == acc;
    }
  }

  lemma ConsChars(b: Byte, s: seq<Byte>)
    ensures Chars([b] + s) == [Chr(b)] + Chars(s)
  {
    var l := [b] + s;
    assert |Chars(l)| == |[Chr(b)] + Chars(s)|;
    forall i | 0 <= i < |l| ensures Chars(l)[i] == ([Chr(b)] + Chars(s))[i] {
      if i > 0 { assert l[i] == s[i - 1]; }
    }
  }

  /** Reading byte `i` moves it from the unread run into the word. */
  lemma CharsStep(acc: string, buf: seq<Byte>, i: nat, j: nat)
    requires i < j <= |buf|
    ensures acc + Chars(buf[i..j]) == (acc + [Chr(buf[i])]) + Chars(buf[i + 1..j])
  {
    assert buf[i..j] == [buf[i]] + buf[i + 1..j];
    ConsChars(buf[i], buf[i + 1..j]);
  }

  /** The balance of a run is its first byte's step plus the balance of the
      rest. */
  lemma BalanceStep(buf: seq<Byte>, i: nat, j: nat)
    requires i < j <= |buf|
    ensures Balance(buf[i..j]) == ParenStep(buf[i]) + Balance(buf[i + 1..j])
  {
    assert buf[i..j][1..] == buf[i + 1..j];
  }

  /** On the audited file itself (`limit` is its size) `getword` never fails. */
  lemma {:induction false} WordNeverFailsOnFile(buf: seq<Byte>, pos: nat, acc: string)
    ensures WordFrom(buf, |buf|, pos, acc).Success?
    decreases |buf| - pos
  {
    if pos < |buf| {
      var b := buf[pos];
      if acc == "" && IsWhite(b) {
        WordNeverFailsOnFile(buf, pos + 1, acc);
      } else if b == Percent {
        CommentNeverFailsOnFile(buf, pos + 1);
        WordNeverFailsOnFile(buf, CommentEnd(buf, |buf|, pos + 1).value, acc);
      } else if IsRegular(b) {
        WordNeverFailsOnFile(buf, pos + 1, acc + [Chr(b)]);
      }
    }
  }

  lemma {:induction false} CommentNeverFailsOnFile(buf: seq<Byte>, pos: nat)
    ensures CommentEnd(buf, |buf|, pos).Success?
    decreases |buf| - pos
  {
    if pos < |buf| && !IsNewline(buf[pos]) {
      CommentNeverFailsOnFile(buf, pos + 1);
    }
  }

  // ---------------------------------------------------------------- strings

  /** +1 for '(' and -1 for ')'. */
  function ParenStep(b: int): int
  {
    if b == 40 then 1 else if b == 41 then -1 else 0
  }

  /** The parenthesis balance of a run of bytes. */
  function Balance(s: seq<Byte>): int
  {
    if s == [] then 0 else ParenStep(s[0]) + Balance(s[1..])
  }

  /** One pass of `getliteralstring`'s loop at nesting `depth`. Each '(' adds
      one and each ')' removes one whatever precedes it: the test for a
      preceding backslash compares a character with the number 92 and never
      holds. The closing ')' is not kept. */
  function LiteralFrom(buf: seq<Byte>, pos: nat, depth: nat, acc: string): (r: Result<(string, nat)>)
    requires depth >= 1
    ensures r.Success? ==> pos < r.value.1 <= |buf|
    decreases |buf| - pos
  {
    if pos >= |buf| then Failure(EndOfData)
    else
      var d := depth + ParenStep(buf[pos]);
      if d > 0 then LiteralFrom(buf, pos + 1, d, acc + [Chr(buf[pos])])
      else Success((acc, pos + 1))
  }

  /** `getliteralstring`, entered just after the opening '('. */
  function Literal(buf: seq<Byte>, pos: nat): Result<(string, nat)>
  {
    LiteralFrom(buf, pos, 1, "")
  }

  /** The literal string is every byte read except the final ')', and that
      ')' is the byte that brings the depth to zero. */
  lemma {:induction false} LiteralFromContent(buf: seq<Byte>, pos: nat, depth: nat, acc: string, s: string, p: nat)
    requires depth >= 1
    requires LiteralFrom(buf, pos, depth, acc) == Success((s, p))
    ensures s == acc + Chars(buf[pos..p - 1])
    ensures buf[p - 1] == 41
    ensures depth + Balance(buf[pos..p]) == 0
    decreases |buf| - pos
  {
    var d := depth + ParenStep(buf[pos]);
    BalanceStep(buf, pos, p);
    if d > 0 {
      var a := acc + [Chr(buf[pos])];
      assert LiteralFrom(buf, pos + 1, d, a) == Success((s, p));
      LiteralFromContent(buf, pos + 1, d, a, s, p);
      CharsStep(acc, buf, pos, p - 1);
    } else {
      assert buf[pos] == 41 && p == pos + 1 && s == acc;
      assert buf[pos..p - 1] == [] && buf[pos + 1..p] == [];
    }
  }

  /** Before the closing ')' the depth never reaches zero. */
  lemma {:induction false} LiteralFromStaysOpen(buf: seq<Byte>, pos: nat, depth: nat, acc: string, s: string, p: nat, q: nat)
    requires depth >= 1
    requires LiteralFrom(buf, pos, depth, acc) == Success((s, p))
    requires pos < q < p
    ensures depth + Balance(buf[pos..q]) > 0
    decreases |buf| - pos
  {
    var d := depth + ParenStep(buf[pos]);
    assert buf[pos..q][1..] == buf[pos + 1..q];
    if d > 0 && pos + 1 < q {
      LiteralFromStaysOpen(buf, pos + 1, d, acc + [Chr(buf[pos])], s, p, q);
    } else if d > 0 {
      assert buf[pos + 1..q] == [];
    }
  }

  /** Nested unescaped parentheses are kept: `(a(b)c)` reads as `a(b)c`. */
  lemma LiteralNested()
    ensures Literal([97, 40, 98, 41, 99, 41], 0) == Success(("a(b)c", 6))
  {
    var b: seq<Byte> := [97, 40, 98, 41, 99, 41];
    assert LiteralFrom(b, 5, 1, "a(b)c") == Success(("a(b)c", 6));
    assert "a(b)" + [Chr(b[4])] == "a(b)c";
    assert LiteralFrom(b, 4, 1, "a(b)") == Success(("a(b)c", 6));
    assert "a(b" + [Chr(b[3])] == "a(b)";
    assert LiteralFrom(b, 3, 2, "a(b") == Success(("a(b)c", 6));
    assert "a(" + [Chr(b[2])] == "a(b";
    assert LiteralFrom(b, 2, 2, "a(") == Success(("a(b)c", 6));
    assert "a" + [Chr(b[1])] == "a(";
    assert LiteralFrom(b, 1, 1, "a") == Success(("a(b)c", 6));
    assert "" + [Chr(b[0])] == "a";
  }

  /** A backslash does not escape a parenthesis: `(a\)b)` ends at the first
      ')' and keeps the backslash. */
  lemma LiteralBackslashVerbatim()
    ensures Literal([97, 92, 41, 98, 41], 0) == Success(("a\\", 3))
  {
    var b: seq<Byte> := [97, 92, 41, 98, 41];
    assert LiteralFrom(b, 2, 1, "a\\") == Success(("a\\", 3));
    assert "a" + [Chr(b[1])] == "a\\";
    assert LiteralFrom(b, 1, 1, "a") == Success(("a\\", 3));
    assert "" + [Chr(b[0])] == "a";
  }

  /** One pass of `gethexstring`'s loop: every byte up to the first '>' is
      kept as it is, with no hex decoding. */
  function HexFrom(buf: seq<Byte>, pos: nat, acc: string): (r: Result<(string, nat)>)
    ensures r.Success? ==> pos < r.value.1 <= |buf|
    decreases |buf| - pos
  {
    if pos >= |buf| then Failure(EndOfData)
    else if buf[pos] == 62 then Success((acc, pos + 1))
    else HexFrom(buf, pos + 1, acc + [Chr(buf[pos])])
  }

  /** `gethexstring`, entered just after the '<'. */
  function Hex(buf: seq<Byte>, pos: nat): Result<(string, nat)>
  {
    HexFrom(buf, pos, "")
  }

  /** A hex string is exactly the raw bytes before the first '>' after `pos`,
      and the cursor ends just past that '>'. */
  lemma {:induction false} HexFromResult(buf: seq<Byte>, pos: nat, acc: string, s: string, p: nat)
    requires HexFrom(buf, pos, acc) == Success((s, p))
    ensures s == acc + Chars(buf[pos..p - 1])
    ensures buf[p - 1] == 62
    ensures forall i :: pos <= i < p - 1 ==> buf[i] != 62
    decreases |buf| - pos
  {
    if buf[pos] != 62 {
      assert HexFrom(buf, pos + 1, acc + [Chr(buf[pos])]) == Success((s, p));
      HexFromResult(buf, pos + 1, acc + [Chr(buf[pos])], s, p);
      CharsStep(acc, buf, pos, p - 1);
    } else {
      assert buf[pos..p - 1] == [];
    }
  }

  /** The first '>' closes the hex string. */
  lemma {:induction false} HexFromFirstClose(buf: seq<Byte>, pos: nat, acc: string, j: nat)
    requires pos <= j < |buf| && buf[j] == 62
    requires forall i :: pos <= i < j ==> buf[i] != 62
    ensures HexFrom(buf, pos, acc) == Success((acc + Chars(buf[pos..j]), j + 1))
    decreases j - pos
  {
    if pos < j {
      HexFromFirstClose(buf, pos + 1, acc + [Chr(buf[pos])], j);
      CharsStep(acc, buf, pos, j);
    } else {
      assert buf[pos..j] == [];
      assert acc + Chars(buf[pos..j]) == acc;
    }
  }

  /** Without a '>' the hex string runs off the end of the data. */
  lemma {:induction false} HexFromNoClose(buf: seq<Byte>, pos: nat, acc: string)
    requires forall i :: pos <= i < |buf| ==> buf[i] != 62
    ensures HexFrom(buf, pos, acc) == Failure(EndOfData)
    decreases |buf| - pos
  {
    if pos < |buf| {
      HexFromNoClose(buf, pos + 1, acc + [Chr(buf[pos])]);
    }
  }
}
