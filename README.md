# pdfaudit core in Dafny

This project models the PDF reader at the heart of `pdfaudit.py`. The script
works through a PDF file byte by byte:

- it splits the file into words, skipping white space and `%` comments;
- it reads objects: dictionaries with their streams, arrays, literal and hex
  strings, names, numbers and `n g R` references;
- it decodes stream filters;
- it builds the cross-reference table from a classic `xref` table or a
  cross-reference stream, following the `Prev` chain to earlier revisions
  first;
- it visits every object in the table;
- every dictionary it finishes is matched against a fixed table of risky
  actions, and each match is filed under its category.

The model follows the code as written, quirks included:

- `noteof` compares against the audited file's size even while an object
  stream's in-memory copy is being read;
- a dictionary ends after the first pair whose key *or* value is `>`;
- `getarray` collapses a one-element array to its element;
- a free row deletes the previous generation, and raises when that
  generation is missing;
- the predictor's sums are plain integer additions.

The modules follow the script's layers:

- `Common`: bytes, results, errors.
- `OrderedDict`: Python's insertion-ordered `dict` as a sequence of pairs.
- `Numbers`: `isnum`, `int` and `str`.
- `Lexer`: the pure scans of `getword`, `readcomment`, `getliteralstring`
  and `gethexstring`.
- `ByteCursor`: the seekable file as a class whose loop methods are proved to
  compute those scans.
- `Values`: the dynamically typed values the reader returns.
- `ObjectSyntax`: how `readobject` and `readindirectobject` dispatch, where a
  stream's bytes lie, and how pairs become a dictionary.
- `Filters`: the stream filter chain.
- `Risk`: `riskydictionary`, `checkdictionary` and `dictionaryappendlist`.
- `XrefTable`: the rows of both cross-reference formats applied to
  `crossreflist`.
- `XrefSyntax`: the scans of `getxref`, `findstartback` and `getstartxref`.
- `XrefStream`, `XrefPredictor` and `XrefStreamTable`: decoding a
  cross-reference stream and its PNG "Up" predictor.
- `ObjectReader`: `readobject` and the readers it calls, as pure functions
  of the bytes, the read position and the tables they change.
- `Revisions`: `readpdf`, `iteratexref` and the main line as pure functions
  of the bytes and the tables.
- `Reader`: the script's global tables (`crossreflist`, `scannedobjects`,
  `counttable`, `currentobject`) as fields of class `Engine`, whose methods
  are the recursive reader. Each method is proved to return exactly the
  value, position and tables that its `ObjectReader` or `Revisions`
  function gives.

A fatal exit of the script (`halt`, `sys.exit`, an uncaught exception) is the
`Failure` or `Fail` case of a result, with an error kind saying which.

Where the code departs from what a reader conforming to ISO 32000-1 (the PDF
format) would do, the model follows the code:

- Escapes in literal strings: a conforming reader decodes backslash escapes
  (section 7.3.4.2 of ISO 32000-1). The code compares the previous character
  (a string) with the integer 92, a test that never matches, so `\(` and
  `\)` are not escapes and every byte is kept as read.
- Hex strings: a conforming reader decodes them to bytes (section 7.3.4.3).
  The code returns the raw characters before the first `>`, white space
  included.
- Names: a conforming reader decodes `#XX` escapes in names (section 7.3.5).
  The code returns the word after `/` unchanged.
- Predictor: the PNG Up predictor of a cross-reference stream adds rows byte
  by byte modulo 256 (section 7.4.4.4). The code adds the decoded integer
  fields with no modulo.
- Free rows: a free row of a cross-reference table marks its object free
  (section 7.5.4). The code tests whether `(i, gen)` is present, deletes
  `(i, gen - 1)`, and raises `KeyError` when that key is missing.
- Dictionary end: a dictionary ends at `>>` (section 7.3.7). The code reads
  each `>` as a word and stops when either side of a pair is one; the
  closing pair is stored in the dictionary.
- Launch actions: a Launch action names the file it launches under `F`,
  `Win`, `Mac` or `Unix` (section 12.6.4.5). In the code, the companion of
  `Launch` is a tuple, which is never a key of the dictionary, so the first
  half of its detail is empty. Like every detail, it still ends with the
  joined value stored under the empty key, so `<< () (x) /S /Launch >>`
  gives the detail "x".
- Unexpected tokens: the code stops with `sys.exit(0)`, a success status,
  although the file could not be read.

## Model

| member | source | states |
|---|---|---|
| OrderedDict.Put | pdfaudit.py:221-221 | storing under a key gives that key the new value and leaves every other key alone; an existing key keeps its place in the iteration order, a new key goes last |
| OrderedDict.Remove | pdfaudit.py:477-477 | after `del`, the key is absent and every other key keeps its value; a missing key leaves the dictionary as it was, and with unique keys the entry is cut out with the others kept in their order |
| OrderedDict.PutKeepsUnique | pdfaudit.py:221-221 | storing under a key never lists a key twice |
| OrderedDict.HasIffInKeys | pdfaudit.py:476-476 | a key is in the dictionary exactly when it is among `list(d.keys())` |
| Numbers.ParseInt | pdfaudit.py:131-133 | `int` succeeds exactly on a token that, once the white space around it is stripped, is an optional sign followed by decimal digits with single underscores allowed between two digits; every other token is a number error |
| Numbers.NatToString | pdfaudit.py:515-515 | `str` of a natural number is a run of decimal digits |
| Numbers.NatToStringValue | pdfaudit.py:515-515 | the digits `str` writes for a natural number have that number as their value |
| Numbers.ParseIntToString | pdfaudit.py:515-515 | `int(str(n)) == n` for every integer: the round trip `iteratexref` makes through `jumptoobject` gives back the key |
| Numbers.IntToStringIsNum | pdfaudit.py:348-350 | the text of every integer passes `isnum` |
| Numbers.RemoveFirstDropsFirst | pdfaudit.py:350-350 | `replace(c, '', 1)` removes exactly the first occurrence of `c` and keeps the rest in order; a string without `c` is unchanged |
| Numbers.IndexOf | pdfaudit.py:350-350 | the position of the first occurrence of `c`, with no `c` before it, or the length of the string when there is none |
| Numbers.RemoveFirstAbsent | pdfaudit.py:350-350 | a string without `c` is left unchanged |
| Numbers.ParseIntDigits | pdfaudit.py:131-133 | a run of decimal digits reads as its value |
| Numbers.ParseIntNegative | pdfaudit.py:131-133 | a minus sign followed by decimal digits reads as the negated value |
| Numbers.ParseIntStripsSpace | pdfaudit.py:131-133 | `int(" 12")` is 12: a `/Length ( 12)` still gives a length |
| Numbers.ParseIntStripsNewline | pdfaudit.py:131-133 | `int("-7\n")` is -7: trailing white space is ignored too |
| Numbers.ParseIntUnderscores | pdfaudit.py:469-470 | `int("0_10")` is 10: an underscore between digits with leading zeros is accepted in an xref row, which no `isnum` guards |
| Numbers.ParseIntUnderscore | pdfaudit.py:131-133 | `int("1_0")` is 10 |
| Numbers.ParseIntRejects | pdfaudit.py:131-133 | doubled, leading and trailing underscores, the empty token, white space alone, a lone minus and a minus separated from its digits are all number errors |
| Numbers.DecimalIsNum | pdfaudit.py:348-350 | decimal digits, with or without one leading minus, pass `isnum` |
| Numbers.DecimalPointNotInteger | pdfaudit.py:348-350 | "1.5" passes `isnum` but `int` rejects it, so `num` stops the reader on it |
| Numbers.TrailingMinusNotInteger | pdfaudit.py:348-350 | "5-" passes `isnum` but `int` rejects it |
| Numbers.SuperscriptNotInteger | pdfaudit.py:348-350 | a superscript two passes `isnum` (`str.isdigit` accepts it) but `int` rejects it |
| Numbers.SpacedIntegerNotNumeric | pdfaudit.py:348-350 | " 12" fails `isnum` although `int` accepts it, so it is never taken for a number or a reference |
| Numbers.GroupedIntegerNotNumeric | pdfaudit.py:348-350 | "1_0" fails `isnum` although `int` accepts it |
| Lexer.CommentEnd | pdfaudit.py:380-389 | `readcomment` at or past the audited file's end leaves the position unchanged; otherwise it stops just past the first CR or LF, with no newline before it, or at the end of the audited file; it fails only when the data runs out first, with no newline left in it |
| Lexer.CommentEndAtNewline | pdfaudit.py:384-387 | when the first CR or LF from the position lies before the end, the comment ends just past it |
| Lexer.WordFrom | pdfaudit.py:139-177 | `getword` never moves back; a non-empty word starts before the end of the data; an empty word means the data ran out |
| Lexer.WordFromShape | pdfaudit.py:156-176 | every word `getword` finds has one of three shapes: empty at the end of the data, one delimiter, or a run of regular bytes that stopped at a delimiter (left unread) or at white space (consumed) |
| Lexer.WordIsWellShaped | pdfaudit.py:139-177 | every word `getword` finds has one of the three shapes |
| Lexer.PartialWordAtEnd | pdfaudit.py:145-148 | a word still being collected when the data runs out is lost, and the result is the empty word |
| Lexer.DelimiterAfterWhite | pdfaudit.py:157-172 | white space followed by a delimiter gives that delimiter as the word, right after it |
| Lexer.RegularRun | pdfaudit.py:164-176 | a run of regular bytes followed by a delimiter or white space is the word, with the delimiter left unread |
| Lexer.WordNeverFailsOnFile | pdfaudit.py:384-387 | on the audited file itself, `getword` never reaches the `readcomment` error at the end of the data |
| Lexer.CommentNeverFailsOnFile | pdfaudit.py:384-387 | on the audited file itself, `readcomment` never fails |
| Lexer.LiteralFrom | pdfaudit.py:303-313 | a literal string that closes ends after the opening position and within the data |
| Lexer.LiteralFromContent | pdfaudit.py:296-321 | a literal string is every byte before the closing ')', taken verbatim; that byte is ')' and the parentheses in between balance it |
| Lexer.LiteralFromStaysOpen | pdfaudit.py:303-313 | before the closing ')', the nesting depth never reaches zero |
| Lexer.LiteralNested | pdfaudit.py:308-313 | `(a(b)c)` reads as `a(b)c`: unescaped nested parentheses are kept |
| Lexer.LiteralBackslashVerbatim | pdfaudit.py:306-319 | a backslash does not escape ')': `(a\)b)` ends at the first ')' and reads as `a\` |
| Lexer.HexFrom | pdfaudit.py:329-332 | a hex string that closes ends after the opening position and within the data |
| Lexer.HexFromResult | pdfaudit.py:323-334 | a hex string is exactly the raw bytes before the first '>' |
| Lexer.HexFromFirstClose | pdfaudit.py:329-332 | the first '>' closes the hex string, with the bytes before it as its text |
| Lexer.HexFromNoClose | pdfaudit.py:330-330 | without any '>', reading the hex string runs off the end of the data and fails |
| Values.JoinItems | pdfaudit.py:203-204 | `"".join` of a list succeeds exactly when every element is a string, and then gives their texts one after another; otherwise it is a type error |
| Values.KeyValues | pdfaudit.py:239-239 | `list()` of a dictionary gives its keys in order |
| Values.NumOfIntText | pdfaudit.py:131-133 | `num(str(n)) == n` for every integer |
| Values.JoinItemsAppend | pdfaudit.py:203-204 | joining two lists one after the other gives the two joins one after the other |
| Values.JoinList | pdfaudit.py:203-204 | a list of strings joins to their texts one after another, and a one-string list to that string |
| Values.JoinDict | pdfaudit.py:203-204 | a dictionary joins to its keys one after another, in insertion order; the empty dictionary to the empty string |
| Values.FilterNamesAreStrings | pdfaudit.py:236-239 | a `Filter` given as a string or a dictionary becomes a list of strings: the string itself, or the dictionary's keys in order |
| ObjectSyntax.Classify | pdfaudit.py:397-427 | `readobject`'s dispatch moves forward within the data; what it returns unchanged is a number or a default word; anything else makes the reader exit |
| ObjectSyntax.ReferenceShape | pdfaudit.py:409-417 | a reference is recognised exactly when the two words after a number are a number and "R"; the reader then stands after the "R" |
| ObjectSyntax.ScanIndirect | pdfaudit.py:430-450 | the start of an object body that `readindirectobject` finds lies after the starting position and within the data |
| ObjectSyntax.ScanPastEnd | pdfaudit.py:434-434 | from at or past the audited file's end, `readindirectobject` finds nothing and returns `None` |
| ObjectSyntax.ScanSkipsWord | pdfaudit.py:434-450 | a word that is not one of the markers is skipped: the scan goes on from the word after it |
| ObjectSyntax.StreamData | pdfaudit.py:228-233 | the stream bytes end within the data and not before the word "stream"; stepping back from position 0 is the negative-seek error; a `Length` below -1 is the only other failure |
| ObjectSyntax.StreamDataExact | pdfaudit.py:228-233 | a `Length` that fits gives exactly that many bytes after the line end, for "\n" and for "\r\n" |
| ObjectSyntax.FromPairsAbsent | pdfaudit.py:217-221 | a key that no pair has is absent from the dictionary |
| ObjectSyntax.FromPairsLast | pdfaudit.py:221-221 | a key's value is the value of its last pair: later pairs overwrite earlier ones |
| Filters.ApplyFilter | pdfaudit.py:239-259 | a failed inflate keeps the data it was given, and every name other than the three implemented filters leaves the data unchanged |
| Filters.Decode | pdfaudit.py:239-259 | the filter chain succeeds exactly when every filter name is a string; a non-string name fails with a type error |
| Filters.DecodeStream | pdfaudit.py:239-259 | the loop over the filter list computes the chain `Decode` defines |
| Filters.DecodeSplit | pdfaudit.py:239-259 | filters apply in order: a chain is its first part followed by the rest |
| Filters.UnknownFiltersKeepData | pdfaudit.py:253-259 | a chain made only of names the reader does not implement leaves the data unchanged |
| Risk.Rule | pdfaudit.py:86-97 | an entry matches a rule exactly when its value is a string and (key, value) is in the risk table; every rule is keyed on `S` |
| Risk.EntryFinding | pdfaudit.py:198-206 | an entry that matches no rule contributes nothing; a matching entry gives one finding filed under its value, with the current object and the rule's detail, or fails exactly when that detail cannot be joined |
| Risk.FindingsMatchEntries | pdfaudit.py:197-206 | there is one finding per matching entry, in the dictionary's order, each filed under that entry's value, with the current object and the detail of that entry's rule |
| Risk.FindingsStep | pdfaudit.py:197-206 | the findings of a dictionary are those of its first entry followed by those of the rest |
| Risk.CheckStep | pdfaudit.py:197-206 | one step of the `checkdictionary` loop keeps the findings made so far equal to the record of the entries walked so far |
| Risk.AppendFinding | pdfaudit.py:186-191 | `dictionaryappendlist` appends the finding at the end of its category, creating the category if needed, and changes no other category |
| Risk.RecordKeepsAndAppends | pdfaudit.py:186-191 | recording findings keeps every earlier finding of a category and adds the new ones of that category after them, in order |
| Risk.RecordSnoc | pdfaudit.py:206-206 | recording one more finding is appending it to its category |
| Risk.RecordKeeps | pdfaudit.py:186-191 | recording never loses or reorders a finding already in the table |
| Risk.JavaScriptAction | pdfaudit.py:93-93 | `<< /S /JavaScript /JS (app.alert(1)) >>` gives exactly one finding, filed under "JavaScript", with detail `app.alert(1)` |
| Risk.LaunchAction | pdfaudit.py:203-204 | `<< () (x) /S /Launch >>` gives one finding, filed under "Launch", whose detail is "x", the value under the empty key |
| XrefTable.Free | pdfaudit.py:476-477 | a free row for an absent `(i, gen)` changes nothing; a present one deletes `(i, gen - 1)`, and raises when that key is missing |
| XrefTable.TableRow | pdfaudit.py:472-477 | an 'n' row sets `(i, gen)` to its offset and touches no other key; any other marker is the free rule |
| XrefTable.StreamRow | pdfaudit.py:574-585 | a type-1 row sets `(i, f3)` to offset `f2` and touches no other key; type 0 is the free rule; every other type changes nothing |
| XrefTable.TableRowsAppend | pdfaudit.py:468-479 | rows applied in two runs give the same table as the rows applied in one |
| XrefTable.TableRowsFrame | pdfaudit.py:468-478 | a key whose object number no row mentions keeps its entry |
| XrefTable.TableRowsLastWins | pdfaudit.py:472-474 | an 'n' row that no later row for the same object follows decides that key's offset, whatever the table held before |
| XrefTable.FreeKeepsEarlierGeneration | pdfaudit.py:476-477 | an object freed with generation 1 keeps its generation-0 offset, because the free rule tests the generation the row names |
| XrefTable.StreamRowsIgnoreOtherTypes | pdfaudit.py:580-584 | compressed (type 2) and unknown rows leave the table unchanged |
| XrefTable.StreamRowsInUse | pdfaudit.py:574-576 | a type-1 row at index j sets the entry of object `first + j` under its generation to its offset |
| XrefTable.StreamRowsFrame | pdfaudit.py:571-585 | rows for later object numbers do not touch a key |
| XrefSyntax.RowWords | pdfaudit.py:469-471 | reading one row's three words never moves back and stays within the data |
| XrefSyntax.SectionRows | pdfaudit.py:468-478 | reading a subsection never moves back and stays within the data |
| XrefSyntax.Sections | pdfaudit.py:462-479 | `getxref` stops exactly where the next two words are not both numeric |
| XrefSyntax.SectionRowsApply | pdfaudit.py:468-478 | the table a subsection leaves is the table its rows, applied in order, give |
| XrefSyntax.SectionsApply | pdfaudit.py:460-481 | the table `getxref` leaves is the table that every row of every subsection, applied in order, gives |
| XrefSyntax.StartBack | pdfaudit.py:483-489 | on success the word read at some position at least four bytes before the end is the one searched for, the result is where it ends, and at every position nearer the end a different word was read |
| XrefSyntax.LastNumber | pdfaudit.py:493-496 | an offset is either the number already kept or the value of a numeric word read before the limit; with nothing kept and no numeric word, there is no offset |
| XrefSyntax.LastNumberIsLast | pdfaudit.py:493-496 | the offset is the last numeric word: no numeric word is read after the one it came from |
| XrefSyntax.LastNumberOnFile | pdfaudit.py:493-496 | on the audited file the loop always ends and never gives `Hang` |
| XrefSyntax.LastOfTwoNumbers | pdfaudit.py:493-496 | after "startxref", the words `7 42` give the offset 42 |
| XrefSyntax.NoNumberNoOffset | pdfaudit.py:493-499 | after "startxref", a lone `%%EOF` comment leaves `start` unbound |
| XrefSyntax.StartXref | pdfaudit.py:491-499 | an offset is the value of a numeric word read after the word "startxref" that `findstartback` found |
| XrefSyntax.Kept | pdfaudit.py:497-499 | the offset exists exactly when a number was assigned; otherwise `start` is unbound and the script raises |
| XrefStream.PySlice | pdfaudit.py:549-549 | a Python slice within bounds is the plain subsequence |
| XrefStream.RowsAt | pdfaudit.py:549-549 | row i of the stream is the slice of n bytes starting at byte i·n, cut short at the end of the data |
| XrefStream.RowsCount | pdfaudit.py:549-549 | the rows cover the data exactly: only the last row may be shorter, and empty data gives no rows |
| XrefStream.BigEndian | pdfaudit.py:560-560 | `int.from_bytes` of w bytes is below 256^w |
| XrefStream.ToBigEndian | pdfaudit.py:560-560 | writing a value big-endian in w bytes gives w bytes |
| XrefStream.BigEndianRoundTrip | pdfaudit.py:560-560 | writing a value that fits and reading it back gives the value |
| XrefStream.BigEndianInjective | pdfaudit.py:560-560 | reading a field and writing it back gives the field, so distinct fields of one width have distinct values |
| XrefStream.FieldsOfFullRow | pdfaudit.py:557-560 | with non-negative widths and a full row, the three fields are the consecutive slices of widths w0, w1 and w2 |
| XrefStream.DecodeRows | pdfaudit.py:549-561 | there is one selector per decoded entry |
| XrefStream.Selectors | pdfaudit.py:551-551 | the selector of each row is its first byte |
| XrefStream.Entries | pdfaudit.py:552-561 | there is one entry per row, each read from that row's field bytes |
| XrefStream.EntryFields | pdfaudit.py:549-561 | without a predictor, field k of entry i is the big-endian value of bytes i·n + w0 + … + w(k-1) onward, w(k) long |
| XrefStream.DecodeRowsPlain | pdfaudit.py:549-561 | without a predictor, decoding succeeds and the entries are those of the plain rows |
| XrefStream.RowFields | pdfaudit.py:552-560 | the fields of the row at byte b are the slices of the data at b, b + w0 and b + w0 + w1 |
| XrefPredictor.RunningSums | pdfaudit.py:562-566 | the predictor keeps the number of rows |
| XrefPredictor.RunningSumsAreTotals | pdfaudit.py:562-566 | after the predictor, row i is the field-by-field sum of rows 0 to i: a running prefix sum, with no modulo |
| XrefPredictor.PredictorStep | pdfaudit.py:565-566 | replacing row i by its sum with the already replaced row i-1 extends the replaced prefix by one row |
| XrefPredictor.ApplyUpPredictor | pdfaudit.py:562-568 | the in-place loop succeeds exactly when every row after the first has selector 2, and then leaves the running sums of the original rows |
| XrefStreamTable.LayoutOf | pdfaudit.py:537-548 | the layout exists only when `W` has three elements; the predictor is on only when `DecodeParms` is a dictionary; a stream dictionary without `W` fails |
| XrefStreamTable.XrefRows | pdfaudit.py:549-561 | there is one selector per entry; a missing `Stream` fails; `Size` must be a string; a stream that is not bytes gives no entries |
| XrefStreamTable.Predicted | pdfaudit.py:562-568 | without a predictor, the entries are unchanged; with one, it succeeds exactly when every later selector is 2, and otherwise stops with "predictor not implemented" |
| XrefStreamTable.StreamTableInUse | pdfaudit.py:549-575 | without a predictor, a full type-1 row i puts object i into the table under the generation of its third field, at the offset in its second field |
| XrefStreamTable.StreamTablePredicted | pdfaudit.py:562-568 | with the predictor, entry i applied to the table is the field-by-field sum of decoded rows 0 to i |
| ByteCursor.Cursor.constructor | pdfaudit.py:605-605 | a newly opened file is positioned at its start |
| ByteCursor.Cursor.ReadByte | pdfaudit.py:146-148 | `read(1)` gives the byte at the position and advances by one, or gives nothing at the end |
| ByteCursor.Cursor.ReadN | pdfaudit.py:230-233 | `read(n)` gives the next n bytes (fewer at the end, all of them for -1) and advances past them; a length below -1 is refused |
| ByteCursor.Cursor.NextChar | pdfaudit.py:117-122 | `nextchar` gives the character at the position and leaves the position unchanged; at the end it fails |
| ByteCursor.Cursor.ReadComment | pdfaudit.py:380-389 | the loop stops where `CommentEnd` says, and fails exactly when that scan fails |
| ByteCursor.Cursor.Seek | pdfaudit.py:374-376 | seeking fails exactly for a negative position, and otherwise moves to that position, even past the end |
| ByteCursor.Cursor.GetWord | pdfaudit.py:139-177 | the loop gives the word and end position that `Word` defines; a non-empty word moves forward, an empty word leaves the position at the end of the data |
| ByteCursor.Cursor.GetNextTwoWords | pdfaudit.py:179-184 | the next two words are read and the position is put back |
| ByteCursor.Cursor.GetLiteralString | pdfaudit.py:296-321 | the loop gives the string and end position that `Literal` defines, and fails exactly when that scan fails |
| ByteCursor.Cursor.GetHexString | pdfaudit.py:323-334 | the loop gives the string and end position that `Hex` defines, and fails exactly when that scan fails |
| ByteCursor.Cursor.ReadStart | pdfaudit.py:397-427 | the first words of `readobject` are classified as `Classify` says, and the position is left where the object's remaining bytes begin |
| ByteCursor.Cursor.ReadStreamData | pdfaudit.py:228-233 | the bytes read after "stream" are exactly those of `StreamData` |
| ByteCursor.Cursor.SkipObjStmHeader | pdfaudit.py:283-286 | the first loop of `iterateobjstm` reads the words of the n number/offset pairs and stops where `ObjStmHeader` says, failing exactly when it does |
| ObjectReader.StreamBytes | pdfaudit.py:226-261 | a stream's data ends at or after the word "stream" and within the file; a dictionary without `Length` stops with a number error |
| ObjectReader.ReadValue | pdfaudit.py:391-428 | `readobject` moves forward within the data and only adds to the cache and the findings; without following references it gives a string, a list or a dictionary |
| ObjectReader.Followed | pdfaudit.py:409-417 | after the words "n g R" the position stays after "R"; unfollowed, the value is the text "n g R"; followed, it is exactly the value and tables `jumptoobject` gives |
| ObjectReader.Nested | pdfaudit.py:399-408 | after "[" or "<<" the reader moves forward within the data; "<<" always gives a dictionary |
| ObjectReader.Items | pdfaudit.py:336-344 | `getarray`'s loop keeps the elements already read in front, in order, and adds only unfollowed objects that are not equal to the string "]", which a literal `(])` or hex string `<]>` also is |
| ObjectReader.ArrayOfItems | pdfaudit.py:336-346 | `getarray` succeeds exactly when its loop does; one element stands for itself and any other number of elements stays a list |
| ObjectReader.LoneElementArray | pdfaudit.py:342-345 | `[ x ]` is the object x itself |
| ObjectReader.Pair | pdfaudit.py:218-221 | one pass of `getdictionary`'s loop moves forward and only adds to the cache and the findings |
| ObjectReader.Pairs | pdfaudit.py:217-221 | `getdictionary`'s loop keeps the pairs already read in front; its last pair, and only that one, has ">" as key or value |
| ObjectReader.ObjStm | pdfaudit.py:282-289 | reading an object stream only adds to the cache and the findings |
| ObjectReader.ObjStmObjects | pdfaudit.py:287-289 | reading the objects of an object stream only adds to the cache and the findings |
| ObjectReader.ObjStmEmpty | pdfaudit.py:283-289 | an object stream with `N` at most zero reads nothing and records nothing |
| ObjectReader.StreamPart | pdfaudit.py:222-276 | after the stream the position lies within the data, the tables only grow, and the dictionary is unchanged or gains only its `Stream` entry |
| ObjectReader.Dictionary | pdfaudit.py:209-280 | `getdictionary` moves forward within the data, only adds to the cache and the findings, and gives a dictionary |
| ObjectReader.DictionaryKeepsPairs | pdfaudit.py:217-221 | every key other than `Stream` holds the value of the last pair read with that key |
| ObjectReader.Indirect | pdfaudit.py:430-450 | `readindirectobject` only adds to the cache and the findings |
| ObjectReader.JumpTo | pdfaudit.py:364-378 | `jumptoobject` succeeds only on two integer strings, and leaves its value cached under their key; the tables only grow |
| ObjectReader.JumpToRepeats | pdfaudit.py:367-368 | a second `jumptoobject` to the same object gives the same value from the cache and changes no table |
| ObjectReader.JumpToReadsAtOffset | pdfaudit.py:369-377 | an object not read before is the object after the "obj" that scanning from its cross-reference offset finds, and is then cached |
| ObjectReader.JumpToPastEnd | pdfaudit.py:369-377 | an object whose offset lies past the end of the file is `None`, and is cached as such |
| Revisions.IterateKeys | pdfaudit.py:508-517 | `iteratexref` leaves the cross references as they were, only adds to the cache and the findings, and leaves every key it visited in the cache |
| Revisions.Earlier | pdfaudit.py:519-528 | reading the trailer and the earlier revisions only adds to the cache and the findings |
| Revisions.EarlierFollowsPrev | pdfaudit.py:522-528 | the trailer is a dictionary; without `Prev` the cross references are those it started with; with `Prev` the tables are those the whole `readpdf` at that offset left, before any row of this revision is read |
| Revisions.ClassicRevision | pdfaudit.py:530-532 | a classic table succeeds exactly when `getxref` succeeds and leaves a non-empty table; that table is the earlier one with this revision's rows applied in order |
| Revisions.StreamRevision | pdfaudit.py:533-585 | a cross-reference stream is the dictionary read after the first word; its rows, applied to the earlier table, are the new table |
| Revisions.CrossReferences | pdfaudit.py:529-585 | reading this revision's cross references keeps the current object and only adds to the cache and the findings |
| Revisions.Pdf | pdfaudit.py:519-587 | `readpdf` only adds to the cache and the findings, and leaves every object of its cross references in the cache |
| Revisions.AuditOf | pdfaudit.py:605-607 | without a `startxref` offset nothing is read; once the whole file is read, every object of its cross references is in the cache |
| Revisions.PdfCurrentRevisionWins | pdfaudit.py:524-532 | of a classic revision, an 'n' row that is the last row for its object puts its offset into the table the objects are read from, whatever the earlier revision said |
| Revisions.PdfKeepsEarlier | pdfaudit.py:524-532 | of a classic revision, an object that no row of this revision mentions keeps the earlier revision's entry |
| Revisions.PdfStreamRevision | pdfaudit.py:524-585 | of a stream revision, the table the objects are read from is the earlier table with the stream's rows applied |
| Reader.Engine.constructor | pdfaudit.py:80-85 | before reading, the cross references, the object cache and the findings are empty, and no object is current |
| Reader.Engine.ReadObject | pdfaudit.py:391-428 | the value, the position after it and the tables are exactly those `ReadValue` gives for the bytes at the old position |
| Reader.Engine.ReadReference | pdfaudit.py:409-417 | after "n g R", the value, position and tables are exactly those `Followed` gives |
| Reader.Engine.ReadNested | pdfaudit.py:399-408 | after "[" or "<<", the value, position and tables are exactly those `Nested` gives |
| Reader.Engine.GetArray | pdfaudit.py:336-346 | the array, the position after "]" and the tables are exactly those of `Items`, a lone element standing for itself; a failure is the failure of `Items` |
| Reader.Engine.ReadPair | pdfaudit.py:218-221 | one key and value, the position and the tables are exactly those `Pair` gives |
| Reader.Engine.ReadPairs | pdfaudit.py:215-221 | the pairs read are exactly those of `Pairs` and the dictionary is built from them in order; the position and tables are those of `Pairs` |
| Reader.Engine.ReadStreamBytes | pdfaudit.py:226-261 | the stream bytes, decoding and end position are those `StreamBytes` defines |
| Reader.Engine.ReadStreamPart | pdfaudit.py:222-276 | the dictionary, position and tables after the optional stream are exactly those `StreamPart` gives |
| Reader.Engine.IterateObjStm | pdfaudit.py:282-289 | the tables after reading an object stream are exactly those `ObjStm` gives, and a failure is its failure |
| Reader.Engine.ReadObjStmObjects | pdfaudit.py:287-289 | the tables after the second loop of `iterateobjstm` are exactly those `ObjStmObjects` gives |
| Reader.Engine.GetDictionary | pdfaudit.py:209-280 | the dictionary, position and tables are exactly those `Dictionary` gives |
| Reader.Engine.CheckDictionary | pdfaudit.py:193-207 | the findings of the dictionary, in its order, are appended to the table exactly when computing them succeeds; otherwise the error is theirs |
| Reader.Engine.JumpToObject | pdfaudit.py:364-378 | the value and tables are exactly those `JumpTo` gives, and on success the position is put back |
| Reader.Engine.ReadIndirectObject | pdfaudit.py:430-450 | the value and tables are exactly those `Indirect` gives |
| Reader.Engine.GetXref | pdfaudit.py:460-481 | the classic table leaves the cross references `Sections` computes, and fails exactly when that scan fails |
| Reader.Engine.ReadRow | pdfaudit.py:469-471 | one row's offset, generation and marker are those `RowWords` defines |
| Reader.Engine.ApplyRow | pdfaudit.py:468-478 | one row read and applied leaves the rest of the subsection to read as `SectionRows` says |
| Reader.Engine.ReadSection | pdfaudit.py:468-478 | a subsection's loop leaves the table and position `SectionRows` computes |
| Reader.Engine.ApplyStreamEntries | pdfaudit.py:571-585 | the loop over the decoded entries leaves the table `StreamRows` computes |
| Reader.Engine.ReadXrefStream | pdfaudit.py:533-585 | the tables after a cross-reference stream are exactly those `StreamRevision` gives, and a failure is its failure |
| Reader.Engine.VisitKey | pdfaudit.py:512-515 | one pass of `iteratexref`'s loop makes the key the current object and leaves the rest of the loop, as `IterateKeys` defines it, with the same outcome |
| Reader.Engine.IterateXref | pdfaudit.py:508-517 | the outcome and tables are exactly those `IterateKeys` gives over the keys of the cross references in their order, and the position is unchanged |
| Reader.Engine.ReadEarlier | pdfaudit.py:519-528 | the tables after the trailer and the earlier revisions are exactly those `Earlier` gives |
| Reader.Engine.ReadCrossReferences | pdfaudit.py:528-585 | the tables after this revision's cross references are exactly those `CrossReferences` gives |
| Reader.Engine.ReadPdf | pdfaudit.py:519-587 | the outcome and tables are exactly those `Pdf` gives |
| Reader.FindStartBack | pdfaudit.py:483-489 | the backward search stops after the word "startxref", as `StartBack` defines |
| Reader.GetStartXref | pdfaudit.py:491-499 | the offset is the last number after "startxref", as `StartXref` defines, and the file is put back at its start |
| Reader.Audit | pdfaudit.py:605-607 | without a `startxref` offset nothing is read; once the whole file is read, every object of its cross references is in the object cache |

## Left out

- Command line, verbosity and output are not modelled. This covers `readarguments`, `vprint`, the progress line of `iteratexref` and `showthreats`. They are I/O; the findings table `Audit` returns is what `showthreats` prints.
- `getpdfversion` is not modelled: it only prints.
- `getobjectpos` and `getname` are folded into `JumpToObject` and `ReadObject`.
- `translatestring` is not modelled: it is never called, and its body only prints.
- The codecs `zlib.decompress`, `ascii85decode` and `lzwdecode` are parameters of type `Codecs`; so is `decode('utf-8', 'ignore')`, the stream text. Their algorithms are not part of this model.
- The `.pdfaudit` temporary file is an in-memory `Cursor` over the stream bytes followed by three carriage returns. Writing it to disk is not modelled.
- An object stream inside an object stream reopens `.pdfaudit` with mode "w+b" (pdfaudit.py:267), which truncates the copy the outer `iterateobjstm` is still reading. The model gives each level its own copy, so after the inner stream the outer one goes on reading its own bytes, where Python would read the inner stream's bytes or nothing.
- Python's `int()` also accepts non-ASCII decimal digits (Arabic-Indic digits, for example). Every character the reader builds is the character of one byte, below 256, and none of those is a decimal digit outside ASCII, so `ParseInt` accepts only ASCII digits. `IsDigit` does include the superscripts one, two and three, which `str.isdigit` accepts.
- Recursion is bounded. `readobject` nesting carries a `depth` bound and the `Prev` chain a `chain` bound; running out is the error `DepthExceeded`, where Python would recurse until its own limit. Cyclic `Prev` chains are therefore not followed for ever.
- A `readindirectobject` loop that Python would spin in for ever is the error `Hang`. This happens only on the copy of an object stream, which is shorter than the audited file and runs out before the audited file's end. `getstartxref` always reads the audited file, so `LastNumber` never gives `Hang` there.
- Error kinds only approximate the Python exceptions (`IndexError`, `TypeError`, `KeyError`, `ValueError`, `UnboundLocalError`) and `sys.exit` messages; the model records that the run stops and why, not the exception's text.
- `sys.exit(0)` on an unexpected token is the error `UnexpectedToken`: the model does not distinguish the exit status 0 from the other fatal exits.
- The tuple case of `num` (pdfaudit.py:134-135) is not modelled: no reader returns a tuple, so it never arises.
- The text of a comment is not kept, since `readcomment`'s result is never used.
- Cross-reference stream rows of type 2 (compressed objects) are ignored, as the code ignores them, and `Index` is not read; `crossreflistcompressed` is never written.
- ObjStm: the values read from an object stream are thrown away, as the code throws them away; the lemmas about it state only that the tables grow and that an empty stream reads nothing. Which findings an object stream contributes follows from `ObjStmObjects`, but no lemma spells it out for a particular stream.
- The nested readers `ReadValue`, `Items`, `Pairs`, `StreamPart`, `Dictionary`, `Indirect` and `JumpTo` take a `depth` bound, which the script does not have; see the recursion line above.
- The contracts of the `Reader.Engine` and `ByteCursor.Cursor` methods that change state use `old`. This is the right form for those methods. Each such method is proved to return exactly what its pure function in `Lexer`, `ObjectReader` or `Revisions` gives, and the lemmas about those functions carry the rest.
