/** Risk matching (pdfaudit.py:86-97, 186-206): the fixed table of risky
    key/value pairs, the detail reported with each match, and the table of
    findings, which maps the matched value (the risk category, such as
    "JavaScript") to the findings in the order they were made. */
module Risk {
  import opened Common
  import opened Values
  import OD = OrderedDict

  /** The object being visited: the empty string before `iteratexref` sets it. */
  datatype ObjectId = NoObject | Obj(num: int, gen: int)

  /** (current object, detail) */
  type Finding = (ObjectId, string)

  /** `counttable` */
  type CountTable = OD.Dict<string, seq<Finding>>

  /** The companion of a rule: a key whose value is the detail, or (for
      Launch) a tuple of keys that the lookup never finds. */
  datatype Companion = Key(k: string) | Keys(ks: seq<string>)

  /** `riskydictionary`, in its own order; "SumbitForm" is spelled as the
      source spells it. */
  const Rules: seq<((string, string), Companion)> := [
    (("S", "GoTo"), Key("D")),
    (("S", "GoToR"), Key("F")),
    (("S", "GoToE"), Key("F")),
    (("S", "Launch"), Keys(["F", "Win", "Mac", "Unix"])),
    (("S", "URI"), Key("URI")),
    (("S", "SumbitForm"), Key("F")),
    (("S", "JavaScript"), Key("JS"))
  ]

  /** The rule a dictionary entry matches, if any. No rule has an empty value,
      so the source's second test `(key, "") in riskydictionary` never holds. */
  function Rule(key: string, value: Value): (r: Option<Companion>)
    ensures r.Some? ==> key == "S" && value.Str?
    ensures r.Some? <==> value.Str? && OD.Has(Rules, (key, value.s))
  {
    if value.Str? then OD.Get(Rules, (key, value.s)) else None
  }

  /** The detail of a finding: the joined value of the companion key (empty
      when it is absent or a tuple of keys), followed by the joined value
      stored under the empty key, which `riskydictionary.get((key, ""), "")`
      looks up. */
  function Detail(d: seq<(string, Value)>, c: Companion): Result<string>
  {
    var first := match c
      case Key(k) => OD.GetOr(d, k, Str(""))
      case Keys(_) => Str("");
    match Join(first)
    case Failure(e) => Failure(e)
    case Success(a) =>
      match Join(OD.GetOr(d, "", Str("")))
      case Failure(e) => Failure(e)
      case Success(b) => Success(a + b)
  }

  /** What one entry contributes: nothing, or one finding under the category
      named by the entry's value. */
  function EntryFinding(d: seq<(string, Value)>, key: string, value: Value, current: ObjectId):
    (r: Result<Option<(string, Finding)>>)
    ensures Rule(key, value).None? ==> r == Success(None)
    ensures r.Success? && r.value.Some? ==>
      Rule(key, value).Some? && r.value.value.0 == value.s && r.value.value.1.0 == current
    ensures Rule(key, value).Some? ==>
      var detail := Detail(d, Rule(key, value).value);
      && (detail.Failure? ==> r == Failure(detail.error))
      && (detail.Success? ==> r == Success(Some((value.s, (current, detail.value)))))
  {
    match Rule(key, value)
    case None => Success(None)
    case Some(c) =>
      match Detail(d, c)
      case Failure(e) => Failure(e)
      case Success(detail) => Success(Some((value.s, (current, detail))))
  }

  /** The entries of `es` that match a rule, in order. */
  function Matching(es: seq<(string, Value)>): seq<(string, Value)>
  {
    if es == [] then []
    else if Rule(es[0].0, es[0].1).Some? then [es[0]] + Matching(es[1..])
    else Matching(es[1..])
  }

  /** The findings of the entries `es` of dictionary `d`, in order. */
  function Findings(d: seq<(string, Value)>, es: seq<(string, Value)>, current: ObjectId):
    Result<seq<(string, Finding)>>
  {
    if es == [] then Success([])
    else match EntryFinding(d, es[0].0, es[0].1, current)
      case Failure(e) => Failure(e)
      case Success(f) =>
        match Findings(d, es[1..], current)
        case Failure(e) => Failure(e)
        case Success(rest) => Success(Listed(f) + rest)
  }

  /** The finding an entry that matches a rule makes, given that its detail
      can be joined. */
  ghost predicate MadeFrom(d: seq<(string, Value)>, e: (string, Value), f: (string, Finding), current: ObjectId)
  {
    && Rule(e.0, e.1).Some?
    && Detail(d, Rule(e.0, e.1).value).Success?
    && e.1 == Str(f.0)
    && f.1 == (current, Detail(d, Rule(e.0, e.1).value).value)
  }

  /** One finding per matching entry, in the entries' order, each filed under
      that entry's value, naming the current object and carrying the detail
      of the entry's rule. */
  lemma {:induction false} FindingsMatchEntries(d: seq<(string, Value)>, es: seq<(string, Value)>, current: ObjectId)
    requires Findings(d, es, current).Success?
    ensures var fs := Findings(d, es, current).value;
      && |fs| == |Matching(es)|
      && forall i :: 0 <= i < |fs| ==> MadeFrom(d, Matching(es)[i], fs[i], current)
  {
    if es != [] {
      var ef := EntryFinding(d, es[0].0, es[0].1, current).value;
      var rest := Findings(d, es[1..], current).value;
      FindingsMatchEntries(d, es[1..], current);
      var fs := Findings(d, es, current).value;
      assert fs == Listed(ef) + rest;
      if Rule(es[0].0, es[0].1).Some? {
        assert ef.Some? && MadeFrom(d, es[0], ef.value, current);
        assert Matching(es) == [es[0]] + Matching(es[1..]);
        forall i | 0 <= i < |fs| ensures MadeFrom(d, Matching(es)[i], fs[i], current) {
          if i > 0 {
            assert fs[i] == rest[i - 1] && Matching(es)[i] == Matching(es[1..])[i - 1];
          }
        }
      } else {
        assert fs == rest && Matching(es) == Matching(es[1..]);
      }
    }
  }

  /** The findings already made, followed by those still to come. */
  function Prepend(done: seq<(string, Finding)>, rest: Result<seq<(string, Finding)>>): Result<seq<(string, Finding)>>
  {
    match rest
    case Failure(e) => Failure(e)
    case Success(fs) => Success(done + fs)
  }

  /** The findings of one entry, as a sequence. */
  function Listed(f: Option<(string, Finding)>): seq<(string, Finding)>
  {
    if f.Some? then [f.value] else []
  }

  /** One entry at a time: the findings of `es` after `done` are those of
      its first entry after `done`, then those of the rest; an entry that
      fails makes them all fail. */
  lemma FindingsStep(d: seq<(string, Value)>, es: seq<(string, Value)>, done: seq<(string, Finding)>, current: ObjectId)
    requires es != []
    ensures var ef := EntryFinding(d, es[0].0, es[0].1, current);
      && (ef.Failure? ==> Findings(d, es, current) == Failure(ef.error))
      && (ef.Success? ==> Prepend(done, Findings(d, es, current)) == Prepend(done + Listed(ef.value), Findings(d, es[1..], current)))
  {
    var ef := EntryFinding(d, es[0].0, es[0].1, current);
    var rest := Findings(d, es[1..], current);
    if ef.Success? && rest.Success? {
      var opt := Listed(ef.value);
      assert Findings(d, es, current) == Success(opt + rest.value);
      assert done + (opt + rest.value) == (done + opt) + rest.value;
    }
  }

  /** One step of `checkdictionary` over the entries of `d`: with `done`
      recorded for the entries before `i`, entry `i` either fails the whole
      check or adds its finding, if any, to what is recorded. */
  lemma CheckStep(t: CountTable, d: seq<(string, Value)>, i: nat, done: seq<(string, Finding)>, current: ObjectId)
    requires i < |d|
    requires Findings(d, d, current) == Prepend(done, Findings(d, d[i..], current))
    ensures var ef := EntryFinding(d, d[i].0, d[i].1, current);
      && (ef.Failure? ==> Findings(d, d, current) == Failure(ef.error))
      && (ef.Success? ==>
            && Findings(d, d, current) == Prepend(done + Listed(ef.value), Findings(d, d[i + 1..], current))
            && Record(t, done + Listed(ef.value))
               == if ef.value.Some? then AppendFinding(Record(t, done), ef.value.value.0, ef.value.value.1)
                  else Record(t, done))
  {
    FindingsStep(d, d[i..], done, current);
    assert d[i..][1..] == d[i + 1..];
    var ef := EntryFinding(d, d[i].0, d[i].1, current);
    if ef.Success? {
      if ef.value.Some? {
        RecordSnoc(t, done, ef.value.value);
      } else {
        assert done + Listed(ef.value) == done;
      }
    }
  }

  /** `dictionaryappendlist`: add one finding at the end of its category. */
  function AppendFinding(t: CountTable, category: string, f: Finding): (r: CountTable)
    ensures OD.Get(r, category) == Some(OD.GetOr(t, category, []) + [f])
    ensures forall c :: c != category ==> OD.Get(r, c) == OD.Get(t, c)
  {
    OD.Put(t, category, OD.GetOr(t, category, []) + [f])
  }

  /** Add findings one after the other. */
  function Record(t: CountTable, fs: seq<(string, Finding)>): CountTable
    decreases |fs|
  {
    if fs == [] then t else Record(AppendFinding(t, fs[0].0, fs[0].1), fs[1..])
  }

  /** The findings of `fs` filed under `category`, in order. */
  function Of(fs: seq<(string, Finding)>, category: string): seq<Finding>
  {
    if fs == [] then []
    else (if fs[0].0 == category then [fs[0].1] else []) + Of(fs[1..], category)
  }

  /** Recording keeps every earlier finding, adds the new ones after them in
      order, and merges nothing. */
  lemma {:induction false} RecordKeepsAndAppends(t: CountTable, fs: seq<(string, Finding)>, category: string)
    ensures OD.GetOr(Record(t, fs), category, []) == OD.GetOr(t, category, []) + Of(fs, category)
    decreases |fs|
  {
    if fs != [] {
      var t' := AppendFinding(t, fs[0].0, fs[0].1);
      RecordKeepsAndAppends(t', fs[1..], category);
      if fs[0].0 == category {
        assert OD.GetOr(t', category, []) == OD.GetOr(t, category, []) + [fs[0].1];
        assert Of(fs, category) == [fs[0].1] + Of(fs[1..], category);
      } else {
        assert OD.GetOr(t', category, []) == OD.GetOr(t, category, []);
        assert Of(fs, category) == Of(fs[1..], category);
      }
    }
  }

  /** Adding one more finding is appending it to its category. */
  lemma {:induction false} RecordSnoc(t: CountTable, fs: seq<(string, Finding)>, f: (string, Finding))
    ensures Record(t, fs + [f]) == AppendFinding(Record(t, fs), f.0, f.1)
    decreases |fs|
  {
    if fs == [] {
      assert fs + [f] == [f];
    } else {
      assert (fs + [f])[1..] == fs[1..] + [f];
      RecordSnoc(AppendFinding(t, fs[0].0, fs[0].1), fs[1..], f);
    }
  }

  /** `b` holds every finding of `a`, in the same place: each category of
      `a` is a prefix of that category in `b`. */
  ghost predicate Keeps(a: CountTable, b: CountTable)
  {
    forall c :: OD.GetOr(a, c, []) <= OD.GetOr(b, c, [])
  }

  lemma KeepsTrans(a: CountTable, b: CountTable, c: CountTable)
    requires Keeps(a, b) && Keeps(b, c)
    ensures Keeps(a, c)
  {
  }

  lemma RecordKeeps(t: CountTable, fs: seq<(string, Finding)>)
    ensures Keeps(t, Record(t, fs))
  {
    forall c ensures OD.GetOr(t, c, []) <= OD.GetOr(Record(t, fs), c, []) {
      RecordKeepsAndAppends(t, fs, c);
    }
  }

  /** The dictionary `<< /S /JavaScript /JS (app.alert(1)) >>`, with its
      terminating pair, gives one finding, filed under "JavaScript". */
  lemma JavaScriptAction(current: ObjectId)
    ensures Findings(
      [("S", Str("JavaScript")), ("JS", Str("app.alert(1)")), (">", Str(">"))],
      [("S", Str("JavaScript")), ("JS", Str("app.alert(1)")), (">", Str(">"))],
      current) == Success([("JavaScript", (current, "app.alert(1)"))])
  {
    var d := [("S", Str("JavaScript")), ("JS", Str("app.alert(1)")), (">", Str(">"))];
    assert Rule("S", Str("JavaScript")) == Some(Key("JS"));
    assert Rule("JS", Str("app.alert(1)")) == None;
    assert Rule(">", Str(">")) == None;
    assert OD.GetOr(d, "JS", Str("")) == Str("app.alert(1)");
    assert OD.GetOr(d, "", Str("")) == Str("");
    assert "app.alert(1)" + "" == "app.alert(1)";
    assert Detail(d, Key("JS")) == Success("app.alert(1)");
    assert EntryFinding(d, "S", Str("JavaScript"), current) == Success(Some(("JavaScript", (current, "app.alert(1)"))));
    assert d[1..][1..][1..] == [];
    var none: seq<(string, Finding)> := [];
    assert none + none == none;
    assert d[2..][1..] == [];
    assert EntryFinding(d, ">", Str(">"), current) == Success(None);
    assert Findings(d, d[2..], current) == Success(none);
    assert d[1..][1..] == d[2..];
    assert EntryFinding(d, "JS", Str("app.alert(1)"), current) == Success(None);
    assert Findings(d, d[1..], current) == Success(none);
    var one := [("JavaScript", (current, "app.alert(1)"))];
    assert one + none == one;
    assert Findings(d, d, current) == Success(one);
  }

  /** `<< () (x) /S /Launch >>`: the Launch rule's tuple of keys is never
      found, but the value under the empty key is still appended, so the
      finding's detail is "x". */
  lemma LaunchAction(current: ObjectId)
    ensures Findings(
      [("", Str("x")), ("S", Str("Launch")), (">", Str(">"))],
      [("", Str("x")), ("S", Str("Launch")), (">", Str(">"))],
      current) == Success([("Launch", (current, "x"))])
  {
    var d := [("", Str("x")), ("S", Str("Launch")), (">", Str(">"))];
    assert Rule("", Str("x")) == None;
    assert Rule("S", Str("Launch")) == Some(Keys(["F", "Win", "Mac", "Unix"]));
    assert Rule(">", Str(">")) == None;
    assert OD.GetOr(d, "", Str("")) == Str("x");
    assert "" + "x" == "x";
    assert Detail(d, Keys(["F", "Win", "Mac", "Unix"])) == Success("x");
    var none: seq<(string, Finding)> := [];
    assert none + none == none;
    assert d[2..][1..] == [];
    assert EntryFinding(d, ">", Str(">"), current) == Success(None);
    assert Findings(d, d[2..], current) == Success(none);
    assert d[1..][1..] == d[2..];
    var one := [("Launch", (current, "x"))];
    assert EntryFinding(d, "S", Str("Launch"), current) == Success(Some(one[0]));
    assert one + none == one;
    assert Findings(d, d[1..], current) == Success(one);
    assert EntryFinding(d, "", Str("x"), current) == Success(None);
    assert none + one == one;
    assert Findings(d, d, current) == Success(one);
  }
}
