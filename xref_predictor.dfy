/** The PNG "Up" predictor as `readpdf` applies it to the decoded rows of a
    cross-reference stream (pdfaudit.py:560-566): every row after the first
    must have selector 2 and is replaced by its field-by-field sum with the
    row before it, already replaced. The sums are plain integer additions,
    not the byte-wise modulo-256 sums of PNG. */
module XrefPredictor {
  import opened Common
  import opened XrefTable

  function Add(a: Entry, b: Entry): Entry
  {
    Entry(a.kind + b.kind, a.f2 + b.f2, a.f3 + b.f3)
  }

  /** The field-by-field sum of the first `k` rows. */
  function Total(es: seq<Entry>, k: nat): Entry
    requires k <= |es|
  {
    if k == 0 then Entry(0, 0, 0) else Add(Total(es, k - 1), es[k - 1])
  }

  /** Each row replaced by its sum with the already replaced row before it. */
  function RunningSums(es: seq<Entry>): (r: seq<Entry>)
    ensures |r| == |es|
  {
    if |es| <= 1 then es
    else var r := RunningSums(es[..|es| - 1]); r + [Add(r[|r| - 1], es[|es| - 1])]
  }

  /** Row i after the predictor is the sum of rows 0..i: a running prefix
      sum, with no modulo. */
  lemma {:induction false} RunningSumsAreTotals(es: seq<Entry>, i: nat)
    requires i < |es|
    ensures RunningSums(es)[i] == Total(es, i + 1)
    decreases |es|
  {
    var p := es[..|es| - 1];
    if |es| == 1 {
    } else if i < |es| - 1 {
      RunningSumsAreTotals(p, i);
      TotalPrefix(es, p, i + 1);
    } else {
      RunningSumsAreTotals(p, i - 1);
      TotalPrefix(es, p, i);
    }
  }

  /** A sum of the first `k` rows only looks at those rows. */
  lemma {:induction false} TotalPrefix(es: seq<Entry>, p: seq<Entry>, k: nat)
    requires k <= |p| <= |es| && p == es[..|p|]
    ensures Total(es, k) == Total(p, k)
  {
    if k > 0 {
      TotalPrefix(es, p, k - 1);
    }
  }

  /** Every row after the first carries selector 2, PNG's "Up" filter. */
  predicate AllUp(sel: seq<Byte>)
  {
    forall i :: 1 <= i < |sel| ==> sel[i] == 2
  }

  /** `AllUp` of the first `k` selectors, one row at a time. */
  predicate UpTo(sel: seq<Byte>, k: nat)
    requires k <= |sel|
  {
    k <= 1 || (UpTo(sel, k - 1) && sel[k - 1] == 2)
  }

  lemma {:induction false} UpToAll(sel: seq<Byte>, k: nat)
    requires k <= |sel|
    ensures UpTo(sel, k) <==> forall j :: 1 <= j < k ==> sel[j] == 2
  {
    if k > 1 {
      UpToAll(sel, k - 1);
    }
  }

  /** One step of the predictor loop: with rows 0..i-1 already replaced,
      replacing row i extends the replaced prefix by one row. */
  lemma {:induction false} PredictorStep(orig: seq<Entry>, i: nat, cur: seq<Entry>)
    requires 1 <= i < |orig|
    requires cur == RunningSums(orig[..i]) + orig[i..]
    ensures cur[i := Add(cur[i - 1], cur[i])] == RunningSums(orig[..i + 1]) + orig[i + 1..]
  {
    var done := RunningSums(orig[..i]);
    assert orig[..i + 1][..i] == orig[..i];
    var next := RunningSums(orig[..i + 1]);
    assert next == done + [Add(done[i - 1], orig[i])];
    var lhs := cur[i := Add(cur[i - 1], cur[i])];
    var rhs := next + orig[i + 1..];
    assert |lhs| == |rhs|;
    forall k | 0 <= k < |lhs| ensures lhs[k] == rhs[k] {
      if k < i {
        assert lhs[k] == cur[k] == done[k] == next[k];
      } else if k == i {
        assert cur[i - 1] == done[i - 1] && cur[i] == orig[i];
      } else {
        assert lhs[k] == cur[k] == orig[k] == orig[i + 1..][k - (i + 1)];
      }
    }
    assert lhs == rhs;
  }

  /** The predictor loop rewriting the rows in place: every row after the
      first must carry selector 2 ("Up"), else the reader stops. */
  method ApplyUpPredictor(a: array<Entry>, sel: seq<Byte>) returns (ok: bool)
    requires |sel| == a.Length
    modifies a
    ensures ok <==> AllUp(sel)
    ensures ok ==> a[..] == RunningSums(old(a[..]))
  {
    ghost var orig := a[..];
    if a.Length == 0 {
      return true;
    }
    assert a[..] == RunningSums(orig[..1]) + orig[1..];
    var i := 1;
    while i < a.Length
      invariant 1 <= i <= a.Length
      invariant UpTo(sel, i)
      invariant a[..] == RunningSums(orig[..i]) + orig[i..]
    {
      if sel[i] != 2 {
        UpToAll(sel, i + 1);
        return false;
      }
      ghost var cur := a[..];
      PredictorStep(orig, i, cur);
      a[i] := Add(a[i - 1], a[i]);
      assert a[..] == cur[i := Add(cur[i - 1], cur[i])];
      i := i + 1;
    }
    assert orig[..i] == orig;
    UpToAll(sel, i);
    return true;
  }
}
