/** Measurement histograms: counts per bit string, as an AcceleratorBuffer keeps them. */
module Histograms {

  type Histogram = map<string, nat>

  function Count(h: Histogram, k: string): nat {
    if k in h then h[k] else 0
  }

  /** appendMeasurement(k, n) */
  function Append(h: Histogram, k: string, n: nat): Histogram {
    if n == 0 then h else h[k := Count(h, k) + n]
  }

  // ----- weighted sums -----

  /** The sum over all entries of count times weight. */
  ghost function Sum(h: Histogram, w: string -> int): int
    decreases |h|
  {
    if h == map[] then 0
    else
      var k :| k in h;
      h[k] * w(k) + Sum(h - {k}, w)
  }

  lemma {:induction false} SumRemove(h: Histogram, w: string -> int, k: string)
    requires k in h
    ensures Sum(h, w) == h[k] * w(k) + Sum(h - {k}, w)
    decreases |h|
  {
    var j :| j in h && Sum(h, w) == h[j] * w(j) + Sum(h - {j}, w);
    if j != k {
      SumRemove(h - {j}, w, k);
      SumRemove(h - {k}, w, j);
      assert h - {j} - {k} == h - {k} - {j};
    }
  }

  lemma SumAppend(h: Histogram, w: string -> int, k: string, n: nat)
    ensures Sum(Append(h, k, n), w) == Sum(h, w) + n * w(k)
  {
    if n > 0 {
      var r := Append(h, k, n);
      SumRemove(r, w, k);
      Distributes(Count(h, k), n, w(k));
      hide Sum;
      if k in h {
        SumRemove(h, w, k);
        assert r - {k} == h - {k};
      } else {
        assert r - {k} == h;
      }
    }
  }

  lemma Distributes(a: int, b: int, c: int)
    ensures (a + b) * c == a * c + b * c
    ensures a == 0 ==> a * c == 0
  {
  }

  // ----- raw results -----

  /** The counts object of a result: outcomes with their number of occurrences. */
  type Counts = seq<(string, nat)>

  ghost function CountsSum(counts: Counts, w: string -> int): int {
    if counts == [] then 0 else counts[0].1 * w(counts[0].0) + CountsSum(counts[1..], w)
  }

  /** The histogram after appending every outcome, decoded by f, to h. */
  ghost function Collected(h: Histogram, counts: Counts, f: string -> string): Histogram
    decreases |counts|
  {
    if counts == [] then h
    else Collected(Append(h, f(counts[0].0), counts[0].1), counts[1..], f)
  }

  lemma {:induction false} CollectedSnoc(h: Histogram, counts: Counts, f: string -> string)
    requires counts != []
    ensures var n := |counts| - 1;
            Collected(h, counts, f) == Append(Collected(h, counts[..n], f), f(counts[n].0), counts[n].1)
    decreases |counts|
  {
    if |counts| > 1 {
      var n := |counts| - 1;
      CollectedSnoc(Append(h, f(counts[0].0), counts[0].1), counts[1..], f);
      assert counts[1..][..n - 1] == counts[..n][1..];
    }
  }

  /** Any weighted sum over the collected histogram is the sum over the raw outcomes of the weight
      of their decoding, even when outcomes merge. */
  lemma {:induction false} CollectedSum(h: Histogram, counts: Counts, f: string -> string, w: string -> int)
    ensures Sum(Collected(h, counts, f), w) == Sum(h, w) + CountsSum(counts, k => w(f(k)))
    decreases |counts|
  {
    if counts != [] {
      var (k, n) := counts[0];
      SumAppend(h, w, f(k), n);
      CollectedSum(Append(h, f(k), n), counts[1..], f, w);
    }
  }

  lemma {:induction false} CountsSumSame(counts: Counts, v: string -> int, w: string -> int)
    requires forall i :: 0 <= i < |counts| ==> v(counts[i].0) == w(counts[i].0)
    ensures CountsSum(counts, v) == CountsSum(counts, w)
  {
    if counts != [] {
      assert forall i :: 0 <= i < |counts[1..]| ==> counts[1..][i] == counts[i + 1];
      CountsSumSame(counts[1..], v, w);
    }
  }

  // ----- when no outcomes merge -----

  predicate DistinctKeys(counts: Counts) {
    forall i, j :: 0 <= i < j < |counts| ==> counts[i].0 != counts[j].0
  }

  ghost predicate InjectiveOn(counts: Counts, f: string -> string) {
    forall i, j :: 0 <= i < j < |counts| ==> f(counts[i].0) != f(counts[j].0)
  }

  /** If no two outcomes decode alike, every decoded outcome has its raw count added and nothing
      else changes. */
  lemma {:induction false} CollectedImage(h: Histogram, counts: Counts, f: string -> string)
    requires InjectiveOn(counts, f)
    ensures forall i :: 0 <= i < |counts| ==>
              Count(Collected(h, counts, f), f(counts[i].0)) == Count(h, f(counts[i].0)) + counts[i].1
    ensures forall d :: (forall i :: 0 <= i < |counts| ==> f(counts[i].0) != d) ==>
              Count(Collected(h, counts, f), d) == Count(h, d)
    decreases |counts|
  {
    if counts != [] {
      var n := |counts| - 1;
      var before := counts[..n];
      CollectedSnoc(h, counts, f);
      CollectedImage(h, before, f);
      forall i | 0 <= i < |counts|
        ensures Count(Collected(h, counts, f), f(counts[i].0)) == Count(h, f(counts[i].0)) + counts[i].1
      {
        if i < n {
          assert before[i] == counts[i];
        } else {
          assert forall j :: 0 <= j < n ==> before[j] == counts[j];
        }
      }
    }
  }
}
