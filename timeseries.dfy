// timeseries/TimeSeries.py: a series of (time, value) pairs kept as two
// parallel lists. Construction checks the inputs; `__setitem__` changes one
// value in place; the arithmetic operators build new series; `interpolate`
// walks the requested times and finds the neighbours of each by binary
// search. Times and values are Python numbers, modelled as `real`.
module Series {
  import opened Results

  /** An element handed to a constructor: a Python number, or an object of
      some other type (named by its text, which is also what makes two of
      them equal in a `set`). */
  datatype Datum = Num(x: real) | Other(text: string)

  /** The state of a series: the time list and the value list. */
  datatype Data = Data(time: seq<real>, value: seq<real>)

  /** The right-hand side of an arithmetic operator: a real number, or
      another series. */
  datatype Operand = Const(c: real) | SeriesOf(data: Data)

  /** What `interpolate` computes between two stored points: the time asked
      for, then the lower point's time and value, then the upper one's. */
  type Lerp = (real, real, real, real, real) -> real

  predicate Distinct<T(==)>(s: seq<T>)
  {
    forall i, j | 0 <= i < j < |s| :: s[i] != s[j]
  }

  predicate AllNumbers(s: seq<Datum>)
  {
    forall i | 0 <= i < |s| :: s[i].Num?
  }

  function Numbers(s: seq<Datum>): (r: seq<real>)
    requires AllNumbers(s)
    ensures |r| == |s| && forall i | 0 <= i < |s| :: r[i] == s[i].x
  {
    seq(|s|, i requires 0 <= i < |s| => s[i].x)
  }

  function Nums(s: seq<real>): (r: seq<Datum>)
    ensures |r| == |s| && forall i | 0 <= i < |s| :: r[i] == Num(s[i])
  {
    seq(|s|, i requires 0 <= i < |s| => Num(s[i]))
  }

  /** A series as construction leaves it: as many times as values, no time
      twice. */
  predicate Wf(d: Data)
  {
    |d.time| == |d.value| && Distinct(d.time)
  }

  const LengthMessage := "Input times and values must have the same length"

  /** The message `TimeSeries.__init__` gives for repeated times: the same
      text as for a length mismatch. */
  const DuplicateMessage := LengthMessage

  /** The checks of a constructor, in the order it makes them: equal
      lengths, then distinct times (reported with `duplicateMessage`), then
      numeric values, then numeric times. */
  function CheckInputs(times: seq<Datum>, values: seq<Datum>, duplicateMessage: string): (r: Result<Data>)
    ensures r.Ok? <==> |times| == |values| && Distinct(times) && AllNumbers(values) && AllNumbers(times)
    ensures |times| != |values| ==> r == Err(ValueError(LengthMessage))
    ensures |times| == |values| && !Distinct(times) ==> r == Err(ValueError(duplicateMessage))
    ensures |times| == |values| && Distinct(times) && !AllNumbers(values) ==>
      r == Err(TypeError("Data must be numerical!"))
    ensures |times| == |values| && Distinct(times) && AllNumbers(values) && !AllNumbers(times) ==>
      r == Err(TypeError("Time values must be numerical!"))
    ensures r.Ok? ==> Wf(r.value) && Nums(r.value.time) == times && Nums(r.value.value) == values
  {
    if |times| != |values| then Err(ValueError(LengthMessage))
    else if !Distinct(times) then Err(ValueError(duplicateMessage))
    else if !AllNumbers(values) then Err(TypeError("Data must be numerical!"))
    else if !AllNumbers(times) then Err(TypeError("Time values must be numerical!"))
    else
      var d := Data(Numbers(times), Numbers(values));
      assert Nums(d.time) == times && Nums(d.value) == values;
      Ok(d)
  }

  /** `TimeSeries(times, values)`'s checks. */
  function Check(times: seq<Datum>, values: seq<Datum>): Result<Data>
  {
    CheckInputs(times, values, DuplicateMessage)
  }

  /** A series that passed the checks passes them again: the operators,
      which rebuild a series from an existing one's times, never fail in
      the constructor. */
  lemma CheckAccepts(d: Data, duplicateMessage: string)
    requires Wf(d)
    ensures CheckInputs(Nums(d.time), Nums(d.value), duplicateMessage) == Ok(d)
  {
    var times := Nums(d.time);
    forall i, j | 0 <= i < j < |times| ensures times[i] != times[j] {
      assert d.time[i] != d.time[j];
    }
    assert Numbers(times) == d.time;
    assert Numbers(Nums(d.value)) == d.value;
  }

  /** Repeated times are the only way a list of numbers fails the checks
      beside a length mismatch. */
  lemma CheckRejectsRepeats(times: seq<real>, values: seq<real>, duplicateMessage: string)
    requires |times| == |values|
    ensures CheckInputs(Nums(times), Nums(values), duplicateMessage).Ok? <==> Distinct(times)
    ensures !Distinct(times) ==> CheckInputs(Nums(times), Nums(values), duplicateMessage) == Err(ValueError(duplicateMessage))
  {
    var ds := Nums(times);
    if Distinct(times) {
      forall i, j | 0 <= i < j < |ds| ensures ds[i] != ds[j] {
        assert times[i] != times[j];
      }
    } else {
      var i, j :| 0 <= i < j < |times| && times[i] == times[j];
      assert ds[i] == ds[j];
    }
  }

  /** Python's list index: `-n <= i < n`, counting from the end when
      negative. */
  function PyIndex(i: int, n: nat): (k: nat)
    requires -(n as int) <= i < n
    ensures k < n && (i >= 0 ==> k == i) && (i < 0 ==> k == n + i)
  {
    if i < 0 then n + i else i
  }

  /** First index of `x` in `s`: `list.index`. */
  function IndexOf(s: seq<real>, x: real): (k: nat)
    requires x in s
    ensures k < |s| && s[k] == x && forall j | 0 <= j < k :: s[j] != x
  {
    if s[0] == x then 0 else 1 + IndexOf(s[1..], x)
  }

  predicate Increasing(s: seq<real>)
  {
    forall i, j | 0 <= i < j < |s| :: s[i] < s[j]
  }

  // ---------------------------------------------------------------------
  // binsearch_helper

  /** The rounds of `binsearch_helper` from the range [lo, hi]: stop when
      the range is a single index (or empty), otherwise look at the
      midpoint and keep the half that can hold the first element above
      `val`; a midpoint equal to `val` is the ValueError. */
  function Search(s: seq<real>, val: real, lo: int, hi: int): (r: Result<nat>)
    requires 0 <= lo && hi < |s|
    ensures r.Ok? ==> lo <= r.value && (lo <= hi ==> r.value <= hi)
    decreases hi - lo
  {
    if lo >= hi then Ok(lo)
    else
      var mid := lo + (hi - lo) / 2;
      if s[mid] > val then Search(s, val, lo, mid)
      else if s[mid] < val then Search(s, val, mid + 1, hi)
      else Err(ValueError("Precondition violated: val should not already be in seq"))
  }

  /** `binsearch_helper(seq, val)`. The loop ends on every input, sorted
      or not: each round shrinks `rangemax - rangemin`. */
  method BinSearch(s: seq<real>, val: real) returns (r: Result<nat>)
    ensures r == Search(s, val, 0, |s| - 1)
    ensures r.Err? ==> val in s && r.error == ValueError("Precondition violated: val should not already be in seq")
    ensures |s| > 0 && s[0] < val < s[|s| - 1] && val !in s ==>
      r.Ok? && 0 < r.value < |s| && s[r.value - 1] < val < s[r.value]
    ensures Increasing(s) && |s| > 0 && s[0] < val < s[|s| - 1] && val !in s ==>
      r.Ok? && forall j | 0 <= j < |s| :: s[j] > val <==> j >= r.value
  {
    var lo, hi := 0, |s| - 1;
    while lo < hi
      invariant 0 <= lo && hi < |s|
      invariant Search(s, val, lo, hi) == Search(s, val, 0, |s| - 1)
      decreases hi - lo
    {
      var mid := lo + (hi - lo) / 2;
      if s[mid] > val {
        hi := mid;
      } else if s[mid] < val {
        lo := mid + 1;
      } else {
        r := Err(ValueError("Precondition violated: val should not already be in seq"));
        assert r == Search(s, val, lo, hi);
        SearchMeaning(s, val);
        return;
      }
    }
    r := Ok(lo);
    SearchMeaning(s, val);
  }

  /** What the result of `binsearch_helper` means: the ValueError only for a
      value present, and for a value strictly inside the range and absent,
      the index of its successor. */
  lemma SearchMeaning(s: seq<real>, val: real)
    ensures var r := Search(s, val, 0, |s| - 1);
      r.Err? ==> val in s && r.error == ValueError("Precondition violated: val should not already be in seq")
    ensures var r := Search(s, val, 0, |s| - 1);
      |s| > 0 && s[0] < val < s[|s| - 1] && val !in s ==>
        r.Ok? && 0 < r.value < |s| && s[r.value - 1] < val < s[r.value]
    ensures var r := Search(s, val, 0, |s| - 1);
      Increasing(s) && |s| > 0 && s[0] < val < s[|s| - 1] && val !in s ==>
        r.Ok? && forall j | 0 <= j < |s| :: s[j] > val <==> j >= r.value
  {
    SearchErrHits(s, val, 0, |s| - 1);
    if |s| > 0 && s[0] < val < s[|s| - 1] && val !in s {
      SearchBetween(s, val);
      if Increasing(s) {
        SuccessorIsFirstAbove(s, val, Search(s, val, 0, |s| - 1).value);
      }
    }
  }

  /** In a strictly increasing sequence the element after the last one
      below `val` is the first of those above it. */
  lemma SuccessorIsFirstAbove(s: seq<real>, val: real, k: int)
    requires Increasing(s) && 0 < k < |s| && s[k - 1] < val < s[k]
    ensures forall j | 0 <= j < |s| :: s[j] > val <==> j >= k
  {
    forall j | 0 <= j < |s| ensures s[j] > val <==> j >= k {
      if j < k - 1 {
        assert s[j] < s[k - 1];
      } else if j > k {
        assert s[k] < s[j];
      }
    }
  }

  /** The ValueError is raised only on a midpoint equal to `val`. */
  lemma {:induction false} SearchErrHits(s: seq<real>, val: real, lo: int, hi: int)
    requires 0 <= lo && hi < |s|
    ensures Search(s, val, lo, hi).Err? ==> val in s
    ensures Search(s, val, lo, hi).Err? ==>
      Search(s, val, lo, hi).error == ValueError("Precondition violated: val should not already be in seq")
    decreases hi - lo
  {
    if lo < hi {
      var mid := lo + (hi - lo) / 2;
      if s[mid] > val {
        SearchErrHits(s, val, lo, mid);
      } else if s[mid] < val {
        SearchErrHits(s, val, mid + 1, hi);
      }
    }
  }

  /** When the element before `lo` (if any) is below `val`, the one at
      `hi` is above it and no element equals it, the search returns an
      index whose element is above `val` and whose predecessor (if any) is
      below it. No order on the sequence is needed for this. */
  lemma {:induction false} SearchFindsSuccessor(s: seq<real>, val: real, lo: int, hi: int)
    requires 0 <= lo <= hi < |s| && val !in s
    requires (lo == 0 || s[lo - 1] < val) && s[hi] > val
    ensures Search(s, val, lo, hi).Ok?
    ensures var i := Search(s, val, lo, hi).value;
      lo <= i <= hi && s[i] > val && (i == 0 || s[i - 1] < val)
    decreases hi - lo
  {
    if lo < hi {
      var mid := lo + (hi - lo) / 2;
      assert s[mid] != val;
      if s[mid] > val {
        SearchFindsSuccessor(s, val, lo, mid);
      } else {
        SearchFindsSuccessor(s, val, mid + 1, hi);
      }
    }
  }

  /** When the first element is below `val` and the range starts at 0 and
      is not a single index, the search never returns 0, so the element
      before the result is an element of the sequence. */
  lemma {:induction false} SearchPastFirst(s: seq<real>, val: real, lo: int, hi: int)
    requires 0 <= lo < hi < |s| && s[0] < val
    ensures Search(s, val, lo, hi).Ok? ==> Search(s, val, lo, hi).value >= 1
    decreases hi - lo
  {
    var mid := lo + (hi - lo) / 2;
    if s[mid] > val {
      if lo < mid {
        SearchPastFirst(s, val, lo, mid);
      } else {
        assert mid == lo && lo != 0;
      }
    } else if s[mid] < val && mid + 1 < hi {
      SearchPastFirst(s, val, mid + 1, hi);
    }
  }

  /** The doctests of `binsearch_helper` over `range(10)`. */
  lemma SearchExamples()
    ensures Search([0.0, 1.0, 2.0, 3.0, 4.0, 5.0, 6.0, 7.0, 8.0, 9.0], 5.1, 0, 9) == Ok(6)
    ensures Search([0.0, 1.0, 2.0, 3.0, 4.0, 5.0, 6.0, 7.0, 8.0, 9.0], 4.5, 0, 9) == Ok(5)
    ensures Search([0.0, 1.0, 2.0, 3.0, 4.0, 5.0, 6.0, 7.0, 8.0, 9.0], 8.9, 0, 9) == Ok(9)
  {
  }

  // ---------------------------------------------------------------------
  // interpolate

  /** The index `interpolate` takes as the upper neighbour of a time strictly
      between the first and the last and equal to none: it exists and has
      a lower neighbour. */
  function NextIndex(time: seq<real>, t: real): (k: nat)
    requires |time| > 0 && t !in time && time[0] < t < time[|time| - 1]
    ensures 1 <= k < |time| && time[k - 1] < t < time[k]
  {
    SearchBetween(time, t);
    Search(time, t, 0, |time| - 1).value
  }

  lemma SearchBetween(time: seq<real>, t: real)
    requires |time| > 0 && t !in time && time[0] < t < time[|time| - 1]
    ensures Search(time, t, 0, |time| - 1).Ok?
    ensures var k := Search(time, t, 0, |time| - 1).value;
      1 <= k < |time| && time[k - 1] < t < time[k]
  {
    SearchErrHits(time, t, 0, |time| - 1);
    SearchPastFirst(time, t, 0, |time| - 1);
    SearchFindsSuccessor(time, t, 0, |time| - 1);
  }

  /** The value `interpolate` gives time `t`: the stored value of the first
      equal time; the first value below the range; the last value above
      it; otherwise `lerp` of `t` and the two neighbours `binsearch_helper`
      picks. */
  function ValueAt(d: Data, t: real, lerp: Lerp): real
    requires |d.time| == |d.value| > 0
  {
    if t in d.time then d.value[IndexOf(d.time, t)]
    else if t < d.time[0] then d.value[0]
    else if t > d.time[|d.time| - 1] then d.value[|d.value| - 1]
    else
      var next := NextIndex(d.time, t);
      lerp(t, d.time[next - 1], d.value[next - 1], d.time[next], d.value[next])
  }

  /** An exact hit reads the value of the first equal time. */
  lemma ValueAtHit(d: Data, t: real, lerp: Lerp)
    requires |d.time| == |d.value| > 0 && t in d.time
    ensures exists k | 0 <= k < |d.time| ::
      d.time[k] == t && (forall j | 0 <= j < k :: d.time[j] != t) && ValueAt(d, t, lerp) == d.value[k]
  {
    var k := IndexOf(d.time, t);
    assert d.time[k] == t && ValueAt(d, t, lerp) == d.value[k];
  }

  /** A time outside the range reads the nearer end's value. */
  lemma ValueAtOutside(d: Data, t: real, lerp: Lerp)
    requires |d.time| == |d.value| > 0 && t !in d.time
    ensures t < d.time[0] ==> ValueAt(d, t, lerp) == d.value[0]
    ensures d.time[0] < t && t > d.time[|d.time| - 1] ==> ValueAt(d, t, lerp) == d.value[|d.value| - 1]
  {
  }

  /** Any other time is interpolated between two consecutive stored points
      whose times enclose it, whether or not the times are in order. */
  lemma ValueAtBetween(d: Data, t: real, lerp: Lerp)
    requires |d.time| == |d.value| > 0 && t !in d.time && d.time[0] <= t <= d.time[|d.time| - 1]
    ensures exists k | 1 <= k < |d.time| ::
      d.time[k - 1] < t < d.time[k] &&
      ValueAt(d, t, lerp) == lerp(t, d.time[k - 1], d.value[k - 1], d.time[k], d.value[k])
  {
    assert d.time[0] != t && d.time[|d.time| - 1] != t;
    var k := NextIndex(d.time, t);
    assert ValueAt(d, t, lerp) == lerp(t, d.time[k - 1], d.value[k - 1], d.time[k], d.value[k]);
  }

  /** The loop of `interpolate`: one value per requested time, in order. An
      empty series cannot answer any time (its `_time[0]` is the
      IndexError). */
  method InterpolateValues(d: Data, times: seq<real>, lerp: Lerp) returns (r: Result<seq<real>>)
    requires |d.time| == |d.value|
    ensures |d.time| == 0 && |times| > 0 ==> r == Err(IndexError)
    ensures |d.time| > 0 || |times| == 0 ==>
      r.Ok? && |r.value| == |times| && forall i | 0 <= i < |times| :: r.value[i] == ValueAt(d, times[i], lerp)
  {
    var vals: seq<real> := [];
    var i := 0;
    while i < |times|
      invariant 0 <= i <= |times| && |vals| == i
      invariant |d.time| > 0 || i == 0
      invariant forall j | 0 <= j < i :: vals[j] == ValueAt(d, times[j], lerp)
    {
      var t := times[i];
      var v: real;
      if t in d.time {
        v := d.value[IndexOf(d.time, t)];
      } else if |d.time| == 0 {
        return Err(IndexError);
      } else if t < d.time[0] {
        v := d.value[0];
      } else if t > d.time[|d.time| - 1] {
        v := d.value[|d.value| - 1];
      } else {
        var found := BinSearch(d.time, t);
        var next := found.value;
        assert next == NextIndex(d.time, t);
        var prev := next - 1;
        v := lerp(t, d.time[prev], d.value[prev], d.time[next], d.value[next]);
      }
      vals := vals + [v];
      i := i + 1;
    }
    r := Ok(vals);
  }

  /** `interpolate` on the series state: the values of the loop, then the
      constructor's checks on the requested times, which fail when a time
      is asked for twice. */
  function Interpolated(d: Data, times: seq<real>, lerp: Lerp, duplicateMessage: string): (r: Result<Data>)
    requires |d.time| == |d.value|
    ensures |d.time| == 0 && |times| > 0 ==> r == Err(IndexError)
    ensures (|d.time| > 0 || |times| == 0) && !Distinct(times) ==> r == Err(ValueError(duplicateMessage))
    ensures r.Ok? <==> (|d.time| > 0 || |times| == 0) && Distinct(times)
    ensures r.Ok? ==> (r.value.time == times && |r.value.value| == |times| &&
      forall i | 0 <= i < |times| :: r.value.value[i] == ValueAt(d, times[i], lerp))
  {
    if |d.time| == 0 && |times| > 0 then Err(IndexError)
    else
      var vals := seq(|times|, i requires 0 <= i < |times| => ValueAt(d, times[i], lerp));
      CheckRejectsRepeats(times, vals, duplicateMessage);
      var r := CheckInputs(Nums(times), Nums(vals), duplicateMessage);
      if r.Ok? then
        assert r.value.time == times by {
          assert Nums(r.value.time) == Nums(times);
          assert forall i | 0 <= i < |times| :: r.value.time[i] == Nums(r.value.time)[i].x;
        }
        assert r.value.value == vals by {
          assert Nums(r.value.value) == Nums(vals);
          assert forall i | 0 <= i < |vals| :: r.value.value[i] == Nums(r.value.value)[i].x;
        }
        r
      else r
  }

  /** The series of test_TimeSeries.py's mixture test. */
  function MixtureSeries(): Data
  {
    Data([3.0, 6.0, 7.0, 8.0, 15.0, 20.0], [0.0, 5.0, 2.0, 3.0, 10.0, -3.0])
  }

  /** test_TimeSeries.py's mixture test: of the six requested times two lie
      below the range, two between stored times (6 and 7, 8 and 15) and two
      above the range; the new series has those times and, for each, the
      first value, the formula on the enclosing points, or the last value. */
  lemma InterpolateMixture(lerp: Lerp, duplicateMessage: string)
    ensures var times := [0.0, 1.0, 6.5, 10.0, 22.0, 500.0];
      Interpolated(MixtureSeries(), times, lerp, duplicateMessage) ==
        Ok(Data(times, [0.0, 0.0, lerp(6.5, 6.0, 5.0, 7.0, 2.0), lerp(10.0, 8.0, 3.0, 15.0, 10.0), -3.0, -3.0]))
  {
    var times := [0.0, 1.0, 6.5, 10.0, 22.0, 500.0];
    var vals := [0.0, 0.0, lerp(6.5, 6.0, 5.0, 7.0, 2.0), lerp(10.0, 8.0, 3.0, 15.0, 10.0), -3.0, -3.0];
    MixtureOutside(lerp);
    MixtureBetween(lerp);
    MixtureTimesDistinct();
    forall i | 0 <= i < |times|
      ensures ValueAt(MixtureSeries(), times[i], lerp) == vals[i]
    {
      if i == 0 { assert times[i] == 0.0; }
      else if i == 1 { assert times[i] == 1.0; }
      else if i == 2 { assert times[i] == 6.5; }
      else if i == 3 { assert times[i] == 10.0; }
      else if i == 4 { assert times[i] == 22.0; }
      else { assert times[i] == 500.0; }
    }
    InterpolatedIs(MixtureSeries(), times, lerp, duplicateMessage, vals);
  }

  /** The mixture test's requested times are all different. */
  lemma MixtureTimesDistinct()
    ensures Distinct([0.0, 1.0, 6.5, 10.0, 22.0, 500.0])
  {
  }

  /** `v_0 + (t - t_0) * (v_1 - v_0) / (t_1 - t_0)` in exact arithmetic.
      `ValueAt` applies it only to two different stored times; equal ones
      give `v_0`. */
  function Linear(t: real, t0: real, v0: real, t1: real, v1: real): (v: real)
    ensures t == t0 ==> v == v0
    ensures t1 != t0 && t == t1 ==> v == v1
    ensures t1 != t0 && v0 == v1 ==> v == v0
  {
    if t1 == t0 then v0
    else
      var rise := (t - t0) * (v1 - v0);
      assert t == t1 ==> rise / (t1 - t0) == v1 - v0 by {
        if t == t1 {
          MulDivCancel(v1 - v0, t1 - t0);
        }
      }
      v0 + rise / (t1 - t0)
  }

  lemma MulDivCancel(a: real, d: real)
    requires d != 0.0
    ensures (d * a) / d == a
  {
  }

  /** With the source's linear formula the mixture test's series gives the
      values it asserts: 0, 0, 3.5, 5, -3, -3. */
  lemma InterpolateMixtureLinear(duplicateMessage: string)
    ensures var times := [0.0, 1.0, 6.5, 10.0, 22.0, 500.0];
      Interpolated(MixtureSeries(), times, Linear, duplicateMessage) ==
        Ok(Data(times, [0.0, 0.0, 3.5, 5.0, -3.0, -3.0]))
  {
    InterpolateMixture(Linear, duplicateMessage);
    assert Linear(6.5, 6.0, 5.0, 7.0, 2.0) == 3.5;
    assert Linear(10.0, 8.0, 3.0, 15.0, 10.0) == 5.0;
  }

  /** `interpolate` succeeds with the given values when they are the ones
      `ValueAt` chooses and no time is asked for twice. */
  lemma InterpolatedIs(d: Data, times: seq<real>, lerp: Lerp, duplicateMessage: string, vals: seq<real>)
    requires |d.time| == |d.value| > 0 && Distinct(times) && |vals| == |times|
    requires forall i | 0 <= i < |times| :: ValueAt(d, times[i], lerp) == vals[i]
    ensures Interpolated(d, times, lerp, duplicateMessage) == Ok(Data(times, vals))
  {
    var r := Interpolated(d, times, lerp, duplicateMessage);
    assert r.value.value == vals;
  }

  /** The mixture test's times below and above the range. */
  lemma MixtureOutside(lerp: Lerp)
    ensures ValueAt(MixtureSeries(), 0.0, lerp) == 0.0 && ValueAt(MixtureSeries(), 1.0, lerp) == 0.0
    ensures ValueAt(MixtureSeries(), 22.0, lerp) == -3.0 && ValueAt(MixtureSeries(), 500.0, lerp) == -3.0
  {
    var d := MixtureSeries();
    assert 0.0 !in d.time && 1.0 !in d.time && 22.0 !in d.time && 500.0 !in d.time;
  }

  /** The mixture test's times between stored times. */
  lemma MixtureBetween(lerp: Lerp)
    ensures ValueAt(MixtureSeries(), 6.5, lerp) == lerp(6.5, 6.0, 5.0, 7.0, 2.0)
    ensures ValueAt(MixtureSeries(), 10.0, lerp) == lerp(10.0, 8.0, 3.0, 15.0, 10.0)
  {
    var d := MixtureSeries();
    assert 6.5 !in d.time && 10.0 !in d.time;
    assert Search(d.time, 6.5, 0, 5) == Ok(2);
    assert Search(d.time, 10.0, 0, 5) == Ok(4);
  }

  // ---------------------------------------------------------------------
  // Arithmetic

  /** `_check_length_helper` then `_check_timedomains_helper`. */
  function CheckAligned(lhs: Data, rhs: Data): (r: Result<()>)
    ensures r.Ok? <==> |lhs.value| == |rhs.value| && lhs.time == rhs.time
    ensures |lhs.value| != |rhs.value| ==> r == Err(ValueError(" must have the same length"))
  {
    if |lhs.value| != |rhs.value| then Err(ValueError(" must have the same length"))
    else if lhs.time != rhs.time then Err(ValueError(" must have the same time points"))
    else Ok(())
  }

  /** The arithmetic operators' elementwise operations. */
  datatype Op = Plus | Minus | Times

  function Apply(op: Op, a: real, b: real): real
  {
    match op
    case Plus => a + b
    case Minus => a - b
    case Times => a * b
  }

  /** `__add__`, `__sub__` and `__mul__`: a number applies to every value;
      a series must have the same length and the same times and combines
      value by value. The times are kept. */
  function Arith(op: Op, lhs: Data, rhs: Operand): (r: Result<Data>)
    requires Wf(lhs)
    ensures rhs.Const? ==> r.Ok?
    ensures rhs.SeriesOf? ==> (r.Ok? <==> |lhs.value| == |rhs.data.value| && lhs.time == rhs.data.time)
    ensures r.Ok? ==> Wf(r.value) && r.value.time == lhs.time && |r.value.value| == |lhs.value|
    ensures r.Ok? ==> forall i | 0 <= i < |lhs.value| ::
      r.value.value[i] == Apply(op, lhs.value[i], if rhs.Const? then rhs.c else rhs.data.value[i])
  {
    match rhs
    case Const(c) =>
      Ok(Data(lhs.time, seq(|lhs.value|, i requires 0 <= i < |lhs.value| => Apply(op, lhs.value[i], c))))
    case SeriesOf(other) =>
      match CheckAligned(lhs, other)
      case Err(e) => Err(e)
      case Ok(_) =>
        Ok(Data(lhs.time, seq(|lhs.value|, i requires 0 <= i < |lhs.value| => Apply(op, lhs.value[i], other.value[i]))))
  }

  /** `__rsub__` with a number on the left: that number minus each value. */
  function RSub(lhs: Data, c: real): (r: Data)
    requires Wf(lhs)
    ensures Wf(r) && r.time == lhs.time && |r.value| == |lhs.value|
    ensures forall i | 0 <= i < |lhs.value| :: r.value[i] == c - lhs.value[i]
  {
    Data(lhs.time, seq(|lhs.value|, i requires 0 <= i < |lhs.value| => c - lhs.value[i]))
  }

  /** `__neg__`: each value negated, times kept. */
  function Neg(d: Data): (r: Data)
    requires Wf(d)
    ensures Wf(r) && r.time == d.time && |r.value| == |d.value|
    ensures forall i | 0 <= i < |d.value| :: r.value[i] == -d.value[i]
  {
    Data(d.time, seq(|d.value|, i requires 0 <= i < |d.value| => -d.value[i]))
  }

  /** `__pos__`: a new series over the same times and values. */
  function Pos(d: Data): Data
  {
    Data(d.time, d.value)
  }

  /** `__eq__`: after the same checks, one truth value per position. */
  function Equal(lhs: Data, rhs: Data): (r: Result<seq<bool>>)
    ensures r.Ok? <==> |lhs.value| == |rhs.value| && lhs.time == rhs.time
    ensures r.Ok? ==> (|r.value| == |lhs.value| &&
      forall i | 0 <= i < |lhs.value| :: r.value[i] <==> lhs.value[i] == rhs.value[i])
  {
    match CheckAligned(lhs, rhs)
    case Err(e) => Err(e)
    case Ok(_) => Ok(seq(|lhs.value|, i requires 0 <= i < |lhs.value| => lhs.value[i] == rhs.value[i]))
  }

  /** A series with every value `c` at the given times. */
  function ConstantAt(time: seq<real>, c: real): Data
  {
    Data(time, seq(|time|, i requires 0 <= i < |time| => c))
  }

  /** A number on the right acts as the series holding that number at the
      same times. */
  lemma ConstIsConstantSeries(op: Op, lhs: Data, c: real)
    requires Wf(lhs)
    ensures Arith(op, lhs, Const(c)) == Arith(op, lhs, SeriesOf(ConstantAt(lhs.time, c)))
  {
    assert Arith(op, lhs, Const(c)).value.value == Arith(op, lhs, SeriesOf(ConstantAt(lhs.time, c))).value.value;
  }

  /** Adding and then subtracting the same number or series gives back the
      series. */
  lemma AddThenSub(lhs: Data, rhs: Operand)
    requires Wf(lhs) && Arith(Plus, lhs, rhs).Ok?
    ensures Arith(Minus, Arith(Plus, lhs, rhs).value, rhs) == Ok(lhs)
  {
    var sum := Arith(Plus, lhs, rhs).value;
    assert Arith(Minus, sum, rhs).value.value == lhs.value;
  }

  /** Negating twice gives back the series, and a number minus the series
      is the negated series plus that number. */
  lemma NegFacts(d: Data, c: real)
    requires Wf(d)
    ensures Neg(Neg(d)) == d
    ensures Arith(Plus, Neg(d), Const(c)) == Ok(RSub(d, c))
  {
    assert Neg(Neg(d)).value == d.value;
    assert Arith(Plus, Neg(d), Const(c)).value.value == RSub(d, c).value;
  }

  /** Subtraction is addition of the negated series. */
  lemma SubIsAddNeg(lhs: Data, rhs: Data)
    requires Wf(lhs) && Wf(rhs)
    ensures Arith(Minus, lhs, SeriesOf(rhs)) == Arith(Plus, lhs, SeriesOf(Neg(rhs)))
  {
    if Arith(Minus, lhs, SeriesOf(rhs)).Ok? {
      assert Arith(Minus, lhs, SeriesOf(rhs)).value.value == Arith(Plus, lhs, SeriesOf(Neg(rhs))).value.value;
    }
  }

  /** `+x` is `x` itself, as are `x + 0` and `x * 1`. */
  lemma PosIsIdentity(d: Data)
    requires Wf(d)
    ensures Pos(d) == d
    ensures Arith(Plus, d, Const(0.0)) == Ok(Pos(d))
    ensures Arith(Times, d, Const(1.0)) == Ok(Pos(d))
  {
    assert Arith(Plus, d, Const(0.0)).value.value == d.value;
    assert Arith(Times, d, Const(1.0)).value.value == d.value;
  }

  /** A series equals itself at every position. */
  lemma EqualReflexive(d: Data)
    ensures Equal(d, d).Ok? && forall i | 0 <= i < |d.value| :: Equal(d, d).value[i]
  {
  }

  // ---------------------------------------------------------------------
  // __repr__

  /** The text the loop of `__repr__` has built after `k` values: each
      value, followed by ", " unless it is the last of the series. */
  function Shown(value: seq<real>, show: real -> string, k: nat): string
    requires k <= |value|
  {
    if k == 0 then ""
    else Shown(value, show, k - 1) + show(value[k - 1]) + (if k < |value| then ", " else "")
  }

  /** The texts of the values, separated by ", ". */
  function Join(parts: seq<string>, sep: string): string
  {
    if |parts| == 0 then ""
    else if |parts| == 1 then parts[0]
    else parts[0] + sep + Join(parts[1..], sep)
  }

  function ShowAll(value: seq<real>, show: real -> string): (r: seq<string>)
    ensures |r| == |value| && forall i | 0 <= i < |value| :: r[i] == show(value[i])
  {
    seq(|value|, i requires 0 <= i < |value| => show(value[i]))
  }

  lemma {:induction false} JoinSnoc(parts: seq<string>, p: string, sep: string)
    requires |parts| > 0
    ensures Join(parts + [p], sep) == Join(parts, sep) + sep + p
    decreases |parts|
  {
    if |parts| == 1 {
      assert (parts + [p])[1..] == [p];
    } else {
      assert (parts + [p])[1..] == parts[1..] + [p];
      JoinSnoc(parts[1..], p, sep);
    }
  }

  /** After `k` values the loop has written the first `k` texts joined by
      ", ", plus a trailing ", " when more values follow. */
  lemma {:induction false} ShownIsJoin(value: seq<real>, show: real -> string, k: nat)
    requires k <= |value|
    ensures Shown(value, show, k) == Join(ShowAll(value[..k], show), ", ") + (if 0 < k < |value| then ", " else "")
  {
    if k > 1 {
      ShownIsJoin(value, show, k - 1);
      assert ShowAll(value[..k], show) == ShowAll(value[..k - 1], show) + [show(value[k - 1])];
      JoinSnoc(ShowAll(value[..k - 1], show), show(value[k - 1]), ", ");
    } else if k == 1 {
      assert ShowAll(value[..1], show) == [show(value[0])];
    }
  }

  function Min(a: nat, b: nat): nat { if a < b then a else b }

  /** `__repr__`: the class name, then at most the first ten values, then
      "... " exactly when there are more than ten, in brackets. */
  function ReprText(name: string, value: seq<real>, show: real -> string): string
  {
    name + "[" + Shown(value, show, Min(|value|, 10)) + (if |value| > 10 then "... " else "") + "]"
  }

  /** Up to ten values are all shown, joined by ", "; beyond ten only the
      first ten are, each followed by ", ", and then "... ". */
  lemma ReprShape(name: string, value: seq<real>, show: real -> string)
    ensures |value| <= 10 ==> ReprText(name, value, show) == name + "[" + Join(ShowAll(value, show), ", ") + "]"
    ensures |value| > 10 ==>
      ReprText(name, value, show) == name + "[" + Join(ShowAll(value[..10], show), ", ") + ", ... ]"
  {
    ShownIsJoin(value, show, Min(|value|, 10));
    assert value[..|value|] == value;
  }

  /** The loop of `__repr__`. */
  method ReprLoop(name: string, value: seq<real>, show: real -> string) returns (s: string)
    ensures s == ReprText(name, value, show)
  {
    s := name + "[";
    var i := 0;
    while i < |value|
      invariant 0 <= i <= Min(|value|, 10)
      invariant s == name + "[" + Shown(value, show, i)
    {
      if i > 9 {
        break;
      }
      s := s + show(value[i]);
      if i < |value| - 1 {
        s := s + ", ";
      }
      i := i + 1;
    }
    if |value| > 10 {
      s := s + "... ";
    }
    s := s + "]";
  }

  // ---------------------------------------------------------------------
  // The object

  /** A `TimeSeries` object: its two lists, of which `__setitem__` changes
      the value list in place. */
  class TimeSeries {
    var time: seq<real>
    var value: seq<real>

    ghost predicate Valid()
      reads this
    {
      Wf(Data(time, value))
    }

    function State(): Data
      reads this
    {
      Data(time, value)
    }

    constructor (d: Data)
      requires Wf(d)
      ensures Valid() && State() == d
    {
      time, value := d.time, d.value;
    }

    /** `TimeSeries(times, values)`: the checks, then a new object holding
        the numbers. */
    static method Make(times: seq<Datum>, values: seq<Datum>) returns (r: Result<TimeSeries>)
      ensures r.Err? ==> Check(times, values) == Err(r.error)
      ensures r.Ok? ==> Check(times, values) == Ok(r.value.State()) && r.value.Valid() && fresh(r.value)
    {
      match Check(times, values)
      case Err(e) => r := Err(e);
      case Ok(d) =>
        var ts := new TimeSeries(d);
        r := Ok(ts);
    }

    /** `__len__`: the number of values, which is the number of times. */
    function Len(): (n: nat)
      reads this
      requires Valid()
      ensures n == |value| && n == |time|
    {
      |value|
    }

    /** `__getitem__`: the value at a Python list index. */
    function GetItem(index: int): (r: Result<real>)
      reads this
      ensures r.Ok? <==> -|value| <= index < |value|
      ensures r.Ok? ==> r.value == value[PyIndex(index, |value|)]
      ensures r.Err? ==> r.error == IndexError
    {
      if -|value| <= index < |value| then Ok(value[PyIndex(index, |value|)]) else Err(IndexError)
    }

    /** `__setitem__`: replaces one value; the times and the other values
        stay. An index outside the list is the IndexError. */
    method SetItem(index: int, v: real) returns (r: Result<()>)
      requires Valid()
      modifies this`value
      ensures Valid() && time == old(time) && |value| == |old(value)|
      ensures r.Ok? <==> -|value| <= index < |value|
      ensures r.Ok? ==> value == old(value)[PyIndex(index, |value|) := v] && GetItem(index) == Ok(v)
      ensures r.Err? ==> r.error == IndexError && value == old(value)
    {
      if -|value| <= index < |value| {
        value := value[PyIndex(index, |value|) := v];
        r := Ok(());
      } else {
        r := Err(IndexError);
      }
    }

    /** `__contains__`: whether some value, not some time, equals `v`. */
    function Contains(v: real): (b: bool)
      reads this
      ensures b <==> exists i | 0 <= i < |value| :: value[i] == v
    {
      v in value
    }

    /** `__repr__`. */
    method Repr(show: real -> string) returns (s: string)
      ensures s == ReprText("TimeSeries", value, show)
    {
      s := ReprLoop("TimeSeries", value, show);
    }

    /** `interpolate`: a new series at the requested times. */
    method Interpolate(times: seq<real>, lerp: Lerp) returns (r: Result<TimeSeries>)
      requires Valid()
      ensures r.Err? ==> Interpolated(State(), times, lerp, DuplicateMessage) == Err(r.error)
      ensures r.Ok? ==> Interpolated(State(), times, lerp, DuplicateMessage) == Ok(r.value.State()) && fresh(r.value)
      ensures r.Ok? ==> r.value.Valid()
    {
      var vals := InterpolateValues(State(), times, lerp);
      if vals.Err? {
        return Err(vals.error);
      }
      ghost var d := State();
      if |times| > 0 {
        assert vals.value == seq(|times|, i requires 0 <= i < |times| => ValueAt(d, times[i], lerp));
      }
      r := Make(Nums(times), Nums(vals.value));
      CheckRejectsRepeats(times, vals.value, DuplicateMessage);
      if r.Ok? {
        assert r.value.time == times by {
          assert Nums(r.value.time) == Nums(times);
          assert forall i | 0 <= i < |times| :: r.value.time[i] == Nums(r.value.time)[i].x;
        }
        assert r.value.value == vals.value by {
          assert Nums(r.value.value) == Nums(vals.value);
          assert forall i | 0 <= i < |times| :: r.value.value[i] == Nums(r.value.value)[i].x;
        }
      }
    }
  }
}
