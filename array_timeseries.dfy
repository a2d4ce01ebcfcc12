// timeseries/ArrayTimeSeries.py: the same series kept in numpy arrays, with
// its length recorded at construction. The checks, the binary search and
// the cases of `interpolate` are those of timeseries/TimeSeries.py (module
// Series); only the message for repeated times differs.
module ArraySeries {
  import opened Results
  import opened Series

  const ArrayDuplicateMessage := "Input times must have distinct values!"

  /** `ArrayTimeSeries(times, values)`'s checks. */
  function ArrayCheck(times: seq<Datum>, values: seq<Datum>): Result<Data>
  {
    CheckInputs(times, values, ArrayDuplicateMessage)
  }

  class ArrayTimeSeries {
    var length: nat
    var time: seq<real>
    var value: seq<real>

    /** The recorded length is the number of values, one per time. */
    ghost predicate Valid()
      reads this
    {
      Wf(Data(time, value)) && length == |value|
    }

    function State(): Data
      reads this
    {
      Data(time, value)
    }

    constructor (d: Data)
      requires Wf(d)
      ensures Valid() && State() == d
    {
      length := |d.value|;
      time, value := d.time, d.value;
    }

    /** `ArrayTimeSeries(times, values)`: the checks, then a new object; its
        length is the number of values supplied. */
    static method Make(times: seq<Datum>, values: seq<Datum>) returns (r: Result<ArrayTimeSeries>)
      ensures r.Err? ==> ArrayCheck(times, values) == Err(r.error)
      ensures r.Ok? ==> ArrayCheck(times, values) == Ok(r.value.State()) && r.value.Valid() && fresh(r.value)
      ensures r.Ok? ==> r.value.Len() == |values| == |times|
    {
      match ArrayCheck(times, values)
      case Err(e) => r := Err(e);
      case Ok(d) =>
        var ts := new ArrayTimeSeries(d);
        r := Ok(ts);
    }

    /** `__len__`: the length recorded at construction. */
    function Len(): (n: nat)
      reads this
      requires Valid()
      ensures n == |value| == |time|
    {
      length
    }

    /** `interpolate`: a new series at the requested times, checked by this
        class's constructor. */
    method Interpolate(times: seq<real>, lerp: Lerp) returns (r: Result<ArrayTimeSeries>)
      requires Valid()
      ensures r.Err? ==> Interpolated(State(), times, lerp, ArrayDuplicateMessage) == Err(r.error)
      ensures r.Ok? ==> Interpolated(State(), times, lerp, ArrayDuplicateMessage) == Ok(r.value.State()) && fresh(r.value)
      ensures r.Ok? ==> r.value.Valid() && r.value.Len() == |times|
    {
      var vals := InterpolateValues(State(), times, lerp);
      if vals.Err? {
        return Err(vals.error);
      }
      ghost var d := State();
      if |times| > 0 {
        assert vals.value == seq(|times|, i requires 0 <= i < |times| => ValueAt(d, times[i], lerp));
      }
      r := Make(Nums(times), Nums(vals.value));
      CheckRejectsRepeats(times, vals.value, ArrayDuplicateMessage);
      if r.Ok? {
        assert r.value.time == times by {
          assert Nums(r.value.time) == Nums(times);
          assert forall i | 0 <= i < |times| :: r.value.time[i] == Nums(r.value.time)[i].x;
        }
        assert r.value.value == vals.value by {
          assert Nums(r.value.value) == Nums(vals.value);
          assert forall i | 0 <= i < |times| :: r.value.value[i] == Nums(r.value.value)[i].x;
        }
      }
    }
  }

  /** The two constructors make the same checks in the same order and
      differ only in the text given for repeated times. */
  lemma ChecksAgree(times: seq<Datum>, values: seq<Datum>)
    ensures ArrayCheck(times, values).Ok? <==> Series.Check(times, values).Ok?
    ensures ArrayCheck(times, values).Ok? ==> ArrayCheck(times, values) == Series.Check(times, values)
    ensures ArrayCheck(times, values) != Series.Check(times, values) ==>
      ArrayCheck(times, values) == Err(ValueError(ArrayDuplicateMessage)) &&
      Series.Check(times, values) == Err(ValueError(Series.DuplicateMessage))
  {
  }
}
