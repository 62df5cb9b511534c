/** Parameter intervals and the enumeration of consecutive knot intervals that
    both curve and surface span listings use. */
module Intervals {

  /** A closed parameter interval [t0, t1]. */
  datatype Interval = Interval(t0: real, t1: real) {

    /** The nearest value of the interval when it is not reversed. */
    function Clamp(value: real): (r: real)
      ensures t0 <= t1 ==> t0 <= r <= t1
      ensures t0 <= value <= t1 ==> r == value
      ensures value < t0 ==> r == t0
    {
      if value < t0 then t0
      else if value > t1 then t1
      else value
    }

    predicate Contains(value: real) {
      t0 <= value <= t1
    }
  }

  /** The `count` knot intervals that start at knot `first`: interval i runs
      from knot first + i to knot first + i + 1. */
  function KnotSpans(knots: seq<real>, first: nat, count: nat): (r: seq<Interval>)
    requires count == 0 || first + count < |knots|
    ensures |r| == count
    ensures forall i :: 0 <= i < count ==>
      r[i].t0 == knots[first + i] && r[i].t1 == knots[first + i + 1]
    ensures forall i :: 0 <= i < count - 1 ==> r[i].t1 == r[i + 1].t0
    ensures count > 0 ==> r[0].t0 == knots[first] && r[count - 1].t1 == knots[first + count]
  {
    seq(count, i requires 0 <= i < count => Interval(knots[first + i], knots[first + i + 1]))
  }
}
