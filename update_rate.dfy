/** Choice of the update rate the master is configured with: the supported
    rate closest to the desired one (xdamtwreceive.py, find_closest_update_rate). */
module UpdateRate {

  function Distance(x: int, desired: int): nat
  {
    if x >= desired then x - desired else desired - x
  }

  /** Index of the first element of `rates` at minimal distance from
      `desired`: a left-to-right scan that replaces the current best only by a
      strictly closer element, which is how Python's `min(..., key=...)`
      breaks ties. */
  function FirstClosestIndex(rates: seq<int>, desired: int): (k: nat)
    requires |rates| > 0
    ensures k < |rates|
    ensures forall j :: 0 <= j < |rates| ==> Distance(rates[k], desired) <= Distance(rates[j], desired)
    ensures forall j :: 0 <= j < k ==> Distance(rates[k], desired) < Distance(rates[j], desired)
  {
    if |rates| == 1 then 0
    else
      var best := FirstClosestIndex(rates[..|rates| - 1], desired);
      var last := |rates| - 1;
      if Distance(rates[last], desired) < Distance(rates[best], desired) then last else best
  }

  /** The rate the master is set to: 0 when nothing is supported, the only
      rate when there is one, else the first closest rate. */
  function ClosestUpdateRate(rates: seq<int>, desired: int): (r: int)
    ensures rates == [] ==> r == 0
    ensures |rates| == 1 ==> r == rates[0]
    ensures rates != [] ==> r in rates
    ensures forall x :: x in rates ==> Distance(r, desired) <= Distance(x, desired)
    ensures rates != [] ==>
      exists k :: 0 <= k < |rates| && rates[k] == r &&
        forall j :: 0 <= j < k ==> Distance(rates[j], desired) > Distance(r, desired)
  {
    if rates == [] then 0
    else if |rates| == 1 then rates[0]
    else rates[FirstClosestIndex(rates, desired)]
  }

  /** The contract of ClosestUpdateRate pins the result down: any rate that is
      a member, is no farther than every member, and is preceded only by
      strictly farther members, is the one the function returns. */
  lemma ClosestUpdateRateIsUnique(rates: seq<int>, desired: int, k: nat)
    requires k < |rates|
    requires forall j :: 0 <= j < |rates| ==> Distance(rates[k], desired) <= Distance(rates[j], desired)
    requires forall j :: 0 <= j < k ==> Distance(rates[j], desired) > Distance(rates[k], desired)
    ensures ClosestUpdateRate(rates, desired) == rates[k]
  {
    var r := ClosestUpdateRate(rates, desired);
    var m :| 0 <= m < |rates| && rates[m] == r &&
      forall j :: 0 <= j < m ==> Distance(rates[j], desired) > Distance(r, desired);
    assert Distance(r, desired) <= Distance(rates[k], desired) by {
      assert rates[k] in rates;
    }
    assert m == k;
  }

  /** Supported rates 50, 60 and 120 with 75 desired give 60. */
  lemma ClosestUpdateRateExample()
    ensures ClosestUpdateRate([50, 60, 120], 75) == 60
  {
    ClosestUpdateRateIsUnique([50, 60, 120], 75, 1);
  }
}
