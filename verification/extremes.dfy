/**
 The single-pass scan shared by tarkka_highest.js (direction Descending)
 and tarkka_lowest.js (direction Ascending). The running value starts at
 the sentinel -1, meaning "nothing seen yet"; a value at least as
 extreme as the running one replaces the hour list with the current
 index, so ties leave only the last hour.

 `Fold` is the loop as written, sentinel included. `FixedFold` is the
 scan with "nothing seen yet" decided by the index instead of by the
 value -1; the two agree on every day without a price of exactly -1.
 */
module Extremes {
  import opened Common

  /** The initial running value of both scripts. */
  const Sentinel: real := -1.0

  datatype ScanState = ScanState(value: real, hours: seq<nat>)

  const Start: ScanState := ScanState(Sentinel, [])

  /** One iteration of the loop body at index `i` with price `val`. */
  function Step(o: Order, st: ScanState, i: nat, val: real): ScanState {
    if st.value == Sentinel then ScanState(val, st.hours + [i])
    else if Beats(o, st.value, val) then st
    else ScanState(val, [i])
  }

  /** The loop run over the whole of `data`. */
  function Fold(o: Order, data: seq<real>): ScanState {
    if data == [] then Start
    else Step(o, Fold(o, data[..|data| - 1]), |data| - 1, data[|data| - 1])
  }

  /** The loop body with the first index, not the value -1, starting the scan. */
  function FixedStep(o: Order, st: ScanState, i: nat, val: real): ScanState {
    if i == 0 then ScanState(val, [i])
    else if Beats(o, st.value, val) then st
    else ScanState(val, [i])
  }

  function FixedFold(o: Order, data: seq<real>): ScanState {
    if data == [] then Start
    else FixedStep(o, FixedFold(o, data[..|data| - 1]), |data| - 1, data[|data| - 1])
  }

  predicate NoSentinel(data: seq<real>) {
    forall i :: 0 <= i < |data| ==> data[i] != Sentinel
  }

  /**
   `k` is the last index of `data` holding its most extreme price in
   direction `o`: nothing beats it, and everything after it is beaten.
   */
  predicate LastExtremeHour(o: Order, data: seq<real>, k: nat) {
    && k < |data|
    && (forall j :: 0 <= j < |data| ==> Reaches(o, data[k], data[j]))
    && (forall j :: k < j < |data| ==> Beats(o, data[k], data[j]))
  }

  /** The corrected scan reports one hour, the last one holding the extreme price. */
  lemma {:induction false} FixedFoldFindsLastExtreme(o: Order, data: seq<real>)
    requires data != []
    ensures var st := FixedFold(o, data);
      |st.hours| == 1 && LastExtremeHour(o, data, st.hours[0]) && st.value == data[st.hours[0]]
  {
    var n := |data| - 1;
    var p := data[..n];
    if p != [] {
      FixedFoldFindsLastExtreme(o, p);
      var k := FixedFold(o, p).hours[0];
      assert forall j :: 0 <= j < n ==> p[j] == data[j];
    }
  }

  /** Without a price of exactly -1 the loop as written equals the corrected scan. */
  lemma {:induction false} FoldAgreesWithoutSentinel(o: Order, data: seq<real>)
    requires NoSentinel(data)
    ensures Fold(o, data) == FixedFold(o, data)
  {
    if data != [] {
      var n := |data| - 1;
      var p := data[..n];
      assert NoSentinel(p) by {
        assert forall j :: 0 <= j < n ==> p[j] == data[j];
      }
      FoldAgreesWithoutSentinel(o, p);
      if p != [] {
        FixedFoldFindsLastExtreme(o, p);
        assert Fold(o, p).value == data[Fold(o, p).hours[0]];
      }
    }
  }

  /** The quirk: while the running value is -1 every price is appended without clearing. */
  lemma SentinelAppends(o: Order, data: seq<real>, val: real)
    requires Fold(o, data).value == Sentinel
    ensures Fold(o, data + [val]) == ScanState(val, Fold(o, data).hours + [|data|])
  {
  }

  /** A day whose highest price is -1 is reported with the value -5 and two hours. */
  lemma HighestMisreportsNegativeDay()
    ensures Fold(Descending, [-3.0, -1.0, -5.0]) == ScanState(-5.0, [1, 2])
    ensures FixedFold(Descending, [-3.0, -1.0, -5.0]) == ScanState(-1.0, [1])
  {
    var d: seq<real> := [-3.0, -1.0, -5.0];
    assert d[..2] == [-3.0, -1.0];
    assert d[..2][..1] == [-3.0];
    assert d[..2][..1][..0] == [];
    assert Fold(Descending, [-3.0]) == ScanState(-3.0, [0]);
    assert Fold(Descending, [-3.0, -1.0]) == ScanState(-1.0, [1]);
    assert FixedFold(Descending, [-3.0]) == ScanState(-3.0, [0]);
    assert FixedFold(Descending, [-3.0, -1.0]) == ScanState(-1.0, [1]);
  }

  /** A day whose lowest price is -1 is reported with the value 2 and two hours. */
  lemma LowestMisreportsNegativeDay()
    ensures Fold(Ascending, [-0.5, -1.0, 2.0]) == ScanState(2.0, [1, 2])
    ensures FixedFold(Ascending, [-0.5, -1.0, 2.0]) == ScanState(-1.0, [1])
  {
    var d: seq<real> := [-0.5, -1.0, 2.0];
    assert d[..2] == [-0.5, -1.0];
    assert d[..2][..1] == [-0.5];
    assert d[..2][..1][..0] == [];
    assert Fold(Ascending, [-0.5]) == ScanState(-0.5, [0]);
    assert Fold(Ascending, [-0.5, -1.0]) == ScanState(-1.0, [1]);
    assert FixedFold(Ascending, [-0.5]) == ScanState(-0.5, [0]);
    assert FixedFold(Ascending, [-0.5, -1.0]) == ScanState(-1.0, [1]);
  }

  /**
   The loop of both scripts over `data`. On an empty day it reports -1
   and no hours; on a day without a price of -1 it reports the extreme
   price and the last hour holding it.
   */
  method Scan(o: Order, data: seq<real>) returns (value: real, hours: seq<nat>)
    ensures ScanState(value, hours) == Fold(o, data)
    ensures data == [] ==> value == -1.0 && hours == []
    ensures data != [] && NoSentinel(data) ==>
      |hours| == 1 && LastExtremeHour(o, data, hours[0]) && value == data[hours[0]]
  {
    value := Sentinel;
    hours := [];
    var i := 0;
    while i < |data|
      invariant 0 <= i <= |data|
      invariant ScanState(value, hours) == Fold(o, data[..i])
    {
      var val := data[i];
      assert data[..i + 1][..i] == data[..i];
      if value == Sentinel {
        value := val;
        hours := hours + [i];
      } else if Beats(o, value, val) {
      } else {
        hours := [];
        value := val;
        hours := hours + [i];
      }
      i := i + 1;
    }
    assert data[..i] == data;
    if data != [] && NoSentinel(data) {
      FoldAgreesWithoutSentinel(o, data);
      FixedFoldFindsLastExtreme(o, data);
    }
  }
}
