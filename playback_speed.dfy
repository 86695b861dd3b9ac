/**
 The value side of the dynamic playback speed feature: the speed bounds, the
 fixed catalogue of permitted speeds, clamping, and snapping a target speed to
 the nearest catalogue entry.

 Speeds are modelled as mathematical reals. Every catalogue entry and both
 bounds are dyadic rationals, so they are exact in a 32-bit float as well.
 */
module PlaybackSpeed {

  datatype Option<T> = None | Some(value: T)

  /** The "auto" speed: normal playback rate. */
  const Auto: real := 1.0
  /** Hard lower bound of a playback speed. */
  const Minimum: real := 0.0625
  /** Hard upper bound of a playback speed. */
  const Maximum: real := 8.0

  /** The permitted speeds, in ascending order. */
  const AvailableSpeeds: seq<real> :=
    [0.0625, 0.125, 0.25, 0.5, 0.75,
     1.0,
     1.25, 1.5, 1.75, 2.0, 2.25, 2.5, 3.0, 4.0, 5.0, 6.0, 7.0, 8.0]

  /** Each element is strictly greater than the one before it. */
  predicate StrictlyAscending(s: seq<real>) {
    forall i :: 0 < i < |s| ==> s[i - 1] < s[i]
  }

  /** In a strictly ascending sequence an earlier position holds a smaller value. */
  lemma {:induction false} AscendingPairwise(s: seq<real>, i: int, j: int)
    requires StrictlyAscending(s)
    requires 0 <= i < j < |s|
    ensures s[i] < s[j]
    decreases j - i
  {
    if i + 1 < j {
      AscendingPairwise(s, i, j - 1);
    }
  }

  /** A strictly ascending sequence lies between its first and its last element. */
  lemma AscendingBounds(s: seq<real>)
    requires StrictlyAscending(s) && |s| > 0
    ensures forall x :: x in s ==> s[0] <= x <= s[|s| - 1]
  {
    forall x | x in s
      ensures s[0] <= x <= s[|s| - 1]
    {
      var k :| 0 <= k < |s| && s[k] == x;
      if 0 < k { AscendingPairwise(s, 0, k); }
      if k < |s| - 1 { AscendingPairwise(s, k, |s| - 1); }
    }
  }

  /** The catalogue is a strictly ascending list of 18 speeds from Minimum to
      Maximum that contains the auto speed; hence every entry is in bounds. */
  lemma CatalogShape()
    ensures |AvailableSpeeds| == 18
    ensures StrictlyAscending(AvailableSpeeds)
    ensures AvailableSpeeds[0] == Minimum && AvailableSpeeds[17] == Maximum
    ensures Auto in AvailableSpeeds
    ensures forall x :: x in AvailableSpeeds ==> Minimum <= x <= Maximum
  {
    AscendingBounds(AvailableSpeeds);
  }

  /** The absolute difference |a - b|. */
  function Distance(a: real, b: real): (d: real)
    ensures d >= 0.0
    ensures d == a - b || d == b - a
    ensures d == 0.0 <==> a == b
  {
    if a >= b then a - b else b - a
  }

  /** Clamps a speed to [Minimum, Maximum]: first raised to Minimum if below it,
      then lowered to Maximum if above it. */
  function Clamp(v: real): (r: real)
    ensures Minimum <= r <= Maximum
    ensures Minimum <= v <= Maximum ==> r == v
    ensures v < Minimum ==> r == Minimum
    ensures v > Maximum ==> r == Maximum
  {
    var raised := if v < Minimum then Minimum else v;
    if raised > Maximum then Maximum else raised
  }

  /** k is the position of the first entry of s nearest to t: no entry is nearer,
      and every entry before k is strictly farther. */
  ghost predicate IsFirstNearest(s: seq<real>, t: real, k: int) {
    0 <= k < |s| &&
    (forall j :: 0 <= j < |s| ==> Distance(s[k], t) <= Distance(s[j], t)) &&
    (forall j :: 0 <= j < k ==> Distance(s[k], t) < Distance(s[j], t))
  }

  /** Two positions that are both the first nearest are the same position. */
  lemma FirstNearestUnique(s: seq<real>, t: real, k1: int, k2: int)
    requires IsFirstNearest(s, t, k1) && IsFirstNearest(s, t, k2)
    ensures k1 == k2
  {
    assert Distance(s[k1], t) <= Distance(s[k2], t) <= Distance(s[k1], t);
  }

  /** The position a left-to-right minimum-by scan over s ends on, with the key
      |entry - t|: a later entry replaces the best so far only when strictly nearer. */
  function FirstNearestIndex(s: seq<real>, t: real): (k: nat)
    requires |s| > 0
    ensures IsFirstNearest(s, t, k)
    decreases |s|
  {
    if |s| == 1 then 0
    else
      var best := FirstNearestIndex(s[..|s| - 1], t);
      if Distance(s[|s| - 1], t) < Distance(s[best], t) then |s| - 1 else best
  }

  /** Minimum-by over s with the key |entry - t|, or None when s is empty. */
  function MinByDistance(s: seq<real>, t: real): (r: Option<real>)
    ensures r.None? <==> |s| == 0
    ensures r.Some? ==> r.value in s
    ensures r.Some? ==> forall x :: x in s ==> Distance(r.value, t) <= Distance(x, t)
  {
    if |s| == 0 then None else Some(s[FirstNearestIndex(s, t)])
  }

  /** Among equally near entries of an ascending sequence, the first nearest is
      the smallest. */
  lemma FirstNearestIsSmallestTie(s: seq<real>, t: real)
    requires StrictlyAscending(s) && |s| > 0
    ensures forall j :: 0 <= j < |s| && Distance(s[j], t) == Distance(s[FirstNearestIndex(s, t)], t)
              ==> s[FirstNearestIndex(s, t)] <= s[j]
  {
    var k := FirstNearestIndex(s, t);
    forall j | 0 <= j < |s| && Distance(s[j], t) == Distance(s[k], t)
      ensures s[k] <= s[j]
    {
      if k < j { AscendingPairwise(s, k, j); }
    }
  }

  /** The catalogue entry nearest to t; of two equally near entries, the
      smaller. The fallback to Auto is the one for an empty catalogue, which
      never happens. */
  function NearestAvailableSpeed(t: real): (r: real)
    ensures r in AvailableSpeeds
    ensures forall x :: x in AvailableSpeeds ==> Distance(r, t) <= Distance(x, t)
    ensures forall x :: x in AvailableSpeeds && Distance(x, t) == Distance(r, t) ==> r <= x
    ensures t in AvailableSpeeds ==> r == t
    ensures MinByDistance(AvailableSpeeds, t).Some?
  {
    CatalogShape();
    FirstNearestIsSmallestTie(AvailableSpeeds, t);
    match MinByDistance(AvailableSpeeds, t)
    case Some(v) => v
    case None => Auto
  }

  /** The factor applied to the current speed: the speed-up multiplier, or one
      over the slow-down divider. The divider is read only when slowing down. */
  function SpeedFactor(increase: bool, multiplier: real, divider: real): (r: real)
    requires increase || divider != 0.0
    ensures increase ==> r == multiplier
    ensures !increase ==> r * divider == 1.0
  {
    if increase then multiplier else 1.0 / divider
  }

  /** The unclamped speed a long press computes from `current`. */
  function RawSpeed(current: real, increase: bool, multiplier: real, divider: real): (r: real)
    requires increase || divider != 0.0
    ensures increase ==> r == current * multiplier
    ensures !increase ==> r * divider == current
  {
    current * SpeedFactor(increase, multiplier, divider)
  }

  /** The speed a long press moves to from `current`: scaled, clamped, snapped.
      Whatever the multiplier or the nonzero divider, the result is a catalogue
      entry within the bounds, nearest to the clamped raw speed. */
  function DynamicSpeed(current: real, increase: bool, multiplier: real, divider: real): (r: real)
    requires increase || divider != 0.0
    ensures r in AvailableSpeeds
    ensures Minimum <= r <= Maximum
    ensures var target := Clamp(RawSpeed(current, increase, multiplier, divider));
      forall x :: x in AvailableSpeeds ==> Distance(r, target) <= Distance(x, target)
  {
    CatalogShape();
    NearestAvailableSpeed(Clamp(RawSpeed(current, increase, multiplier, divider)))
  }

  /** A clamped raw speed that is already a catalogue entry is the result. */
  lemma DynamicSpeedOnCatalogue(current: real, increase: bool, multiplier: real, divider: real)
    requires increase || divider != 0.0
    requires Clamp(RawSpeed(current, increase, multiplier, divider)) in AvailableSpeeds
    ensures DynamicSpeed(current, increase, multiplier, divider)
              == Clamp(RawSpeed(current, increase, multiplier, divider))
  {
    var target := Clamp(RawSpeed(current, increase, multiplier, divider));
    assert NearestAvailableSpeed(target) == target;
  }

  /** Worked example: from the maximum, doubling is clamped back to the maximum. */
  lemma SpeedUpAtCeiling()
    ensures RawSpeed(Maximum, true, 2.0, 2.0) == 16.0 && Clamp(16.0) == Maximum
    ensures DynamicSpeed(Maximum, true, 2.0, 2.0) == Maximum
  {
    assert AvailableSpeeds[17] == Maximum;
    DynamicSpeedOnCatalogue(Maximum, true, 2.0, 2.0);
  }

  /** Worked example: from the minimum, halving is clamped back to the minimum. */
  lemma SlowDownAtFloor()
    ensures RawSpeed(Minimum, false, 2.0, 2.0) == 0.03125 && Clamp(0.03125) == Minimum
    ensures DynamicSpeed(Minimum, false, 2.0, 2.0) == Minimum
  {
    assert AvailableSpeeds[0] == Minimum;
    DynamicSpeedOnCatalogue(Minimum, false, 2.0, 2.0);
  }

  /** Worked example: doubling the auto speed gives 2.0. */
  lemma SpeedUpFromAuto()
    ensures DynamicSpeed(Auto, true, 2.0, 2.0) == 2.0
  {
    assert AvailableSpeeds[9] == 2.0;
    DynamicSpeedOnCatalogue(Auto, true, 2.0, 2.0);
  }

  /** Worked example: halving 2.0 gives the auto speed. */
  lemma SlowDownToAuto()
    ensures DynamicSpeed(2.0, false, 2.0, 2.0) == Auto
  {
    assert AvailableSpeeds[5] == Auto;
    DynamicSpeedOnCatalogue(2.0, false, 2.0, 2.0);
  }

  /** Linear scan for the minimum-by-distance entry, keeping the first minimum. */
  method ScanMinByDistance(s: seq<real>, t: real) returns (r: Option<real>)
    ensures r == MinByDistance(s, t)
  {
    if |s| == 0 {
      return None;
    }
    var best := 0;
    var bestDistance := Distance(s[0], t);
    for i := 1 to |s|
      invariant best < i
      invariant best == FirstNearestIndex(s[..i], t)
      invariant bestDistance == Distance(s[best], t)
    {
      assert s[..i + 1][..i] == s[..i];
      var d := Distance(s[i], t);
      if d < bestDistance {
        best, bestDistance := i, d;
      }
    }
    assert s[..|s|] == s;
    return Some(s[best]);
  }

  /** Snaps a target speed to the catalogue, falling back to Auto if the scan
      found nothing. */
  method FindNearestAvailableSpeed(target: real) returns (r: real)
    ensures r == NearestAvailableSpeed(target)
  {
    var found := ScanMinByDistance(AvailableSpeeds, target);
    match found
    case Some(v) => r := v;
    case None => r := Auto;
  }
}
