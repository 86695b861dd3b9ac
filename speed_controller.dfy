/**
 The state side of the dynamic playback speed feature: the one mutable
 field `currentSpeed` and the two snippets that the patch inserts at the
 start of the player's gesture handlers, a long press (check enabled,
 compute, apply) and a release (check enabled, apply the auto speed).

 The three settings are read through a settings store that is not part of
 this model; their values at the moment a gesture fires are an input,
 `Settings`. The direction of a long press is an input as well.
 */
module SpeedController {
  import opened PlaybackSpeed

  /** The values the settings accessors return: the feature switch, the
      speed-up multiplier and the slow-down divider. */
  datatype Settings = Settings(enabled: bool, multiplier: real, divider: real)

  /** What the accessors return when nothing is stored. */
  const DefaultSettings: Settings := Settings(true, 2.0, 2.0)

  /** A gesture on the speed button, with the settings it sees. */
  datatype Gesture =
    | LongPress(settings: Settings, increase: bool)
    | Release(settings: Settings)

  /** The divider is read, and so must be nonzero, only by an enabled
      slow-down long press. */
  predicate Computable(g: Gesture) {
    g.LongPress? && g.settings.enabled && !g.increase ==> g.settings.divider != 0.0
  }

  /** The speed after one gesture: unchanged when the feature is off;
      otherwise a catalogue speed in bounds, the auto speed after a release. */
  function Step(current: real, g: Gesture): (r: real)
    requires Computable(g)
    ensures !g.settings.enabled ==> r == current
    ensures g.settings.enabled ==> r in AvailableSpeeds && Minimum <= r <= Maximum
    ensures g.Release? && g.settings.enabled ==> r == Auto
  {
    match g
    case LongPress(settings, increase) =>
      if settings.enabled then DynamicSpeed(current, increase, settings.multiplier, settings.divider)
      else current
    case Release(settings) =>
      CatalogShape();
      if settings.enabled then Auto else current
  }

  predicate AllComputable(gestures: seq<Gesture>) {
    forall i :: 0 <= i < |gestures| ==> Computable(gestures[i])
  }

  /** The speed after a sequence of gestures, handled one after another. */
  function Run(current: real, gestures: seq<Gesture>): (r: real)
    requires AllComputable(gestures)
    decreases |gestures|
  {
    if |gestures| == 0 then current
    else Run(Step(current, gestures[0]), gestures[1..])
  }

  /** With the settings' defaults, a speed-up from the auto speed doubles it,
      a slow-down from 2.0 halves it back, and a release returns to auto. */
  lemma DefaultSettingsExamples()
    ensures DefaultSettings.enabled
    ensures Step(Auto, LongPress(DefaultSettings, true)) == 2.0
    ensures Step(2.0, LongPress(DefaultSettings, false)) == Auto
    ensures Step(2.0, Release(DefaultSettings)) == Auto
  {
    var d := DefaultSettings;
    assert d.multiplier == 2.0 && d.divider == 2.0;
    assert Step(Auto, LongPress(d, true)) == DynamicSpeed(Auto, true, 2.0, 2.0);
    assert Step(2.0, LongPress(d, false)) == DynamicSpeed(2.0, false, 2.0, 2.0);
    SpeedUpFromAuto();
    SlowDownToAuto();
  }

  /** Running two sequences one after the other is running their concatenation. */
  lemma {:induction false} RunAppend(current: real, first: seq<Gesture>, second: seq<Gesture>)
    requires AllComputable(first) && AllComputable(second)
    ensures AllComputable(first + second)
    ensures Run(current, first + second) == Run(Run(current, first), second)
    decreases |first|
  {
    assert AllComputable(first + second) by {
      forall i | 0 <= i < |first + second|
        ensures Computable((first + second)[i])
      {
        if i < |first| {
          assert (first + second)[i] == first[i];
        } else {
          assert (first + second)[i] == second[i - |first|];
        }
      }
    }
    if |first| > 0 {
      assert (first + second)[1..] == first[1..] + second;
      RunAppend(Step(current, first[0]), first[1..], second);
    } else {
      assert first + second == second;
    }
  }

  /** One gesture keeps a catalogue speed in the catalogue and in bounds. */
  lemma StepKeepsInCatalogue(current: real, g: Gesture)
    requires Computable(g) && current in AvailableSpeeds
    ensures Step(current, g) in AvailableSpeeds
    ensures Minimum <= Step(current, g) <= Maximum
  {
    CatalogShape();
  }

  /** Any sequence of gestures keeps a catalogue speed in the catalogue and in bounds. */
  lemma {:induction false} RunKeepsInCatalogue(current: real, gestures: seq<Gesture>)
    requires AllComputable(gestures) && current in AvailableSpeeds
    ensures Run(current, gestures) in AvailableSpeeds
    ensures Minimum <= Run(current, gestures) <= Maximum
    decreases |gestures|
  {
    if |gestures| == 0 {
      CatalogShape();
    } else {
      StepKeepsInCatalogue(current, gestures[0]);
      RunKeepsInCatalogue(Step(current, gestures[0]), gestures[1..]);
    }
  }

  /** From the start-up speed on, every reachable speed is a catalogue entry
      within bounds, however many speed-ups or slow-downs come in a row. */
  lemma ReachableSpeedsInCatalogue(gestures: seq<Gesture>)
    requires AllComputable(gestures)
    ensures Run(Auto, gestures) in AvailableSpeeds
    ensures Minimum <= Run(Auto, gestures) <= Maximum
  {
    CatalogShape();
    RunKeepsInCatalogue(Auto, gestures);
  }

  /** With the feature switched off, no gesture changes the speed. */
  lemma {:induction false} DisabledRunIsNoOp(current: real, gestures: seq<Gesture>)
    requires forall i :: 0 <= i < |gestures| ==> !gestures[i].settings.enabled
    ensures AllComputable(gestures)
    ensures Run(current, gestures) == current
    decreases |gestures|
  {
    if |gestures| > 0 {
      DisabledRunIsNoOp(current, gestures[1..]);
    }
  }

  /** An enabled release goes to the auto speed, and a second release changes nothing. */
  lemma ReleaseIsIdempotent(current: real, settings: Settings)
    requires settings.enabled
    ensures Step(current, Release(settings)) == Auto
    ensures Step(Step(current, Release(settings)), Release(settings)) == Step(current, Release(settings))
  {
  }

  /** Whatever came before, an enabled release ends at the auto speed. */
  lemma ReleaseEndsAtAuto(current: real, gestures: seq<Gesture>, settings: Settings)
    requires AllComputable(gestures) && settings.enabled
    ensures AllComputable(gestures + [Release(settings)])
    ensures Run(current, gestures + [Release(settings)]) == Auto
  {
    RunAppend(current, gestures, [Release(settings)]);
  }

  /** Snapping a target at or above a catalogue speed gives no less than that speed. */
  lemma SnapNotBelow(c: real, t: real)
    requires c in AvailableSpeeds && c <= t
    ensures NearestAvailableSpeed(t) >= c
  {
    var r := NearestAvailableSpeed(t);
    assert Distance(r, t) <= Distance(c, t);
  }

  /** Snapping a target at or below a catalogue speed gives no more than that speed. */
  lemma SnapNotAbove(c: real, t: real)
    requires c in AvailableSpeeds && t <= c
    ensures NearestAvailableSpeed(t) <= c
  {
    var r := NearestAvailableSpeed(t);
    assert Distance(r, t) <= Distance(c, t);
  }

  /** Speeding up by a factor of at least 1 does not lower a non-negative speed. */
  lemma RawSpeedUpNotBelow(current: real, multiplier: real, divider: real)
    requires current >= 0.0 && multiplier >= 1.0
    ensures RawSpeed(current, true, multiplier, divider) >= current
  {
    assert RawSpeed(current, true, multiplier, divider) - current == current * (multiplier - 1.0);
  }

  /** Slowing down by a divider of at least 1 does not raise a non-negative speed. */
  lemma RawSlowDownNotAbove(current: real, multiplier: real, divider: real)
    requires current >= 0.0 && divider >= 1.0
    ensures RawSpeed(current, false, multiplier, divider) <= current
  {
    var factor := 1.0 / divider;
    assert factor * divider == 1.0;
    assert factor <= 1.0;
    assert current - RawSpeed(current, false, multiplier, divider) == current * (1.0 - factor);
  }

  /** With a multiplier of at least 1, a speed-up from a catalogue speed never
      gives a slower speed. */
  lemma SpeedUpNeverSlows(current: real, multiplier: real, divider: real)
    requires current in AvailableSpeeds && multiplier >= 1.0
    ensures DynamicSpeed(current, true, multiplier, divider) >= current
  {
    CatalogShape();
    RawSpeedUpNotBelow(current, multiplier, divider);
    SnapNotBelow(current, Clamp(RawSpeed(current, true, multiplier, divider)));
  }

  /** With a divider of at least 1, a slow-down from a catalogue speed never
      gives a faster speed. */
  lemma SlowDownNeverSpeeds(current: real, multiplier: real, divider: real)
    requires current in AvailableSpeeds && divider >= 1.0
    ensures DynamicSpeed(current, false, multiplier, divider) <= current
  {
    CatalogShape();
    RawSlowDownNotAbove(current, multiplier, divider);
    SnapNotAbove(current, Clamp(RawSpeed(current, false, multiplier, divider)));
  }

  /** The controller state kept by the patch: the current playback speed. */
  class Controller {
    var currentSpeed: real

    /** The speed is a catalogue entry. */
    predicate Valid()
      reads this
    {
      currentSpeed in AvailableSpeeds
    }

    /** Start-up: the auto speed. */
    constructor ()
      ensures currentSpeed == Auto
      ensures Valid()
    {
      currentSpeed := Auto;
    }

    /** Scales the current speed, clamps it into bounds and snaps it to the
        catalogue. Reads the state and does not change it. */
    method CalculateDynamicSpeed(increase: bool, multiplier: real, divider: real) returns (speed: real)
      requires increase || divider != 0.0
      ensures speed == DynamicSpeed(currentSpeed, increase, multiplier, divider)
    {
      var factor := if increase then multiplier else 1.0 / divider;
      var newSpeed := currentSpeed * factor;
      assert newSpeed == RawSpeed(currentSpeed, increase, multiplier, divider);
      ghost var raw := newSpeed;
      if newSpeed < Minimum {
        newSpeed := Minimum;
      }
      if newSpeed > Maximum {
        newSpeed := Maximum;
      }
      assert newSpeed == Clamp(raw);
      speed := FindNearestAvailableSpeed(newSpeed);
    }

    /** Stores the given speed; this is all the operation does. */
    method ApplyPlaybackSpeed(speed: real)
      modifies this
      ensures currentSpeed == speed
    {
      currentSpeed := speed;
    }

    /** The snippet inserted into the long-press handler: when enabled,
        compute and apply the next speed; when disabled, skip. */
    method OnSpeedButtonLongPress(settings: Settings, increase: bool)
      requires Computable(LongPress(settings, increase))
      modifies this
      ensures currentSpeed == Step(old(currentSpeed), LongPress(settings, increase))
      ensures settings.enabled ==> Valid() && Minimum <= currentSpeed <= Maximum
      ensures !settings.enabled ==> currentSpeed == old(currentSpeed)
      ensures old(Valid()) ==> Valid()
    {
      if !settings.enabled {
        return;
      }
      var speed := CalculateDynamicSpeed(increase, settings.multiplier, settings.divider);
      ApplyPlaybackSpeed(speed);
    }

    /** The snippet inserted into the release handler: when enabled, apply
        the auto speed; when disabled, skip. */
    method OnSpeedButtonRelease(settings: Settings)
      modifies this
      ensures currentSpeed == Step(old(currentSpeed), Release(settings))
      ensures settings.enabled ==> currentSpeed == Auto
      ensures !settings.enabled ==> currentSpeed == old(currentSpeed)
      ensures old(Valid()) ==> Valid()
    {
      if !settings.enabled {
        return;
      }
      CatalogShape();
      ApplyPlaybackSpeed(Auto);
    }
  }
}
