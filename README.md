# Dynamic playback speed: a verified model of the speed controller

The "Dynamic playback speed" patch for the YouTube Android app aims to add one
gesture to the player's speed button: a long press that speeds playback up or
slows it down, and a release that goes back to the normal ("auto") speed. What
the code does is keep track of that speed, as described below. The patch
inserts a short snippet at the start of every method named
`onSpeedButtonLongPress` or `onSpeedButtonRelease`, in every class of the app
(lines 78-85). The controller's state sits in the patch's companion object
(lines 32-47): one mutable field, `currentSpeed`, which starts at the auto speed
1.0, and a fixed, ascending catalogue of 18 permitted speeds from 0.0625 to 8.0.
Its operations are private methods of the patch class (lines 125-152), which the
snippets call.

A long press first checks that the feature is enabled. If it is, the controller
scales the current speed by the speed-up multiplier, or by one over the
slow-down divider. It clamps the result to [0.0625, 8.0] and snaps it to the
nearest catalogue entry. The snap is Kotlin's `minByOrNull` over `|entry − target|`,
which keeps the first minimum, so on a tie the smaller entry wins. The result is
then stored as the new current speed. A release, if enabled, stores 1.0. When the
feature is disabled, both handlers skip and the state stays as it was.

The project has two modules:

- `PlaybackSpeed` (`playback_speed.dfy`) holds the values. It has the
  constants and the catalogue, `Clamp`, and the arg-min search. The search
  is a specification function `FirstNearestIndex` / `MinByDistance` plus a
  linear-scan method `ScanMinByDistance` proved equal to it. On top of these sit
  `NearestAvailableSpeed` and the long-press speed `DynamicSpeed`.
- `SpeedController` (`speed_controller.dfy`) holds the state. Class
  `Controller` has the field `currentSpeed` and the methods
  `CalculateDynamicSpeed`, `ApplyPlaybackSpeed` and the two injected handlers.
  The module also has a pure gesture semantics (`Step`, `Run`) that the handlers
  are proved against. Lemmas about it cover any sequence of gestures.

Speeds, the multiplier and the divider are Dafny `real`s. Every catalogue value
and both bounds are dyadic rationals, so they are exact in a 32-bit float.

The settings store is not part of this model. The values its three accessors
return become an input, `Settings(enabled, multiplier, divider)`.
`DefaultSettings` holds the accessors' defaults: true, 2.0 and 2.0. The direction
of a long press is a `bool` parameter.

The code never clamps the multiplier or the divider to a range: the accessors
(`CustomPlaybackSpeedPatch.kt:127-129`) pass the stored value straight to the
computation at line 132. A multiplier above 8, or a negative one, still gives a
speed in bounds, because the speed itself is clamped. The two handlers return
nothing; they only update `currentSpeed` (lines 100-103 and 117-120).
`applyPlaybackSpeed` only stores the speed (line 147); nothing in the code passes
it to the player (line 148). Both injected snippets end in `return-void` (lines
103 and 120), so the player's own handler body never runs after them, whether
the feature is enabled or not. The model therefore has nothing to leave out
there: the whole effect of a gesture is the new value of `currentSpeed`.

## Model

| member | source | states |
|---|---|---|
| `PlaybackSpeed.CatalogShape` | patches/src/main/kotlin/app/revanced/patches/youtube/video/speed/custom/CustomPlaybackSpeedPatch.kt:37-46 | The catalogue has 18 entries and is strictly ascending. It starts at the minimum 0.0625, ends at the maximum 8.0 and contains the auto speed 1.0. Every entry lies within the bounds. |
| `PlaybackSpeed.AscendingPairwise` | patches/src/main/kotlin/app/revanced/patches/youtube/video/speed/custom/CustomPlaybackSpeedPatch.kt:42-46 | In a strictly ascending list, an earlier position holds a strictly smaller value. This is what makes "first" mean "smaller" on a tie. |
| `PlaybackSpeed.AscendingBounds` | patches/src/main/kotlin/app/revanced/patches/youtube/video/speed/custom/CustomPlaybackSpeedPatch.kt:42-46 | Every element of a strictly ascending list lies between its first and its last element. |
| `PlaybackSpeed.Distance` | patches/src/main/kotlin/app/revanced/patches/youtube/video/speed/custom/CustomPlaybackSpeedPatch.kt:142 | The snapping key `Math.abs(it - target)` is non-negative, equals one of the two differences, and is zero exactly when the two speeds are equal. |
| `PlaybackSpeed.Clamp` | patches/src/main/kotlin/app/revanced/patches/youtube/video/speed/custom/CustomPlaybackSpeedPatch.kt:135-136 | The clamped speed is always within [0.0625, 8.0]. A speed already in range is unchanged, one below becomes 0.0625, and one above becomes 8.0. |
| `PlaybackSpeed.FirstNearestIndex` | patches/src/main/kotlin/app/revanced/patches/youtube/video/speed/custom/CustomPlaybackSpeedPatch.kt:142 | The left-to-right minimum-by scan, where a later entry replaces the best only when strictly nearer, ends on the first nearest position. No entry is nearer, and every earlier entry is strictly farther. |
| `PlaybackSpeed.FirstNearestUnique` | patches/src/main/kotlin/app/revanced/patches/youtube/video/speed/custom/CustomPlaybackSpeedPatch.kt:142 | "First nearest position" picks out a single position, so the scan's result is fully determined. |
| `PlaybackSpeed.MinByDistance` | patches/src/main/kotlin/app/revanced/patches/youtube/video/speed/custom/CustomPlaybackSpeedPatch.kt:142 | `minByOrNull` is null exactly on an empty list. Otherwise it returns an element no farther from the target than any other element. |
| `PlaybackSpeed.FirstNearestIsSmallestTie` | patches/src/main/kotlin/app/revanced/patches/youtube/video/speed/custom/CustomPlaybackSpeedPatch.kt:142 | On an ascending list, the first nearest entry is the smallest of all equally near entries. |
| `PlaybackSpeed.NearestAvailableSpeed` | patches/src/main/kotlin/app/revanced/patches/youtube/video/speed/custom/CustomPlaybackSpeedPatch.kt:141-143 | The snapped speed is a catalogue entry no farther from the target than any entry. On a tie it is the smaller entry. A target that is already an entry snaps to itself. The `?: PLAYBACK_SPEED_AUTO` fallback is never taken because the search over the catalogue is never null. |
| `PlaybackSpeed.ScanMinByDistance` | patches/src/main/kotlin/app/revanced/patches/youtube/video/speed/custom/CustomPlaybackSpeedPatch.kt:142 | The linear scan that keeps the first minimum returns exactly the minimum-by result, including `None` for an empty list. |
| `PlaybackSpeed.FindNearestAvailableSpeed` | patches/src/main/kotlin/app/revanced/patches/youtube/video/speed/custom/CustomPlaybackSpeedPatch.kt:141-143 | Snapping by scanning the catalogue, with the fallback to 1.0, gives the nearest catalogue speed described above. |
| `PlaybackSpeed.SpeedFactor` | patches/src/main/kotlin/app/revanced/patches/youtube/video/speed/custom/CustomPlaybackSpeedPatch.kt:132 | Defines the factor a long press applies. Speeding up, it is the multiplier. Slowing down, it is one over the divider, so the factor times the divider is 1. |
| `PlaybackSpeed.RawSpeed` | patches/src/main/kotlin/app/revanced/patches/youtube/video/speed/custom/CustomPlaybackSpeedPatch.kt:133 | Defines the unclamped speed, the current speed times the factor. Speeding up, it is current × multiplier. Slowing down, it times the divider gives back the current speed. |
| `PlaybackSpeed.DynamicSpeed` | patches/src/main/kotlin/app/revanced/patches/youtube/video/speed/custom/CustomPlaybackSpeedPatch.kt:131-139 | For any multiplier, and any divider that is nonzero when slowing down, the long-press speed is a catalogue entry within [0.0625, 8.0]. It is the entry nearest to the clamped raw speed. |
| `PlaybackSpeed.DynamicSpeedOnCatalogue` | patches/src/main/kotlin/app/revanced/patches/youtube/video/speed/custom/CustomPlaybackSpeedPatch.kt:135-138 | When the clamped raw speed is already a catalogue entry, that entry is the result. |
| `PlaybackSpeed.SpeedUpAtCeiling` | patches/src/main/kotlin/app/revanced/patches/youtube/video/speed/custom/CustomPlaybackSpeedPatch.kt:132-138 | Doubling 8.0 gives a raw 16.0, which the clamp lowers to 8.0; the result is 8.0. |
| `PlaybackSpeed.SlowDownAtFloor` | patches/src/main/kotlin/app/revanced/patches/youtube/video/speed/custom/CustomPlaybackSpeedPatch.kt:132-138 | Halving 0.0625 gives a raw 0.03125, which the clamp raises to 0.0625; the result is 0.0625. |
| `PlaybackSpeed.SpeedUpFromAuto` | patches/src/main/kotlin/app/revanced/patches/youtube/video/speed/custom/CustomPlaybackSpeedPatch.kt:132-138 | With the default multiplier 2.0, a speed-up from 1.0 gives 2.0. |
| `PlaybackSpeed.SlowDownToAuto` | patches/src/main/kotlin/app/revanced/patches/youtube/video/speed/custom/CustomPlaybackSpeedPatch.kt:132-138 | With the default divider 2.0, a slow-down from 2.0 gives 1.0. |
| `SpeedController.DefaultSettingsExamples` | patches/src/main/kotlin/app/revanced/patches/youtube/video/speed/custom/CustomPlaybackSpeedPatch.kt:125-129 | With the accessors' defaults (enabled, multiplier 2.0, divider 2.0), a speed-up from 1.0 gives 2.0, a slow-down from 2.0 gives 1.0, and a release gives 1.0. |
| `SpeedController.Step` | patches/src/main/kotlin/app/revanced/patches/youtube/video/speed/custom/CustomPlaybackSpeedPatch.kt:92-120 | Defines the injected flows for one gesture. A disabled gesture skips and leaves the speed unchanged (lines 94 and 114). An enabled long press computes and applies the next speed, and an enabled release applies 1.0. Either way an enabled gesture leaves a catalogue speed within bounds. |
| `SpeedController.Controller.constructor` | patches/src/main/kotlin/app/revanced/patches/youtube/video/speed/custom/CustomPlaybackSpeedPatch.kt:37-41 | At start-up the current speed is the auto speed 1.0, which is a catalogue entry. |
| `SpeedController.Controller.CalculateDynamicSpeed` | patches/src/main/kotlin/app/revanced/patches/youtube/video/speed/custom/CustomPlaybackSpeedPatch.kt:131-139 | The step-by-step computation returns the long-press speed `DynamicSpeed` of the current speed: factor, product, two conditional clamps, then snap. It has no `modifies` clause, so it reads `currentSpeed` without changing it. |
| `SpeedController.Controller.ApplyPlaybackSpeed` | patches/src/main/kotlin/app/revanced/patches/youtube/video/speed/custom/CustomPlaybackSpeedPatch.kt:145-152 | The current speed becomes exactly the given speed. |
| `SpeedController.Controller.OnSpeedButtonLongPress` | patches/src/main/kotlin/app/revanced/patches/youtube/video/speed/custom/CustomPlaybackSpeedPatch.kt:92-103 | The new speed is `Step` of the old one for this long press. When enabled, the speed is computed and applied, and lands in the catalogue within bounds. When disabled, the speed is unchanged. The handler keeps the catalogue invariant. |
| `SpeedController.Controller.OnSpeedButtonRelease` | patches/src/main/kotlin/app/revanced/patches/youtube/video/speed/custom/CustomPlaybackSpeedPatch.kt:112-120 | The new speed is `Step` of the old one for this release. When enabled it is 1.0; when disabled it is unchanged. The handler keeps the catalogue invariant. |
| `SpeedController.RunAppend` | patches/src/main/kotlin/app/revanced/patches/youtube/video/speed/custom/CustomPlaybackSpeedPatch.kt:92-120 | Handling two gesture sequences one after the other is the same as handling their concatenation. |
| `SpeedController.StepKeepsInCatalogue` | patches/src/main/kotlin/app/revanced/patches/youtube/video/speed/custom/CustomPlaybackSpeedPatch.kt:92-120 | Any single gesture, enabled or not, takes a catalogue speed to a catalogue speed within bounds. |
| `SpeedController.RunKeepsInCatalogue` | patches/src/main/kotlin/app/revanced/patches/youtube/video/speed/custom/CustomPlaybackSpeedPatch.kt:92-120 | Any sequence of long presses and releases keeps a catalogue speed in the catalogue and within [0.0625, 8.0]. |
| `SpeedController.ReachableSpeedsInCatalogue` | patches/src/main/kotlin/app/revanced/patches/youtube/video/speed/custom/CustomPlaybackSpeedPatch.kt:41 | From the initial speed 1.0, every speed reachable by gestures is a catalogue entry within bounds. However many speed-ups come in a row the speed never exceeds 8.0, and however many slow-downs it never falls below 0.0625. |
| `SpeedController.DisabledRunIsNoOp` | patches/src/main/kotlin/app/revanced/patches/youtube/video/speed/custom/CustomPlaybackSpeedPatch.kt:94-114 | With the feature disabled, no sequence of gestures changes the speed, and all of them can be handled whatever the divider. |
| `SpeedController.ReleaseIsIdempotent` | patches/src/main/kotlin/app/revanced/patches/youtube/video/speed/custom/CustomPlaybackSpeedPatch.kt:112-119 | An enabled release sets the speed to 1.0, and a second release leaves it there. |
| `SpeedController.ReleaseEndsAtAuto` | patches/src/main/kotlin/app/revanced/patches/youtube/video/speed/custom/CustomPlaybackSpeedPatch.kt:112-119 | Whatever gestures came before, an enabled release ends at 1.0. |
| `SpeedController.SnapNotBelow` | patches/src/main/kotlin/app/revanced/patches/youtube/video/speed/custom/CustomPlaybackSpeedPatch.kt:142 | Snapping a target at or above a catalogue speed never gives less than that speed. |
| `SpeedController.SnapNotAbove` | patches/src/main/kotlin/app/revanced/patches/youtube/video/speed/custom/CustomPlaybackSpeedPatch.kt:142 | Snapping a target at or below a catalogue speed never gives more than that speed. |
| `SpeedController.RawSpeedUpNotBelow` | patches/src/main/kotlin/app/revanced/patches/youtube/video/speed/custom/CustomPlaybackSpeedPatch.kt:132-133 | Multiplying a non-negative speed by a multiplier of at least 1 does not lower it. |
| `SpeedController.RawSlowDownNotAbove` | patches/src/main/kotlin/app/revanced/patches/youtube/video/speed/custom/CustomPlaybackSpeedPatch.kt:132-133 | Multiplying a non-negative speed by one over a divider of at least 1 does not raise it. |
| `SpeedController.SpeedUpNeverSlows` | patches/src/main/kotlin/app/revanced/patches/youtube/video/speed/custom/CustomPlaybackSpeedPatch.kt:131-139 | With a multiplier of at least 1, a speed-up from a catalogue speed never gives a slower speed. |
| `SpeedController.SlowDownNeverSpeeds` | patches/src/main/kotlin/app/revanced/patches/youtube/video/speed/custom/CustomPlaybackSpeedPatch.kt:131-139 | With a divider of at least 1, a slow-down from a catalogue speed never gives a faster speed. |

## Left out

- Registering the three preferences in `execute` (lines 49-75) is settings-UI plumbing of the host framework. So is walking the app's classes by method name (lines 78-85). The multiplier and divider preferences are declared as switch preferences with float defaults; nothing here depends on that.
- Splicing the instructions into the player's methods (`addInstructions` and the literal smali text, lines 88-123) is left out. Only the control flow that text encodes is modelled. The injected long-press code reads a field `isSpeedUp` that the patch class does not declare. The model takes the direction as a parameter instead.
- The snippets call `isEnabled`, `calculateDynamicSpeed` and `applyPlaybackSpeed` with `invoke-static` (lines 92, 97, 100, 112 and 117), although these are private instance methods of the patch class (lines 125-152), not static members of its companion object. The model takes the calls as the intended control flow: check enabled, then compute and apply.
- The settings store (`SettingsPatch.getBooleanSetting` / `getFloatSetting`, lines 125-129) is a foreign call. Its results are the `Settings` input, and its defaults are `DefaultSettings`.
- Float rounding and special values (NaN, infinities) are not modelled: speeds are exact reals. This covers the rounding of the product `currentSpeed * multiplier` in 32-bit float and `Math.abs` on floats. A NaN multiplier or divider would pass both clamps and snap to 0.0625. A divider of ±infinity would give a factor of 0, which no real divider gives.
- The `try/catch` in `applyPlaybackSpeed` (lines 146-151) is left out. Nothing inside it can throw, so the model's assignment is unconditional.
- A divider of zero on a slow-down is excluded by a precondition. Over the reals `1 / 0` has no meaning, whereas 32-bit float arithmetic gives ±infinity there (for a divider of +0 or −0), which the clamp turns into 8.0 or 0.0625.
- Concurrent calls from several threads are not modelled; handlers run one after another.
- The gesture fingerprints in `Fingerprints.kt` are declarative patterns for the host's matcher and contain no logic of their own.
