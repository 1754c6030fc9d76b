# Selected-index value accessor

A Dafny model of `SelectedIndexValueAccessor` from nativescript-angular: the
adapter that lets Angular's `ngModel` drive the `selectedIndex` of a
SegmentedBar, ListPicker or TabView.

The accessor does two things, and the model follows that split.

- **Normalisation** (`ModelValue`, `JsMath`). `writeValue` turns any bound
  value into an integer index. A blank value (`null` or `undefined`) becomes 0.
  A number is kept. Anything else goes through `parseInt`, and NaN becomes 0.
  The result is then passed to `Math.round`, which rounds ties toward
  +infinity (ECMA-262 6th edition, section 20.2.2.28).
- **Lifecycle gating** (`SelectedIndexAccessor`). `writeValue` always stores the
  normalised value. It writes that value to the view only once
  `viewInitialized` is set. `ngAfterViewInit` sets the flag and catches up by
  writing the stored value. `registerOnTouched` replaces the touched callback.

The accessor is modelled as an immutable `State` record with pure transition
functions, one per method. `Run` applies a sequence of calls. The lemmas show:

- every reachable state is `Coherent`: the accessor assigns nothing to the
  view's `selectedIndex` before initialisation, and after it the value it
  last assigned is the stored value;
- the stored value is always the normalisation of the latest write;
- the catch-up write on initialisation carries the latest write only;
- the flag never goes back to false;
- repeated calls are idempotent;
- a write and the ready hook commute.

Design choices:

- `parseInt` (ECMA-262 6th edition, section 18.2.5) is a parameter
  `parse: string -> Option<int>`, where `None` stands for NaN. Its own
  semantics are not modelled.
- Numbers are mathematical reals, and `Math.round(x)` is `(x + 0.5).Floor`.
- A value that is neither blank, nor a number, nor a string is `Other(text)`.
  `text` is the string that `parseInt`'s ToString coercion yields for it.
- The view's `selectedIndex` is `Untouched` until the accessor assigns it.
  After that it is `Assigned(i)`. `i` is `None` when the view initialises
  before any write, because the source then assigns `undefined`.
- The touched callback is a token: `NoOp` (the default) or `Fn(id)`.

The code does not clamp the index to be non-negative: a number below -1/2
gives a negative index (`NormalizeNegative`).

## Model

| member | source | states |
|---|---|---|
| JsMath.Round | src/nativescript-angular/value-accessors/selectedIndex-value-accessor.ts:47 | `Math.round(x)` is the unique integer in `(x - 1/2, x + 1/2]` |
| JsMath.RoundCharacterisation | src/nativescript-angular/value-accessors/selectedIndex-value-accessor.ts:47 | an integer is `Math.round(x)` if and only if it lies in `(x - 1/2, x + 1/2]` |
| JsMath.RoundIsNearest | src/nativescript-angular/value-accessors/selectedIndex-value-accessor.ts:47 | no integer is closer to `x` than `Math.round(x)`, and ties go to the larger neighbour |
| JsMath.RoundOfInteger | src/nativescript-angular/value-accessors/selectedIndex-value-accessor.ts:43-47 | rounding an integer (such as a parsed value) leaves it unchanged |
| JsMath.RoundMonotone | src/nativescript-angular/value-accessors/selectedIndex-value-accessor.ts:47 | a larger input never rounds to a smaller index |
| JsMath.RoundExamples | src/nativescript-angular/value-accessors/selectedIndex-value-accessor.ts:47 | 2.6 rounds to 3, 2.4 to 2, 2.5 to 3, -2.5 to -2, -0.4 to 0 |
| ModelValue.Unrounded | src/nativescript-angular/value-accessors/selectedIndex-value-accessor.ts:36-46 | every value that is not a number is already an integer before rounding (0 for blank values, the parsed integer or 0 on NaN), so `Math.round` only changes numbers |
| ModelValue.Normalize | src/nativescript-angular/value-accessors/selectedIndex-value-accessor.ts:36-47 | blank values give 0; a number gives its nearest integer with ties up; text gives its parsed integer, or 0 on NaN |
| ModelValue.NormalizeNumber | src/nativescript-angular/value-accessors/selectedIndex-value-accessor.ts:40-47 | a number normalises to exactly `Math.round` of it |
| ModelValue.NormalizeInteger | src/nativescript-angular/value-accessors/selectedIndex-value-accessor.ts:40-47 | an integral number passes through unchanged |
| ModelValue.NormalizeTextZero | src/nativescript-angular/value-accessors/selectedIndex-value-accessor.ts:42-45 | a non-numeric value gives 0 if and only if it parses to NaN or to 0 |
| ModelValue.NormalizeNegative | src/nativescript-angular/value-accessors/selectedIndex-value-accessor.ts:40-47 | the index is not clamped: a number gives a negative index if and only if it is below -1/2 |
| SelectedIndexAccessor.Init | src/nativescript-angular/value-accessors/selectedIndex-value-accessor.ts:26-33 | a new accessor has no stored value, the flag unset, the view untouched and the no-op callback |
| SelectedIndexAccessor.WriteValue | src/nativescript-angular/value-accessors/selectedIndex-value-accessor.ts:35-51 | stores the normalised value; writes it to the view if initialised, else leaves the view alone; the flag and callback are unchanged |
| SelectedIndexAccessor.AfterViewInit | src/nativescript-angular/value-accessors/selectedIndex-value-accessor.ts:53-56 | sets the flag and writes the stored value (possibly undefined) to the view |
| SelectedIndexAccessor.RegisterOnTouched | src/nativescript-angular/value-accessors/selectedIndex-value-accessor.ts:58 | replaces the callback and leaves the stored value, the flag and the view unchanged |
| SelectedIndexAccessor.Run | src/nativescript-angular/value-accessors/selectedIndex-value-accessor.ts:33-56 | after a run the flag is set if and only if it was set before or the ready hook fired |
| SelectedIndexAccessor.StepPreservesCoherent | src/nativescript-angular/value-accessors/selectedIndex-value-accessor.ts:47-55 | each call keeps the accessor's last assignment to `selectedIndex` equal to the stored value once initialised, and keeps it unassigned before |
| SelectedIndexAccessor.RunPreservesCoherent | src/nativescript-angular/value-accessors/selectedIndex-value-accessor.ts:35-56 | every run from a coherent state ends in a coherent state |
| SelectedIndexAccessor.StoredIsLatestWrite | src/nativescript-angular/value-accessors/selectedIndex-value-accessor.ts:47 | after a run the stored value is the normalisation of the latest write, or the earlier value if there was no write |
| SelectedIndexAccessor.DeferredWritesLeaveView | src/nativescript-angular/value-accessors/selectedIndex-value-accessor.ts:48-50 | before initialisation, writes and callback registrations never touch the view |
| SelectedIndexAccessor.CatchUpAppliesLatestWrite | src/nativescript-angular/value-accessors/selectedIndex-value-accessor.ts:53-55 | the catch-up write assigns the normalised latest prior write, or undefined if there was none |
| SelectedIndexAccessor.ReadyAssignsLatestWrite | src/nativescript-angular/value-accessors/selectedIndex-value-accessor.ts:47-55 | once initialised, the value the accessor last assigned to `selectedIndex` is the normalisation of the latest write so far, or undefined if there was none |
| SelectedIndexAccessor.ViewTouchedIffReady | src/nativescript-angular/value-accessors/selectedIndex-value-accessor.ts:48-55 | from a new accessor, the view is touched if and only if the ready hook has fired |
| SelectedIndexAccessor.InitializedStaysSet | src/nativescript-angular/value-accessors/selectedIndex-value-accessor.ts:33-56 | once the flag is set, no sequence of calls unsets it |
| SelectedIndexAccessor.StepIdempotent | src/nativescript-angular/value-accessors/selectedIndex-value-accessor.ts:35-58 | making any call twice in a row has the same effect as making it once |
| SelectedIndexAccessor.WriteAndReadyCommute | src/nativescript-angular/value-accessors/selectedIndex-value-accessor.ts:35-56 | a write and the ready hook give the same state in either order, with the normalised written value assigned to the view |
| SelectedIndexAccessor.ExampleRuns | src/nativescript-angular/value-accessors/selectedIndex-value-accessor.ts:35-56 | writing 5 before ready assigns 5; a number written after ready assigns its rounding; null and undefined assign 0 |

## Left out

- Directive metadata, the selector, the `NG_VALUE_ACCESSOR` provider and `ElementRef` resolution (lines 1-24 and 28-30): framework wiring with no logic.
- User-driven changes to `selectedIndex` made through the control itself are not modelled: `view` records only the accessor's own assignments, so after such a change the control's index may differ from the stored value.
- The host binding `(selectedIndexChange) -> onChange($event.value)` (line 22): `onChange` lives in `BaseValueAccessor`, and base-value-accessor.ts is not part of this model.
- `parseInt` internals (whitespace, sign, the "0x" radix prefix) and the ToString coercion of objects, which may throw: `parseInt` is a parameter and coerced values are given as their string.
- ModelValue.Normalize: numbers are reals, so NaN, the infinities, -0 and floating-point precision are not modelled (for example, `Math.round(NaN)` is NaN in the source).
- The view's own property system, rendering, and any lifecycle beyond the one initialisation hook (there is no teardown, so the flag is never reset).
