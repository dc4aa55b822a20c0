# Digital clock: display rule and state, in Dafny

This project models the core of a single React component,
`DigitalClockComponent`, which shows the current time as `HH:MM:SS` on a
card and offers two buttons that switch between 24-hour and 12-hour display.

- `ClockFormat.dfy` (module `ClockFormat`) models the `formattedTime`
  computation as pure functions. It covers `Number.prototype.toString` on
  non-negative integers (`DecimalString`), `String.prototype.padStart` with
  a one-character fill (`PadStart`), the 12-hour rule `hour % 12 || 12`
  (`Hour12`, with JavaScript's numeric `||` as `JsOr`), and the joined
  string (`FormatTime`). A reader `ParseClock` takes an `HH:MM:SS` string
  back to its three numbers. It is the partner the round-trip lemmas use.
- `Clock.dfy` (module `DigitalClock`) models the component's state as the
  class `Clock`, with the fields `time`, `is24Hour` and `mounted`. Its
  methods are the four events that change the state: the mount effect, a
  timer tick, and the two button clicks. The module also has the buttons'
  variant rule (`"default"` for the active mode, `"outline"` for the other).

A `Date` becomes the datatype `Time`, whose fields are the hour (0..23), the
minute (0..59) and the second (0..59). These are the values `getHours`,
`getMinutes` and `getSeconds` return. The wall clock is not read: the
creation time and each tick's time are parameters.

## Model

| member | source | states |
|---|---|---|
| `ClockFormat.DecimalString` | components/ui/digital-clock.tsx:30-33 | `toString()` of a non-negative integer is a non-empty string of decimal digits with no leading zero. It has one digit exactly when the number is below 10, and it reads back as the number. |
| `ClockFormat.PadStart` | components/ui/digital-clock.tsx:30-33 | `padStart(width, fill)` gives a result whose length is the larger of the length of `s` and `width`. |
| `ClockFormat.PadStartContents` | components/ui/digital-clock.tsx:30-33 | `padStart` puts only fill characters before `s` and keeps `s` unchanged as the suffix. |
| `ClockFormat.Pad2` | components/ui/digital-clock.tsx:30-33 | `n.toString().padStart(2, "0")` for `n < 100` is the tens digit followed by the units digit: `"05"` for 5, `"23"` for 23. |
| `ClockFormat.Pad2RoundTrip` | components/ui/digital-clock.tsx:30-33 | For `n < 100` the padded field has two digits and reads back as `n`. |
| `ClockFormat.JsOr` | components/ui/digital-clock.tsx:31 | JavaScript's numeric `or`: the first operand unless it is the falsy value 0, in which case the second. |
| `ClockFormat.Hour12` | components/ui/digital-clock.tsx:31 | The 12-hour rule (hour % 12, or 12 when that is 0) gives the one number in 1..12 that is congruent to the hour modulo 12. |
| `ClockFormat.Hour12SameIff` | components/ui/digital-clock.tsx:31 | Two hours show the same 12-hour value if and only if they agree modulo 12. |
| `ClockFormat.Hour12Rendering` | components/ui/digital-clock.tsx:31 | Hours 0 and 12 render as `"12"` in 12-hour mode, and hour 13 renders as `"01"`. |
| `ClockFormat.DisplayHour` | components/ui/digital-clock.tsx:29-31 | The shown hour is the hour itself in 24-hour mode. In 12-hour mode it is a number in 1..12 congruent to the hour modulo 12. |
| `ClockFormat.ParseClock` | components/ui/digital-clock.tsx:34 | It reads a string back if and only if the string has the `DD:DD:DD` shape. Each field it reads is below 100. |
| `ClockFormat.JoinFields` | components/ui/digital-clock.tsx:34 | Joining three two-digit fields with colons gives a `DD:DD:DD` string whose slices 0..2, 3..5 and 6..8 are those fields. |
| `ClockFormat.FormatTime` | components/ui/digital-clock.tsx:27-35 | The result is `""` when not mounted. When mounted it is 8 characters long, with `':'` at indices 2 and 5 and digits elsewhere. It reads back as (shown hour, minute, second). |
| `ClockFormat.UnmountedShowsNothing` | components/ui/digital-clock.tsx:28 | Before mount the display is `""` whatever the time and the mode. |
| `ClockFormat.FieldsOfFormat` | components/ui/digital-clock.tsx:29-34 | The hours, minutes and seconds slices of the display are the padded shown hour, minute and second. |
| `ClockFormat.TwentyFourHourField` | components/ui/digital-clock.tsx:30 | In 24-hour mode the hours field is the two-digit hour: `"00"` for 0 and `"23"` for 23. |
| `ClockFormat.TwelveHourField` | components/ui/digital-clock.tsx:31 | In 12-hour mode the hours field reads as a number in 1..12. Hours 0 and 12 give `"12"`, and hour 13 gives `"01"`. |
| `ClockFormat.ModeOnlyChangesHours` | components/ui/digital-clock.tsx:29-33 | Everything after the hours field (the colons, minutes and seconds) is the same in both modes. |
| `ClockFormat.ModesAgreeIff` | components/ui/digital-clock.tsx:29-33 | The two modes show the same string if and only if the hour is in 1..12. |
| `ClockFormat.ModesAgreeOnlyIfSameHour` | components/ui/digital-clock.tsx:29-31 | If both modes show the same string, the hour equals its 12-hour value. |
| `ClockFormat.ModesAgreeIfSameHour` | components/ui/digital-clock.tsx:29-31 | If the hour equals its 12-hour value, both modes show the same string. |
| `ClockFormat.TwelveHourIsTwentyFourOfHour12` | components/ui/digital-clock.tsx:29-31 | The 12-hour display of a time is the 24-hour display of the same time with the hour replaced by its 12-hour value. |
| `ClockFormat.ParseFormatRoundTrip` | components/ui/digital-clock.tsx:29-34 | Reading the 24-hour display gives back (hour, minute, second). Reading the 12-hour display gives back (hour % 12, or 12 in place of 0, minute, second). |
| `ClockFormat.TwentyFourHourInjective` | components/ui/digital-clock.tsx:30-34 | Different times have different 24-hour displays. |
| `ClockFormat.FormatOfParsedFields` | components/ui/digital-clock.tsx:29-34 | A string that reads back as a valid time is that time's 24-hour display. |
| `ClockFormat.FormatParseRoundTrip` | components/ui/digital-clock.tsx:29-34 | Every `DD:DD:DD` string whose numbers form a valid time is the 24-hour display of that time. This is the reverse direction of the round trip. |
| `ClockFormat.DisplayOfParsedFields` | components/ui/digital-clock.tsx:29-34 | In either mode the display is the unique clock string that reads back as (shown hour, minute, second). |
| `ClockFormat.ExampleDisplays` | components/ui/digital-clock.tsx:27-35 | 14:05:09 shows as `"14:05:09"` in 24-hour mode and as `"02:05:09"` in 12-hour mode. 14:05:10 shows as `"02:05:10"` in 12-hour mode. |
| `DigitalClock.ButtonVariant` | components/ui/digital-clock.tsx:58-65 | A button is `"default"` if and only if its mode is active. |
| `DigitalClock.Variant24` | components/ui/digital-clock.tsx:58 | The 24-hour button is `"default"` if and only if 24-hour mode is active. |
| `DigitalClock.Variant12` | components/ui/digital-clock.tsx:65 | The 12-hour button is `"default"` if and only if 12-hour mode is active. |
| `DigitalClock.ExactlyOneDefault` | components/ui/digital-clock.tsx:57-70 | In every state exactly one of the two buttons is `"default"`, and it is the button of the active mode. |
| `DigitalClock.Clock.constructor` | components/ui/digital-clock.tsx:13-15 | The initial state holds the creation time, `is24Hour = true` and `mounted = false`. |
| `DigitalClock.Clock.FormattedTime` | components/ui/digital-clock.tsx:27-35 | In the current state the card shows `""` before mount. After mount it shows a `DD:DD:DD` string that reads back as (shown hour, minute, second). |
| `DigitalClock.Clock.Mount` | components/ui/digital-clock.tsx:19 | `mounted` becomes true. Only `mounted` may change, and the time and mode are as before. |
| `DigitalClock.Clock.Tick` | components/ui/digital-clock.tsx:20-22 | `time` becomes the new time. The mode and `mounted` are unchanged, so a tick never unmounts the clock. |
| `DigitalClock.Clock.Select24Hour` | components/ui/digital-clock.tsx:59 | `is24Hour` becomes true and the time and `mounted` are unchanged. If 24-hour mode was already active, the whole state is unchanged (the click is idempotent). |
| `DigitalClock.Clock.Select12Hour` | components/ui/digital-clock.tsx:66 | `is24Hour` becomes false and the time and `mounted` are unchanged. If 12-hour mode was already active, the whole state is unchanged. |
| `DigitalClock.Scenario` | components/ui/digital-clock.tsx:13-35 | A clock created at 14:05:09 shows `""` before mount and `"14:05:09"` after mount. After the 12-hour click it shows `"02:05:09"`, and after a tick to 14:05:10 it shows `"02:05:10"`. |

No method sets `mounted` back to false. `Mount` is the only method that may
write it, and `Tick`, `Select24Hour` and `Select12Hour` all state
`mounted == old(mounted)`.

## Left out

- `setInterval`/`clearInterval` and the 1000 ms interval (lines 20-23) are host timer plumbing. A tick is modelled only as the event that replaces `time`. Unmount cleanup and the cadence (one tick per second, none after unmount) are not modelled. In the source the interval is created in the same effect that sets `mounted` (lines 19-20), so every tick comes after mount; `Clock.Tick` may also be called before `Mount`, which allows more behaviour than the source, and no property here relies on that order.
- `new Date()` and the local-time conversion inside `getHours`, `getMinutes` and `getSeconds` (lines 13, 21, 30-33) read the wall clock and the time zone. The time is a parameter whose fields are already in those methods' ranges.
- React hook semantics are not modelled: `useState` scheduling, when `useEffect` runs, and `useMemo` caching (line 35). Memoisation does not change the value, so `Clock.FormattedTime` simply recomputes `FormatTime` from the current fields.
- The JSX markup, Tailwind classes and background image (lines 38-75) are presentational and are left out.
- `Card` and `Button` (lines 7-8) are components from files that are not part of this model. Only the variant value passed to each `Button` is modelled.
- `DecimalString` covers `toString()` only for non-negative integers, which is all the component passes it. Negative, fractional and NaN numbers are not modelled.
