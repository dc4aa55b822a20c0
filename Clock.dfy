/** The clock component's state: the current time, the display mode and
    whether the component has mounted, with the four events that change it
    and the two format buttons whose look follows the mode. */
module DigitalClock {
  import opened ClockFormat

  /** The visual variant of a format button. */
  datatype Variant = Default | Outline

  /** A button is drawn `"default"` when its mode is the active one and
      `"outline"` otherwise. */
  function ButtonVariant(active: bool): (v: Variant)
    ensures v == Default <==> active
  {
    if active then Default else Outline
  }

  /** The "24-Hour Format" button: `is24Hour ? "default" : "outline"`. */
  function Variant24(is24Hour: bool): (v: Variant)
    ensures v == Default <==> is24Hour
  {
    ButtonVariant(is24Hour)
  }

  /** The "12-Hour Format" button: `!is24Hour ? "default" : "outline"`. */
  function Variant12(is24Hour: bool): (v: Variant)
    ensures v == Default <==> !is24Hour
  {
    ButtonVariant(!is24Hour)
  }

  /** In every state exactly one of the two buttons is highlighted, and it
      is the one for the active mode. */
  lemma ExactlyOneDefault(is24Hour: bool)
    ensures (Variant24(is24Hour) == Default) != (Variant12(is24Hour) == Default)
    ensures Variant24(is24Hour) == Default <==> is24Hour
    ensures Variant12(is24Hour) == Default <==> !is24Hour
  {
  }

  class Clock {
    var time: Time
    var is24Hour: bool
    var mounted: bool

    /** The initial state: the time read at creation, 24-hour mode, not yet
        mounted. */
    constructor (now: Time)
      ensures time == now && is24Hour && !mounted
    {
      time := now;
      is24Hour := true;
      mounted := false;
    }

    /** The string the card shows in the current state: nothing before
        mount, afterwards the clock string of the shown hour, the minute and
        the second. */
    function FormattedTime(): (s: string)
      reads this
      ensures !mounted ==> s == ""
      ensures mounted ==> IsClockString(s)
      ensures mounted ==> ParseClock(s) == Some(Fields(DisplayHour(is24Hour, time.hour), time.minute, time.second))
    {
      FormatTime(mounted, is24Hour, time)
    }

    /** The mount effect: the component is now mounted; nothing else changes. */
    method Mount()
      modifies this`mounted
      ensures mounted
      ensures time == old(time) && is24Hour == old(is24Hour)
    {
      mounted := true;
    }

    /** A timer tick: the time becomes `now`; the mode and the mounted flag
        stay as they were, so a tick never unmounts the clock. */
    method Tick(now: Time)
      modifies this`time
      ensures time == now
      ensures is24Hour == old(is24Hour) && mounted == old(mounted)
    {
      time := now;
    }

    /** The "24-Hour Format" click: 24-hour mode; time and mounted flag
        unchanged; when 24-hour mode was already active, nothing changes. */
    method Select24Hour()
      modifies this`is24Hour
      ensures is24Hour
      ensures time == old(time) && mounted == old(mounted)
      ensures old(is24Hour) ==> unchanged(this)
    {
      is24Hour := true;
    }

    /** The "12-Hour Format" click: 12-hour mode; time and mounted flag
        unchanged; when 12-hour mode was already active, nothing changes. */
    method Select12Hour()
      modifies this`is24Hour
      ensures !is24Hour
      ensures time == old(time) && mounted == old(mounted)
      ensures !old(is24Hour) ==> unchanged(this)
    {
      is24Hour := false;
    }
  }

  /** An example run: created at 14:05:09, mounted, switched to 12-hour
      mode, then one tick later. */
  method Scenario() returns (beforeMount: string, atMount: string, after12: string, afterTick: string)
    ensures beforeMount == ""
    ensures atMount == "14:05:09"
    ensures after12 == "02:05:09"
    ensures afterTick == "02:05:10"
  {
    var clock := new Clock(Time(14, 5, 9));
    beforeMount := clock.FormattedTime();
    clock.Mount();
    atMount := clock.FormattedTime();
    clock.Select12Hour();
    after12 := clock.FormattedTime();
    clock.Tick(Time(14, 5, 10));
    afterTick := clock.FormattedTime();
    ExampleDisplays();
  }
}
