/**
 * The widgets of the dashboard: a bounded integer bar with -/+ buttons, an OFF/ON/AUTO
 * selector and a two-state switch. The bar and the selector can be set "quietly" by the
 * program, which never posts a Changed message; only a user action posts one. The switch
 * reports every change, and the app's updating flag is what silences it.
 */
module Controls {
  import opened Opt
  import opened DeviceModel

  function Max(a: int, b: int): int { if a >= b then a else b }
  function Min(a: int, b: int): int { if a <= b then a else b }

  /** max(lo, min(hi, v)): v moved into [lo, hi]; when the bounds are crossed, lo wins. */
  function Clamp(lo: int, hi: int, v: int): (r: int)
    ensures lo <= hi ==> lo <= r <= hi
    ensures lo <= v <= hi ==> r == v
    ensures v < lo ==> r == lo
    ensures lo <= hi < v ==> r == hi
    ensures hi < lo ==> r == lo
  {
    Max(lo, Min(hi, v))
  }

  /** Moving a value into a range a second time changes nothing. */
  lemma ClampIdempotent(lo: int, hi: int, v: int)
    ensures Clamp(lo, hi, Clamp(lo, hi, v)) == Clamp(lo, hi, v)
  {
  }

  /** What a bar shows: its value and its current bounds. */
  datatype BarState = BarState(value: int, lo: int, hi: int)

  datatype Press = Dec | Inc

  /** Which of a bar's buttons an id names: "<bar>-dec", "<bar>-inc", or neither. */
  function PressOf(barId: string, buttonId: string): Option<Press> {
    if buttonId == barId + "-dec" then Some(Dec)
    else if buttonId == barId + "-inc" then Some(Inc)
    else None
  }

  /** The value after one press: one step down or up, stopping at the bound. */
  function Pressed(st: BarState, step: int, p: Press): int {
    match p
    case Dec => Max(st.lo, st.value - step)
    case Inc => Min(st.hi, st.value + step)
  }

  /** Each of a bar's two buttons is recognised as itself. */
  lemma PressOfButtons(barId: string)
    ensures PressOf(barId, barId + "-dec") == Some(Dec)
    ensures PressOf(barId, barId + "-inc") == Some(Inc)
  {
    assert (barId + "-inc")[|barId| + 1] == 'i';
    assert (barId + "-dec")[|barId| + 1] == 'd';
  }

  /** A press keeps an in-range value in range and moves it by at most one step, the pressed way. */
  lemma PressedInRange(st: BarState, step: int, p: Press)
    requires st.lo <= st.value <= st.hi && 0 <= step
    ensures st.lo <= Pressed(st, step, p) <= st.hi
    ensures p == Dec ==> st.value - step <= Pressed(st, step, p) <= st.value
    ensures p == Inc ==> st.value <= Pressed(st, step, p) <= st.value + step
  {
  }

  class ValueBar {
    const id: string       // the widget id the app routes Changed messages by
    const barId: string    // the prefix of its button ids
    const step: int
    var value: int
    var lo: int
    var hi: int
    var suppress: bool
    var posted: seq<int>   // the values carried by the Changed messages posted so far

    function State(): BarState
      reads this
    {
      BarState(value, lo, hi)
    }

    constructor (id: string, barId: string, lo: int, hi: int, step: int)
      ensures this.id == id && this.barId == barId && this.step == step
      ensures State() == BarState(0, lo, hi)
      ensures !suppress && posted == []
    {
      this.id := id;
      this.barId := barId;
      this.step := step;
      this.lo := lo;
      this.hi := hi;
      value := 0;
      suppress := false;
      posted := [];
    }

    /** Shows v moved into range, without posting Changed. */
    method SetValueQuiet(v: int)
      modifies this
      ensures State() == BarState(Clamp(old(lo), old(hi), v), old(lo), old(hi))
      ensures !suppress && posted == old(posted)
    {
      suppress := true;
      value := Max(lo, Min(hi, v));
      suppress := false;
    }

    /**
     * A press of one of the bar's buttons: the value steps, and Changed is posted with
     * the new value only when it moved and the bar is not being set quietly.
     */
    method OnButton(buttonId: string)
      modifies this
      ensures lo == old(lo) && hi == old(hi) && suppress == old(suppress)
      ensures value == match PressOf(barId, buttonId)
        case None => old(value)
        case Some(p) => Pressed(old(State()), step, p)
      ensures posted == old(posted) + (if value != old(value) && !suppress then [value] else [])
    {
      var next: int;
      if buttonId == barId + "-dec" {
        next := Max(lo, value - step);
      } else if buttonId == barId + "-inc" {
        next := Min(hi, value + step);
      } else {
        return;
      }
      if next != value {
        value := next;
        if !suppress {
          posted := posted + [value];
        }
      }
    }
  }

  /** A two-state switch widget; the app assigns its value, and it reports each change. */
  class Switch {
    const id: string
    var value: bool

    constructor (id: string)
      ensures this.id == id && !value
    {
      this.id := id;
      value := false;
    }
  }

  class ModeSelector {
    const id: string
    const selId: string
    var selected: Option<OffOnAuto>   // the radio button that reads pressed; none at first
    var suppress: bool
    var posted: seq<OffOnAuto>        // the modes carried by the Changed messages posted so far

    constructor (id: string, selId: string)
      ensures this.id == id && this.selId == selId
      ensures selected == None && !suppress && posted == []
    {
      this.id := id;
      this.selId := selId;
      selected := None;
      suppress := false;
      posted := [];
    }

    /**
     * Presses the radio button of the given mode. The radio set reports a change of its
     * pressed button at once, and that report arrives while the selector is suppressed.
     */
    method SetValueQuiet(mode: OffOnAuto)
      modifies this
      ensures selected == Some(mode)
      ensures !suppress && posted == old(posted)
    {
      suppress := true;
      if selected != Some(mode) {
        selected := Some(mode);
        OnRadioChanged(ModeIndex(mode));
      }
      suppress := false;
    }

    /** The radio set's pressed button changed to the one at the given index. */
    method OnRadioChanged(pressedIndex: int)
      requires 0 <= pressedIndex <= 2
      modifies this
      ensures selected == old(selected) && suppress == old(suppress)
      ensures posted == old(posted) + (if suppress then [] else [ModeOf(pressedIndex).value])
    {
      if !suppress {
        posted := posted + [ModeOf(pressedIndex).value];
      }
    }
  }
}
