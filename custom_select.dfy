/** The styled dropdown: a fixed list of options, the current value handed in
    by the parent, and the widget's own state (open or closed, and which
    option is highlighted).  A commit is reported to the caller as the value
    `onChange` would receive. */
module CustomSelect {
  import opened Wrappers

  datatype SelectOption = SelectOption(value: string, labelText: string)

  /** The keys `handleKeyDown` distinguishes; every other key is `OtherKey`. */
  datatype Key = Enter | Space | ArrowDown | ArrowUp | Escape | Tab | OtherKey

  const DefaultPlaceholder := "Selecciona una opción"

  /** `options.findIndex(opt => opt.value === value)`: the first position
      holding `value`, or -1. */
  function FindIndex(options: seq<SelectOption>, value: string): (r: int)
    ensures -1 <= r < |options|
    ensures r >= 0 ==> options[r].value == value && forall k :: 0 <= k < r ==> options[k].value != value
    ensures r == -1 <==> forall k :: 0 <= k < |options| ==> options[k].value != value
  {
    if options == [] then -1
    else if options[0].value == value then 0
    else
      var t := FindIndex(options[1..], value);
      assert forall k :: 1 <= k < |options| ==> options[k] == options[1..][k - 1];
      if t < 0 then -1 else t + 1
  }

  /** `options.find(opt => opt.value === value)`: the first option holding
      `value`, if any. */
  function Find(options: seq<SelectOption>, value: string): (r: Option<SelectOption>)
    ensures r.Some? <==> exists k :: 0 <= k < |options| && options[k].value == value
    ensures r.Some? ==> exists k :: 0 <= k < |options| && options[k] == r.value && r.value.value == value &&
                                   forall j :: 0 <= j < k ==> options[j].value != value
  {
    var i := FindIndex(options, value);
    if i >= 0 then Some(options[i]) else None
  }

  /** The highlight the open-reset effect chooses: the position of the current
      value, or the first option when the value is not among them. */
  function OpenHighlight(options: seq<SelectOption>, value: string): (r: int)
    ensures |options| > 0 ==> 0 <= r < |options|
    ensures (exists k :: 0 <= k < |options| && options[k].value == value) ==>
      options[r].value == value && forall j :: 0 <= j < r ==> options[j].value != value
    ensures (forall k :: 0 <= k < |options| ==> options[k].value != value) ==> r == 0
  {
    var currentIndex := FindIndex(options, value);
    if currentIndex >= 0 then currentIndex else 0
  }

  /** The ArrowDown update of an open list: one step down, stopping at the
      last option. */
  function MoveDown(prev: int, count: nat): (r: int)
    ensures 0 <= prev < count ==> 0 <= r < count
    ensures prev <= r <= prev + 1
  {
    if prev < count - 1 then prev + 1 else prev
  }

  /** The ArrowUp update of an open list: one step up, stopping at the first
      option. */
  function MoveUp(prev: int): (r: int)
    ensures prev > 0 ==> 0 <= r < prev
    ensures prev <= 0 ==> r == prev
  {
    if prev > 0 then prev - 1 else prev
  }

  /** `n` presses of ArrowDown and of ArrowUp on an open list. */
  function DownTimes(prev: int, count: nat, n: nat): int
    decreases n
  {
    if n == 0 then prev else DownTimes(MoveDown(prev, count), count, n - 1)
  }

  function UpTimes(prev: int, n: nat): int
    decreases n
  {
    if n == 0 then prev else UpTimes(MoveUp(prev), n - 1)
  }

  function Min(a: int, b: int): int { if a <= b then a else b }
  function Max(a: int, b: int): int { if a >= b then a else b }

  /** ArrowDown is an increment clamped at the last option: further presses
      there change nothing. */
  lemma {:induction false} DownTimesClamp(prev: int, count: nat, n: nat)
    requires 0 <= prev < count
    ensures DownTimes(prev, count, n) == Min(prev + n, count - 1)
    decreases n
  {
    if n > 0 {
      DownTimesClamp(MoveDown(prev, count), count, n - 1);
    }
  }

  /** ArrowUp is a decrement clamped at the first option. */
  lemma {:induction false} UpTimesClamp(prev: int, n: nat)
    requires 0 <= prev
    ensures UpTimes(prev, n) == Max(prev - n, 0)
    decreases n
  {
    if n > 0 {
      UpTimesClamp(MoveUp(prev), n - 1);
    }
  }

  /** `selectedOption?.label || placeholder`: the label of the first option
      holding `value`, unless there is none or its label is empty. */
  function TriggerLabel(options: seq<SelectOption>, value: string, placeholder: string): (r: string)
    ensures (forall k :: 0 <= k < |options| ==> options[k].value != value) ==> r == placeholder
    ensures forall k ::
      (0 <= k < |options| && options[k].value == value && forall j :: 0 <= j < k ==> options[j].value != value) ==>
      r == (if options[k].labelText != "" then options[k].labelText else placeholder)
  {
    match Find(options, value)
    case None => placeholder
    case Some(o) => if o.labelText != "" then o.labelText else placeholder
  }

  /** `aria-selected` of the option at `index`. */
  predicate AriaSelected(options: seq<SelectOption>, value: string, index: int)
    requires 0 <= index < |options|
    ensures AriaSelected(options, value, index) ==> 0 <= FindIndex(options, value) <= index
    ensures AriaSelected(options, value, index) ==> Find(options, value).Some?
  {
    options[index].value == value
  }

  /** On opening, the highlight lands on an option marked selected whenever
      one is; the trigger then shows that option's label if it has one. */
  lemma OpenHighlightIsSelected(options: seq<SelectOption>, value: string, index: int)
    requires 0 <= index < |options| && AriaSelected(options, value, index)
    ensures AriaSelected(options, value, OpenHighlight(options, value))
    ensures OpenHighlight(options, value) <= index
    ensures options[OpenHighlight(options, value)].labelText != "" ==>
      TriggerLabel(options, value, DefaultPlaceholder) == options[OpenHighlight(options, value)].labelText
  {
  }

  /** The widget.  `options` and `placeholder` are fixed props; `value` is the
      parent's current value; `isOpen` and `highlightedIndex` are the
      component's own state. */
  class Select {
    const options: seq<SelectOption>
    const placeholder: string
    var value: string
    var isOpen: bool
    var highlightedIndex: int

    /** The highlight is -1 (before the first opening) or a position in the
        list, and a position whenever the list is open. */
    ghost predicate Valid()
      reads this
    {
      && |options| > 0
      && -1 <= highlightedIndex < |options|
      && (isOpen ==> 0 <= highlightedIndex)
    }

    constructor (options: seq<SelectOption>, value: string, placeholder: string)
      requires |options| > 0
      ensures Valid()
      ensures this.options == options && this.value == value && this.placeholder == placeholder
      ensures !isOpen && highlightedIndex == -1
    {
      this.options := options;
      this.value := value;
      this.placeholder := placeholder;
      isOpen := false;
      highlightedIndex := -1;
    }

    /** `setIsOpen(open)` followed by the effect keyed on `isOpen`: a change
        from closed to open resets the highlight to the current value. */
    method SetIsOpen(open: bool)
      requires Valid()
      modifies this
      ensures Valid()
      ensures isOpen == open && value == old(value)
      ensures highlightedIndex ==
        (if open && !old(isOpen) then OpenHighlight(options, value) else old(highlightedIndex))
    {
      if open && !isOpen {
        highlightedIndex := OpenHighlight(options, value);
      }
      isOpen := open;
    }

    /** A click on the trigger. */
    method HandleToggle()
      requires Valid()
      modifies this
      ensures Valid()
      ensures isOpen == !old(isOpen) && value == old(value)
      ensures isOpen ==> highlightedIndex == OpenHighlight(options, value)
      ensures !isOpen ==> highlightedIndex == old(highlightedIndex)
    {
      SetIsOpen(!isOpen);
    }

    /** `handleSelect`: report the value and close. */
    method HandleSelect(optionValue: string) returns (committed: Option<string>)
      requires Valid()
      modifies this
      ensures Valid()
      ensures committed == Some(optionValue)
      ensures !isOpen && value == old(value) && highlightedIndex == old(highlightedIndex)
    {
      committed := Some(optionValue);
      SetIsOpen(false);
    }

    /** A key pressed on the trigger; the result is what `onChange` receives. */
    method HandleKeyDown(key: Key) returns (committed: Option<string>)
      requires Valid()
      modifies this
      ensures Valid()
      ensures value == old(value)
      ensures committed.Some? ==> (key == Enter || key == Space) && old(isOpen)
      // Enter or Space commits the highlighted option of an open list,
      // otherwise opens it.
      ensures (key == Enter || key == Space) && old(isOpen) ==>
        committed == Some(options[old(highlightedIndex)].value) && !isOpen &&
        highlightedIndex == old(highlightedIndex)
      ensures (key == Enter || key == Space || key == ArrowDown) && !old(isOpen) ==>
        isOpen && highlightedIndex == OpenHighlight(options, value)
      // The arrows move the highlight of an open list, clamped to it.
      ensures key == ArrowDown && old(isOpen) ==>
        isOpen && highlightedIndex == MoveDown(old(highlightedIndex), |options|)
      ensures key == ArrowUp ==>
        isOpen == old(isOpen) &&
        highlightedIndex == (if old(isOpen) then MoveUp(old(highlightedIndex)) else old(highlightedIndex))
      // Escape and Tab close; any other key changes nothing.
      ensures key == Escape || key == Tab ==> !isOpen && highlightedIndex == old(highlightedIndex)
      ensures key == OtherKey ==> isOpen == old(isOpen) && highlightedIndex == old(highlightedIndex)
    {
      committed := None;
      match key
      case Enter | Space =>
        if isOpen && highlightedIndex >= 0 {
          committed := HandleSelect(options[highlightedIndex].value);
        } else {
          SetIsOpen(true);
        }
      case ArrowDown =>
        if !isOpen {
          SetIsOpen(true);
        } else {
          highlightedIndex := MoveDown(highlightedIndex, |options|);
        }
      case ArrowUp =>
        if isOpen {
          highlightedIndex := MoveUp(highlightedIndex);
        }
      case Escape =>
        SetIsOpen(false);
      case Tab =>
        SetIsOpen(false);
      case OtherKey =>
    }

    /** A click on the option at `index` of the open list commits it,
        wherever the highlight is. */
    method HandleOptionClick(index: int) returns (committed: Option<string>)
      requires Valid() && isOpen && 0 <= index < |options|
      modifies this
      ensures Valid()
      ensures committed == Some(options[index].value)
      ensures !isOpen && value == old(value) && highlightedIndex == old(highlightedIndex)
    {
      committed := HandleSelect(options[index].value);
    }

    /** The pointer entering the option at `index` of the open list. */
    method HandleOptionHover(index: int)
      requires Valid() && isOpen && 0 <= index < |options|
      modifies this
      ensures Valid()
      ensures isOpen && highlightedIndex == index && value == old(value)
    {
      highlightedIndex := index;
    }

    /** A mousedown outside the widget. */
    method HandleClickOutside()
      requires Valid()
      modifies this
      ensures Valid()
      ensures !isOpen && value == old(value) && highlightedIndex == old(highlightedIndex)
    {
      SetIsOpen(false);
    }

    /** The parent passing a new `value`; a change while open re-runs the
        open-reset effect. */
    method SetValue(v: string)
      requires Valid()
      modifies this
      ensures Valid()
      ensures value == v && isOpen == old(isOpen)
      ensures highlightedIndex ==
        (if old(isOpen) && v != old(value) then OpenHighlight(options, v) else old(highlightedIndex))
    {
      if isOpen && v != value {
        highlightedIndex := OpenHighlight(options, v);
      }
      value := v;
    }
  }
}
