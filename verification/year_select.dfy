/** Model of `TransactionYearSelect` in js/classes/PrimeTable.js.

    The dropdown's DOM state is the `prime-table__transaction-select--open`
    class on the select root and the text of the current-value node. A click
    is one event naming what it landed on; the element's own listener runs
    first and the document-wide outside-click listener sees the same click as
    it bubbles. */
module YearSelect {
  import opened Wrappers

  datatype Select = Select(isOpen: bool, value: string)

  /** `toggle`: flips the open class, keeps the displayed value. */
  function Toggle(s: Select): (r: Select)
    ensures r.isOpen == !s.isOpen
    ensures r.value == s.value
  {
    s.(isOpen := !s.isOpen)
  }

  /** `open`: adds the open class; opening an open select changes nothing. */
  function Open(s: Select): (r: Select)
    ensures r.isOpen && r.value == s.value
    ensures s.isOpen ==> r == s
  {
    s.(isOpen := true)
  }

  /** `close`: removes the open class; closing a closed select changes nothing. */
  function Close(s: Select): (r: Select)
    ensures !r.isOpen && r.value == s.value
    ensures !s.isOpen ==> r == s
  {
    s.(isOpen := false)
  }

  /** `selectYear`: writes the chosen value into the display and closes; the
      value is not validated. */
  function SelectYear(s: Select, value: string): (r: Select)
    ensures r.value == value
    ensures !r.isOpen
  {
    Close(s.(value := value))
  }

  /** Text a node shows after its `textContent` is assigned an attribute value:
      a missing attribute (`null`) empties the node. */
  function TextOf(attribute: Option<string>): string {
    match attribute
    case Some(v) => v
    case None => ""
  }

  /** Where a click landed. */
  datatype Target =
    | CurrentControl                        // `.prime-table__transaction-select-current`
    | OptionItem(dataValue: Option<string>) // an option and its `data-value` attribute
    | ElsewhereInside                       // any other node inside the select root
    | Outside                               // a node outside the select root

  function Click(s: Select, t: Target): (r: Select)
    ensures t.CurrentControl? ==> r.isOpen == !s.isOpen && r.value == s.value
    ensures t.OptionItem? ==> !r.isOpen && r.value == TextOf(t.dataValue)
    ensures t.ElsewhereInside? ==> r == s
    ensures t.Outside? ==> !r.isOpen && r.value == s.value
    ensures r.value != s.value ==> t.OptionItem?
  {
    match t
    case CurrentControl => Toggle(s)
    case OptionItem(d) => SelectYear(s, TextOf(d))
    case ElsewhereInside => s
    case Outside => Close(s)
  }

  /** The state after handling `clicks` in order. */
  function Run(s: Select, clicks: seq<Target>): Select
    decreases |clicks|
  {
    if clicks == [] then s else Run(Click(s, clicks[0]), clicks[1..])
  }

  /** The text of the last option clicked in `clicks`, read from the end. */
  function LastChoice(clicks: seq<Target>): Option<string>
    decreases |clicks|
  {
    if clicks == [] then None
    else
      var last := clicks[|clicks| - 1];
      if last.OptionItem? then Some(TextOf(last.dataValue)) else LastChoice(clicks[..|clicks| - 1])
  }

  lemma {:induction false} RunSnoc(s: Select, clicks: seq<Target>, t: Target)
    ensures Run(s, clicks + [t]) == Click(Run(s, clicks), t)
    decreases |clicks|
  {
    if clicks == [] {
      assert clicks + [t] == [t];
    } else {
      assert (clicks + [t])[1..] == clicks[1..] + [t];
      RunSnoc(Click(s, clicks[0]), clicks[1..], t);
    }
  }

  /** The displayed value is the last option chosen, or the initial value when
      no option was clicked: toggling and outside clicks never change it. */
  lemma {:induction false} DisplayedIsLastChoice(s: Select, clicks: seq<Target>)
    ensures Run(s, clicks).value == match LastChoice(clicks) case Some(v) => v case None => s.value
    decreases |clicks|
  {
    if clicks != [] {
      var prefix := clicks[..|clicks| - 1];
      var t := clicks[|clicks| - 1];
      assert clicks == prefix + [t];
      RunSnoc(s, prefix, t);
      DisplayedIsLastChoice(s, prefix);
    }
  }

  /** Toggling twice restores the original state. */
  lemma ToggleTwice(s: Select)
    ensures Toggle(Toggle(s)) == s
  {
  }

}
