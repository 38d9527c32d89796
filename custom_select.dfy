/** The custom drop-down used by the forms: which option is shown as selected, which options
    are listed, what a click emits, and the hidden native select kept for form validation. */
module CustomSelect {
  import opened Common

  /** An option; `caption` is its `label` (a reserved word here). */
  datatype SelectOption = SelectOption(value: string, caption: string, disabled: bool)

  const DefaultPlaceholder := "Selectează..."

  const NoOptionsMessage := "Nu sunt opțiuni disponibile"

  /** `options.find(opt => opt.value === value)`. */
  function SelectedOption(options: seq<SelectOption>, value: string): Option<SelectOption> {
    Find(options, (o: SelectOption) => o.value == value)
  }

  /** The text of the closed control: the selected option's label, else the placeholder. */
  function ButtonText(options: seq<SelectOption>, value: string, placeholder: string): string {
    match SelectedOption(options, value)
    case Some(o) => o.caption
    case None => placeholder
  }

  /** The button shows the label of the first option carrying the current value, and the
      placeholder exactly when no option carries it. */
  lemma ButtonTextCases(options: seq<SelectOption>, value: string, placeholder: string)
    ensures (forall o :: o in options ==> o.value != value) ==> ButtonText(options, value, placeholder) == placeholder
    ensures (exists i :: 0 <= i < |options| && options[i].value == value) ==>
              exists i :: 0 <= i < |options| && options[i].value == value
                          && ButtonText(options, value, placeholder) == options[i].caption
                          && forall j :: 0 <= j < i ==> options[j].value != value
  {
    FindIsFirst(options, (o: SelectOption) => o.value == value);
  }

  /** Whether an option is listed: enabled, or the current selection. */
  predicate Listed(o: SelectOption, value: string) {
    !o.disabled || o.value == value
  }

  /** `filteredOptions`. */
  function FilteredOptions(options: seq<SelectOption>, value: string): seq<SelectOption> {
    Filter(options, (o: SelectOption) => Listed(o, value))
  }

  /** The listed options are exactly the enabled ones and those carrying the current value,
      so a disabled current selection stays listed; appending an option lists it last or
      not at all, so the list keeps the options' order. */
  lemma FilteredOptionsProperties(options: seq<SelectOption>, value: string, extra: SelectOption)
    ensures forall o :: o in FilteredOptions(options, value) <==> o in options && (!o.disabled || o.value == value)
    ensures |FilteredOptions(options, value)| <= |options|
    ensures SelectedOption(options, value).Some? ==> SelectedOption(options, value).value in FilteredOptions(options, value)
    ensures FilteredOptions(options + [extra], value) ==
              FilteredOptions(options, value) + (if Listed(extra, value) then [extra] else [])
  {
    FilterMembers(options, (o: SelectOption) => Listed(o, value));
    FilterConcat(options, [extra], (o: SelectOption) => Listed(o, value));
  }

  /** The value a choice emits through `onChange`, and the dropdown's `isOpen` afterwards. */
  datatype Selection = Selection(emitted: string, isOpen: bool)

  /** `handleSelect(v)`. */
  function HandleSelect(optionValue: string): (r: Selection)
    ensures r.emitted == optionValue && !r.isOpen
  {
    Selection(optionValue, false)
  }

  /** Choosing an option closes the dropdown, and once the parent stores the emitted value
      the button shows that option's label, or the label of the first option carrying the
      same value when several do. */
  lemma SelectThenShow(options: seq<SelectOption>, i: nat, placeholder: string)
    requires i < |options|
    ensures !HandleSelect(options[i].value).isOpen
    ensures exists j :: 0 <= j <= i && options[j].value == options[i].value
                        && ButtonText(options, HandleSelect(options[i].value).emitted, placeholder) == options[j].caption
    ensures (forall k :: 0 <= k < i ==> options[k].value != options[i].value) ==>
              ButtonText(options, HandleSelect(options[i].value).emitted, placeholder) == options[i].caption
  {
    ButtonTextCases(options, options[i].value, placeholder);
  }

  /** A click on the closed or open control: `!disabled && setIsOpen(!isOpen)`. */
  function ToggleClick(disabled: bool, isOpen: bool): bool {
    if disabled then isOpen else !isOpen
  }

  /** A disabled control never opens or closes on a click; an enabled one flips, and two
      clicks bring it back. */
  lemma ToggleClickProperties(disabled: bool, isOpen: bool)
    ensures disabled ==> ToggleClick(disabled, isOpen) == isOpen
    ensures !disabled ==> ToggleClick(disabled, isOpen) == !isOpen
    ensures ToggleClick(disabled, ToggleClick(disabled, isOpen)) == isOpen
  {
  }

  /** One option button of the open dropdown. */
  datatype OptionButton = OptionButton(value: string, caption: string, selected: bool, enabled: bool)

  /** The body of the open dropdown: the message when nothing is listed, else one button per
      listed option. */
  datatype DropdownBody = NoOptions(message: string) | Buttons(items: seq<OptionButton>)

  function ButtonFor(o: SelectOption, value: string): OptionButton {
    OptionButton(o.value, o.caption, o.value == value, !o.disabled)
  }

  function Dropdown(options: seq<SelectOption>, value: string): DropdownBody {
    var listed := FilteredOptions(options, value);
    if |listed| == 0 then NoOptions(NoOptionsMessage)
    else Buttons(seq(|listed|, i requires 0 <= i < |listed| => ButtonFor(listed[i], value)))
  }

  /** A click on an option button: a disabled button does nothing. */
  function ClickOption(b: OptionButton): Option<Selection> {
    if b.enabled then Some(HandleSelect(b.value)) else None
  }

  /** With nothing listed the message is shown instead of buttons; otherwise every listed
      option gets its button, in order, marked selected exactly when it carries the value,
      and clicking an enabled button emits that option's value and closes the dropdown. */
  lemma DropdownProperties(options: seq<SelectOption>, value: string)
    ensures Dropdown(options, value).NoOptions? <==> FilteredOptions(options, value) == []
    ensures Dropdown(options, value).NoOptions? ==> Dropdown(options, value).message == NoOptionsMessage
    ensures Dropdown(options, value).Buttons? ==>
              var items := Dropdown(options, value).items;
              |items| == |FilteredOptions(options, value)|
              && forall i :: 0 <= i < |items| ==>
                   items[i].value == FilteredOptions(options, value)[i].value
                   && items[i].caption == FilteredOptions(options, value)[i].caption
                   && (items[i].selected <==> items[i].value == value)
                   && (ClickOption(items[i]).Some? <==> !FilteredOptions(options, value)[i].disabled)
                   && (ClickOption(items[i]).Some? ==> ClickOption(items[i]).value == Selection(items[i].value, false))
    ensures (forall o :: o in options ==> o.disabled && o.value != value) ==> Dropdown(options, value).NoOptions?
  {
    var listed := FilteredOptions(options, value);
    FilterMembers(options, (o: SelectOption) => Listed(o, value));
    if listed != [] {
      assert listed[0] in listed;
    }
  }

  /** The `(value, label)` pairs of the hidden native select, rendered only when `required`:
      a blank option carrying the placeholder, then every option. */
  function HiddenSelect(options: seq<SelectOption>, placeholder: string, required: bool): Option<seq<(string, string)>> {
    if !required then None
    else Some([("", placeholder)] + seq(|options|, i requires 0 <= i < |options| => (options[i].value, options[i].caption)))
  }

  /** The hidden select lists every option, disabled ones included, after the blank one. */
  lemma HiddenSelectProperties(options: seq<SelectOption>, placeholder: string, required: bool)
    ensures HiddenSelect(options, placeholder, required).Some? <==> required
    ensures required ==>
              var items := HiddenSelect(options, placeholder, required).value;
              |items| == |options| + 1 && items[0] == ("", placeholder)
              && forall i :: 0 <= i < |options| ==> items[i + 1] == (options[i].value, options[i].caption)
  {
  }
}
