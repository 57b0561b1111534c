/** A table toolbar button (Client/Components/Common/FlowTableButton/FlowTableButton.razor.cs):
    whether it is enabled follows the table's selection count and its SelectedOne /
    SelectedOneOrMore flags, and Disabled overrides everything. Translation is a parameter. */
module FlowTableButtons {
  import opened Common

  /** `items?.Count ?? 0`: None is a null item list. */
  function SelectionCount(items: Option<nat>): (n: nat)
    ensures items.None? ==> n == 0
  {
    items.GetOr(0)
  }

  /** The enabled flag Table_SelectionChanged stores for a selection of `count` items. */
  function EnabledFor(selectedOne: bool, selectedOneOrMore: bool, count: nat): bool {
    if selectedOne then count == 1
    else if selectedOneOrMore then count > 0
    else true
  }

  /** SelectedOne wants exactly one item and wins over SelectedOneOrMore; SelectedOneOrMore
      alone wants at least one; with neither flag the button is always enabled. */
  lemma SelectionRule(selectedOneOrMore: bool, count: nat)
    ensures EnabledFor(true, selectedOneOrMore, count) <==> count == 1
    ensures EnabledFor(false, true, count) <==> count > 0
    ensures EnabledFor(false, false, count)
  {
  }

  /** A null selection enables only a button that needs no selection. */
  lemma NullSelectionEnablesOnlyUnconstrained(selectedOne: bool, selectedOneOrMore: bool)
    ensures EnabledFor(selectedOne, selectedOneOrMore, SelectionCount(None)) <==> !selectedOne && !selectedOneOrMore
  {
  }

  /** Every count SelectedOne accepts, SelectedOneOrMore accepts too. */
  lemma SelectedOneIsStricter(count: nat)
    ensures EnabledFor(true, false, count) ==> EnabledFor(false, true, count)
  {
  }

  class FlowTableButton {
    var caption: string
    /** None until the Icon parameter is first set (the field starts out null). */
    var icon: Option<string>
    var disabled: bool
    var enabledFlag: bool
    var selectedOne: bool
    var selectedOneOrMore: bool
    /** StateHasChanged calls. */
    var stateChanges: nat

    constructor (disabled: bool, selectedOne: bool, selectedOneOrMore: bool)
      ensures caption == "" && icon == None && enabledFlag && stateChanges == 0
      ensures this.disabled == disabled && this.selectedOne == selectedOne
      ensures this.selectedOneOrMore == selectedOneOrMore
    {
      caption := "";
      icon := None;
      this.disabled := disabled;
      enabledFlag := true;
      this.selectedOne := selectedOne;
      this.selectedOneOrMore := selectedOneOrMore;
      stateChanges := 0;
    }

    /** The Enabled getter: never true while Disabled, else the stored flag. */
    function Enabled(): (r: bool)
      reads this
      ensures r ==> !disabled
      ensures !disabled ==> (r <==> enabledFlag)
    {
      if disabled then false else enabledFlag
    }

    /** The Label setter: a null label becomes "" and is then translated. */
    method SetLabel(value: Option<string>, translate: string -> string)
      modifies this`caption
      ensures caption == translate(value.GetOr(""))
    {
      var text := if value.None? then "" else value.value;
      caption := translate(text);
    }

    /** The Icon setter: a null icon is stored as "". */
    method SetIcon(value: Option<string>)
      modifies this`icon
      ensures icon == Some(value.GetOr(""))
    {
      icon := Some(if value.None? then "" else value.value);
    }

    /** Recomputes the flag from the selection; the component re-renders only when Enabled
        changed. */
    method TableSelectionChanged(items: Option<nat>)
      modifies this`enabledFlag, this`stateChanges
      ensures enabledFlag == EnabledFor(selectedOne, selectedOneOrMore, SelectionCount(items))
      ensures stateChanges == old(stateChanges) + (if old(Enabled()) != Enabled() then 1 else 0)
    {
      var current := Enabled();
      var count := if items.None? then 0 else items.value;
      if selectedOne {
        enabledFlag := count == 1;
      } else if selectedOneOrMore {
        enabledFlag := count > 0;
      } else {
        enabledFlag := true;
      }
      if current != Enabled() {
        stateChanges := stateChanges + 1;
      }
    }

    /** OnInitialized evaluates the rule once for an empty (null) selection; registering with
        the table is not modelled. */
    method OnInitialized()
      modifies this`enabledFlag, this`stateChanges
      ensures enabledFlag <==> !selectedOne && !selectedOneOrMore
      ensures stateChanges == old(stateChanges) + (if old(Enabled()) != Enabled() then 1 else 0)
    {
      TableSelectionChanged(None);
    }
  }
}
