/**
  The value-level part of the node legend: the option record, the list update
  performed when an entry is clicked, and the colour tables an entry is drawn with.
 */
module Legend {

  datatype Option<T> = None | Some(value: T)

  /** One legend entry. `value` is the key shared with the data map; `checked`
      is optional in the record, and an absent flag reads as false. */
  datatype LegendOption = LegendOption(labelText: string, color: string, value: string, checked: Option<bool>)

  /** Truthiness of the optional `checked` flag. */
  predicate IsChecked(o: LegendOption) {
    o.checked == Some(true)
  }

  /** The copy of a clicked option whose flag is the negation of the old one. */
  function Toggled(o: LegendOption): LegendOption {
    o.(checked := Some(!IsChecked(o)))
  }

  /** Toggling inverts the flag (an absent flag becomes true) and keeps the rest. */
  lemma ToggledFlips(o: LegendOption)
    ensures Toggled(o).checked.Some?
    ensures IsChecked(Toggled(o)) == !IsChecked(o)
    ensures !o.checked.Some? ==> IsChecked(Toggled(o))
    ensures Toggled(o).labelText == o.labelText && Toggled(o).color == o.color && Toggled(o).value == o.value
  {
  }

  /** Toggling twice gives back the flag, and the whole option once the flag is present. */
  lemma ToggledTwice(o: LegendOption)
    ensures IsChecked(Toggled(Toggled(o))) == IsChecked(o)
    ensures o.checked.Some? ==> Toggled(Toggled(o)) == o
  {
    if o.checked.Some? {
      assert IsChecked(o) == o.checked.value;
      assert Toggled(Toggled(o)).checked == Some(IsChecked(o));
    }
  }

  /** No two entries share a `value`. */
  ghost predicate UniqueValues(options: seq<LegendOption>) {
    forall i, j :: 0 <= i < j < |options| ==> options[i].value != options[j].value
  }

  /** The new option list after a click on `clicked`: every entry whose value
      matches is replaced by the toggled copy of `clicked`. */
  function ToggleList(options: seq<LegendOption>, clicked: LegendOption): (r: seq<LegendOption>)
    ensures |r| == |options|
  {
    if options == [] then []
    else [if options[0].value == clicked.value then Toggled(clicked) else options[0]]
         + ToggleList(options[1..], clicked)
  }

  lemma {:induction false} ToggleListAt(options: seq<LegendOption>, clicked: LegendOption, i: nat)
    requires i < |options|
    ensures ToggleList(options, clicked)[i]
            == if options[i].value == clicked.value then Toggled(clicked) else options[i]
  {
    if i > 0 {
      ToggleListAt(options[1..], clicked, i - 1);
    }
  }

  /** Entries whose value differs from the clicked one stay where they were, unchanged. */
  lemma {:induction false} ToggleListKeepsOthers(options: seq<LegendOption>, clicked: LegendOption)
    ensures forall i :: 0 <= i < |options| && options[i].value != clicked.value ==>
              ToggleList(options, clicked)[i] == options[i]
  {
    forall i | 0 <= i < |options| && options[i].value != clicked.value
      ensures ToggleList(options, clicked)[i] == options[i]
    {
      ToggleListAt(options, clicked, i);
    }
  }

  /** Every entry whose value matches, duplicates included, becomes the toggled clicked option. */
  lemma {:induction false} ToggleListReplacesMatches(options: seq<LegendOption>, clicked: LegendOption)
    ensures forall i :: 0 <= i < |options| && options[i].value == clicked.value ==>
              && ToggleList(options, clicked)[i] == Toggled(clicked)
              && IsChecked(ToggleList(options, clicked)[i]) == !IsChecked(clicked)
  {
    forall i | 0 <= i < |options| && options[i].value == clicked.value
      ensures ToggleList(options, clicked)[i] == Toggled(clicked)
    {
      ToggleListAt(options, clicked, i);
    }
  }

  /** The keys of the list, and so its display order, are the same after a click. */
  lemma {:induction false} ToggleListKeys(options: seq<LegendOption>, clicked: LegendOption)
    ensures forall i :: 0 <= i < |options| ==> ToggleList(options, clicked)[i].value == options[i].value
    ensures UniqueValues(options) ==> UniqueValues(ToggleList(options, clicked))
  {
    forall i | 0 <= i < |options|
      ensures ToggleList(options, clicked)[i].value == options[i].value
    {
      ToggleListAt(options, clicked, i);
    }
  }

  /** With unique values, clicking the entry at `k` flips that entry's flag and nothing else. */
  lemma {:induction false} ToggleListSingle(options: seq<LegendOption>, k: nat)
    requires k < |options|
    requires UniqueValues(options)
    ensures ToggleList(options, options[k]) == options[k := Toggled(options[k])]
  {
    var r := ToggleList(options, options[k]);
    forall i | 0 <= i < |options|
      ensures r[i] == options[k := Toggled(options[k])][i]
    {
      ToggleListAt(options, options[k], i);
    }
  }

  /** When every entry with the clicked value is the clicked option (as with unique
      values), clicking the updated entry again restores every flag, and the list
      itself if the clicked option had its flag present. */
  lemma {:induction false} ToggleListTwice(options: seq<LegendOption>, clicked: LegendOption)
    requires forall i :: 0 <= i < |options| && options[i].value == clicked.value ==> options[i] == clicked
    ensures forall i :: 0 <= i < |options| ==>
              IsChecked(ToggleList(ToggleList(options, clicked), Toggled(clicked))[i]) == IsChecked(options[i])
    ensures clicked.checked.Some? ==> ToggleList(ToggleList(options, clicked), Toggled(clicked)) == options
  {
    var once := ToggleList(options, clicked);
    var twice := ToggleList(once, Toggled(clicked));
    forall i | 0 <= i < |options|
      ensures twice[i] == if options[i].value == clicked.value then Toggled(Toggled(clicked)) else options[i]
    {
      ToggleListAt(options, clicked, i);
      ToggleListAt(once, Toggled(clicked), i);
    }
    ToggledTwice(clicked);
  }

  /** Two entries `a` (unchecked) and `b` (checked): clicking `a` checks it and leaves `b` alone. */
  lemma ToggleListExample()
    ensures var a := LegendOption("A", "#f00", "a", Some(false));
            var b := LegendOption("B", "#0f0", "b", Some(true));
            ToggleList([a, b], a) == [a.(checked := Some(true)), b]
  {
  }

  // ---------------------------------------------------------------------------
  // Colours

  datatype Mode = Light | Dark

  datatype Status = Active | Inactive

  function StatusOf(o: LegendOption): Status {
    if IsChecked(o) then Active else Inactive
  }

  /** The dot colour table, indexed by theme mode and status. */
  function DotColor(mode: Mode, status: Status, color: string): string {
    match mode
    case Light => (match status case Active => color case Inactive => "#ddd")
    case Dark => (match status case Active => color case Inactive => "#2f2f2f")
  }

  /** The label colour table, indexed by theme mode and status. */
  function LabelColor(mode: Mode, status: Status): string {
    match mode
    case Light => (match status case Active => "#000" case Inactive => "#ddd")
    case Dark => (match status case Active => "#fff" case Inactive => "#2f2f2f")
  }

  /** What the two tables promise. */
  lemma ColourTable(mode: Mode, color: string, other: string)
    ensures DotColor(mode, Active, color) == color
    ensures DotColor(mode, Inactive, color) == DotColor(mode, Inactive, other)
    ensures DotColor(mode, Inactive, color) == (if mode == Light then "#ddd" else "#2f2f2f")
    ensures LabelColor(mode, Active) == (if mode == Light then "#000" else "#fff")
    ensures LabelColor(mode, Inactive) == DotColor(mode, Inactive, color)
    ensures LabelColor(mode, Active) != LabelColor(mode, Inactive)
  {
  }

  /** One drawn list item: its key, its text and its two colours. */
  datatype Item = Item(key: string, labelText: string, dot: string, labelColor: string)

  function RenderItem(mode: Mode, o: LegendOption): Item {
    var status := StatusOf(o);
    Item(o.value, o.labelText, DotColor(mode, status, o.color), LabelColor(mode, status))
  }

  /** One item per option, in order; a checked option shows its own colour. */
  function Render(mode: Mode, options: seq<LegendOption>): (items: seq<Item>)
    ensures |items| == |options|
    ensures forall i :: 0 <= i < |options| ==>
              && items[i].key == options[i].value
              && items[i].labelText == options[i].labelText
              && (IsChecked(options[i]) ==> items[i].dot == options[i].color)
              && (!IsChecked(options[i]) ==> items[i].dot == items[i].labelColor == (if mode == Light then "#ddd" else "#2f2f2f"))
              && (IsChecked(options[i]) ==> items[i].labelColor == LabelColor(mode, Active))
  {
    seq(|options|, i requires 0 <= i < |options| => RenderItem(mode, options[i]))
  }
}
