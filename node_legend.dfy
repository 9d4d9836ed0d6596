/**
  The stateful part of the node legend: the component's local option list, the
  external graph whose item states a click rewrites, and the order in which a
  click talks to its collaborators.
 */
module NodeLegend {
  import opened Legend

  type NodeId = string

  /** A key of the graph's item-state table: a node and a state name. */
  type ItemKey = (NodeId, string)

  const ACTIVE: string := "active"
  const INACTIVE: string := "inactive"

  /** The external graph handle; only its item-state table is modelled. */
  class Graph {
    var itemStates: map<ItemKey, bool>

    constructor (initial: map<ItemKey, bool>)
      ensures itemStates == initial
    {
      itemStates := initial;
    }

    method SetItemState(id: NodeId, state: string, value: bool)
      modifies this
      ensures itemStates == old(itemStates)[(id, state) := value]
    {
      itemStates := itemStates[(id, state) := value];
    }
  }

  /** The two item states written for one node. */
  function SetNodeStates(states: map<ItemKey, bool>, id: NodeId, on: bool): map<ItemKey, bool> {
    states[(id, ACTIVE) := on][(id, INACTIVE) := !on]
  }

  /** The item-state table after the nodes `ids` are processed in order. */
  function Highlighted(states: map<ItemKey, bool>, ids: seq<NodeId>, on: bool): map<ItemKey, bool> {
    if ids == [] then states
    else SetNodeStates(Highlighted(states, ids[..|ids| - 1], on), ids[|ids| - 1], on)
  }

  /** Every listed node ends with `active == on` and `inactive == !on`. */
  lemma {:induction false} HighlightedListed(states: map<ItemKey, bool>, ids: seq<NodeId>, on: bool, id: NodeId)
    requires id in ids
    ensures (id, ACTIVE) in Highlighted(states, ids, on) && Highlighted(states, ids, on)[(id, ACTIVE)] == on
    ensures (id, INACTIVE) in Highlighted(states, ids, on) && Highlighted(states, ids, on)[(id, INACTIVE)] == !on
  {
    if ids[|ids| - 1] != id {
      assert id in ids[..|ids| - 1] by {
        var j :| 0 <= j < |ids| && ids[j] == id;
        assert ids[..|ids| - 1][j] == id;
      }
      HighlightedListed(states, ids[..|ids| - 1], on, id);
    }
  }

  /** Every other entry of the table, present or absent, is left as it was. */
  lemma {:induction false} HighlightedOthers(states: map<ItemKey, bool>, ids: seq<NodeId>, on: bool, key: ItemKey)
    requires key.0 !in ids || (key.1 != ACTIVE && key.1 != INACTIVE)
    ensures key in Highlighted(states, ids, on) <==> key in states
    ensures key in states ==> Highlighted(states, ids, on)[key] == states[key]
  {
    if ids != [] {
      assert key.0 !in ids ==> key.0 !in ids[..|ids| - 1];
      HighlightedOthers(states, ids[..|ids| - 1], on, key);
    }
  }

  /** A call the component makes to a collaborator during a click. */
  datatype Call =
    | ItemStateSet(id: NodeId, state: string, value: bool)
    | Changed(checked: LegendOption, newOptions: seq<LegendOption>)

  /** The item-state calls made for the nodes `ids`, in order. */
  function HighlightCalls(ids: seq<NodeId>, on: bool): seq<Call> {
    if ids == [] then []
    else HighlightCalls(ids[..|ids| - 1], on)
         + [ItemStateSet(ids[|ids| - 1], ACTIVE, on), ItemStateSet(ids[|ids| - 1], INACTIVE, !on)]
  }

  /** Two calls per node, in list order: `active := on`, then `inactive := !on`. */
  lemma {:induction false} HighlightCallsAt(ids: seq<NodeId>, on: bool, j: nat)
    requires j < |ids|
    ensures |HighlightCalls(ids, on)| == 2 * |ids|
    ensures HighlightCalls(ids, on)[2 * j] == ItemStateSet(ids[j], ACTIVE, on)
    ensures HighlightCalls(ids, on)[2 * j + 1] == ItemStateSet(ids[j], INACTIVE, !on)
  {
    var init := ids[..|ids| - 1];
    if j < |ids| - 1 {
      HighlightCallsAt(init, on, j);
      assert init[j] == ids[j];
    } else {
      HighlightCallsLength(init, on);
    }
  }

  lemma {:induction false} HighlightCallsLength(ids: seq<NodeId>, on: bool)
    ensures |HighlightCalls(ids, on)| == 2 * |ids|
  {
    if ids != [] {
      HighlightCallsLength(ids[..|ids| - 1], on);
    }
  }

  /** The number of `onChange` calls in a call log. */
  function CountChanges(calls: seq<Call>): nat {
    if calls == [] then 0
    else CountChanges(calls[..|calls| - 1]) + (if calls[|calls| - 1].Changed? then 1 else 0)
  }

  lemma {:induction false} CountChangesAppend(a: seq<Call>, b: seq<Call>)
    ensures CountChanges(a + b) == CountChanges(a) + CountChanges(b)
  {
    if b != [] {
      assert (a + b)[..|a + b| - 1] == a + b[..|b| - 1];
      assert (a + b)[|a + b| - 1] == b[|b| - 1];
      CountChangesAppend(a, b[..|b| - 1]);
    } else {
      assert a + b == a;
    }
  }

  /** The item-state calls of a click never include an `onChange`. */
  lemma {:induction false} HighlightCallsNoChange(ids: seq<NodeId>, on: bool)
    ensures CountChanges(HighlightCalls(ids, on)) == 0
  {
    if ids != [] {
      var init := ids[..|ids| - 1];
      var last := [ItemStateSet(ids[|ids| - 1], ACTIVE, on), ItemStateSet(ids[|ids| - 1], INACTIVE, !on)];
      HighlightCallsNoChange(init, on);
      CountChangesAppend(HighlightCalls(init, on), last);
      assert last[..1] + [last[1]] == last;
      assert CountChanges(last) == CountChanges(last[..1]);
    }
  }

  /** A click's call sequence holds exactly one `onChange`. */
  lemma ClickCallsOneChange(before: seq<Call>, ids: seq<NodeId>, on: bool, checked: LegendOption, newOptions: seq<LegendOption>)
    ensures CountChanges(before + HighlightCalls(ids, on) + [Changed(checked, newOptions)]) == CountChanges(before) + 1
  {
    HighlightCallsNoChange(ids, on);
    CountChangesAppend(before, HighlightCalls(ids, on));
    CountChangesAppend(before + HighlightCalls(ids, on), [Changed(checked, newOptions)]);
    assert CountChanges([Changed(checked, newOptions)]) == 1 by {
      assert [Changed(checked, newOptions)][..0] == [];
    }
  }

  /** In a click's call sequence the item-state calls come first and the `onChange` last. */
  lemma ClickCallsOrder(before: seq<Call>, ids: seq<NodeId>, on: bool, checked: LegendOption, newOptions: seq<LegendOption>)
    ensures |HighlightCalls(ids, on)| == 2 * |ids|
    ensures forall k :: |before| <= k < |before| + 2 * |ids| ==>
              (before + HighlightCalls(ids, on) + [Changed(checked, newOptions)])[k].ItemStateSet?
    ensures (before + HighlightCalls(ids, on) + [Changed(checked, newOptions)])[|before| + 2 * |ids|]
            == Changed(checked, newOptions)
  {
    HighlightCallsLength(ids, on);
    forall k | |before| <= k < |before| + 2 * |ids|
      ensures (before + HighlightCalls(ids, on) + [Changed(checked, newOptions)])[k].ItemStateSet?
    {
      HighlightCallsAt(ids, on, (k - |before|) / 2);
    }
  }

  /** The legend component: the context's data map, graph and theme mode are
      read from the latest context value; the option list is local state. */
  class LegendNode {
    var dataMap: map<string, seq<NodeId>>
    var graph: Graph
    var mode: Mode
    var options: seq<LegendOption>
    /** Every item-state and `onChange` call the component has made, in order. */
    ghost var calls: seq<Call>

    /** Mounting copies the default options into local state. */
    constructor (defaults: seq<LegendOption>, dataMap: map<string, seq<NodeId>>, graph: Graph, mode: Mode)
      ensures options == defaults
      ensures this.dataMap == dataMap && this.graph == graph && this.mode == mode
      ensures calls == []
    {
      this.dataMap := dataMap;
      this.graph := graph;
      this.mode := mode;
      options := defaults;
      calls := [];
    }

    /** A re-render with a new context value: the data map, graph and theme mode
        are read again, while the local option list and the call log are kept. */
    method SetContext(dataMap: map<string, seq<NodeId>>, graph: Graph, mode: Mode)
      modifies this
      ensures this.dataMap == dataMap && this.graph == graph && this.mode == mode
      ensures options == old(options) && calls == old(calls)
    {
      this.dataMap := dataMap;
      this.graph := graph;
      this.mode := mode;
    }

    /** New default options replace the local list wholesale; earlier toggles are lost. */
    method Sync(defaults: seq<LegendOption>)
      modifies this
      ensures options == defaults
      ensures calls == old(calls)
      ensures dataMap == old(dataMap) && graph == old(graph) && mode == old(mode)
      ensures graph.itemStates == old(graph.itemStates)
    {
      options := defaults;
    }

    /** The items currently drawn. */
    function Items(): (items: seq<Item>)
      reads this
      ensures |items| == |options|
    {
      Render(mode, options)
    }

    /** A click on `option`: the local list gets the toggled entry, every node the
        data map lists for its value gets the new highlight, then `onChange`
        is reported once. */
    method Click(option: LegendOption)
      requires option.value in dataMap
      modifies this, graph
      ensures dataMap == old(dataMap) && graph == old(graph) && mode == old(mode)
      ensures options == ToggleList(old(options), option)
      ensures graph.itemStates == Highlighted(old(graph.itemStates), dataMap[option.value], !IsChecked(option))
      ensures forall id :: id in dataMap[option.value] ==>
                && (id, ACTIVE) in graph.itemStates && graph.itemStates[(id, ACTIVE)] == IsChecked(Toggled(option))
                && (id, INACTIVE) in graph.itemStates && graph.itemStates[(id, INACTIVE)] == !IsChecked(Toggled(option))
      ensures forall key: ItemKey :: key.0 !in dataMap[option.value] || (key.1 != ACTIVE && key.1 != INACTIVE) ==>
                && (key in graph.itemStates <==> key in old(graph.itemStates))
                && (key in old(graph.itemStates) ==> graph.itemStates[key] == old(graph.itemStates)[key])
      ensures calls == old(calls) + HighlightCalls(dataMap[option.value], !IsChecked(option))
                       + [Changed(Toggled(option), options)]
      ensures CountChanges(calls) == CountChanges(old(calls)) + 1
    {
      var checkedValue := Toggled(option);
      var on := !IsChecked(option);
      var result := ToggleList(options, option);
      options := result;
      var nodes := dataMap[checkedValue.value];
      var i := 0;
      while i < |nodes|
        invariant 0 <= i <= |nodes|
        invariant options == result
        invariant dataMap == old(dataMap) && graph == old(graph) && mode == old(mode)
        invariant graph.itemStates == Highlighted(old(graph.itemStates), nodes[..i], on)
        invariant calls == old(calls) + HighlightCalls(nodes[..i], on)
      {
        assert nodes[..i + 1][..i] == nodes[..i];
        graph.SetItemState(nodes[i], ACTIVE, on);
        graph.SetItemState(nodes[i], INACTIVE, !on);
        calls := calls + [ItemStateSet(nodes[i], ACTIVE, on), ItemStateSet(nodes[i], INACTIVE, !on)];
        i := i + 1;
      }
      assert nodes[..i] == nodes;
      calls := calls + [Changed(checkedValue, result)];

      ghost var before := old(graph.itemStates);
      forall id | id in nodes
        ensures (id, ACTIVE) in graph.itemStates && graph.itemStates[(id, ACTIVE)] == on
        ensures (id, INACTIVE) in graph.itemStates && graph.itemStates[(id, INACTIVE)] == !on
      {
        HighlightedListed(before, nodes, on, id);
      }
      forall key: ItemKey | key.0 !in nodes || (key.1 != ACTIVE && key.1 != INACTIVE)
        ensures key in graph.itemStates <==> key in before
        ensures key in before ==> graph.itemStates[key] == before[key]
      {
        HighlightedOthers(before, nodes, on, key);
      }
      ClickCallsOneChange(old(calls), nodes, on, checkedValue, result);
    }
  }

  /** A client: clicking the unchecked entry `a` highlights its node `n1` only. */
  method ClickExample() {
    var a := LegendOption("A", "#f00", "a", Some(false));
    var b := LegendOption("B", "#0f0", "b", Some(true));
    var g := new Graph(map[]);
    var legend := new LegendNode([a, b], map["a" := ["n1"], "b" := ["n2"]], g, Light);
    legend.Click(a);
    ToggleListExample();
    assert legend.options == [a.(checked := Some(true)), b];
    assert g.itemStates[("n1", ACTIVE)] && !g.itemStates[("n1", INACTIVE)];
    assert ("n2", ACTIVE) !in g.itemStates;
    assert legend.calls[|legend.calls| - 1] == Changed(a.(checked := Some(true)), legend.options);

    // The context changes: a new option `c` with its own data map, and the dark theme.
    var c := LegendOption("C", "#00f", "c", None);
    legend.SetContext(map["c" := ["n3"]], g, Dark);
    legend.Sync([c]);
    assert legend.Items()[0].dot == "#2f2f2f";
    legend.Click(c);
    assert g.itemStates[("n3", ACTIVE)];
    assert legend.Items()[0].dot == "#00f" && legend.Items()[0].labelColor == "#fff";
  }
}
