# Node legend of Graphin, modelled in Dafny

This project models the logic inside the node legend widget of Graphin's component
package (`packages/graphin-components/src/Legend/Node.tsx`). The widget keeps a local
copy of the legend options it gets from the Graphin context. Each option has a label,
a colour, a key `value` and an optional `checked` flag. Clicking an entry does four
things in order:

1. it toggles the entry's flag in a new option list;
2. it stores that list as the local state;
3. for every node that the context's `dataMap` lists under the entry's value, it
   writes the graph item states `active` and `inactive`;
4. it reports the change through `onChange`.

When the context's default options change, the local list is replaced by them.
Each entry is drawn with a dot colour and a label colour, picked from two tables
keyed by theme mode and by status.

- `legend.dfy`, module `Legend`: the value part. It holds the `LegendOption` record,
  the toggle (`Toggled`) and the list update (`ToggleList`), the two colour tables
  and `Render`, which gives one drawn item per option.
- `node_legend.dfy`, module `NodeLegend`: the stateful part.
  - The class `Graph` stands for the external graph handle. Its item-state table is a
    `map<(NodeId, string), bool>`, and `SetItemState` is an update of that map.
  - The class `LegendNode` is the component. The context's `dataMap`, `graph` and
    theme `mode` are fields that the constructor sets and `SetContext` replaces;
    `SetContext` stands for a re-render with a new context value. `options` is its
    local state.
  - The ghost field `calls` logs, in order, every item-state call and every
    `onChange` call the component makes.
  - `Click` and `Sync` are the click handler and the re-sync effect.
  - `ClickExample` is a client worked case. It clicks an unchecked entry, then switches
    the context to new options, a new data map and the dark theme, and clicks again.
  - `Highlighted` and `HighlightCalls` specify the final item-state table and the
    call sequence of the node loop.

The optional `checked` flag is an `Option<bool>`, and only `Some(true)` counts as
checked. So an entry whose flag is absent becomes `Some(true)` when it is clicked.
The field `label` is called `labelText`, because `label` is a Dafny keyword.

Two points of the code's behaviour are easy to misread:

- A click on a value that is not a key of `dataMap` is not a no-op. `dataMap.get`
  returns `undefined`, and the `forEach` that follows throws. So `Click` requires the
  key to be present. In that case the source has already queued the toggled list with
  `setState` (lines 52-54) before the throw, but it writes no item state and never
  calls `onChange`. `Click`'s requires leaves out that partial click.
- Values are not assumed to be unique. If several entries share the clicked value,
  every one of them is replaced by the toggled copy of the clicked option, as the
  `map` at lines 48-51 does. `ToggleListSingle` gives the "only this entry changes"
  reading for lists whose values are unique.

## Model

| member | source | states |
|---|---|---|
| `Legend.ToggledFlips` | packages/graphin-components/src/Legend/Node.tsx:47 | The toggled copy always has a flag, and the flag is the negation of the old truthiness (an absent flag becomes true). Label, colour and value are kept. |
| `Legend.ToggledTwice` | packages/graphin-components/src/Legend/Node.tsx:47 | Toggling twice restores the truthiness of the flag. It gives back the whole option when the flag was present. |
| `Legend.ToggleList` | packages/graphin-components/src/Legend/Node.tsx:48-51 | The new list has exactly as many entries as the current list. |
| `Legend.ToggleListAt` | packages/graphin-components/src/Legend/Node.tsx:47-51 | At each position, the new list holds the toggled clicked option if that entry's value matches, and the old entry otherwise. |
| `Legend.ToggleListKeepsOthers` | packages/graphin-components/src/Legend/Node.tsx:48-51 | Every entry whose value differs from the clicked value is unchanged at its index. |
| `Legend.ToggleListReplacesMatches` | packages/graphin-components/src/Legend/Node.tsx:47-50 | Every entry whose value matches, duplicates included, becomes the toggled clicked option, so its checked state is the negation of the clicked option's. |
| `Legend.ToggleListKeys` | packages/graphin-components/src/Legend/Node.tsx:48-51 | The values, and so the key order, are the same at every position. Unique values stay unique. |
| `Legend.ToggleListSingle` | packages/graphin-components/src/Legend/Node.tsx:46-51 | With unique values, clicking the entry at index k gives the old list with only position k replaced by its toggled copy. |
| `Legend.ToggleListTwice` | packages/graphin-components/src/Legend/Node.tsx:46-51 | When every entry with the clicked value equals the clicked option (as with unique values), clicking the updated entry again restores every entry's checked state, and restores the list itself if the clicked option had a flag. |
| `Legend.ToggleListExample` | packages/graphin-components/src/Legend/Node.tsx:46-51 | Worked case: for `[a unchecked, b checked]`, clicking `a` gives `[a checked, b]`. |
| `Legend.ColourTable` | packages/graphin-components/src/Legend/Node.tsx:74-94 | The active dot is the option's own colour in both modes. The inactive dot is `#ddd` (light) or `#2f2f2f` (dark), whatever the option's colour. The active label is `#000` or `#fff`. The inactive label equals the inactive dot. Active and inactive labels differ. |
| `Legend.Render` | packages/graphin-components/src/Legend/Node.tsx:72-113 | There is one item per option, in order, keyed by the option's value and carrying its label. A checked option's dot is its own colour and its label is the active colour of the mode. An unchecked option's dot and label are both the inactive colour of the mode. |
| `NodeLegend.Graph.SetItemState` | packages/graphin-components/src/Legend/Node.tsx:62-63 | Writing an item state changes exactly that (node, state) entry of the graph's table. |
| `NodeLegend.HighlightedListed` | packages/graphin-components/src/Legend/Node.tsx:61-64 | After the node loop, every listed node has `active` equal to the new flag and `inactive` equal to its negation. |
| `NodeLegend.HighlightedOthers` | packages/graphin-components/src/Legend/Node.tsx:61-64 | After the node loop, every entry for an unlisted node, or for a state other than `active`/`inactive`, is present and valued exactly as before. |
| `NodeLegend.HighlightCallsLength` | packages/graphin-components/src/Legend/Node.tsx:61-64 | The node loop makes two item-state calls per listed node. |
| `NodeLegend.HighlightCallsAt` | packages/graphin-components/src/Legend/Node.tsx:61-64 | For the j-th listed node, call 2j sets `active` to the new flag and call 2j+1 sets `inactive` to its negation, in list order. |
| `NodeLegend.HighlightCallsNoChange` | packages/graphin-components/src/Legend/Node.tsx:61-67 | The node loop never calls `onChange`. |
| `NodeLegend.ClickCallsOneChange` | packages/graphin-components/src/Legend/Node.tsx:61-67 | A click's call sequence (the node loop, then `onChange`) adds exactly one `onChange` to the log. |
| `NodeLegend.ClickCallsOrder` | packages/graphin-components/src/Legend/Node.tsx:61-67 | In a click's call sequence, the 2·n calls of the node loop are all item-state calls, and the `onChange` comes last. |
| `NodeLegend.LegendNode.constructor` | packages/graphin-components/src/Legend/Node.tsx:20-35 | On mount, the local options are the context's default options, and no call has been made yet. |
| `NodeLegend.LegendNode.SetContext` | packages/graphin-components/src/Legend/Node.tsx:21-32 | A new context value replaces the data map, the graph handle and the theme mode, which later clicks and drawn items use. The local options and the call log are kept. |
| `NodeLegend.LegendNode.Sync` | packages/graphin-components/src/Legend/Node.tsx:38-42 | New default options replace the local list exactly, which drops earlier toggles. The context fields, the graph and the call log are untouched. |
| `NodeLegend.LegendNode.Items` | packages/graphin-components/src/Legend/Node.tsx:72-113 | One item is drawn per local option. |
| `NodeLegend.LegendNode.Click` | packages/graphin-components/src/Legend/Node.tsx:46-68 | The value must be a key of `dataMap`. The local list becomes `ToggleList` of the old list. Every listed node gets `active` equal to the new flag and `inactive` equal to its negation, and no other graph entry changes. The log grows by the two item-state calls per node, in order, and then exactly one `onChange` with the toggled option and the new list. |

## Left out

- JSX output, CSS class names and the stylesheet import are not modelled. Only the keys, labels and two colours of each drawn item are, in `Render`.
- React's `useContext`, `useState` and `useEffect` are not modelled. The context values come in through the constructor and `SetContext`, and the effect is the explicit `Sync`, which the caller runs whenever the default options change.
- `setState` is modelled as an immediate assignment of the local list. React's batching and deferred re-rendering are not modelled.
- The graph object and `GraphinContext` are a foreign library. Only `setItemState` is kept, as a map update in `Graph`.
- The body of the user's `onChange` callback is not modelled: each call is an entry in the ghost log. Its third argument, the component's `props`, is not recorded, because it is an untyped pass-through.
- The commented-out `highlightNodeById` path is dead code and is not modelled.
- The click and key-down handlers both call the same click handler, so `Click` stands for both.
- Theme modes other than `light` and `dark` are not modelled: `Mode` has two values. An undefined mode would make the colour lookup fail.
- Node entries of `dataMap` are objects with an `id`. They are modelled by their ids only.
- `Legend.Toggled`, `Legend.StatusOf`, `Legend.DotColor` and `Legend.LabelColor` carry no contract of their own. What they promise is stated by `Legend.ToggledFlips`, `Legend.ToggledTwice`, `Legend.ColourTable` and `Legend.Render`.
- `Legend.ToggleList` states only the length in its own contract. The per-position contents are stated by `Legend.ToggleListAt` and the lemmas that build on it.
