# useTab: a Dafny model of the MUI Base tab hook

`useTab` builds one tab of a tab list. It gets its parts from three other hooks:

- `useCompoundItem` registers the tab among its siblings and returns its value, index and the sibling count.
- `useListItem` handles roving focus and reports `highlighted` and `selected`.
- `useButton` handles press and focus state.

The hook itself does five things:

1. It resolves the tab's value: the caller's `value`, or `tabValueGenerator` when that is `null` or `undefined`.
2. It configures the button with `focusableWhenDisabled = !selectionFollowsFocus`.
3. It looks up the panel id only when the value is defined.
4. It merges props: the caller's handlers, then the list item's props, then the button's props, then five fixed attributes.
5. It returns the upstream state, with `selected` falling back to a direct comparison against the tabs context.

The model is pure, like the source:

- `js_values.dfy` (module `JsValues`): tab values (`string | number`), `null` and `undefined`, and JavaScript truthiness.
- `props_merge.dfy` (module `PropsMerge`): props objects as `map<string, PropVal>`. Object spread `{...a, ...b}` is the right-biased union `a + b`. `Spread` folds any number of layers left to right. Its lemmas prove that each key takes its value from the last layer that has it.
- `tab_registration.dfy` (module `TabRegistration`):
  - `tabValueGenerator`.
  - The `valueParam ?? tabValueGenerator` argument handed to the registrar.
  - The registrar's interface: a fixed value is registered as is, and the generator gets the set of values siblings already use.
  - What size-based generation yields when tabs register one after another.
- `use_tab.dfy` (module `UseTab`): the hook. The upstream hooks and utilities are function-valued fields of `Hooks` and are never interpreted: `useId`, `useCompoundItem`, `useListItem`, `useButton` and `useForkRef`. The tabs context is a `TabsContext` value whose `getTabPanelId` is uninterpreted as well. `UseTab` returns a record whose `getRootProps` is a function of the optional caller handlers, just as in the source.

A JavaScript `===` between tab values, `null` and `undefined` is Dafny's `==` on `JsOptional`, because numbers are integers here.

## Model

| member | source | states |
|---|---|---|
| TabRegistration.GeneratorDependsOnlyOnCount | packages/mui-base/src/useTab/useTab.ts:11-13 | the generated value is the number of sibling values in use; two sets of equal size give the same value |
| TabRegistration.GeneratedValueIsFreshOnContiguousValues | packages/mui-base/src/useTab/useTab.ts:11-13 | when siblings hold exactly 0..n-1, the generator yields n, which no sibling holds |
| TabRegistration.GenerateInOrder | packages/mui-base/src/useTab/useTab.ts:11-13 | n tabs without a value, registered one after another, get the values 0, 1, ..., n-1 |
| TabRegistration.GeneratedInOrderAreDistinct | packages/mui-base/src/useTab/useTab.ts:11-13 | values generated in registration order are pairwise distinct |
| TabRegistration.GeneratedValueCanCollideAfterUnmount | packages/mui-base/src/useTab/useTab.ts:11-13 | after tab 1 of 0,1,2 unmounts, a new tab is generated 2, a value still held by a sibling |
| TabRegistration.CompoundItemArgument | packages/mui-base/src/useTab/useTab.ts:39 | the registrar gets the generator iff the value parameter is null or undefined, and the value itself otherwise |
| TabRegistration.SuppliedValueIsRegistered | packages/mui-base/src/useTab/useTab.ts:39 | a supplied value is registered unchanged, whatever the siblings hold |
| TabRegistration.NullishValueIsGenerated | packages/mui-base/src/useTab/useTab.ts:39 | for a null or undefined value parameter, the registered value is the count of sibling values |
| TabRegistration.CoalesceKeepsFalsyValues | packages/mui-base/src/useTab/useTab.ts:39 | the falsy non-nullish values (0 and "") are kept, which `\|\|` would have replaced |
| UseTab.RegistrarReceivesValueOrGenerator | packages/mui-base/src/useTab/useTab.ts:33-39 | index and totalTabsCount come from the registrar called with `value ?? generator` and the tab's metadata |
| UseTab.ResolvedDisabled | packages/mui-base/src/useTab/useTab.ts:26 | `disabled` is true only when passed as true; omitted means false |
| UseTab.ButtonConfig | packages/mui-base/src/useTab/useTab.ts:56-60 | the button gets `disabled`, type "button", and `focusableWhenDisabled` exactly when selection does not follow focus |
| UseTab.TabPanelId | packages/mui-base/src/useTab/useTab.ts:64 | undefined for an undefined value, otherwise exactly `getTabPanelId(value)` |
| UseTab.UnregisteredTabHasNoPanel | packages/mui-base/src/useTab/useTab.ts:64 | for a tab whose value is undefined, `aria-controls` is undefined and the panel lookup does not affect the root props |
| UseTab.HandlersOrEmpty | packages/mui-base/src/useTab/useTab.ts:66-67 | no argument means the empty handler map |
| UseTab.MergeContribution | packages/mui-base/src/useTab/useTab.ts:69-77 | one spread step: the keys of the base and of the contributor's output; the contributor's value wins, base keys it lacks pass through |
| UseTab.FixedAttributes | packages/mui-base/src/useTab/useTab.ts:79-86 | the last layer has exactly role, aria-controls, aria-selected, id and ref |
| UseTab.GetRootProps | packages/mui-base/src/useTab/useTab.ts:66-87 | the five fixed attributes always win; otherwise button beats list item, which beats caller; the keys are the union of all layers |
| UseTab.GetRootPropsIsLayeredSpread | packages/mui-base/src/useTab/useTab.ts:69-86 | the nested spreads equal one flat spread of caller, list item, button and fixed layers |
| PropsMerge.SpreadLastWriterWins | packages/mui-base/src/useTab/useTab.ts:69-86 | a spread has exactly the keys of its layers, and each key's value is that of the last layer holding it |
| UseTab.TabContributorSeesCallerHandlers | packages/mui-base/src/useTab/useTab.ts:71 | `getTabProps` sees only the caller's handlers: list-item contributors that agree there give the same root props |
| UseTab.ButtonContributorSeesResolvedTabProps | packages/mui-base/src/useTab/useTab.ts:76 | `getButtonProps` sees only the merged tab props: button contributors that agree there give the same root props |
| UseTab.UseTab | packages/mui-base/src/useTab/useTab.ts:25-102 | index, totalTabsCount, highlighted, active, focusVisible and setFocusVisible pass through; rootRef is the forked ref of the four refs; selected is `listItem.selected \|\| value === selectedValue`; getRootProps closes over the list item's and button's contributors |
| UseTab.RootPropsFixedAttributes | packages/mui-base/src/useTab/useTab.ts:79-86 | for any handlers: role is "tab", aria-controls is the panel id, aria-selected is the list item's flag (not the fallback), id is the resolved id, and ref is the returned rootRef |
| UseTab.RootPropsMergePrecedence | packages/mui-base/src/useTab/useTab.ts:69-78 | for every non-fixed key: button over list item over caller, and caller-only keys pass through |
| UseTab.RootPropsDefaultArgument | packages/mui-base/src/useTab/useTab.ts:66-67 | `getRootProps()` equals `getRootProps({})` |
| UseTab.SelectedFallsBackToContext | packages/mui-base/src/useTab/useTab.ts:96-98 | when the value matches the context but the list item is not yet selected, `selected` is true while `aria-selected` is false |
| UseTab.SelectedIsListItemOrContextMatch | packages/mui-base/src/useTab/useTab.ts:98 | `selected` is never false when the list item is selected; otherwise it is exactly `value === selectedValue` |

## Left out

- `useCompoundItem`, `useListItem`, `useButton`, `useId` and `useForkRef` are not part of this model. They are uninterpreted functions of their arguments. Registration order, deregistration, duplicate-value errors, roving focus, press state and the ref fan-out belong to them.
- `useTabsContext`, `React.useRef` and `React.useMemo` only supply values. The context is an input, and the tab's own ref is an opaque token (`tabRef`).
- Handler chaining (which merged handler runs first, stop signals) happens inside the contributors. The model only says which object's value ends up under each key.
- Running handlers, DOM events, server rendering, hydration and effect timing are runtime behaviour. Only their visible consequence is modelled: the `selected` fallback.
- Stability of generated values across sibling unmounts is not promised by this file. The model instead exhibits the reuse case (`GeneratedValueCanCollideAfterUnmount`).
- `RegisteredValue` models only the registrar's interface (generator applied to the values siblings use). How and when the registrar calls it is not modelled.
- JavaScript numbers are modelled as integers. The generator only produces integers; a caller value such as `NaN`, for which `===` is not reflexive, is outside the model.
- TypeScript's generic `TOther` typing of `getRootProps` is not modelled. Every props object is a `map<string, PropVal>`.
