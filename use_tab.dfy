/** The `useTab` hook (packages/mui-base/src/useTab/useTab.ts).  A tab is composed
    from three upstream hooks (sibling registration, list navigation, button
    interaction) and the tabs context.  The upstream hooks, the id and ref
    utilities and the context are uninterpreted: they are function-valued fields
    of `Hooks` and `TabsContext`, and the model states only what this file does
    with what they return. */
module UseTab {
  import opened JsValues
  import opened PropsMerge
  import opened TabRegistration

  /** Identity of a callback (`setFocusVisible`); what it does belongs to the button hook. */
  type CallbackToken = nat

  datatype UseTabParameters = UseTabParameters(
    value: JsOptional,
    rootRef: Option<RefToken>,
    disabled: Option<bool>,
    id: Option<string>)

  /** What `useTabsContext()` supplies. */
  datatype TabsContext = TabsContext(
    value: JsOptional,
    selectionFollowsFocus: bool,
    getTabPanelId: JsOptional -> Option<string>)

  datatype TabMetadata = TabMetadata(disabled: bool, ref: RefToken, id: Option<string>)

  /** What the sibling registrar (`useCompoundItem`) returns; `id` is the tab's value. */
  datatype CompoundItem = CompoundItem(id: JsOptional, index: int, totalItemCount: nat)

  /** What `useListItem` returns. */
  datatype ListItem = ListItem(
    getRootProps: Props -> Props,
    rootRef: RefToken,
    highlighted: bool,
    selected: bool)

  datatype ButtonParameters = ButtonParameters(disabled: bool, focusableWhenDisabled: bool, buttonType: string)

  /** What `useButton` returns. */
  datatype Button = Button(
    getRootProps: Props -> Props,
    rootRef: RefToken,
    active: bool,
    focusVisible: bool,
    setFocusVisible: CallbackToken)

  /** The hooks and utilities `useTab` calls, as functions of their arguments. */
  datatype Hooks = Hooks(
    useId: Option<string> -> Option<string>,
    useCompoundItem: (ItemIdArg, TabMetadata) -> CompoundItem,
    useListItem: JsOptional -> ListItem,
    useButton: ButtonParameters -> Button,
    useForkRef: (RefToken, Option<RefToken>, RefToken, RefToken) -> RefToken)

  datatype UseTabReturnValue = UseTabReturnValue(
    getRootProps: Option<Props> -> Props,
    active: bool,
    focusVisible: bool,
    highlighted: bool,
    index: int,
    rootRef: RefToken,
    selected: bool,
    setFocusVisible: CallbackToken,
    totalTabsCount: nat)

  /** The attribute names `getRootProps` sets last. */
  const FIXED_KEYS: set<string> := {"role", "aria-controls", "aria-selected", "id", "ref"}

  /** `disabled = false` in the parameter destructuring. */
  function ResolvedDisabled(disabled: Option<bool>): (d: bool)
    ensures d <==> disabled == Some(true)
  {
    match disabled
    case Some(b) => b
    case None => false
  }

  /** The configuration handed to `useButton`. */
  function ButtonConfig(disabled: bool, selectionFollowsFocus: bool): (c: ButtonParameters)
    ensures c.focusableWhenDisabled <==> !selectionFollowsFocus
    ensures c.disabled == disabled && c.buttonType == "button"
  {
    ButtonParameters(disabled, !selectionFollowsFocus, "button")
  }

  /** The panel id is looked up only for a tab whose value is not `undefined`. */
  function TabPanelId(value: JsOptional, getTabPanelId: JsOptional -> Option<string>): (r: Option<string>)
    ensures value == JsUndefined ==> r == None
    ensures value != JsUndefined ==> r == getTabPanelId(value)
  {
    if value != JsUndefined then getTabPanelId(value) else None
  }

  /** The five attributes spread last into the root props. */
  function FixedAttributes(tabPanelId: Option<string>, selected: bool, id: Option<string>, handleRef: RefToken): (f: Props)
    ensures f.Keys == FIXED_KEYS
  {
    map[
      "role" := StringProp("tab"),
      "aria-controls" := StringOrUndefined(tabPanelId),
      "aria-selected" := BoolProp(selected),
      "id" := StringOrUndefined(id),
      "ref" := RefProp(handleRef)]
  }

  /** `{...base, ...contribute(base)}`: a contributor sees `base` and its props
      override those of `base`.  Used for `resolvedTabProps` (the list item over the
      caller's handlers) and `resolvedButtonProps` (the button over `resolvedTabProps`). */
  function MergeContribution(contribute: Props -> Props, base: Props): (r: Props)
    ensures r.Keys == base.Keys + contribute(base).Keys
    ensures forall k :: k in contribute(base) ==> r[k] == contribute(base)[k]
    ensures forall k :: k in base && k !in contribute(base) ==> r[k] == base[k]
  {
    base + contribute(base)
  }

  /** The caller's handlers; `getRootProps()` without an argument uses `{}`. */
  function HandlersOrEmpty(otherHandlers: Option<Props>): (h: Props)
    ensures otherHandlers.None? ==> h == map[]
    ensures otherHandlers.Some? ==> h == otherHandlers.value
  {
    match otherHandlers
    case Some(handlers) => handlers
    case None => map[]
  }

  /** The tab's `getRootProps`, given the two contributors and the values it closes over.
      The five fixed attributes always win; otherwise the button contributor beats
      the list-item contributor, which beats the caller. */
  function GetRootProps(
    getTabProps: Props -> Props, getButtonProps: Props -> Props,
    tabPanelId: Option<string>, selected: bool, id: Option<string>, handleRef: RefToken,
    otherHandlers: Option<Props>): (r: Props)
    ensures "role" in r && r["role"] == StringProp("tab")
    ensures "aria-controls" in r && r["aria-controls"] == StringOrUndefined(tabPanelId)
    ensures "aria-selected" in r && r["aria-selected"] == BoolProp(selected)
    ensures "id" in r && r["id"] == StringOrUndefined(id)
    ensures "ref" in r && r["ref"] == RefProp(handleRef)
    ensures var h := HandlersOrEmpty(otherHandlers);
      var tabProps := getTabProps(h);
      var buttonProps := getButtonProps(h + tabProps);
      && r.Keys == h.Keys + tabProps.Keys + buttonProps.Keys + FIXED_KEYS
      && (forall k :: k !in FIXED_KEYS && k in buttonProps ==> r[k] == buttonProps[k])
      && (forall k :: k !in FIXED_KEYS && k !in buttonProps && k in tabProps ==> r[k] == tabProps[k])
      && (forall k :: k !in FIXED_KEYS && k !in buttonProps && k !in tabProps && k in h ==> r[k] == h[k])
  {
    var resolvedTabProps := MergeContribution(getTabProps, HandlersOrEmpty(otherHandlers));
    var resolvedButtonProps := MergeContribution(getButtonProps, resolvedTabProps);
    resolvedButtonProps + FixedAttributes(tabPanelId, selected, id, handleRef)
  }

  /** The nested spreads of `getRootProps` are one flat spread of four layers
      (caller, list item, button, fixed attributes), so every key takes its value
      from the last of those layers that has it. */
  lemma GetRootPropsIsLayeredSpread(
    getTabProps: Props -> Props, getButtonProps: Props -> Props,
    tabPanelId: Option<string>, selected: bool, id: Option<string>, handleRef: RefToken,
    otherHandlers: Option<Props>)
    ensures var h := HandlersOrEmpty(otherHandlers);
      var tabProps := getTabProps(h);
      var buttonProps := getButtonProps(h + tabProps);
      GetRootProps(getTabProps, getButtonProps, tabPanelId, selected, id, handleRef, otherHandlers)
        == Spread([h, tabProps, buttonProps, FixedAttributes(tabPanelId, selected, id, handleRef)])
  {
    var h := HandlersOrEmpty(otherHandlers);
    var tabProps := getTabProps(h);
    var buttonProps := getButtonProps(h + tabProps);
    var fixed := FixedAttributes(tabPanelId, selected, id, handleRef);
    var layers := [h, tabProps, buttonProps, fixed];
    assert map[] + h == h;
    calc {
      Spread(layers);
      SpreadOnto(map[] + h, layers[1..]);
      { assert layers[1..][1..] == [buttonProps, fixed]; }
      SpreadOnto(h + tabProps, [buttonProps, fixed]);
      { assert [buttonProps, fixed][1..] == [fixed]; }
      SpreadOnto(h + tabProps + buttonProps, [fixed]);
      h + tabProps + buttonProps + fixed;
    }
  }

  /** `getButtonProps` sees only the merged `resolvedTabProps`: contributors that
      agree there give the same root props, whatever they do elsewhere. */
  lemma ButtonContributorSeesResolvedTabProps(
    getTabProps: Props -> Props, getButtonProps1: Props -> Props, getButtonProps2: Props -> Props,
    tabPanelId: Option<string>, selected: bool, id: Option<string>, handleRef: RefToken,
    otherHandlers: Option<Props>)
    requires var resolved := MergeContribution(getTabProps, HandlersOrEmpty(otherHandlers));
      getButtonProps1(resolved) == getButtonProps2(resolved)
    ensures GetRootProps(getTabProps, getButtonProps1, tabPanelId, selected, id, handleRef, otherHandlers)
         == GetRootProps(getTabProps, getButtonProps2, tabPanelId, selected, id, handleRef, otherHandlers)
  {
  }

  /** `getTabProps` sees only the caller's handlers, unchanged. */
  lemma TabContributorSeesCallerHandlers(
    getTabProps1: Props -> Props, getTabProps2: Props -> Props, getButtonProps: Props -> Props,
    tabPanelId: Option<string>, selected: bool, id: Option<string>, handleRef: RefToken,
    otherHandlers: Option<Props>)
    requires getTabProps1(HandlersOrEmpty(otherHandlers)) == getTabProps2(HandlersOrEmpty(otherHandlers))
    ensures GetRootProps(getTabProps1, getButtonProps, tabPanelId, selected, id, handleRef, otherHandlers)
         == GetRootProps(getTabProps2, getButtonProps, tabPanelId, selected, id, handleRef, otherHandlers)
  {
  }

  /** `useTab` */
  function UseTab(parameters: UseTabParameters, context: TabsContext, hooks: Hooks, tabRef: RefToken): (r: UseTabReturnValue)
    ensures var disabled := parameters.disabled == Some(true);
      var id := hooks.useId(parameters.id);
      var item := hooks.useCompoundItem(CompoundItemArgument(parameters.value), TabMetadata(disabled, tabRef, id));
      var listItem := hooks.useListItem(item.id);
      var button := hooks.useButton(ButtonParameters(disabled, !context.selectionFollowsFocus, "button"));
      && r.index == item.index
      && r.totalTabsCount == item.totalItemCount
      && r.highlighted == listItem.highlighted
      && r.active == button.active
      && r.focusVisible == button.focusVisible
      && r.setFocusVisible == button.setFocusVisible
      && r.rootRef == hooks.useForkRef(tabRef, parameters.rootRef, listItem.rootRef, button.rootRef)
      && r.selected == (listItem.selected || item.id == context.value)
      && (forall h :: r.getRootProps(h) == GetRootProps(listItem.getRootProps, button.getRootProps,
            TabPanelId(item.id, context.getTabPanelId), listItem.selected, id, r.rootRef, h))
  {
    var disabled := ResolvedDisabled(parameters.disabled);
    var id := hooks.useId(parameters.id);
    var tabMetadata := TabMetadata(disabled, tabRef, id);
    var item := hooks.useCompoundItem(CompoundItemArgument(parameters.value), tabMetadata);
    var listItem := hooks.useListItem(item.id);
    var button := hooks.useButton(ButtonConfig(disabled, context.selectionFollowsFocus));
    var handleRef := hooks.useForkRef(tabRef, parameters.rootRef, listItem.rootRef, button.rootRef);
    var tabPanelId := TabPanelId(item.id, context.getTabPanelId);
    UseTabReturnValue(
      getRootProps := otherHandlers =>
        GetRootProps(listItem.getRootProps, button.getRootProps, tabPanelId, listItem.selected, id, handleRef, otherHandlers),
      active := button.active,
      focusVisible := button.focusVisible,
      highlighted := listItem.highlighted,
      index := item.index,
      rootRef := handleRef,
      selected := listItem.selected || item.id == context.value,
      setFocusVisible := button.setFocusVisible,
      totalTabsCount := item.totalItemCount)
  }

  /** For any caller handlers, the root props carry the five fixed attributes,
      whatever the caller or either contributor put under those names: the role
      `tab`, the panel relation, the list item's own `selected` flag (not the
      fallback), the resolved id, and the same combined ref returned as `rootRef`. */
  lemma RootPropsFixedAttributes(parameters: UseTabParameters, context: TabsContext, hooks: Hooks, tabRef: RefToken, otherHandlers: Option<Props>)
    ensures var r := UseTab(parameters, context, hooks, tabRef);
      var item := hooks.useCompoundItem(CompoundItemArgument(parameters.value),
        TabMetadata(parameters.disabled == Some(true), tabRef, hooks.useId(parameters.id)));
      var props := r.getRootProps(otherHandlers);
      && props["role"] == StringProp("tab")
      && props["aria-controls"] == StringOrUndefined(TabPanelId(item.id, context.getTabPanelId))
      && props["aria-selected"] == BoolProp(hooks.useListItem(item.id).selected)
      && props["id"] == StringOrUndefined(hooks.useId(parameters.id))
      && props["ref"] == RefProp(r.rootRef)
  {
  }

  /** Precedence for every other key: button contributor over list-item
      contributor over caller, a caller key neither contributor produces passing
      through unchanged. */
  lemma RootPropsMergePrecedence(parameters: UseTabParameters, context: TabsContext, hooks: Hooks, tabRef: RefToken, handlers: Props, k: string)
    requires k !in FIXED_KEYS
    ensures var r := UseTab(parameters, context, hooks, tabRef);
      var disabled := parameters.disabled == Some(true);
      var item := hooks.useCompoundItem(CompoundItemArgument(parameters.value),
        TabMetadata(disabled, tabRef, hooks.useId(parameters.id)));
      var tabProps := hooks.useListItem(item.id).getRootProps(handlers);
      var buttonProps := hooks.useButton(ButtonParameters(disabled, !context.selectionFollowsFocus, "button")).getRootProps(handlers + tabProps);
      var props := r.getRootProps(Some(handlers));
      && (k in props <==> k in handlers || k in tabProps || k in buttonProps)
      && (k in buttonProps ==> props[k] == buttonProps[k])
      && (k !in buttonProps && k in tabProps ==> props[k] == tabProps[k])
      && (k !in buttonProps && k !in tabProps && k in handlers ==> props[k] == handlers[k])
  {
  }

  /** `getRootProps()` behaves exactly like `getRootProps({})`. */
  lemma RootPropsDefaultArgument(parameters: UseTabParameters, context: TabsContext, hooks: Hooks, tabRef: RefToken)
    ensures var r := UseTab(parameters, context, hooks, tabRef);
      r.getRootProps(None) == r.getRootProps(Some(map[]))
  {
  }

  /** The returned `selected` is true whenever the tab's value is the context's
      selected value, even while the list item's flag is still false (before its
      effects have run); `aria-selected` then still reports the list item's flag. */
  lemma SelectedFallsBackToContext(parameters: UseTabParameters, context: TabsContext, hooks: Hooks, tabRef: RefToken, otherHandlers: Option<Props>)
    requires var item := hooks.useCompoundItem(CompoundItemArgument(parameters.value),
        TabMetadata(parameters.disabled == Some(true), tabRef, hooks.useId(parameters.id)));
      item.id == context.value && !hooks.useListItem(item.id).selected
    ensures var r := UseTab(parameters, context, hooks, tabRef);
      r.selected && r.getRootProps(otherHandlers)["aria-selected"] == BoolProp(false)
  {
  }

  /** The returned `selected` is never false when the list item reports selected,
      and otherwise it is exactly `value === selectedValue`. */
  lemma SelectedIsListItemOrContextMatch(parameters: UseTabParameters, context: TabsContext, hooks: Hooks, tabRef: RefToken)
    ensures var r := UseTab(parameters, context, hooks, tabRef);
      var item := hooks.useCompoundItem(CompoundItemArgument(parameters.value),
        TabMetadata(parameters.disabled == Some(true), tabRef, hooks.useId(parameters.id)));
      var listItem := hooks.useListItem(item.id);
      && (listItem.selected ==> r.selected)
      && (!listItem.selected ==> (r.selected <==> item.id == context.value))
  {
  }

  /** A tab whose value is still `undefined` has an `undefined` panel relation,
      and the context's panel-id lookup is not consulted at all. */
  lemma UnregisteredTabHasNoPanel(parameters: UseTabParameters, context: TabsContext, lookup: JsOptional -> Option<string>,
    hooks: Hooks, tabRef: RefToken, otherHandlers: Option<Props>)
    requires hooks.useCompoundItem(CompoundItemArgument(parameters.value),
        TabMetadata(parameters.disabled == Some(true), tabRef, hooks.useId(parameters.id))).id == JsUndefined
    ensures var r := UseTab(parameters, context, hooks, tabRef);
      var r2 := UseTab(parameters, context.(getTabPanelId := lookup), hooks, tabRef);
      && r.getRootProps(otherHandlers)["aria-controls"] == UndefinedProp
      && r.getRootProps(otherHandlers) == r2.getRootProps(otherHandlers)
  {
  }

  /** A supplied value, `0` and `""` included, is what the hook hands the
      registrar; `null` and `undefined` hand it the value generator. */
  lemma RegistrarReceivesValueOrGenerator(parameters: UseTabParameters, context: TabsContext, hooks: Hooks, tabRef: RefToken)
    ensures var r := UseTab(parameters, context, hooks, tabRef);
      var meta := TabMetadata(parameters.disabled == Some(true), tabRef, hooks.useId(parameters.id));
      var arg := if parameters.value.IsNullish() then UseTabValueGenerator else Fixed(parameters.value.v);
      r.index == hooks.useCompoundItem(arg, meta).index
      && r.totalTabsCount == hooks.useCompoundItem(arg, meta).totalItemCount
  {
  }
}
