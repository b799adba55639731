/** How a tab obtains its value.  The hook hands the sibling registrar either the
    caller's value or `tabValueGenerator`; the registrar calls the generator with
    the set of values its siblings already use (packages/mui-base/src/useTab/useTab.ts:39).
    The registrar itself (ordering, duplicate detection, removal) is not part of
    this model; `RegisteredValue` is only the interface it offers the hook. */
module TabRegistration {
  import opened JsValues

  /** `tabValueGenerator`: the number of values siblings already use. */
  function TabValueGenerator(otherTabValues: set<TabValue>): nat {
    |otherTabValues|
  }

  /** What the hook passes as the first argument of the registrar. */
  datatype ItemIdArg = Fixed(value: TabValue) | UseTabValueGenerator

  /** `valueParam ?? tabValueGenerator` */
  function CompoundItemArgument(valueParam: JsOptional): (arg: ItemIdArg)
    ensures arg.UseTabValueGenerator? <==> valueParam.IsNullish()
    ensures arg.Fixed? ==> valueParam == Value(arg.value)
  {
    if valueParam.IsNullish() then UseTabValueGenerator else Fixed(valueParam.v)
  }

  /** The value the registrar records for an argument, given the values its
      other items hold: a fixed value as it is, otherwise the generator's result. */
  function RegisteredValue(arg: ItemIdArg, otherTabValues: set<TabValue>): TabValue {
    match arg
    case Fixed(v) => v
    case UseTabValueGenerator => NumValue(TabValueGenerator(otherTabValues))
  }

  /** The generated value depends only on how many values are in use, not on which. */
  lemma GeneratorDependsOnlyOnCount(a: set<TabValue>, b: set<TabValue>)
    requires |a| == |b|
    ensures RegisteredValue(UseTabValueGenerator, a) == RegisteredValue(UseTabValueGenerator, b)
    ensures RegisteredValue(UseTabValueGenerator, a) == NumValue(|a|)
  {
  }

  /** A supplied value is registered whatever the siblings hold, including the
      falsy values `0` and `""`: `??` only replaces `null` and `undefined`. */
  lemma SuppliedValueIsRegistered(valueParam: JsOptional, otherTabValues: set<TabValue>)
    requires !valueParam.IsNullish()
    ensures RegisteredValue(CompoundItemArgument(valueParam), otherTabValues) == valueParam.v
  {
  }

  /** Nullish `value` parameters, and only they, are replaced by the generator. */
  lemma NullishValueIsGenerated(valueParam: JsOptional, otherTabValues: set<TabValue>)
    requires valueParam.IsNullish()
    ensures RegisteredValue(CompoundItemArgument(valueParam), otherTabValues) == NumValue(|otherTabValues|)
  {
  }

  /** `??` differs from `||` exactly on the falsy values that are not nullish:
      with `||`, a tab given the value `0` or `""` would have been generated. */
  lemma CoalesceKeepsFalsyValues(valueParam: JsOptional)
    requires !Truthy(valueParam) && !valueParam.IsNullish()
    ensures CompoundItemArgument(valueParam) == Fixed(valueParam.v)
    ensures valueParam == Value(NumValue(0)) || valueParam == Value(StrValue(""))
  {
  }

  /** The numbers `0 .. n-1` as tab values. */
  function NumRange(n: nat): set<TabValue> {
    set i | 0 <= i < n :: NumValue(i)
  }

  lemma {:induction false} NumRangeSize(n: nat)
    ensures |NumRange(n)| == n
  {
    if n > 0 {
      NumRangeSize(n - 1);
      assert NumRange(n) == NumRange(n - 1) + {NumValue(n - 1)};
      assert NumValue(n - 1) !in NumRange(n - 1);
    }
  }

  /** When the values in use are exactly `0 .. n-1`, the generator yields `n`,
      which is not yet in use. */
  lemma GeneratedValueIsFreshOnContiguousValues(n: nat)
    ensures RegisteredValue(UseTabValueGenerator, NumRange(n)) == NumValue(n)
    ensures NumValue(n) !in NumRange(n)
  {
    NumRangeSize(n);
  }

  /** The set of values held by a sequence of registered tabs. */
  function ValuesOf(values: seq<TabValue>): set<TabValue> {
    set i | 0 <= i < |values| :: values[i]
  }

  /** Values of `n` tabs, none given a value, registered one after another, each
      seeing the values of those before it: `0, 1, ..., n-1`. */
  function GenerateInOrder(n: nat): (values: seq<TabValue>)
    ensures |values| == n
    ensures forall i :: 0 <= i < n ==> values[i] == NumValue(i)
  {
    if n == 0 then []
    else
      var before := GenerateInOrder(n - 1);
      assert ValuesOf(before) == NumRange(n - 1);
      GeneratedValueIsFreshOnContiguousValues(n - 1);
      before + [RegisteredValue(CompoundItemArgument(JsUndefined), ValuesOf(before))]
  }

  /** Generated values assigned in order are pairwise distinct. */
  lemma GeneratedInOrderAreDistinct(n: nat, i: nat, j: nat)
    requires i < j < n
    ensures GenerateInOrder(n)[i] != GenerateInOrder(n)[j]
  {
  }

  /** Size-based generation can reuse a value still in use: tabs 0, 1, 2, the tab
      holding 1 unmounts, and a newly mounted tab is generated the value 2 of the
      third tab.  Nothing in the hook prevents this. */
  lemma GeneratedValueCanCollideAfterUnmount()
    ensures var remaining := ValuesOf(GenerateInOrder(3)) - {NumValue(1)};
      remaining == {NumValue(0), NumValue(2)} &&
      RegisteredValue(UseTabValueGenerator, remaining) in remaining
  {
    var remaining := ValuesOf(GenerateInOrder(3)) - {NumValue(1)};
    assert GenerateInOrder(3) == [NumValue(0), NumValue(1), NumValue(2)];
    assert remaining == {NumValue(0), NumValue(2)};
  }
}
