/** Props objects and JavaScript object spread.  A props object is a finite map
    from attribute name to value; `{...a, ...b}` is the right-biased union `a + b`.
    A key whose value is `undefined` is still a key: spread copies it and it
    overrides an earlier value, which is why `UndefinedProp` is a value of its own. */
module PropsMerge {
  import opened JsValues

  type RefToken = nat

  datatype PropVal =
    | HandlerProp(handler: nat)
    | StringProp(s: string)
    | NumberProp(n: int)
    | BoolProp(b: bool)
    | RefProp(ref: RefToken)
    | UndefinedProp

  type Props = map<string, PropVal>

  /** A `string | undefined` placed in a props object. */
  function StringOrUndefined(o: Option<string>): (p: PropVal)
    ensures o.None? <==> p == UndefinedProp
    ensures o.Some? ==> p == StringProp(o.value)
  {
    match o
    case Some(s) => StringProp(s)
    case None => UndefinedProp
  }

  /** `{...acc, ...layers[0], ..., ...layers[n-1]}`, evaluated left to right. */
  function SpreadOnto(acc: Props, layers: seq<Props>): Props
    decreases |layers|
  {
    if |layers| == 0 then acc else SpreadOnto(acc + layers[0], layers[1..])
  }

  /** `{...layers[0], ..., ...layers[n-1]}` */
  function Spread(layers: seq<Props>): Props {
    SpreadOnto(map[], layers)
  }

  /** Layer `i` is the last of `layers` that has key `k`. */
  predicate LastWithKey(layers: seq<Props>, k: string, i: int) {
    0 <= i < |layers| && k in layers[i] && forall j :: i < j < |layers| ==> k !in layers[j]
  }

  /** A spread has exactly the keys of its accumulator and of its layers. */
  lemma {:induction false} SpreadOntoKeys(acc: Props, layers: seq<Props>, k: string)
    ensures k in SpreadOnto(acc, layers) <==> k in acc || exists i :: 0 <= i < |layers| && k in layers[i]
    decreases |layers|
  {
    if |layers| > 0 {
      SpreadOntoKeys(acc + layers[0], layers[1..], k);
      if exists i :: 0 <= i < |layers| && k in layers[i] {
        var i :| 0 <= i < |layers| && k in layers[i];
        if i > 0 {
          assert layers[1..][i - 1] == layers[i];
        }
      }
      if exists i :: 0 <= i < |layers| - 1 && k in layers[1..][i] {
        var i :| 0 <= i < |layers| - 1 && k in layers[1..][i];
        assert layers[i + 1] == layers[1..][i];
      }
    }
  }

  /** The last layer that has a key decides its value. */
  lemma {:induction false} SpreadOntoLastWins(acc: Props, layers: seq<Props>, k: string, i: int)
    requires LastWithKey(layers, k, i)
    ensures k in SpreadOnto(acc, layers) && SpreadOnto(acc, layers)[k] == layers[i][k]
    decreases |layers|
  {
    if i == 0 {
      SpreadOntoUntouched(acc + layers[0], layers[1..], k);
    } else {
      assert LastWithKey(layers[1..], k, i - 1) by {
        forall j | i - 1 < j < |layers| - 1 ensures k !in layers[1..][j] {
          assert layers[1..][j] == layers[j + 1];
        }
      }
      SpreadOntoLastWins(acc + layers[0], layers[1..], k, i - 1);
    }
  }

  /** A key that no layer has keeps the accumulator's value. */
  lemma {:induction false} SpreadOntoUntouched(acc: Props, layers: seq<Props>, k: string)
    requires k in acc
    requires forall j :: 0 <= j < |layers| ==> k !in layers[j]
    ensures k in SpreadOnto(acc, layers) && SpreadOnto(acc, layers)[k] == acc[k]
    decreases |layers|
  {
    if |layers| > 0 {
      forall j | 0 <= j < |layers| - 1 ensures k !in layers[1..][j] {
        assert layers[1..][j] == layers[j + 1];
      }
      SpreadOntoUntouched(acc + layers[0], layers[1..], k);
    }
  }

  /** The value of a key in a spread of layers is the value in the last layer
      that has it; a key that no layer has is absent. */
  lemma SpreadLastWriterWins(layers: seq<Props>, k: string)
    ensures k in Spread(layers) <==> exists i :: 0 <= i < |layers| && k in layers[i]
    ensures forall i :: LastWithKey(layers, k, i) ==> Spread(layers)[k] == layers[i][k]
  {
    SpreadOntoKeys(map[], layers, k);
    forall i | LastWithKey(layers, k, i) ensures Spread(layers)[k] == layers[i][k] {
      SpreadOntoLastWins(map[], layers, k, i);
    }
  }
}
