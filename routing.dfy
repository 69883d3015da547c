/** Column names of the cartesian-product data source: every column of the
    left source is exposed under the left prefix, every column of the right
    source under the right prefix, and a prefixed name is routed back to the
    source it came from, the left prefix being tested first. */
module Routing {
  import opened Wrappers

  datatype Side = Left | Right

  /** Which sub-source a name goes to, and the name with its prefix removed. */
  datatype Routed = Routed(side: Side, rest: string)

  function PrefixOf(leftPrefix: string, rightPrefix: string, side: Side): string
  {
    match side
    case Left => leftPrefix
    case Right => rightPrefix
  }

  /** `colName.compare(0, prefix.size(), prefix) == 0` followed by
      `remove_prefix`: a name is routed to the left source when it starts with
      the left prefix, otherwise to the right source when it starts with the
      right prefix, and nowhere otherwise. */
  function Route(leftPrefix: string, rightPrefix: string, colName: string): (r: Option<Routed>)
    ensures r.Some? <==> leftPrefix <= colName || rightPrefix <= colName
    ensures r.Some? ==> (r.value.side == Left <==> leftPrefix <= colName)
    ensures r.Some? ==> colName == PrefixOf(leftPrefix, rightPrefix, r.value.side) + r.value.rest
  {
    if leftPrefix <= colName then
      Some(Routed(Left, colName[|leftPrefix|..]))
    else if rightPrefix <= colName then
      Some(Routed(Right, colName[|rightPrefix|..]))
    else
      None
  }

  /** Each name of a source with the prefix in front of it, in order. */
  function Prefixed(prefix: string, names: seq<string>): (r: seq<string>)
    ensures |r| == |names|
    ensures forall i :: 0 <= i < |names| ==> r[i] == prefix + names[i]
  {
    if names == [] then [] else [prefix + names[0]] + Prefixed(prefix, names[1..])
  }

  /** Prefixing distributes over concatenation: the constructor's loop may
      prefix one name at a time. */
  lemma PrefixedAppend(prefix: string, a: seq<string>, b: seq<string>)
    ensures Prefixed(prefix, a + b) == Prefixed(prefix, a) + Prefixed(prefix, b)
  {
  }

  /** One more name prefixed: the step of the constructor's loops. */
  lemma PrefixedSnoc(prefix: string, names: seq<string>, i: nat)
    requires i < |names|
    ensures Prefixed(prefix, names[..i + 1]) == Prefixed(prefix, names[..i]) + [prefix + names[i]]
  {
    assert names[..i + 1] == names[..i] + [names[i]];
    PrefixedAppend(prefix, names[..i], [names[i]]);
  }

  /** Two prefixes neither of which starts the other. */
  predicate Distinguishable(leftPrefix: string, rightPrefix: string)
  {
    !(leftPrefix <= rightPrefix) && !(rightPrefix <= leftPrefix)
  }

  /** A left column, exposed under the left prefix, is routed back to the left
      source under its own name, whatever the right prefix is. */
  lemma RouteLeftColumn(leftPrefix: string, rightPrefix: string, c: string)
    ensures Route(leftPrefix, rightPrefix, leftPrefix + c) == Some(Routed(Left, c))
  {
  }

  /** A right column, exposed under the right prefix, is routed back to the
      right source when the left prefix does not start its exposed name. */
  lemma RouteRightColumn(leftPrefix: string, rightPrefix: string, c: string)
    requires Distinguishable(leftPrefix, rightPrefix)
    ensures Route(leftPrefix, rightPrefix, rightPrefix + c) == Some(Routed(Right, c))
  {
  }

  /** The left prefix is tested first, so every right column is reachable
      exactly when the two prefixes are distinguishable: otherwise some right
      column is shadowed by the left source. */
  lemma {:induction false} RightColumnsReachableIff(leftPrefix: string, rightPrefix: string)
    ensures (forall c :: Route(leftPrefix, rightPrefix, rightPrefix + c) == Some(Routed(Right, c)))
            <==> Distinguishable(leftPrefix, rightPrefix)
  {
    if Distinguishable(leftPrefix, rightPrefix) {
      forall c ensures Route(leftPrefix, rightPrefix, rightPrefix + c) == Some(Routed(Right, c)) {
        RouteRightColumn(leftPrefix, rightPrefix, c);
      }
    } else if leftPrefix <= rightPrefix {
      var c := "";
      assert rightPrefix + c == rightPrefix;
      assert Route(leftPrefix, rightPrefix, rightPrefix + c).value.side == Left;
    } else {
      var c := leftPrefix[|rightPrefix|..];
      assert rightPrefix + c == leftPrefix;
      assert Route(leftPrefix, rightPrefix, rightPrefix + c).value.side == Left;
    }
  }
}
