/** Go ranges over maps in an arbitrary order; a merge does not depend on it. */
module MergeOrder {
  import opened Wrappers
  import opened Json
  import opened StrategicMerge

  /** The member loop run over `keys` in the order given; None is the panic. */
  function RunKeys(m: Members, overlay: Json, keys: seq<string>): Option<Members>
    requires overlay.Obj? && forall k | k in keys :: k in overlay.members
    decreases |keys|
  {
    if keys == [] then
      Some(m)
    else if IsDirective(keys[0]) then
      RunKeys(m, overlay, keys[1..])
    else
      match MergeMember(Lookup(m, keys[0]), overlay.members[keys[0]])
      case SlotPanics => None
      case Dropped => RunKeys(m - {keys[0]}, overlay, keys[1..])
      case Kept(v) => RunKeys(m[keys[0] := v], overlay, keys[1..])
  }

  /** One call of jsonMerge that meets the overlay's keys in the order `keys`. */
  function RunMerge(base: Members, overlay: Json, keys: seq<string>): Outcome
    requires overlay.Obj? && forall k | k in keys :: k in overlay.members
  {
    if Asks(overlay.members, "delete") then
      Deletes
    else
      match RunKeys(if Asks(overlay.members, "replace") then map[] else base, overlay, keys)
      case None => Panics
      case Some(m) => Merged(Finish(overlay.members, m))
  }

  ghost predicate Enumerates(keys: seq<string>, m: Members) {
    && (forall i, j | 0 <= i < j < |keys| :: keys[i] != keys[j])
    && (forall k :: k in keys <==> k in m)
  }

  /** Whatever a run over `keys` has done so far: keys outside `todo` are merged, the rest untouched. */
  ghost predicate Progress(m: Members, start: Members, overlay: Json, todo: seq<string>)
    requires overlay.Obj?
  {
    forall k: string ::
      if k in todo then Lookup(m, k) == Lookup(start, k)
      else SlotOf(Lookup(m, k)) == MergedSlot(start, overlay, k)
  }

  lemma {:induction false} RunKeysFinishes(m: Members, start: Members, overlay: Json, keys: seq<string>)
    requires overlay.Obj? && forall k | k in keys :: k in overlay.members
    requires forall i, j | 0 <= i < j < |keys| :: keys[i] != keys[j]
    requires Progress(m, start, overlay, keys)
    ensures match RunKeys(m, overlay, keys)
            case None => exists k | k in keys :: MergedSlot(start, overlay, k).SlotPanics?
            case Some(m') => Progress(m', start, overlay, [])
    decreases |keys|
  {
    if keys != [] {
      var k, rest := keys[0], keys[1..];
      assert keys == [k] + rest && k !in rest;
      assert Lookup(m, k) == Lookup(start, k);
      if IsDirective(k) {
        RunKeysFinishes(m, start, overlay, rest);
      } else {
        match MergeMember(Lookup(m, k), overlay.members[k]) {
          case SlotPanics => assert MergedSlot(start, overlay, k).SlotPanics?;
          case Dropped => RunKeysFinishes(m - {k}, start, overlay, rest);
          case Kept(v) => RunKeysFinishes(m[k := v], start, overlay, rest);
        }
      }
    }
  }

  lemma ProgressComplete(m: Members, start: Members, overlay: Json)
    requires overlay.Obj? && Progress(m, start, overlay, [])
    ensures m == MergedMembers(start, overlay)
    ensures forall k :: !MergedSlot(start, overlay, k).SlotPanics?
  {
    var merged := MergedMembers(start, overlay);
    forall k
      ensures (k in m <==> k in merged) && (k in m ==> m[k] == merged[k])
      ensures !MergedSlot(start, overlay, k).SlotPanics?
    {
      assert SlotOf(Lookup(m, k)) == MergedSlot(start, overlay, k);
    }
  }

  /** Every order of the overlay's keys gives the merged document and the return value that
      StrategicMerge.Merge defines. (The nested merges and the loops over directive fields are
      covered by MergeInPlace.JsonMerge, whose every choice is arbitrary.) */
  lemma KeyOrderIsIrrelevant(base: Members, overlay: Json, keys: seq<string>)
    requires overlay.Obj? && Enumerates(keys, overlay.members)
    ensures RunMerge(base, overlay, keys) == Merge(base, overlay)
  {
    if !Asks(overlay.members, "delete") {
      var start := if Asks(overlay.members, "replace") then map[] else base;
      assert Progress(start, start, overlay, keys);
      RunKeysFinishes(start, start, overlay, keys);
      var r := RunKeys(start, overlay, keys);
      if r.Some? {
        ProgressComplete(r.value, start, overlay);
      }
    }
  }
}
