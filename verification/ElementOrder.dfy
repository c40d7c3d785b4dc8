/** `$setElementOrder`: reordering a merged list after a directive list. */
module ElementOrder {
  import opened Wrappers
  import opened Json
  import StableSort

  /** What identifies an element: named objects by name, everything else by value. */
  datatype Key = ByName(name: string) | ByValue(value: Json)

  function ElementKey(el: Json): Key {
    match NameOf(el)
    case Some(name) => ByName(name)
    case None => ByValue(el)
  }

  /** The last position below `n` at which `order` lists an element with `key`; |order| when there
      is none. */
  function RankBelow(order: seq<Json>, n: nat, key: Key): (r: nat)
    requires n <= |order|
  {
    if n == 0 then |order|
    else if ElementKey(order[n - 1]) == key then n - 1
    else RankBelow(order, n - 1, key)
  }

  /** The sort key of an element: listed elements by their directive position, the rest behind. */
  function Rank(order: seq<Json>): Json -> nat {
    el => RankBelow(order, |order|, ElementKey(el))
  }

  /** A later mention in the directive overrides an earlier one; an unmentioned element ranks behind
      every mentioned one. */
  lemma {:induction false} RankBelowIsLastMention(order: seq<Json>, n: nat, key: Key)
    requires n <= |order|
    ensures var r := RankBelow(order, n, key);
            && (r == |order| || (r < n && ElementKey(order[r]) == key))
            && forall i | 0 <= i < n && ElementKey(order[i]) == key :: i <= r < n
  {
    if n > 0 { RankBelowIsLastMention(order, n - 1, key); }
  }

  function OrderElements(list: seq<Json>, order: seq<Json>): (r: seq<Json>) {
    StableSort.Sort(list, Rank(order))
  }

  /** The `$setElementOrder` law. A list is the reordered one exactly when its ranks ascend
      (mentioned elements in directive order, the others behind them) and elements of equal rank,
      all the unmentioned ones among them, keep their old relative order. */
  lemma OrderElementsLaw(list: seq<Json>, order: seq<Json>, r: seq<Json>)
    ensures r == OrderElements(list, order) <==>
              StableSort.Sorted(r, Rank(order)) && StableSort.SameClasses(r, list, Rank(order))
    ensures multiset(OrderElements(list, order)) == multiset(list)
  {
    StableSort.SortCharacterized(list, Rank(order), r);
    StableSort.SortSorts(list, Rank(order));
  }
}
