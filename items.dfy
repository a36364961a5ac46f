/**
 * Items of the game. An `Item` is one object shared by the world's item table,
 * the controller's list of essential items, a location's item list and the
 * player's inventory, so dropping it is seen through every one of them.
 *
 * `Item` is a Python dataclass: `==`, and therefore `x in list` and
 * `list.remove(x)`, compare every field, `_dropped` included.
 */
module Items {
  import opened Text

  class Item {
    const name: string
    const startPosition: int
    const targetPosition: int
    const targetPoints: int
    const code: string
    const isEssential: bool
    var dropped: bool

    constructor (name: string, startPosition: int, targetPosition: int, targetPoints: int,
                 code: string, isEssential: bool, dropped: bool)
      ensures this.name == name && this.startPosition == startPosition
      ensures this.targetPosition == targetPosition && this.targetPoints == targetPoints
      ensures this.code == code && this.isEssential == isEssential && this.dropped == dropped
    {
      this.name := name;
      this.startPosition := startPosition;
      this.targetPosition := targetPosition;
      this.targetPoints := targetPoints;
      this.code := code;
      this.isEssential := isEssential;
      this.dropped := dropped;
    }

    /** `drop`: the one-way `_dropped` flag is set, whatever it was. */
    method Drop()
      modifies this`dropped
      ensures WasDropped()
    {
      dropped := true;
    }

    /** `was_dropped`: whether the item has ever been dropped. */
    function WasDropped(): (r: bool)
      reads this
      ensures r <==> dropped
    {
      dropped
    }

    /**
     * `verify_code`: exact comparison with the secret code. The empty attempt
     * is an ordinary mismatch, unless the code itself is empty.
     */
    function VerifyCode(attempt: string): (ok: bool)
      ensures ok <==> attempt == code
    {
      code == attempt
    }
  }

  /** Dataclass `==` on two items: every field equal. */
  predicate SameFields(a: Item, b: Item)
    reads a, b
  {
    && a.name == b.name
    && a.startPosition == b.startPosition
    && a.targetPosition == b.targetPosition
    && a.targetPoints == b.targetPoints
    && a.code == b.code
    && a.isEssential == b.isEssential
    && a.dropped == b.dropped
  }

  /**
   * Index of the first element of `s` that is `==` to `x`, or -1: the element
   * `x in s` finds and `s.remove(x)` deletes.
   */
  function IndexOfEqual(s: seq<Item>, x: Item): (r: int)
    reads s, x
    ensures -1 <= r < |s|
    ensures r >= 0 ==> SameFields(s[r], x) && forall j :: 0 <= j < r ==> !SameFields(s[j], x)
    ensures r < 0 ==> forall j :: 0 <= j < |s| ==> !SameFields(s[j], x)
  {
    if |s| == 0 then -1
    else if SameFields(s[0], x) then 0
    else
      var r := IndexOfEqual(s[1..], x);
      if r < 0 then -1 else r + 1
  }

  /** Python's `x in s` on a list of items. */
  predicate Contains(s: seq<Item>, x: Item)
    reads s, x
  {
    IndexOfEqual(s, x) >= 0
  }

  /** The list after Python's `s.remove(x)`: the first element `==` to `x` is gone. */
  function RemoveFirst(s: seq<Item>, x: Item): (r: seq<Item>)
    reads s, x
    requires Contains(s, x)
  {
    var i := IndexOfEqual(s, x);
    s[..i] + s[i + 1..]
  }

  /** An element of a list is `in` it: `==` holds between an object and itself. */
  lemma ElementIsContained(s: seq<Item>, i: int)
    requires 0 <= i < |s|
    ensures Contains(s, s[i]) && IndexOfEqual(s, s[i]) <= i
  {
    assert SameFields(s[i], s[i]);
  }

  /** Moving the element at index `k` of `from` to the end of `to` keeps the items of both lists together. */
  lemma MoveKeepsItems(from: seq<Item>, to: seq<Item>, k: int)
    requires 0 <= k < |from|
    ensures multiset(from[..k] + from[k + 1..]) + multiset(to + [from[k]]) == multiset(from) + multiset(to)
  {
    assert from == from[..k] + [from[k]] + from[k + 1..];
  }

  // ---------------------------------------------------------------- find_item_by_name

  /** Both sides of the name comparison of `find_item_by_name`: `lower()` then `strip()`. */
  function Normalize(s: string): string {
    Strip(Lower(s))
  }

  predicate NameMatches(item: Item, query: string) {
    Normalize(item.name) == Normalize(query)
  }

  /** Index of the first item whose name matches `query`, or -1 when there is none. */
  function NameIndex(s: seq<Item>, query: string): (r: int)
    ensures -1 <= r < |s|
  {
    if |s| == 0 then -1
    else if NameMatches(s[0], query) then 0
    else
      var r := NameIndex(s[1..], query);
      if r < 0 then -1 else r + 1
  }

  /**
   * What the name lookup finds: an item whose name matches, with no match
   * before it, and -1 exactly when no item matches.
   */
  lemma {:induction false} NameIndexFinds(s: seq<Item>, query: string)
    ensures var r := NameIndex(s, query);
            && (r >= 0 ==> NameMatches(s[r], query) && forall j :: 0 <= j < r ==> !NameMatches(s[j], query))
            && (r < 0 <==> forall j :: 0 <= j < |s| ==> !NameMatches(s[j], query))
  {
    if |s| > 0 && !NameMatches(s[0], query) {
      NameIndexFinds(s[1..], query);
      assert forall j :: 1 <= j < |s| ==> s[j] == s[1..][j - 1];
    }
  }

  /** The lookup returns index `i` when the item there matches and no earlier item does. */
  lemma FirstMatchIsNameIndex(s: seq<Item>, query: string, i: int)
    requires 0 <= i < |s| && NameMatches(s[i], query)
    requires forall j :: 0 <= j < i ==> !NameMatches(s[j], query)
    ensures NameIndex(s, query) == i
  {
    NameIndexFinds(s, query);
  }

  /**
   * The item a name lookup returns is the one `remove` then deletes: no earlier
   * element is `==` to it, because an equal item has the same name.
   */
  lemma {:induction false} FoundIsFirstEqual(s: seq<Item>, query: string)
    requires NameIndex(s, query) >= 0
    ensures IndexOfEqual(s, s[NameIndex(s, query)]) == NameIndex(s, query)
  {
    var i := NameIndex(s, query);
    NameIndexFinds(s, query);
    ElementIsContained(s, i);
    var j := IndexOfEqual(s, s[i]);
    if j < i {
      assert s[j].name == s[i].name;
      assert NameMatches(s[j], query);
      assert false;
    }
  }
}
