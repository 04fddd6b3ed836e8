/**
  Records shared by every screen of the bill splitter: a line item, a group
  (one tab at one place), the optional value used for absent storage keys and
  the sum of item values that several screens display.
 */
module Domain {

  datatype Option<T> = None | Some(value: T)

  /** One purchased line: `totalValue` is already unit price times quantity. */
  datatype Item = Item(
    id: string,
    name: string,
    quantity: int,
    totalValue: real,
    participants: seq<string>)

  /** One bill-splitting session. `createdAt` is the creation instant in
      milliseconds; an absent `isFinished` flag reads as false. */
  datatype Group = Group(
    id: string,
    placeName: string,
    peopleCount: int,
    people: seq<string>,
    items: seq<Item>,
    createdAt: int,
    isFinished: bool)

  /** No label occurs twice. */
  predicate NoDup<T(==)>(s: seq<T>) {
    forall i, j :: 0 <= i < j < |s| ==> s[i] != s[j]
  }

  /** The sum of `totalValue` over the items, accumulated left to right as
      `items.reduce((sum, item) => sum + item.totalValue, 0)` does. */
  function ItemsTotal(items: seq<Item>): real {
    if |items| == 0 then 0.0
    else ItemsTotal(items[..|items| - 1]) + items[|items| - 1].totalValue
  }

  /** Totals of consecutive runs of items add up. */
  lemma {:induction false} ItemsTotalAppend(a: seq<Item>, b: seq<Item>)
    ensures ItemsTotal(a + b) == ItemsTotal(a) + ItemsTotal(b)
    decreases |b|
  {
    if |b| == 0 {
      assert a + b == a;
    } else {
      var b' := b[..|b| - 1];
      assert (a + b)[..|a + b| - 1] == a + b';
      ItemsTotalAppend(a, b');
    }
  }

  /** A group without items totals zero, and every item counts once. */
  lemma ItemsTotalOfEmptyAndSingle(x: Item)
    ensures ItemsTotal([]) == 0.0
    ensures ItemsTotal([x]) == x.totalValue
  {
    assert [x][..0] == [];
  }

  /** When no value is negative neither is the total. */
  lemma {:induction false} ItemsTotalNonNegative(items: seq<Item>)
    requires forall i :: 0 <= i < |items| ==> items[i].totalValue >= 0.0
    ensures ItemsTotal(items) >= 0.0
    decreases |items|
  {
    if |items| > 0 {
      ItemsTotalNonNegative(items[..|items| - 1]);
    }
  }
}
