/**
 * Items and the inventory. A food item carries a name, a description that
 * spells out its heal amount in decimal, and the heal amount itself. Items
 * live in boxes, and two boxes are equal only when they are the same box.
 */
module Inventory {
  import opened Wrappers

  newtype i32 = x: int | -0x8000_0000 <= x < 0x8000_0000

  datatype ItemBasicInfo = ItemBasicInfo(name: string, description: string)

  datatype Item = Food(info: ItemBasicInfo, heal: i32)

  function GetName(item: Item): string
  {
    item.info.name
  }

  function GetDescription(item: Item): string
  {
    item.info.description
  }

  /** An item is determined by its name, its description and its heal amount. */
  lemma ItemDeterminedByAccessors(a: Item, b: Item)
    requires GetName(a) == GetName(b) && GetDescription(a) == GetDescription(b)
    requires a.heal == b.heal
    ensures a == b
  {
  }

  // Decimal rendering of integers, as `format!` writes them, and its reading back.

  function DigitChar(d: nat): (c: char)
    requires d < 10
    ensures '0' <= c <= '9'
  {
    "0123456789"[d]
  }

  predicate IsDigit(c: char)
  {
    '0' <= c <= '9'
  }

  function DigitValue(c: char): (d: nat)
    requires IsDigit(c)
    ensures d < 10
  {
    (c - '0') as nat
  }

  /** The decimal digits of `n`, most significant first, with no leading zero. */
  function NatToString(n: nat): (s: string)
    ensures |s| >= 1
    ensures forall i :: 0 <= i < |s| ==> IsDigit(s[i])
    ensures |s| > 1 ==> s[0] != '0'
  {
    if n < 10 then [DigitChar(n)] else NatToString(n / 10) + [DigitChar(n % 10)]
  }

  /** The value of a string of decimal digits. */
  function DigitsValue(s: string): nat
    requires forall i :: 0 <= i < |s| ==> IsDigit(s[i])
  {
    if |s| == 0 then 0 else DigitsValue(s[..|s| - 1]) * 10 + DigitValue(s[|s| - 1])
  }

  function ParseNat(s: string): (r: Option<nat>)
    ensures r.Some? <==> |s| > 0 && forall i :: 0 <= i < |s| ==> IsDigit(s[i])
  {
    if |s| > 0 && forall i :: 0 <= i < |s| ==> IsDigit(s[i]) then Some(DigitsValue(s)) else None
  }

  /** The decimal form of `n`, with a leading '-' when it is negative. */
  function IntToString(n: int): (s: string)
    ensures |s| >= 1
    ensures s[0] == '-' <==> n < 0
  {
    if n < 0 then "-" + NatToString(-n) else NatToString(n)
  }

  function ParseInt(s: string): Option<int>
  {
    if |s| > 0 && s[0] == '-' then
      match ParseNat(s[1..])
      case Some(n) => Some(-(n as int))
      case None => None
    else
      match ParseNat(s)
      case Some(n) => Some(n)
      case None => None
  }

  lemma DigitRoundTrip(d: nat)
    requires d < 10
    ensures DigitValue(DigitChar(d)) == d
  {
  }

  /** Reading back the digits of `n` gives `n`. */
  lemma {:induction false} NatRoundTrip(n: nat)
    ensures ParseNat(NatToString(n)) == Some(n)
  {
    var s := NatToString(n);
    if n < 10 {
      DigitRoundTrip(n);
      assert s == [DigitChar(n)];
      assert s[..|s| - 1] == [];
      assert DigitsValue(s) == DigitValue(DigitChar(n));
    } else {
      NatRoundTrip(n / 10);
      DigitRoundTrip(n % 10);
      assert s[..|s| - 1] == NatToString(n / 10);
    }
  }

  /** Reading back the decimal form of `n` gives `n`. */
  lemma {:induction false} IntRoundTrip(n: int)
    ensures ParseInt(IntToString(n)) == Some(n)
  {
    if n < 0 {
      NatRoundTrip(-n);
      assert IntToString(n)[1..] == NatToString(-n);
    } else {
      NatRoundTrip(n);
    }
  }

  const HealPrefix: string := "Heal for "

  /** The heal amount a food description spells out, if it has the `Heal for {heal}.` form. */
  function ParseHeal(description: string): (r: Option<int>)
    ensures r.Some? ==> |description| > |HealPrefix| && description[..|HealPrefix|] == HealPrefix
    ensures r.Some? ==> description[|description| - 1] == '.'
  {
    if |description| > |HealPrefix| && description[..|HealPrefix|] == HealPrefix && description[|description| - 1] == '.' then
      ParseInt(description[|HealPrefix|..|description| - 1])
    else
      None
  }

  /** `new_food`: the description is `Heal for {heal}.` */
  function NewFood(name: string, heal: i32): (r: Item)
    ensures r.heal == heal
    ensures GetName(r) == name
    ensures GetDescription(r) == HealPrefix + IntToString(heal as int) + "."
  {
    Food(ItemBasicInfo(name, HealPrefix + IntToString(heal as int) + "."), heal)
  }

  /** A food's description gives back its heal amount. */
  lemma {:induction false} FoodDescriptionRoundTrip(name: string, heal: i32)
    ensures ParseHeal(GetDescription(NewFood(name, heal))) == Some(heal as int)
  {
    var d := GetDescription(NewFood(name, heal));
    var digits := IntToString(heal as int);
    assert d[..|HealPrefix|] == HealPrefix;
    assert d[|HealPrefix|..|d| - 1] == digits;
    IntRoundTrip(heal as int);
  }

  function NewApple(): (r: Item)
    ensures GetName(r) == "Apple" && r.heal == 1
    ensures ParseHeal(GetDescription(r)) == Some(1)
  {
    FoodDescriptionRoundTrip("Apple", 1);
    NewFood("Apple", 1)
  }

  function NewBanana(): (r: Item)
    ensures GetName(r) == "Banana" && r.heal == 2
    ensures ParseHeal(GetDescription(r)) == Some(2)
  {
    FoodDescriptionRoundTrip("Banana", 2);
    NewFood("Banana", 2)
  }

  /** A heap-allocated item; boxes compare by identity, not by contents. */
  class ItemBox {
    const item: Item

    constructor (item: Item)
      ensures this.item == item
    {
      this.item := item;
    }
  }

  /** `eq` on `&Box<Item>`: the two boxes are the same allocation. */
  function BoxEq(a: ItemBox, b: ItemBox): (r: bool)
    ensures r ==> a.item == b.item
    ensures r <==> a == b
  {
    a == b
  }

  /** `ne` on `&Box<Item>`, defined as the negation of `eq`. */
  function BoxNe(a: ItemBox, b: ItemBox): (r: bool)
    ensures r <==> a != b
    ensures a.item != b.item ==> r
  {
    !BoxEq(a, b)
  }

  /** Two boxes holding the same item are still different boxes. */
  method DistinctBoxes(item: Item) returns (a: ItemBox, b: ItemBox)
    ensures a.item == b.item == item
    ensures !BoxEq(a, b) && BoxNe(a, b)
  {
    a := new ItemBox(item);
    b := new ItemBox(item);
  }

  class Inventory {
    var items: seq<ItemBox>

    /** `Inventory::default()`. */
    constructor ()
      ensures items == []
    {
      items := [];
    }

    /** The first slot that holds this very box, or None when the box is not in the inventory. */
    method GetIndex(box: ItemBox) returns (r: Option<nat>)
      ensures r.Some? ==> r.value < |items| && BoxEq(items[r.value], box)
      ensures r.Some? ==> forall k :: 0 <= k < r.value ==> BoxNe(items[k], box)
      ensures r.None? <==> box !in items
    {
      var i := 0;
      while i < |items|
        invariant 0 <= i <= |items|
        invariant forall k :: 0 <= k < i ==> BoxNe(items[k], box)
      {
        if BoxEq(items[i], box) {
          return Some(i);
        }
        i := i + 1;
      }
      return None;
    }
  }
}
