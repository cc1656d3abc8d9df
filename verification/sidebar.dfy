/**
 The sidebar: entries that wrap a collection with a colour, a sort key and a
 checked flag, the two table columns shown for an entry, and the filter
 choice applied to the selected entry's items.

 The process-wide iterators that hand out sort keys and hues become an
 explicit allocator value threaded through entry creation.
 */
module Sidebar {
  import opened Events

  /** The hue cycle, in the order the entries receive them. */
  const Hues: seq<int> := [210, 120, 0, 30, 50, 300, 170, 330, 270]

  /** A colour as (hue, saturation, value). */
  datatype HsvColor = HsvColor(hue: int, saturation: int, value: int)

  /** A collection of items with a display title. */
  datatype Collection = Collection(title: string, items: seq<Item>)

  datatype SidebarEntry = SidebarEntry(
    sortKey: int,
    hsvColor: HsvColor,
    collection: Collection,
    checked: bool
  )

  /**
   The state of the two generators: the next sort key (counting from 1) and
   the position of the next hue in the cycle. Both advance once per entry.
   */
  datatype Allocator = Allocator(nextKey: int, hueIndex: int) {
    predicate Valid() {
      && nextKey >= 1
      && 0 <= hueIndex < |Hues|
      && hueIndex == (nextKey - 1) % |Hues|
    }
  }

  /** The generators as they stand before the first entry is created. */
  function InitialAllocator(): (a: Allocator)
    ensures a.Valid() && a.nextKey == 1
  {
    Allocator(1, 0)
  }

  /** The colour the N-th entry ever created receives. */
  function PaletteColor(n: int): (c: HsvColor)
    requires n >= 1
    ensures c.hue in Hues && c.saturation == 0 && c.value == 0
  {
    HsvColor(Hues[(n - 1) % |Hues|], 0, 0)
  }

  /**
   Creating an entry for `collection`: it takes the next sort key and the
   next hue, starts unchecked, and the generators move on by one.
   */
  function NewEntry(a: Allocator, collection: Collection): (r: (SidebarEntry, Allocator))
    requires a.Valid()
    ensures r.1.Valid()
    ensures r.0.sortKey == a.nextKey && r.1.nextKey == a.nextKey + 1
    ensures r.0.hsvColor == PaletteColor(r.0.sortKey)
    ensures r.0.hsvColor.saturation == 0 && r.0.hsvColor.value == 0
    ensures !r.0.checked
    ensures r.0.collection == collection
  {
    NextHueIndex(a.nextKey);
    var entry := SidebarEntry(a.nextKey, HsvColor(Hues[a.hueIndex], 0, 0), collection, false);
    (entry, Allocator(a.nextKey + 1, (a.hueIndex + 1) % |Hues|))
  }

  /** Sort keys strictly increase along the sequence. */
  predicate KeysIncreasing(entries: seq<SidebarEntry>) {
    forall i, j :: 0 <= i < j < |entries| ==> entries[i].sortKey < entries[j].sortKey
  }

  /** Hues repeat with period nine along the sequence. */
  predicate HuesPeriodic(entries: seq<SidebarEntry>) {
    forall i :: 0 <= i && i + |Hues| < |entries| ==>
      entries[i].hsvColor == entries[i + |Hues|].hsvColor
  }

  /**
   Creating one entry per collection, in order: the entries take consecutive
   sort keys from the allocator's next key, each with the colour for its key.
   */
  method CreateEntries(a: Allocator, collections: seq<Collection>)
    returns (entries: seq<SidebarEntry>, a': Allocator)
    requires a.Valid()
    ensures a'.Valid() && a'.nextKey == a.nextKey + |collections|
    ensures |entries| == |collections|
    ensures forall i :: 0 <= i < |entries| ==>
      && entries[i].sortKey == a.nextKey + i
      && entries[i].hsvColor == PaletteColor(a.nextKey + i)
      && entries[i].collection == collections[i]
      && !entries[i].checked
    ensures forall i :: 0 <= i < |entries| ==>
      && IconValue(entries[i]) == (PaletteColor(a.nextKey + i), false)
      && NameValue(entries[i]) == collections[i].title
    ensures forall i :: 0 <= i < |entries| ==> a.nextKey <= entries[i].sortKey < a'.nextKey
    ensures KeysIncreasing(entries) && HuesPeriodic(entries)
  {
    entries := [];
    a' := a;
    var k := 0;
    while k < |collections|
      invariant 0 <= k <= |collections|
      invariant a'.Valid() && a'.nextKey == a.nextKey + k
      invariant |entries| == k
      invariant forall i :: 0 <= i < k ==>
        && entries[i].sortKey == a.nextKey + i
        && entries[i].hsvColor == PaletteColor(a.nextKey + i)
        && entries[i].collection == collections[i]
        && !entries[i].checked
    {
      var created := NewEntry(a', collections[k]);
      entries := entries + [created.0];
      a' := created.1;
      k := k + 1;
    }
    forall i | 0 <= i < |entries|
      ensures IconValue(entries[i]) == (PaletteColor(a.nextKey + i), false)
      ensures NameValue(entries[i]) == collections[i].title
    {
    }
    forall i | 0 <= i && i + |Hues| < |entries|
      ensures entries[i].hsvColor == entries[i + |Hues|].hsvColor
    {
      PaletteIsPeriodic(a.nextKey + i);
    }
  }

  /** The remainder modulo nine is the one determined by any division with a remainder in range. */
  lemma ModNine(x: int, q: int, r: int)
    requires x == 9 * q + r && 0 <= r < 9
    ensures x % 9 == r
  {
  }

  /** Advancing the hue position by one follows advancing the key by one. */
  lemma NextHueIndex(n: int)
    requires n >= 1
    ensures ((n - 1) % 9 + 1) % 9 == n % 9
  {
    var q, r := (n - 1) / 9, (n - 1) % 9;
    if r < 8 {
      ModNine(n, q, r + 1);
      ModNine(r + 1, 0, r + 1);
    } else {
      ModNine(n, q + 1, 0);
      ModNine(r + 1, 1, 0);
    }
  }

  /** The palette colour of key `n + 9` is that of key `n`. */
  lemma PaletteIsPeriodic(n: int)
    requires n >= 1
    ensures PaletteColor(n + |Hues|) == PaletteColor(n)
  {
    ModNine(n + 9 - 1, (n - 1) / 9 + 1, (n - 1) % 9);
  }

  /** The first entries ever created get sort keys 1, 2, 3, ... and the hues in cycle order. */
  method CreateFirstEntries(collections: seq<Collection>)
    returns (entries: seq<SidebarEntry>, a': Allocator)
    ensures |entries| == |collections| && a'.Valid()
    ensures forall i :: 0 <= i < |entries| ==>
      && entries[i].sortKey == i + 1
      && entries[i].hsvColor == HsvColor(Hues[i % |Hues|], 0, 0)
  {
    entries, a' := CreateEntries(InitialAllocator(), collections);
  }

  /** `icon_column.get_value`: the entry's colour and checked flag. */
  function IconValue(entry: SidebarEntry): (HsvColor, bool) {
    (entry.hsvColor, entry.checked)
  }

  /** `name_column.get_value`: the entry's collection title. */
  function NameValue(entry: SidebarEntry): string {
    entry.collection.title
  }

  /** A freshly created entry shows its palette colour unchecked, and its collection's title. */
  lemma NewEntryColumns(a: Allocator, collection: Collection)
    requires a.Valid()
    ensures IconValue(NewEntry(a, collection).0) == (PaletteColor(a.nextKey), false)
    ensures NameValue(NewEntry(a, collection).0) == collection.title
  {
  }

  /** The two filter choices of the sidebar. */
  datatype FilterChoice = All | Calendar

  /** The predicate a choice stands for: everything, or items with an event installed. */
  predicate Admits(c: FilterChoice, item: Item) {
    match c
    case All => true
    case Calendar => InstalledOn(item)
  }

  /** The items a choice admits, in their original order. */
  function Filter(c: FilterChoice, items: seq<Item>): (r: seq<Item>)
    ensures |r| <= |items|
    ensures forall x :: x in r <==> x in items && Admits(c, x)
    ensures c == All ==> r == items
    ensures multiset(r) <= multiset(items)
  {
    if items == [] then []
    else
      var rest := Filter(c, items[1..]);
      assert items == [items[0]] + items[1..];
      if Admits(c, items[0]) then [items[0]] + rest else rest
  }

  /** Filtering distributes over concatenation, so the original order is kept. */
  lemma {:induction false} FilterConcat(c: FilterChoice, xs: seq<Item>, ys: seq<Item>)
    ensures Filter(c, xs + ys) == Filter(c, xs) + Filter(c, ys)
    decreases |xs|
  {
    if xs == [] {
      assert xs + ys == ys;
    } else {
      assert (xs + ys)[1..] == xs[1..] + ys;
      FilterConcat(c, xs[1..], ys);
    }
  }

  /** Filtering twice with the same choice is filtering once. */
  lemma {:induction false} FilterIdempotent(c: FilterChoice, items: seq<Item>)
    ensures Filter(c, Filter(c, items)) == Filter(c, items)
    decreases |items|
  {
    if items != [] {
      FilterIdempotent(c, items[1..]);
      if Admits(c, items[0]) {
        var r := Filter(c, items);
        assert r[1..] == Filter(c, items[1..]);
      }
    }
  }

  /**
   `filtered_items`: the selected entry's collection items restricted by the
   active choice — all of them for "All", exactly the event items for "Calendar".
   */
  function FilteredItems(selected: SidebarEntry, choice: FilterChoice): (r: seq<Item>)
    ensures choice == All ==> r == selected.collection.items
    ensures choice == Calendar ==>
      forall x :: x in r <==> x in selected.collection.items && InstalledOn(x)
    ensures multiset(r) <= multiset(selected.collection.items)
  {
    Filter(choice, selected.collection.items)
  }
}
