/** The set that keeps a slot for each of its N most recently inserted items: `old_src/mru_set.rs`. */
module MruSet {
  import opened Prelude

  datatype Action<+T> = NoAction | ClearSlot(slot: nat) | SetSlot(slot: nat, item: T)

  // ----- Specification: a recency list and the cells of the device

  /** All items, the most recent first, and for each slot of the device the item it holds. */
  datatype Table<T> = Table(items: seq<T>, cells: seq<Option<T>>)

  /** What a device does with an action. */
  function Apply<T>(cells: seq<Option<T>>, action: Action<T>): (r: seq<Option<T>>)
    ensures |r| == |cells|
  {
    match action
    case NoAction => cells
    case ClearSlot(slot) => if slot < |cells| then cells[slot := None] else cells
    case SetSlot(slot, item) => if slot < |cells| then cells[slot := Some(item)] else cells
  }

  function Min(a: int, b: int): int {
    if a < b then a else b
  }

  /** Exactly the first `count` items are in the cells, each in one of them. */
  ghost predicate Holds<T(!new)>(t: Table<T>, count: nat) {
    && count <= |t.items|
    && Distinct(t.items)
    && (forall i | 0 <= i < count :: Some(t.items[i]) in t.cells)
    && (forall s | 0 <= s < |t.cells| && t.cells[s].Some? :: t.cells[s].value in t.items[..count])
    && (forall s, s' | 0 <= s < s' < |t.cells| && t.cells[s].Some? :: t.cells[s] != t.cells[s'])
  }

  /** The intent of the data structure. */
  ghost predicate Tidy<T(!new)>(t: Table<T>) {
    Holds(t, Min(|t.cells|, |t.items|))
  }

  // ----- Implementation: two link maps, a boundary pointer and a list of free slots

  ghost predicate LinksNewer<T(!new)>(items: seq<T>, newer: map<T, T>) {
    && (forall x <- newer :: x in items)
    && (forall i | 0 <= i < |items| ::
          (items[i] in newer <==> i > 0) && (i > 0 ==> newer[items[i]] == items[i - 1]))
  }

  ghost predicate LinksOlder<T(!new)>(items: seq<T>, older: map<T, T>) {
    && (forall x <- older :: x in items)
    && (forall i | 0 <= i < |items| ::
          (items[i] in older <==> i + 1 < |items|) && (i + 1 < |items| ==> older[items[i]] == items[i + 1]))
  }

  /** The link maps are exactly the adjacent pairs of the recency list. */
  ghost predicate Links<T(!new)>(items: seq<T>, newer: map<T, T>, older: map<T, T>, newest: Option<T>) {
    && Distinct(items)
    && LinksNewer(items, newer)
    && LinksOlder(items, older)
    && newest == if items == [] then None else Some(items[0])
  }

  /** The items that have a slot are those of a recency list; the boundary pointer is its last. */
  ghost predicate Slots<T(!new)>(hot: seq<T>, held: map<T, nat>, oldest: Option<T>) {
    && held.Keys == Elements(hot)
    && |held| == |hot|
    && oldest == Last(hot)
  }

  /** Held and free slots partition the slots of the device, whose cells show what is held. */
  ghost predicate Partition<T(!new)>(cells: seq<Option<T>>, held: map<T, nat>, free: seq<nat>) {
    && |held| + |free| == |cells|
    && (forall x <- held :: held[x] < |cells| && cells[held[x]] == Some(x))
    && (forall s | 0 <= s < |cells| && cells[s].Some? ::
          cells[s].value in held && held[cells[s].value] == s)
    && Distinct(free)
    && (forall s :: s in free <==> 0 <= s < |cells| && cells[s].None?)
  }

  /** `HashMap::get` */
  function Get<K, V>(m: map<K, V>, key: K): Option<V> {
    if key in m then Some(m[key]) else None
  }

  function InsertOrRemove<K, V>(m: map<K, V>, key: K, value: Option<V>): map<K, V> {
    match value
    case Some(v) => m[key := v]
    case None => m - {key}
  }

  /** The link maps without one item, as `unlink` builds them. */
  function Relinked<T>(m: map<T, T>, item: T, neighbour: Option<T>, other: Option<T>): map<T, T> {
    match neighbour
    case Some(x) => InsertOrRemove(m - {item}, x, other)
    case None => m - {item}
  }

  lemma UnlinkNewer<T(!new)>(items: seq<T>, k: nat, newer: map<T, T>)
    requires Distinct(items) && LinksNewer(items, newer) && k < |items|
    ensures LinksNewer(items[..k] + items[k + 1..],
                       Relinked(newer, items[k], if k + 1 == |items| then None else Some(items[k + 1]), Get(newer, items[k])))
  {
    var its := items[..k] + items[k + 1..];
    forall i | 0 <= i < |its| ensures its[i] == items[if i < k then i else i + 1] {}
  }

  lemma UnlinkOlder<T(!new)>(items: seq<T>, k: nat, older: map<T, T>)
    requires Distinct(items) && LinksOlder(items, older) && k < |items|
    ensures LinksOlder(items[..k] + items[k + 1..],
                       Relinked(older, items[k], if k == 0 then None else Some(items[k - 1]), Get(older, items[k])))
  {
    var its := items[..k] + items[k + 1..];
    forall i | 0 <= i < |its| ensures its[i] == items[if i < k then i else i + 1] {}
  }

  lemma UnlinkPresent<T(!new)>(items: seq<T>, k: nat, newer: map<T, T>, older: map<T, T>, newest: Option<T>)
    requires Links(items, newer, older, newest) && k < |items|
    ensures var item := items[k];
            var n, o := Get(newer, item), Get(older, item);
            && (n.Some? ==> n.value != item && Get(older, n.value) == Some(item))
            && (o.Some? ==> o.value != item && Get(newer, o.value) == Some(item))
            && Links(items[..k] + items[k + 1..], Relinked(newer, item, o, n), Relinked(older, item, n, o),
                     if newest == Some(item) then o else newest)
  {
    UnlinkNewer(items, k, newer);
    UnlinkOlder(items, k, older);
  }

  lemma UnlinkAbsent<T(!new)>(items: seq<T>, item: T, newer: map<T, T>, older: map<T, T>, newest: Option<T>)
    requires Links(items, newer, older, newest) && item !in items
    ensures Get(newer, item).None? && Get(older, item).None? && newest != Some(item)
    ensures Links(items, newer - {item}, older - {item}, newest)
  {
  }

  lemma UnlinkKeepsLinks<T(!new)>(items: seq<T>, item: T, newer: map<T, T>, older: map<T, T>, newest: Option<T>)
    requires Links(items, newer, older, newest)
    ensures var n, o := Get(newer, item), Get(older, item);
            && (n.Some? ==> n.value != item && Get(older, n.value) == Some(item))
            && (o.Some? ==> o.value != item && Get(newer, o.value) == Some(item))
            && Links(Without(items, item), Relinked(newer, item, o, n), Relinked(older, item, n, o),
                     if newest == Some(item) then o else newest)
  {
    if item in items {
      var k :| 0 <= k < |items| && items[k] == item;
      WithoutAt(items, k);
      UnlinkPresent(items, k, newer, older, newest);
    } else {
      WithoutAbsent(items, item);
      UnlinkAbsent(items, item, newer, older, newest);
    }
  }

  lemma LinkKeepsLinks<T(!new)>(items: seq<T>, item: T, newer: map<T, T>, older: map<T, T>, newest: Option<T>)
    requires Links(items, newer, older, newest) && item !in items
    ensures newest.Some? ==> newest.value !in newer
    ensures item !in older
    ensures Links([item] + items, if newest.Some? then newer[newest.value := item] else newer,
                  InsertOrRemove(older, item, newest), Some(item))
  {
    var its := [item] + items;
    assert forall i | 1 <= i < |its| :: its[i] == items[i - 1];
  }

  /** An item that has a slot moves to the front; the boundary moves if it was the oldest of them. */
  lemma SlotsPromote<T(!new)>(a: seq<T>, x: T, b: seq<T>, held: map<T, nat>, oldest: Option<T>)
    requires Slots(a + [x] + b, held, oldest) && a != []
    ensures Slots([x] + a + b, held, if b == [] then Last(a) else oldest)
  {
    assert Elements([x] + a + b) == Elements(a + [x] + b);
    if b != [] {
      assert ([x] + a + b)[|a| + |b|] == b[|b| - 1] == (a + [x] + b)[|a| + |b|];
    }
  }

  lemma SlotsAdd<T(!new)>(hot: seq<T>, x: T, held: map<T, nat>, oldest: Option<T>, slot: nat)
    requires Slots(hot, held, oldest) && x !in held
    ensures Slots([x] + hot, held[x := slot], if oldest.None? then Some(x) else oldest)
  {
    ElementsAppend([x], hot);
    assert |held[x := slot]| == |held| + 1;
    if hot != [] {
      assert ([x] + hot)[|hot|] == hot[|hot| - 1];
    }
  }

  lemma SlotsEvict<T(!new)>(h: seq<T>, o: T, x: T, held: map<T, nat>, oldest: Option<T>, slot: nat)
    requires Slots(h + [o], held, oldest) && x !in held && o !in h
    ensures oldest == Some(o) && o in held
    ensures Slots([x] + h, (held - {o})[x := slot], if h == [] then Some(x) else Last(h))
  {
    assert Elements(h + [o]) == Elements(h) + {o};
    SlotsAdd(h, x, held - {o}, Last(h), slot);
  }

  lemma SlotsDrop<T(!new)>(a: seq<T>, x: T, b: seq<T>, held: map<T, nat>, oldest: Option<T>)
    requires Slots(a + [x] + b, held, oldest) && x !in a + b
    ensures x in held && Slots(a + b, held - {x}, if b == [] then Last(a) else oldest)
  {
    assert Elements(a + [x] + b) == Elements(a + b) + {x};
    if b != [] {
      assert (a + b)[|a| + |b| - 1] == b[|b| - 1] == (a + [x] + b)[|a| + |b|];
    } else {
      assert a + b == a;
    }
  }

  lemma SlotsRefill<T(!new)>(hot: seq<T>, next: T, held: map<T, nat>, oldest: Option<T>, slot: nat)
    requires Slots(hot, held, oldest) && next !in held
    ensures Slots(hot + [next], held[next := slot], Some(next))
  {
    assert Elements(hot + [next]) == Elements(hot) + {next};
    assert |held[next := slot]| == |held| + 1;
  }

  lemma TakeFreeSlot<T(!new)>(cells: seq<Option<T>>, held: map<T, nat>, free: seq<nat>, item: T)
    requires Partition(cells, held, free) && item !in held && free != []
    ensures free[0] < |cells| && Partition(cells[free[0] := Some(item)], held[item := free[0]], free[1..])
  {
    assert free[0] in free;
    assert forall s :: s in free <==> s == free[0] || s in free[1..];
  }

  lemma PassSlotOn<T(!new)>(cells: seq<Option<T>>, held: map<T, nat>, free: seq<nat>, loser: T, item: T)
    requires Partition(cells, held, free) && item !in held && loser in held
    ensures var slot := held[loser];
            slot < |cells| && cells[slot] == Some(loser) &&
            Partition(cells[slot := Some(item)], (held - {loser})[item := slot], free)
  {
    assert |held - {loser}| == |held| - 1;
  }

  lemma ReleaseSlot<T(!new)>(cells: seq<Option<T>>, held: map<T, nat>, free: seq<nat>, item: T)
    requires Partition(cells, held, free) && item in held
    ensures var slot := held[item];
            slot < |cells| && cells[slot] == Some(item) && Partition(cells[slot := None], held - {item}, free + [slot])
  {
    assert |held - {item}| == |held| - 1;
  }


  lemma MovedElements<T(!new)>(items: seq<T>, item: T)
    ensures Elements([item] + Without(items, item)) == Elements(items) + {item}
    ensures Elements(Without(items, item)) == Elements(items) - {item}
  {
    WithoutMembers(items, item);
  }

  lemma Regroup<T>(a: seq<T>, b: seq<T>, c: seq<T>, d: seq<T>)
    ensures (a + b) + (c + d) == a + ((b + c) + d)
  {
  }

  /** Who holds which slot. With two or more slots none is free while an item waits for one. */
  ghost predicate Bound<T(!new)>(hot: seq<T>, cold: seq<T>, cells: seq<Option<T>>, held: map<T, nat>, oldest: Option<T>, free: seq<nat>) {
    && |cells| > 0
    && Slots(hot, held, oldest)
    && Partition(cells, held, free)
    && (|cells| >= 2 && free != [] ==> cold == [])
  }

  /** `insert` of an item that has a slot and is not the most recent. */
  lemma InsertHolder<T(!new)>(hot: seq<T>, cold: seq<T>, cells: seq<Option<T>>, held: map<T, nat>, oldest: Option<T>,
                              free: seq<nat>, item: T, newer: map<T, T>)
    returns (hot': seq<T>)
    requires Distinct(hot + cold) && Bound(hot, cold, cells, held, oldest, free) && LinksNewer(hot + cold, newer)
    requires item in held && (hot + cold == [] || (hot + cold)[0] != item)
    ensures hot' + cold == [item] + Without(hot + cold, item) && |hot'| == |hot|
    ensures item in hot && oldest.Some? && (oldest == Some(item) ==> item in newer)
    ensures Bound(hot', cold, cells, held, if oldest == Some(item) then Get(newer, item) else oldest, free)
  {
    hide Partition, Without;
    DistinctParts(hot, cold);
    var a, b := SplitAround(hot, item);
    NewerInside(hot, cold, a, item, b, newer);
    SlotsPromote(a, item, b, held, oldest);
    WithoutAppend(hot, cold, item);
    WithoutAbsent(cold, item);
    hot' := [item] + a + b;
    Regroup([item], a, b, cold);
    assert hot' == [item] + (a + b);
  }

  lemma NewerInside<T(!new)>(hot: seq<T>, cold: seq<T>, a: seq<T>, item: T, b: seq<T>, newer: map<T, T>)
    requires LinksNewer(hot + cold, newer) && hot == a + [item] + b && item !in b
    ensures Get(newer, item) == Last(a)
    ensures a == [] <==> (hot + cold)[0] == item
    ensures Last(hot) == Some(item) <==> b == []
  {
    assert (hot + cold)[|a|] == item;
    if a != [] {
      assert (hot + cold)[|a| - 1] == a[|a| - 1];
      assert item in newer;
    }
    if b != [] {
      assert hot[|hot| - 1] == b[|b| - 1];
    }
  }

  /** `insert` of an item without a slot while a slot is free. */
  lemma InsertIntoFree<T(!new)>(hot: seq<T>, cold: seq<T>, cells: seq<Option<T>>, held: map<T, nat>, oldest: Option<T>,
                                free: seq<nat>, item: T)
    requires Bound(hot, cold, cells, held, oldest, free)
    requires item !in held && free != []
    ensures ([item] + hot) + Without(cold, item) == [item] + Without(hot + cold, item)
    ensures item !in hot && oldest != Some(item) && |hot| < |cells|
    ensures free[0] < |cells| &&
            Bound([item] + hot, Without(cold, item), cells[free[0] := Some(item)], held[item := free[0]],
                  if oldest.None? then Some(item) else oldest, free[1..])
  {
    WithoutAppend(hot, cold, item);
    WithoutAbsent(hot, item);
    TakeFreeSlot(cells, held, free, item);
    SlotsAdd(hot, item, held, oldest, free[0]);
  }

  /** `insert` of an item without a slot while no slot is free: the oldest item with a slot loses it. */
  lemma InsertByEviction<T(!new)>(hot: seq<T>, cold: seq<T>, cells: seq<Option<T>>, held: map<T, nat>, oldest: Option<T>,
                                  free: seq<nat>, item: T, newer: map<T, T>)
    returns (hot': seq<T>, cold': seq<T>)
    requires Distinct(hot + cold) && Bound(hot, cold, cells, held, oldest, free)
    requires LinksNewer(Without(hot + cold, item), newer)
    requires item !in held && free == []
    ensures hot' + cold' == [item] + Without(hot + cold, item) && |hot'| == |hot| == |cells|
    ensures item !in hot && oldest != Some(item)
    ensures oldest.Some? && oldest.value in held
    ensures var slot := held[oldest.value];
            slot < |cells| && cells[slot] == oldest &&
            Bound(hot', cold', cells[slot := Some(item)], (held - {oldest.value})[item := slot],
                  if oldest.value in newer then Some(newer[oldest.value]) else Some(item), free)
  {
    hide Partition, Without;
    WithoutAppend(hot, cold, item);
    WithoutAbsent(hot, item);
    DistinctParts(hot, cold);
    HeldCount(cells, held, free);
    var k := |hot| - 1;
    var h, o := hot[..k], hot[k];
    assert hot == h + [o];
    SlotsEvict(h, o, item, held, oldest, held[o]);
    PassSlotOn(cells, held, free, o, item);
    hot', cold' := [item] + h, [o] + Without(cold, item);
    Regroup([item], h, [o], Without(cold, item));
    var items := Without(hot + cold, item);
    assert items[k] == o && (k > 0 ==> items[k - 1] == hot[k - 1]);
  }

  lemma LinksFacts<T(!new)>(items: seq<T>, newer: map<T, T>, older: map<T, T>, newest: Option<T>)
    requires Links(items, newer, older, newest)
    ensures Distinct(items) && LinksNewer(items, newer)
    ensures newest.None? <==> items == []
    ensures newest.Some? ==> newest.value == items[0] && [newest.value] + Without(items, newest.value) == items
  {
    if items != [] {
      WithoutAt(items, 0);
    }
  }

  /** Who holds which slot after `insert` has found one for an item that is linked out. */
  datatype Grant<T> = Grant(held: map<T, nat>, free: seq<nat>, oldest: Option<T>, action: Action<T>)

  function Granted<T>(held: map<T, nat>, free: seq<nat>, oldest: Option<T>, newer: map<T, T>, item: T): Grant<T> {
    if item in held then Grant(held, free, oldest, NoAction)
    else if free != [] then Grant(held[item := free[0]], free[1..], oldest, SetSlot(free[0], item))
    else if oldest.Some? && oldest.value in held then
      var slot := held[oldest.value];
      Grant((held - {oldest.value})[item := slot], free, Get(newer, oldest.value), SetSlot(slot, item))
    else Grant(held, free, oldest, NoAction) // the original panics
  }

  ghost predicate CanGrant<T(!new)>(held: map<T, nat>, free: seq<nat>, oldest: Option<T>, item: T) {
    item in held || free != [] || (oldest.Some? && oldest.value in held)
  }

  /** What `insert` may tell the device: nothing for an item with a slot, else one cell, free or of the oldest. */
  ghost predicate IsInsertAction<T(!new)>(hot: seq<T>, cells: seq<Option<T>>, item: T, action: Action<T>) {
    match action
    case NoAction => item in hot
    case SetSlot(slot, x) =>
      item !in hot && x == item && slot < |cells| &&
      cells[slot] == if |hot| < |cells| then None else Last(hot)
    case ClearSlot(slot) => false
  }

  lemma InsertKeepsBound<T(!new)>(hot: seq<T>, cold: seq<T>, cells: seq<Option<T>>, held: map<T, nat>, oldest: Option<T>,
                                  free: seq<nat>, item: T, newer: map<T, T>, unlinked: map<T, T>)
    returns (hot': seq<T>, cold': seq<T>)
    requires Distinct(hot + cold) && Bound(hot, cold, cells, held, oldest, free)
    requires LinksNewer(hot + cold, newer) && LinksNewer(Without(hot + cold, item), unlinked)
    requires hot + cold == [] || (hot + cold)[0] != item
    ensures hot' + cold' == [item] + Without(hot + cold, item)
    ensures |hot'| == if item in hot then |hot| else Min(|cells|, |hot| + 1)
    ensures var oldest' := if oldest == Some(item) then Get(newer, item) else oldest;
            var g := Granted(held, free, oldest', unlinked, item);
            CanGrant(held, free, oldest', item) &&
            IsInsertAction(hot, cells, item, g.action) &&
            Bound(hot', cold', Apply(cells, g.action), g.held, if g.oldest.None? then Some(item) else g.oldest, g.free)
  {
    if item in held {
      cold' := cold;
      hot' := InsertHolder(hot, cold, cells, held, oldest, free, item, newer);
    } else if free != [] {
      InsertIntoFree(hot, cold, cells, held, oldest, free, item);
      hot', cold' := [item] + hot, Without(cold, item);
    } else {
      hot', cold' := InsertByEviction(hot, cold, cells, held, oldest, free, item, unlinked);
    }
  }

  /** `reassign_slot`: the slot goes to the item behind the boundary, if the boundary has one behind it. */
  function Reassigned<T>(held: map<T, nat>, free: seq<nat>, oldest: Option<T>, older: map<T, T>, slot: nat): Grant<T> {
    if oldest.Some? && oldest.value in older then
      var next := older[oldest.value];
      Grant(held[next := slot], free, Some(next), SetSlot(slot, next))
    else Grant(held, free + [slot], oldest, ClearSlot(slot))
  }

  /** What `remove` may tell the device: the item's cell goes to the first waiting item or becomes empty. */
  ghost predicate IsRemoveAction<T(!new)>(hot: seq<T>, cold: seq<T>, cells: seq<Option<T>>, item: T, action: Action<T>) {
    match action
    case NoAction => item !in hot
    case SetSlot(slot, x) =>
      item in hot && slot < |cells| && cells[slot] == Some(item) && cold != [] && x == cold[0] && |hot| > 1
    case ClearSlot(slot) =>
      item in hot && slot < |cells| && cells[slot] == Some(item) && (cold == [] || |cells| == 1)
  }

  lemma RemoveKeepsBound<T(!new)>(hot: seq<T>, cold: seq<T>, cells: seq<Option<T>>, held: map<T, nat>, oldest: Option<T>,
                                  free: seq<nat>, item: T, newer: map<T, T>, older: map<T, T>)
    returns (hot': seq<T>, cold': seq<T>)
    requires Distinct(hot + cold) && Bound(hot, cold, cells, held, oldest, free)
    requires LinksNewer(hot + cold, newer) && LinksOlder(Without(hot + cold, item), older)
    ensures hot' + cold' == Without(hot + cold, item)
    ensures |hot'| == if item in hot && (|cells| == 1 || cold == []) then |hot| - 1 else |hot|
    ensures var oldest' := if oldest == Some(item) then Get(newer, item) else oldest;
            var g := if item in held then Reassigned(held - {item}, free, oldest', older, held[item])
                     else Grant(held, free, oldest', NoAction);
            IsRemoveAction(hot, cold, cells, item, g.action) &&
            Bound(hot', cold', Apply(cells, g.action), g.held, g.oldest, g.free)
  {
    hide Partition, Without, Distinct, LinksNewer, LinksOlder;
    DistinctParts(hot, cold);
    WithoutAppend(hot, cold, item);
    if item !in held {
      WithoutAbsent(hot, item);
      hot', cold' := hot, Without(cold, item);
      ColdStaysEmpty(cold, item);
    } else {
      WithoutAbsent(cold, item);
      var a, b := SplitAround(hot, item);
      NewerInside(hot, cold, a, item, b, newer);
      SlotsDrop(a, item, b, held, oldest);
      ReleaseSlot(cells, held, free, item);
      HeldCount(cells, held, free);
      OlderAtBoundary(a + b, cold, older);
      if a + b != [] && cold != [] {
        PassSlotOn(cells, held, free, item, cold[0]);
        SlotsRefill(a + b, cold[0], held - {item}, Last(a + b), held[item]);
        MoveHead(a + b, cold);
        hot', cold' := (a + b) + [cold[0]], cold[1..];
      } else {
        hot', cold' := a + b, cold;
      }
    }
  }

  lemma MoveHead<T>(s: seq<T>, t: seq<T>)
    requires t != []
    ensures (s + [t[0]]) + t[1..] == s + t
  {
  }

  lemma HeldCount<T(!new)>(cells: seq<Option<T>>, held: map<T, nat>, free: seq<nat>)
    requires Partition(cells, held, free)
    ensures |held| + |free| == |cells|
  {
  }

  lemma ColdStaysEmpty<T(!new)>(cold: seq<T>, item: T)
    ensures cold == [] ==> Without(cold, item) == []
  {
  }

  lemma OlderAtBoundary<T(!new)>(hot: seq<T>, cold: seq<T>, older: map<T, T>)
    requires LinksOlder(hot + cold, older)
    ensures hot != [] ==> Get(older, hot[|hot| - 1]) == if cold == [] then None else Some(cold[0])
  {
    if hot != [] {
      assert (hot + cold)[|hot| - 1] == hot[|hot| - 1];
      assert cold != [] ==> (hot + cold)[|hot|] == cold[0];
    }
  }

  lemma BoundHolds<T(!new)>(hot: seq<T>, cold: seq<T>, cells: seq<Option<T>>, held: map<T, nat>, oldest: Option<T>, free: seq<nat>)
    requires Bound(hot, cold, cells, held, oldest, free) && Distinct(hot + cold)
    ensures Holds(Table(hot + cold, cells), |hot|)
  {
    hide Distinct;
    var items := hot + cold;
    assert items[..|hot|] == hot;
    forall i | 0 <= i < |hot| ensures Some(items[i]) in cells {
      assert items[i] == hot[i] && hot[i] in held.Keys;
      assert cells[held[hot[i]]] == Some(items[i]);
    }
    forall s | 0 <= s < |cells| && cells[s].Some? ensures cells[s].value in items[..|hot|] {
      assert cells[s].value in held.Keys;
    }
  }

  /**
   * What the invariant means: the device shows exactly the first items of the recency list. With
   * two or more slots that is as many as there are slots or items; with one it may be none.
   */
  lemma BoundShowsNewest<T(!new)>(hot: seq<T>, cold: seq<T>, cells: seq<Option<T>>, held: map<T, nat>, oldest: Option<T>, free: seq<nat>)
    requires Bound(hot, cold, cells, held, oldest, free) && Distinct(hot + cold)
    ensures Holds(Table(hot + cold, cells), |hot|)
    ensures |hot| <= Min(|cells|, |hot + cold|)
    ensures |cells| >= 2 ==> Tidy(Table(hot + cold, cells))
    ensures Tidy(Table(hot + cold, cells)) <==> |hot| == Min(|cells|, |hot + cold|)
  {
    var items := hot + cold;
    BoundHolds(hot, cold, cells, held, oldest, free);
    hide Slots, Partition, Distinct;
    if |hot| < Min(|cells|, |items|) {
      assert hot == [];
      assert Some(items[0]) !in cells;
    }
  }

  class MRUSet<T(==, !new)> {
    var entries: set<T>
    var assignedSlots: map<T, nat>
    var linkNewer: map<T, T>
    var linkOlder: map<T, T>
    var newest: Option<T>
    var oldestSlotted: Option<T>
    var freeSlots: seq<nat>
    ghost var hot: seq<T>                // the items with a slot, the most recent first
    ghost var cold: seq<T>               // the items without one, all older
    ghost var cells: seq<Option<T>>      // what the device shows in each slot

    ghost predicate Valid()
      reads this
    {
      && entries == Elements(hot + cold)
      && Links(hot + cold, linkNewer, linkOlder, newest)
      && Bound(hot, cold, cells, assignedSlots, oldestSlotted, freeSlots)
    }

    constructor (numSlots: nat)
      requires numSlots != 0
      ensures Valid() && hot == cold == [] && cells == seq(numSlots, _ => None)
    {
      entries := {};
      linkNewer, linkOlder, assignedSlots := map[], map[], map[];
      newest, oldestSlotted := None, None;
      freeSlots := seq(numSlots, i => i);
      hot, cold, cells := [], [], seq(numSlots, _ => None);
      new;
      forall s | 0 <= s < numSlots ensures s in freeSlots {
        assert freeSlots[s] == s;
      }
    }

    /** Takes the item out of the links; the assertions of the original never fire. */
    method Unlink(item: T, ghost items: seq<T>)
      requires Links(items, linkNewer, linkOlder, newest)
      modifies this`linkNewer, this`linkOlder, this`newest, this`oldestSlotted
      ensures Links(Without(items, item), linkNewer, linkOlder, newest)
      ensures LinksNewer(Without(items, item), linkNewer) && LinksOlder(Without(items, item), linkOlder) && item !in Without(items, item)
      ensures oldestSlotted == if old(oldestSlotted) == Some(item) then Get(old(linkNewer), item) else old(oldestSlotted)
    {
      UnlinkKeepsLinks(items, item, linkNewer, linkOlder, newest);
      WithoutMembers(items, item);
      var newer := Get(linkNewer, item);
      linkNewer := linkNewer - {item};
      var older := Get(linkOlder, item);
      linkOlder := linkOlder - {item};
      if newer.Some? {
        assert Get(linkOlder, newer.value) == Some(item);
        linkOlder := InsertOrRemove(linkOlder, newer.value, older);
      }
      if older.Some? {
        assert Get(linkNewer, older.value) == Some(item);
        linkNewer := InsertOrRemove(linkNewer, older.value, newer);
      }
      if newest == Some(item) {
        newest := older;
      }
      if oldestSlotted == Some(item) {
        oldestSlotted := newer;
      }
    }

    method LinkAsNewest(item: T, ghost items: seq<T>)
      requires Links(items, linkNewer, linkOlder, newest) && item !in items
      modifies this`linkNewer, this`linkOlder, this`newest, this`oldestSlotted
      ensures Links([item] + items, linkNewer, linkOlder, newest)
      ensures oldestSlotted == if old(oldestSlotted).None? then Some(item) else old(oldestSlotted)
    {
      LinkKeepsLinks(items, item, linkNewer, linkOlder, newest);
      var secondNewest := newest;
      newest := Some(item);
      if secondNewest.Some? {
        assert secondNewest.value !in linkNewer;
        linkNewer := linkNewer[secondNewest.value := item];
      }
      assert item !in linkOlder;
      linkOlder := InsertOrRemove(linkOlder, item, secondNewest);
      if oldestSlotted.None? {
        oldestSlotted := Some(item);
      }
    }

    method TakeOldestSlot() returns (slot: Option<nat>)
      modifies this`oldestSlotted, this`freeSlots, this`assignedSlots
      ensures old(freeSlots) != [] ==>
                slot == Some(old(freeSlots)[0]) && freeSlots == old(freeSlots)[1..] &&
                oldestSlotted == old(oldestSlotted) && assignedSlots == old(assignedSlots)
      ensures old(freeSlots) == [] && old(oldestSlotted).Some? ==>
                var oldest := old(oldestSlotted).value;
                slot == Get(old(assignedSlots), oldest) && freeSlots == [] &&
                oldestSlotted == Get(linkNewer, oldest) && assignedSlots == old(assignedSlots) - {oldest}
      ensures old(freeSlots) == [] && old(oldestSlotted).None? ==>
                slot == None && freeSlots == [] && oldestSlotted == None && assignedSlots == old(assignedSlots)
    {
      if freeSlots != [] {
        slot := Some(freeSlots[0]);
        freeSlots := freeSlots[1..];
      } else if oldestSlotted.None? {
        slot := None;
      } else {
        var oldest := oldestSlotted.value;
        oldestSlotted := Get(linkNewer, oldest);
        slot := Get(assignedSlots, oldest);
        assignedSlots := assignedSlots - {oldest};
      }
    }

    /** The item's own slot, else a free one, else that of the oldest item with a slot. */
    method GrantSlot(item: T) returns (action: Action<T>)
      requires CanGrant(assignedSlots, freeSlots, oldestSlotted, item)
      modifies this`oldestSlotted, this`freeSlots, this`assignedSlots
      ensures Grant(assignedSlots, freeSlots, oldestSlotted, action)
              == Granted(old(assignedSlots), old(freeSlots), old(oldestSlotted), linkNewer, item)
    {
      var slot;
      if item in assignedSlots {
        slot := assignedSlots[item];
        assignedSlots := assignedSlots - {item};
        action := NoAction;
      } else {
        var taken := TakeOldestSlot();
        slot := taken.value;
        action := SetSlot(slot, item);
      }
      assignedSlots := assignedSlots[item := slot];
    }

    /**
     * The item becomes the most recent and has a slot, unless it already was the most recent.
     * A free slot is used before one is taken from the oldest item that has one.
     */
    method Insert(item: T) returns (action: Action<T>)
      requires Valid()
      modifies this
      ensures Valid()
      ensures hot + cold == [item] + Without(old(hot + cold), item)
      ensures cells == Apply(old(cells), action)
      ensures old(newest) == Some(item) ==> action == NoAction && hot == old(hot)
      ensures old(newest) != Some(item) ==> IsInsertAction(old(hot), old(cells), item, action)
      ensures |hot| == if old(newest) == Some(item) || item in old(hot) then |old(hot)| else Min(|cells|, |old(hot)| + 1)
    {
      hide Bound, Links, LinksNewer, LinksOlder, Distinct, Without, Elements, Granted, CanGrant, Min, Get, IsInsertAction;
      ghost var items, newer, held, oldest, free := hot + cold, linkNewer, assignedSlots, oldestSlotted, freeSlots;
      LinksFacts(items, linkNewer, linkOlder, newest);
      if newest == Some(item) {
        return NoAction;
      }
      MovedElements(items, item);
      entries := entries + {item};
      Unlink(item, items);
      hot, cold := InsertKeepsBound(hot, cold, cells, held, oldest, free, item, newer, linkNewer);
      action := GrantSlot(item);
      LinkAsNewest(item, Without(items, item));
      cells := Apply(cells, action);
    }

    /**
     * The set without the item. Its slot, if it had one, goes to the most recent item without a
     * slot, or becomes free. A device with a single slot is the exception: there the slot becomes
     * free although an item may be waiting for it.
     */
    method Remove(item: T) returns (action: Action<T>)
      requires Valid()
      modifies this
      ensures Valid()
      ensures hot + cold == Without(old(hot + cold), item)
      ensures cells == Apply(old(cells), action)
      ensures IsRemoveAction(old(hot), old(cold), old(cells), item, action)
      ensures |hot| == if item in old(hot) && (|cells| == 1 || old(cold) == []) then |old(hot)| - 1 else |old(hot)|
    {
      hide Bound, Links, LinksNewer, LinksOlder, Distinct, Without, Elements, Reassigned, Get, IsRemoveAction;
      ghost var items, newer, held, oldest, free := hot + cold, linkNewer, assignedSlots, oldestSlotted, freeSlots;
      LinksFacts(items, linkNewer, linkOlder, newest);
      MovedElements(items, item);
      Unlink(item, items);
      hot, cold := RemoveKeepsBound(hot, cold, cells, held, oldest, free, item, newer, linkOlder);
      entries := entries - {item};
      if item in assignedSlots {
        var slot := assignedSlots[item];
        assignedSlots := assignedSlots - {item};
        action := ReassignSlot(slot);
      } else {
        action := NoAction;
      }
      cells := Apply(cells, action);
    }

    method ReassignSlot(slot: nat) returns (action: Action<T>)
      modifies this`oldestSlotted, this`freeSlots, this`assignedSlots
      ensures Grant(assignedSlots, freeSlots, oldestSlotted, action)
              == Reassigned(old(assignedSlots), old(freeSlots), old(oldestSlotted), linkOlder, slot)
    {
      if oldestSlotted.Some? && oldestSlotted.value in linkOlder {
        var nextInLine := linkOlder[oldestSlotted.value];
        assignedSlots := assignedSlots[nextInLine := slot];
        oldestSlotted := Some(nextInLine);
        action := SetSlot(slot, nextInLine);
      } else {
        freeSlots := freeSlots + [slot];
        action := ClearSlot(slot);
      }
    }

    /** The device shows the most recent items; with two or more slots, as many as it can. */
    lemma ShowsNewest()
      requires Valid()
      ensures Holds(Table(hot + cold, cells), |hot|)
      ensures |cells| >= 2 ==> Tidy(Table(hot + cold, cells))
      ensures Tidy(Table(hot + cold, cells)) <==> |hot| == Min(|cells|, |hot + cold|)
    {
      BoundShowsNewest(hot, cold, cells, assignedSlots, oldestSlotted, freeSlots);
    }

    method HasSlot(item: T) returns (slot: Option<nat>)
      requires Valid()
      ensures slot.Some? <==> item in hot
      ensures slot.Some? ==> slot.value < |cells| && cells[slot.value] == Some(item)
    {
      slot := Get(assignedSlots, item);
      assert item in assignedSlots.Keys <==> item in hot;
    }

    method Contains(item: T) returns (r: bool)
      requires Valid()
      ensures r <==> item in hot + cold
    {
      r := item in entries;
    }
  }

  method OneInserted<T(==, !new)>(a: T) returns (m: MRUSet<T>)
    ensures fresh(m) && m.Valid() && |m.cells| == 1
    ensures m.hot == [a] && m.hot + m.cold == [a] && m.newest == Some(a)
  {
    hide Bound, Links, Holds, Elements, Distinct, IsInsertAction, Without, Tidy;
    m := new MRUSet(1);
    assert m.hot + m.cold == [];
    WithoutAbsent([], a);
    LinksFacts([], m.linkNewer, m.linkOlder, m.newest);
    var _ := m.Insert(a);
    Parts(m.hot, m.cold);
    LinksFacts(m.hot + m.cold, m.linkNewer, m.linkOlder, m.newest);
  }

  method TwoInserted<T(==, !new)>(a: T, b: T) returns (m: MRUSet<T>)
    requires a != b
    ensures fresh(m) && m.Valid() && |m.cells| == 1
    ensures m.hot + m.cold == [b, a] && m.hot == [b] && m.cold == [a]
  {
    hide Bound, Links, Holds, Elements, Distinct, IsInsertAction, Without, Tidy;
    m := OneInserted(a);
    var _ := m.Insert(b);
    WithoutAbsent([a], b);
    Parts(m.hot, m.cold);
  }

  /** A device with one slot: after the newest of two items is removed, the other one waits in vain. */
  method OneSlotIsTooFew<T(==, !new)>(a: T, b: T) returns (m: MRUSet<T>)
    requires a != b
    ensures fresh(m) && m.Valid() && m.hot == [] && m.cold == [a] && m.cells == [None]
    ensures !Tidy(Table(m.hot + m.cold, m.cells))
  {
    hide Bound, Links, Holds, Elements, Distinct, IsInsertAction, Without, Tidy;
    m := TwoInserted(a, b);
    var action := m.Remove(b);
    WithoutAt([b, a], 0);
    Parts(m.hot, m.cold);
    assert m.hot == [] && action == ClearSlot(0);
    m.ShowsNewest();
  }

  lemma Parts<T>(s: seq<T>, t: seq<T>)
    ensures s == (s + t)[..|s|] && t == (s + t)[|s|..]
  {
  }

  /**
   * Removing an item keeps the most recent items on the device unless it has a single slot, the
   * item is in it, and another item waits.
   */
  method RemoveKeepsTidyIff<T(==, !new)>(m: MRUSet<T>, item: T) returns (action: Action<T>)
    requires m.Valid() && Tidy(Table(m.hot + m.cold, m.cells))
    modifies m
    ensures m.Valid()
    ensures Tidy(Table(m.hot + m.cold, m.cells)) <==>
              !(|m.cells| == 1 && item in old(m.hot) && old(m.cold) != [])
  {
    m.ShowsNewest();
    WithoutLength(m.hot, m.cold, item);
    action := m.Remove(item);
    m.ShowsNewest();
  }

  lemma WithoutLength<T(!new)>(hot: seq<T>, cold: seq<T>, item: T)
    requires Distinct(hot + cold)
    ensures |Without(hot + cold, item)| == |hot| + |cold| - (if item in hot || item in cold then 1 else 0)
  {
    if item in hot + cold {
      var a, b := SplitAround(hot + cold, item);
    } else {
      WithoutAbsent(hot + cold, item);
    }
  }
}
