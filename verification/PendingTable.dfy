/** The cache of pending destinations in the slots of the radio: `src/ieee802154/mac/pendingtable.rs`. */
module PendingTables {
  import opened Prelude

  /** `UniqueKey`: keys are handed out by counting up, so a new one differs from all before. */
  type Key = nat

  datatype Entry<T> = Entry(dirty: bool, value: Option<T>)

  datatype Update<T> = Update(key: Key, index: nat, value: Option<T>)

  datatype Updating = Updating(key: Key, index: nat)

  /** `order` lists the slots; its first is the first to be overwritten. */
  datatype Pending<T> = Pending(values: set<T>, table: seq<Entry<T>>, order: seq<nat>, updating: Option<Updating>)

  // ----- Operations

  function Empty<T>(size: nat): Pending<T> {
    Pending({}, seq(size, _ => Entry(true, None)), seq(size, i => i), None)
  }

  /** The first slot from `start` on that holds the value. */
  function IndexFrom<T(==)>(table: seq<Entry<T>>, value: T, start: nat): (r: Option<nat>)
    decreases |table| - start
  {
    if start >= |table| then None
    else if table[start].value == Some(value) then Some(start)
    else IndexFrom(table, value, start + 1)
  }

  /** The value gets a slot if it has none, that of the first in line, and goes to the end of the line. */
  function Promoted<T(==)>(p: Pending<T>, value: T): Pending<T> {
    match IndexFrom(p.table, value, 0)
    case Some(index) => p.(order := Without(p.order, index) + [index])
    case None =>
      if p.order != [] && p.order[0] < |p.table| then
        p.(table := p.table[p.order[0] := Entry(true, Some(value))], order := Without(p.order, p.order[0]) + [p.order[0]])
      else p
  }

  function Inserted<T(==)>(p: Pending<T>, value: T): Pending<T> {
    Promoted(p.(values := p.values + {value}), value)
  }

  function Removed<T(==)>(p: Pending<T>, value: T): Pending<T> {
    if value !in p.values then p
    else
      var q := p.(values := p.values - {value});
      match IndexFrom(p.table, value, 0)
      case Some(index) =>
        if index < |p.table| then q.(table := p.table[index := Entry(true, None)], order := [index] + Without(p.order, index)) else q
      case None => q
  }

  function SetTo<T(==)>(p: Pending<T>, value: T, inserted: bool): Pending<T> {
    if inserted then Inserted(p, value) else Removed(p, value)
  }

  function FirstDirty<T>(table: seq<Entry<T>>, start: nat): (r: Option<nat>)
    ensures r.Some? ==> start <= r.value < |table| && table[r.value].dirty && forall i | start <= i < r.value :: !table[i].dirty
    ensures r.None? ==> forall i | start <= i < |table| :: !table[i].dirty
    decreases |table| - start
  {
    if start >= |table| then None
    else if table[start].dirty then Some(start)
    else FirstDirty(table, start + 1)
  }

  /** One update at a time: the first dirty slot is sent with its present value. */
  function Polled<T>(p: Pending<T>, key: Key): (Pending<T>, Option<Update<T>>) {
    if p.updating.Some? then (p, None)
    else match FirstDirty(p.table, 0)
      case None => (p, None)
      case Some(index) =>
        (p.(table := p.table[index := p.table[index].(dirty := false)], updating := Some(Updating(key, index))),
         Some(Update(key, index, p.table[index].value)))
  }

  function Reported<T>(p: Pending<T>, key: Key, success: bool): Pending<T> {
    match p.updating
    case Some(Updating(k, index)) =>
      if k != key then p
      else if success || index >= |p.table| then p.(updating := None)
      else p.(updating := None, table := p.table[index := p.table[index].(dirty := true)])
    case None => p
  }

  function AssumedEmpty<T>(p: Pending<T>): Pending<T> {
    p.(table := seq(|p.table|, i requires 0 <= i < |p.table| => Entry(p.table[i].value.Some?, p.table[i].value)))
  }

  // ----- The table as a bounded list of recent values

  /** The values in the slots listed, in that order. */
  function Cached<T>(table: seq<Entry<T>>, order: seq<nat>): seq<T> {
    if order == [] then []
    else
      (if order[0] < |table| && table[order[0]].value.Some? then [table[order[0]].value.value] else []) +
      Cached(table, order[1..])
  }

  /** Values by recency, the least recently promoted first. */
  function Recent<T>(p: Pending<T>): seq<T> {
    Cached(p.table, p.order)
  }

  ghost predicate IsPermutation(order: seq<nat>, size: nat) {
    |order| == size && Distinct(order) && forall i :: i in order <==> 0 <= i < size
  }

  predicate IsFull<T>(table: seq<Entry<T>>, index: nat) {
    index < |table| && table[index].value.Some?
  }

  /** The slots without a value come first in line. */
  ghost predicate EmptyFirst<T(!new)>(table: seq<Entry<T>>, order: seq<nat>) {
    forall k | 0 <= k < |order| :: IsFull(table, order[k]) <==> k >= |order| - |Cached(table, order)|
  }

  ghost predicate ValuesDistinct<T(!new)>(table: seq<Entry<T>>) {
    forall i, j | 0 <= i < |table| && 0 <= j < |table| && table[i].value.Some? && table[i].value == table[j].value :: i == j
  }

  ghost predicate Sound<T(!new)>(p: Pending<T>) {
    && IsPermutation(p.order, |p.table|)
    && EmptyFirst(p.table, p.order)
    && ValuesDistinct(p.table)
    && (forall i | 0 <= i < |p.table| && p.table[i].value.Some? :: p.table[i].value.value in p.values)
    && (p.updating.Some? ==> p.updating.value.index < |p.table|)
  }

  /** A list of at most `size` values that drops the least recent when it is full. */
  function LruInserted<T(==)>(recent: seq<T>, value: T, size: nat): seq<T> {
    if value in recent then Without(recent, value) + [value]
    else if |recent| < size || recent == [] then recent + [value]
    else recent[1..] + [value]
  }

  lemma {:induction false} IndexFromFinds<T(!new)>(table: seq<Entry<T>>, value: T, start: nat)
    ensures match IndexFrom(table, value, start)
            case Some(i) =>
              start <= i < |table| && table[i].value == Some(value) && forall k | start <= k < i :: table[k].value != Some(value)
            case None => forall i | start <= i < |table| :: table[i].value != Some(value)
    decreases |table| - start
  {
    if start < |table| && table[start].value != Some(value) {
      IndexFromFinds(table, value, start + 1);
    }
  }

  lemma {:induction false} CachedAppend<T>(table: seq<Entry<T>>, a: seq<nat>, b: seq<nat>)
    ensures Cached(table, a + b) == Cached(table, a) + Cached(table, b)
  {
    if a == [] {
      assert [] + b == b;
    } else {
      assert (a + b)[1..] == a[1..] + b;
      CachedAppend(table, a[1..], b);
    }
  }

  lemma {:induction false} CachedSame<T>(table: seq<Entry<T>>, table': seq<Entry<T>>, order: seq<nat>)
    requires |table| == |table'|
    requires forall i | i in order && i < |table| :: table[i].value == table'[i].value
    ensures Cached(table, order) == Cached(table', order)
  {
    if order != [] {
      CachedSame(table, table', order[1..]);
    }
  }

  lemma {:induction false} CachedMembers<T(!new)>(table: seq<Entry<T>>, order: seq<nat>, x: T)
    ensures x in Cached(table, order) <==> exists i :: i in order && i < |table| && table[i].value == Some(x)
    ensures |Cached(table, order)| <= |order|
  {
    if order != [] {
      CachedMembers(table, order[1..], x);
      assert forall i :: i in order <==> i == order[0] || i in order[1..];
    }
  }

  /** The cached values around one full slot. */
  lemma CachedAround<T(!new)>(table: seq<Entry<T>>, a: seq<nat>, index: nat, b: seq<nat>)
    requires ValuesDistinct(table) && IsFull(table, index) && index !in a && index !in b
    ensures var v := table[index].value.value;
            && Cached(table, a + [index] + b) == Cached(table, a) + [v] + Cached(table, b)
            && Without(Cached(table, a + [index] + b), v) == Cached(table, a + b)
            && v !in Cached(table, a + b)
  {
    var v, ca, cb := table[index].value.value, Cached(table, a), Cached(table, b);
    CachedAppend(table, a + [index], b);
    CachedAppend(table, a, [index]);
    CachedAppend(table, a, b);
    CachedMembers(table, a, v);
    CachedMembers(table, b, v);
    WithoutBetween(ca, v, cb);
  }

  lemma PermutationAround(order: seq<nat>, size: nat, index: nat) returns (a: seq<nat>, b: seq<nat>)
    requires IsPermutation(order, size) && index < size
    ensures order == a + [index] + b && index !in a && index !in b && Without(order, index) == a + b
    ensures IsPermutation(a + b + [index], size) && IsPermutation([index] + (a + b), size)
  {
    a, b := SplitAround(order, index);
    assert forall k | 0 <= k < |a + b| :: (a + b)[k] == order[if k < |a| then k else k + 1];
    assert forall i :: i in order <==> i == index || i in a + b;
  }

  // ----- Every operation keeps the table sound, and insert and remove act as on the bounded list

  lemma {:induction false} CachedNothing<T>(table: seq<Entry<T>>, order: seq<nat>)
    requires forall i | 0 <= i < |table| :: table[i].value.None?
    ensures Cached(table, order) == []
  {
    if order != [] {
      CachedNothing(table, order[1..]);
    }
  }

  lemma EmptyIsSound<T(!new)>(size: nat)
    ensures Sound(Empty<T>(size)) && Recent(Empty<T>(size)) == []
  {
    var p := Empty<T>(size);
    CachedNothing(p.table, p.order);
    forall i | 0 <= i < size ensures i in p.order {
      assert p.order[i] == i;
    }
  }

  /** A value that is cached moves to the end of the line. */
  lemma PromoteCached<T(!new)>(p: Pending<T>, value: T, index: nat)
    requires Sound(p) && index < |p.table| && p.table[index].value == Some(value)
    ensures var order := Without(p.order, index) + [index];
            && IsPermutation(order, |p.table|)
            && EmptyFirst(p.table, order)
            && Cached(p.table, order) == Without(Recent(p), value) + [value]
            && value in Recent(p)
  {
    hide ValuesDistinct;
    var a, b := PermutationAround(p.order, |p.table|, index);
    CachedAround(p.table, a, index, b);
    CachedAppend(p.table, a + b, [index]);
    CachedAppend(p.table, a, b);
    FullMovesBack(p.table, a, index, b);
  }

  lemma FullMovesBack<T(!new)>(table: seq<Entry<T>>, a: seq<nat>, index: nat, b: seq<nat>)
    requires EmptyFirst(table, a + [index] + b) && IsFull(table, index)
    requires |Cached(table, a + b + [index])| == |Cached(table, a + [index] + b)|
    ensures EmptyFirst(table, a + b + [index])
  {
    var before, after := a + [index] + b, a + b + [index];
    assert before[|a|] == index;
    forall k | 0 <= k < |after| ensures IsFull(table, after[k]) <==> k >= |after| - |Cached(table, after)| {
      if k < |a| {
        assert after[k] == before[k];
      } else if k + 1 < |after| {
        assert after[k] == before[k + 1];
      }
    }
  }

  /** What the slots hold after the first in line got a new value. */
  lemma CachedAfterNew<T(!new)>(table: seq<Entry<T>>, value: T, next: nat, rest: seq<nat>)
    requires next < |table| && next !in rest
    ensures Cached(table[next := Entry(true, Some(value))], rest + [next]) == Cached(table, rest) + [value]
    ensures Cached(table, [next] + rest)
            == (if IsFull(table, next) then [table[next].value.value] else []) + Cached(table, rest)
  {
    var table' := table[next := Entry(true, Some(value))];
    CachedAppend(table', rest, [next]);
    CachedSame(table, table', rest);
    assert Cached(table', [next]) == [value];
  }

  /** A value that is not cached takes the first slot in line. */
  lemma PromoteNew<T(!new)>(p: Pending<T>, value: T, next: nat)
    requires Sound(p) && |p.table| > 0 && next == p.order[0] && next < |p.table|
    requires forall i | 0 <= i < |p.table| :: p.table[i].value != Some(value)
    ensures var table, order := p.table[next := Entry(true, Some(value))], Without(p.order, next) + [next];
            && IsPermutation(order, |p.table|)
            && EmptyFirst(table, order)
            && Cached(table, order) == LruInserted(Recent(p), value, |p.table|)
  {
    var table, rest := p.table[next := Entry(true, Some(value))], p.order[1..];
    var a, b := PermutationAround(p.order, |p.table|, next);
    assert a == [] && b == rest && a + b + [next] == rest + [next] && a + b == rest;
    assert p.order == [next] + rest;
    assert IsFull(p.table, p.order[0]) <==> 0 >= |p.order| - |Recent(p)|;
    hide ValuesDistinct, EmptyFirst, IsPermutation, Cached;
    CachedMembers(p.table, p.order, value);
    CachedAfterNew(p.table, value, next, rest);
    FirstMovesBack(p.table, table, next, rest);
  }

  lemma FirstMovesBack<T(!new)>(table: seq<Entry<T>>, table': seq<Entry<T>>, next: nat, rest: seq<nat>)
    requires EmptyFirst(table, [next] + rest) && next < |table| && next !in rest
    requires |table'| == |table| && IsFull(table', next)
    requires forall i | 0 <= i < |table| && i != next :: table'[i] == table[i]
    requires |Cached(table', rest + [next])| == |Cached(table, rest)| + 1
    requires |Cached(table, [next] + rest)| == |Cached(table, rest)| + (if IsFull(table, next) then 1 else 0)
    ensures EmptyFirst(table', rest + [next])
  {
    var before, after := [next] + rest, rest + [next];
    assert before[0] == next;
    forall k | 0 <= k < |after| ensures IsFull(table', after[k]) <==> k >= |after| - |Cached(table', after)| {
      if k < |rest| {
        assert after[k] == before[k + 1] == rest[k];
      }
    }
  }

  /** `insert`: the value is remembered and becomes the most recent one that has a slot. */
  lemma InsertedIsLru<T(!new)>(p: Pending<T>, value: T)
    requires Sound(p) && |p.table| > 0
    ensures var q := Inserted(p, value);
            && Sound(q)
            && q.values == p.values + {value}
            && Recent(q) == LruInserted(Recent(p), value, |p.table|)
            && |q.table| == |p.table| && q.updating == p.updating
  {
    IndexFromFinds(p.table, value, 0);
    match IndexFrom(p.table, value, 0) {
      case Some(index) => PromoteCached(p, value, index);
      case None =>
        assert p.order[0] in p.order;
        PromoteNew(p, value, p.order[0]);
    }
  }

  /** `remove`: the value is forgotten; its slot is the first to be used again. */
  lemma RemovedIsWithout<T(!new)>(p: Pending<T>, value: T)
    requires Sound(p)
    ensures var q := Removed(p, value);
            && Sound(q)
            && q.values == p.values - {value}
            && Recent(q) == Without(Recent(p), value)
            && |q.table| == |p.table| && q.updating == p.updating
  {
    IndexFromFinds(p.table, value, 0);
    match IndexFrom(p.table, value, 0) {
      case Some(index) => DemoteCached(p, value, index);
      case None =>
        CachedMembers(p.table, p.order, value);
        WithoutAbsent(Recent(p), value);
    }
  }

  /** The slot of a forgotten value becomes the first in line. */
  lemma DemoteCached<T(!new)>(p: Pending<T>, value: T, index: nat)
    requires Sound(p) && index < |p.table| && p.table[index].value == Some(value)
    ensures var table, order := p.table[index := Entry(true, None)], [index] + Without(p.order, index);
            && IsPermutation(order, |p.table|)
            && EmptyFirst(table, order)
            && Cached(table, order) == Without(Recent(p), value)
  {
    hide ValuesDistinct;
    var table := p.table[index := Entry(true, None)];
    var a, b := PermutationAround(p.order, |p.table|, index);
    CachedAround(p.table, a, index, b);
    CachedSame(p.table, table, a + b);
    assert ([index] + (a + b))[1..] == a + b;
    CachedAppend(p.table, a, b);
    EmptyMovesFirst(p.table, table, a, index, b);
  }

  lemma EmptyMovesFirst<T(!new)>(table: seq<Entry<T>>, table': seq<Entry<T>>, a: seq<nat>, index: nat, b: seq<nat>)
    requires EmptyFirst(table, a + [index] + b) && IsFull(table, index)
    requires table' == table[index := Entry(true, None)] && index !in a && index !in b
    requires |Cached(table', [index] + (a + b))| + 1 == |Cached(table, a + [index] + b)|
    ensures EmptyFirst(table', [index] + (a + b))
  {
    var before, after := a + [index] + b, [index] + (a + b);
    assert before[|a|] == index;
    CachedMembers(table, before, table[index].value.value);
    forall k | 0 <= k < |after| ensures IsFull(table', after[k]) <==> k >= |after| - |Cached(table', after)| {
      if 0 < k <= |a| {
        assert after[k] == before[k - 1] == a[k - 1];
      } else if k > |a| {
        assert after[k] == before[k] == b[k - |a| - 1];
      }
    }
  }

  lemma SetIsSound<T(!new)>(p: Pending<T>, value: T, inserted: bool)
    requires Sound(p) && |p.table| > 0
    ensures var q := SetTo(p, value, inserted);
            && Sound(q) && |q.table| == |p.table| && q.updating == p.updating
            && q.values == if inserted then p.values + {value} else p.values - {value}
  {
    if inserted {
      InsertedIsLru(p, value);
    } else {
      RemovedIsWithout(p, value);
    }
  }

  /** Updates and their results change no slot's value. */
  lemma DirtyFlagsDoNotMatter<T(!new)>(p: Pending<T>, q: Pending<T>)
    requires Sound(p) && q.values == p.values && q.order == p.order && |q.table| == |p.table|
    requires forall i | 0 <= i < |p.table| :: q.table[i].value == p.table[i].value
    requires q.updating.Some? ==> q.updating.value.index < |q.table|
    ensures Sound(q) && Recent(q) == Recent(p)
  {
    CachedSame(p.table, q.table, p.order);
    forall k | 0 <= k < |p.order| ensures IsFull(q.table, q.order[k]) <==> IsFull(p.table, p.order[k]) {
    }
  }

  lemma PolledIsSound<T(!new)>(p: Pending<T>, key: Key)
    requires Sound(p)
    ensures Sound(Polled(p, key).0) && Recent(Polled(p, key).0) == Recent(p)
  {
    DirtyFlagsDoNotMatter(p, Polled(p, key).0);
  }

  lemma ReportedIsSound<T(!new)>(p: Pending<T>, key: Key, success: bool)
    requires Sound(p)
    ensures Sound(Reported(p, key, success)) && Recent(Reported(p, key, success)) == Recent(p)
  {
    DirtyFlagsDoNotMatter(p, Reported(p, key, success));
  }

  lemma AssumedEmptyIsSound<T(!new)>(p: Pending<T>)
    requires Sound(p)
    ensures Sound(AssumedEmpty(p)) && Recent(AssumedEmpty(p)) == Recent(p)
  {
    DirtyFlagsDoNotMatter(p, AssumedEmpty(p));
  }

  /** What is in the slots: at most `size` values, all different, all still wanted. */
  lemma RecentIsWanted<T(!new)>(p: Pending<T>)
    requires Sound(p)
    ensures |Recent(p)| <= |p.table|
    ensures forall v :: v in Recent(p) <==> exists i :: 0 <= i < |p.table| && p.table[i].value == Some(v)
    ensures forall v :: v in Recent(p) ==> v in p.values
  {
    forall v: T ensures v in Recent(p) <==> exists i :: 0 <= i < |p.table| && p.table[i].value == Some(v) {
      CachedMembers(p.table, p.order, v);
      if i: nat :| i < |p.table| && p.table[i].value == Some(v) {
        assert i in p.order;
      }
    }
    if p.values != {} {
      var v :| v in p.values;
      CachedMembers(p.table, p.order, v);
    } else {
      CachedNothing(p.table, p.order);
    }
  }

  // ----- The radio's copy of the table

  /** The slots of the radio, and the value carried by the update that it has not answered yet. */
  datatype Mirror<T> = Mirror(slots: seq<Option<T>>, flight: Option<Option<T>>)

  /** A clean slot shows its value; if its update is under way, that update carries the value. */
  ghost predicate Mirrors<T(!new)>(p: Pending<T>, m: Mirror<T>) {
    && |m.slots| == |p.table|
    && (p.updating.Some? <==> m.flight.Some?)
    && (p.updating.Some? ==> p.updating.value.index < |p.table|)
    && forall i | 0 <= i < |p.table| && !p.table[i].dirty ::
         if p.updating.Some? && p.updating.value.index == i then m.flight == Some(p.table[i].value)
         else m.slots[i] == p.table[i].value
  }

  ghost predicate AllDirty<T>(p: Pending<T>) {
    forall i | 0 <= i < |p.table| :: p.table[i].dirty
  }

  /** The radio may show anything in the slot that is being written, and nothing new elsewhere. */
  ghost predicate OnlyFlightMoves<T>(p: Pending<T>, m: Mirror<T>, m': Mirror<T>) {
    && |m'.slots| == |m.slots|
    && m'.flight == m.flight
    && forall i | 0 <= i < |m.slots| && !(p.updating.Some? && p.updating.value.index == i) :: m'.slots[i] == m.slots[i]
  }

  /** The answer to an update: after a success the slot holds the value sent, after a failure anything. */
  ghost predicate Answered<T>(p: Pending<T>, key: Key, success: bool, m: Mirror<T>, m': Mirror<T>) {
    if p.updating.Some? && p.updating.value.key == key then
      && |m'.slots| == |m.slots|
      && m'.flight == None
      && forall i | 0 <= i < |m.slots| ::
           if i != p.updating.value.index then m'.slots[i] == m.slots[i]
           else success ==> m.flight == Some(m'.slots[i])
    else m' == m
  }

  lemma SetKeepsMirror<T(!new)>(p: Pending<T>, value: T, inserted: bool, m: Mirror<T>)
    requires Mirrors(p, m)
    ensures Mirrors(SetTo(p, value, inserted), m)
    ensures AllDirty(p) ==> AllDirty(SetTo(p, value, inserted))
  {
  }

  lemma PollKeepsMirror<T(!new)>(p: Pending<T>, key: Key, m: Mirror<T>)
    requires Mirrors(p, m)
    ensures match Polled(p, key).1
            case Some(u) =>
              Mirrors(Polled(p, key).0, m.(flight := Some(u.value))) && Polled(p, key).0.updating == Some(Updating(key, u.index))
            case None =>
              Polled(p, key).0 == p &&
              (p.updating.None? ==> forall i | 0 <= i < |p.table| :: m.slots[i] == p.table[i].value)
  {
  }

  lemma AnswerKeepsMirror<T(!new)>(p: Pending<T>, key: Key, success: bool, m: Mirror<T>, m': Mirror<T>)
    requires Mirrors(p, m) && Answered(p, key, success, m, m')
    ensures Mirrors(Reported(p, key, success), m')
  {
  }

  lemma ClearingKeepsMirror<T(!new)>(p: Pending<T>, m: Mirror<T>)
    requires p.updating.None? && m.flight.None? && |m.slots| == |p.table| && forall i | 0 <= i < |m.slots| :: m.slots[i].None?
    ensures Mirrors(AssumedEmpty(p), m)
  {
  }

  lemma FlightMovesKeepMirror<T(!new)>(p: Pending<T>, m: Mirror<T>, m': Mirror<T>)
    requires Mirrors(p, m) && OnlyFlightMoves(p, m, m')
    ensures Mirrors(p, m')
  {
  }

  lemma DirtyMirrorsAnything<T(!new)>(p: Pending<T>, m: Mirror<T>)
    requires AllDirty(p) && p.updating.None? && m.flight.None? && |m.slots| == |p.table|
    ensures Mirrors(p, m)
  {
  }

  // ----- Implementation

  /** Hands out keys that were never used before. */
  class KeySource {
    var next: nat

    constructor ()
      ensures next == 0
    {
      next := 0;
    }

    method New() returns (key: Key)
      modifies this
      ensures key == old(next) && next == old(next) + 1
    {
      key := next;
      next := next + 1;
    }
  }

  class PendingTable<T(==, !new)> {
    var values: set<T>
    var table: seq<Entry<T>>
    var order: seq<nat>
    var updating: Option<Updating>

    ghost function View(): Pending<T>
      reads this
    {
      Pending(values, table, order, updating)
    }

    constructor (size: nat)
      ensures View() == Empty(size)
    {
      values := {};
      table := seq(size, _ => Entry(true, None));
      order := seq(size, i => i);
      updating := None;
      new;
      assert table == Empty<T>(size).table && order == Empty<T>(size).order;
    }

    method AssumeEmpty()
      modifies this
      ensures View() == AssumedEmpty(old(View()))
    {
      for index := 0 to |table|
        invariant values == old(values) && order == old(order) && updating == old(updating)
        invariant |table| == |old(table)|
        invariant forall i | 0 <= i < index :: table[i] == AssumedEmpty(old(View())).table[i]
        invariant forall i | index <= i < |table| :: table[i] == old(table)[i]
      {
        table := table[index := table[index].(dirty := table[index].value.Some?)];
      }
    }

    method GetIndex(value: T) returns (index: Option<nat>)
      ensures index == IndexFrom(table, value, 0)
    {
      for i := 0 to |table|
        invariant IndexFrom(table, value, 0) == IndexFrom(table, value, i)
      {
        if table[i].value == Some(value) {
          return Some(i);
        }
      }
      return None;
    }

    /** Without slots, promoting a wanted value panics in the original. */
    method Promote(value: T) returns (wanted: bool)
      requires Sound(View()) && |table| > 0
      modifies this
      ensures wanted <==> value in old(values)
      ensures View() == if wanted then Promoted(old(View()), value) else old(View())
    {
      if value !in values {
        return false;
      }
      var found := GetIndex(value);
      var index;
      if found.Some? {
        index := found.value;
      } else {
        assert order[0] in order;
        index := order[0];
        table := table[index := Entry(true, Some(value))];
      }
      order := Without(order, index) + [index];
      return true;
    }

    method Insert(value: T) returns (inserted: bool)
      requires Sound(View()) && |table| > 0
      modifies this
      ensures View() == Inserted(old(View()), value)
      ensures inserted <==> value !in old(values)
      ensures Sound(View()) && Recent(View()) == LruInserted(Recent(old(View())), value, |table|)
    {
      inserted := value !in values;
      values := values + {value};
      InsertedIsLru(old(View()), value);
      WiderIsSound(old(View()), value);
      var _ := Promote(value);
    }

    method Remove(value: T) returns (removed: bool)
      requires Sound(View())
      modifies this
      ensures View() == Removed(old(View()), value)
      ensures removed <==> value in old(values)
      ensures Sound(View()) && Recent(View()) == Without(Recent(old(View())), value)
    {
      RemovedIsWithout(View(), value);
      if value !in values {
        return false;
      }
      values := values - {value};
      var found := GetIndex(value);
      IndexFromFinds(table, value, 0);
      if found.Some? {
        var index := found.value;
        table := table[index := Entry(true, None)];
        order := [index] + Without(order, index);
      }
      return true;
    }

    method Set(value: T, inserted: bool)
      requires Sound(View()) && |table| > 0
      modifies this
      ensures View() == SetTo(old(View()), value, inserted)
    {
      if inserted {
        var _ := Insert(value);
      } else {
        var _ := Remove(value);
      }
    }

    method ReportUpdateResult(token: Key, success: bool)
      requires Sound(View())
      modifies this
      ensures View() == Reported(old(View()), token, success)
    {
      if updating.Some? && updating.value.key == token {
        var index := updating.value.index;
        updating := None;
        if !success {
          table := table[index := table[index].(dirty := true)];
        }
      }
    }

    method PollUpdate(keys: KeySource) returns (update: Option<Update<T>>)
      modifies this, keys
      ensures (View(), update) == Polled(old(View()), old(keys.next))
      ensures keys.next == old(keys.next) + (if update.Some? then 1 else 0)
    {
      if updating.None? {
        for index := 0 to |table|
          invariant View() == old(View()) && keys.next == old(keys.next)
          invariant FirstDirty(table, 0) == FirstDirty(table, index)
        {
          if table[index].dirty {
            table := table[index := table[index].(dirty := false)];
            var key := keys.New();
            updating := Some(Updating(key, index));
            return Some(Update(key, index, table[index].value));
          }
        }
      }
      return None;
    }
  }

  lemma WiderIsSound<T(!new)>(p: Pending<T>, value: T)
    requires Sound(p)
    ensures Sound(p.(values := p.values + {value}))
  {
  }
}
