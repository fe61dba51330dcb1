/**
 * The two pending tables of the radio behind one handshake: `src/ieee802154/mac/combinedpendingtable.rs`,
 * together with the radio that answers.
 */
module CombinedPendingTables {
  import opened Prelude
  import opened Addresses
  import opened PendingTables

  const TABLE_SIZE: nat := 8

  type ShortEntry = (u16, u16) // PAN id and short address

  datatype Combined = Combined(
    initializing: Option<Key>, isInitialized: bool, none: bool,
    short: Pending<ShortEntry>, extended: Pending<u64>)

  datatype Action =
    | Init(key: Key)
    | UpdateShort(short: Update<ShortEntry>)
    | UpdateExtended(extended: Update<u64>)

  // ----- Operations

  function Start(): Combined {
    Combined(None, false, false, Empty(TABLE_SIZE), Empty(TABLE_SIZE))
  }

  function Set(c: Combined, destination: Destination, inserted: bool): Combined {
    match destination
    case None => c.(none := inserted)
    case Some(FullAddress(pan, Short(a))) => c.(short := SetTo(c.short, (pan, a), inserted))
    case Some(FullAddress(_, Extended(a))) => c.(extended := SetTo(c.extended, a, inserted))
  }

  function InitReported(c: Combined, key: Key, success: bool): Combined {
    if c.initializing != Some(key) then c
    else if success then
      c.(initializing := None, isInitialized := true, short := AssumedEmpty(c.short), extended := AssumedEmpty(c.extended))
    else c.(initializing := None, isInitialized := false)
  }

  function UpdateReported(c: Combined, key: Key, success: bool): Combined {
    c.(short := Reported(c.short, key, success), extended := Reported(c.extended, key, success))
  }

  function Poll(c: Combined, key: Key): (Combined, Option<Action>) {
    if c.initializing.Some? then (c, None)
    else if !c.isInitialized then (c.(initializing := Some(key)), Some(Init(key)))
    else
      var (short, shortUpdate) := Polled(c.short, key);
      match shortUpdate
      case Some(u) => (c.(short := short), Some(UpdateShort(u)))
      case None =>
        var (extended, extendedUpdate) := Polled(c.extended, key);
        match extendedUpdate
        case Some(u) => (c.(extended := extended), Some(UpdateExtended(u)))
        case None => (c, None)
  }

  // ----- Which destinations are wanted

  /** Whether the sets say that a destination is pending. An extended address counts for every PAN. */
  predicate IsPending(c: Combined, destination: Destination) {
    match destination
    case None => c.none
    case Some(FullAddress(pan, Short(a))) => (pan, a) in c.short.values
    case Some(FullAddress(_, Extended(a))) => a in c.extended.values
  }

  /** The destinations that share an entry of the sets with this one. */
  predicate SameEntry(d: Destination, e: Destination) {
    d == e || (d.Some? && e.Some? && d.value.address.Extended? && d.value.address == e.value.address)
  }

  /** Setting a destination decides those that share its entry and no others. */
  lemma SetDecides(c: Combined, d: Destination, inserted: bool, e: Destination)
    ensures IsPending(Set(c, d, inserted), e) == if SameEntry(d, e) then inserted else IsPending(c, e)
  {
    ValuesAfterSet(c, d, inserted);
  }

  lemma ValuesAfterSet(c: Combined, d: Destination, inserted: bool)
    ensures match d
            case None => true
            case Some(FullAddress(pan, Short(a))) =>
              Set(c, d, inserted).short.values == if inserted then c.short.values + {(pan, a)} else c.short.values - {(pan, a)}
            case Some(FullAddress(_, Extended(a))) =>
              Set(c, d, inserted).extended.values == if inserted then c.extended.values + {a} else c.extended.values - {a}
  {
    hide IndexFrom, Without;
  }

  // ----- The tables together with the radio

  datatype World = World(table: Combined, short: Mirror<ShortEntry>, extended: Mirror<u64>, nextKey: Key)

  datatype Event =
    | SetPending(destination: Destination, inserted: bool)
    | PollAction(pollKey: Key, action: Option<Action>)
    | InitAnswer(key: Key, success: bool)
    | UpdateAnswer(key: Key, success: bool)
    | RadioMoves   // the radio changes what it shows, as far as it may

  function Fly<T>(m: Mirror<T>, value: Option<T>): Mirror<T> {
    m.(flight := Some(value))
  }

  ghost predicate IsCleared<T>(m: Mirror<T>, m': Mirror<T>) {
    m'.flight == m.flight && |m'.slots| == |m.slots| && forall i | 0 <= i < |m'.slots| :: m'.slots[i].None?
  }

  ghost predicate Next(w: World, e: Event, w': World) {
    match e
    case SetPending(d, inserted) => w' == w.(table := Set(w.table, d, inserted))
    case PollAction(key, action) =>
      && key >= w.nextKey
      && (w'.table, action) == Poll(w.table, key)
      && w'.nextKey == (if action.Some? then key + 1 else key)
      && w'.short == (match action case Some(UpdateShort(u)) => Fly(w.short, u.value) case _ => w.short)
      && w'.extended == (match action case Some(UpdateExtended(u)) => Fly(w.extended, u.value) case _ => w.extended)
    case InitAnswer(key, success) =>
      && w'.table == InitReported(w.table, key, success)
      && w'.nextKey == w.nextKey
      && (if IsAccepted(w, e) then IsCleared(w.short, w'.short) && IsCleared(w.extended, w'.extended)
          else w'.short == w.short && w'.extended == w.extended)
    case UpdateAnswer(key, success) =>
      && w'.table == UpdateReported(w.table, key, success)
      && w'.nextKey == w.nextKey
      && Answered(w.table.short, key, success, w.short, w'.short)
      && Answered(w.table.extended, key, success, w.extended, w'.extended)
    case RadioMoves =>
      && w'.table == w.table
      && w'.nextKey == w.nextKey
      && (if w.table.isInitialized then
            OnlyFlightMoves(w.table.short, w.short, w'.short) && OnlyFlightMoves(w.table.extended, w.extended, w'.extended)
          else
            |w'.short.slots| == |w.short.slots| && w'.short.flight == w.short.flight &&
            |w'.extended.slots| == |w.extended.slots| && w'.extended.flight == w.extended.flight)
  }

  /** The answer to the running handshake says that the radio has cleared its tables. */
  predicate IsAccepted(w: World, e: Event) {
    e.InitAnswer? && e.success && w.table.initializing == Some(e.key)
  }

  ghost predicate First(w: World) {
    && w.table == Start()
    && |w.short.slots| == |w.extended.slots| == TABLE_SIZE
    && w.short.flight == None && w.extended.flight == None
  }

  ghost predicate KeyInUse(k: Option<Key>, next: Key) {
    k.Some? ==> k.value < next
  }

  function FlightKey<T>(p: Pending<T>): Option<Key> {
    match p.updating case Some(u) => Some(u.key) case None => None
  }

  ghost predicate Inv(w: World) {
    var c := w.table;
    && |c.short.table| == |c.extended.table| == TABLE_SIZE
    && Sound(c.short) && Sound(c.extended)
    && Mirrors(c.short, w.short) && Mirrors(c.extended, w.extended)
    && KeyInUse(c.initializing, w.nextKey) && KeyInUse(FlightKey(c.short), w.nextKey) && KeyInUse(FlightKey(c.extended), w.nextKey)
    && (c.short.updating.Some? && c.extended.updating.Some? ==> FlightKey(c.short) != FlightKey(c.extended))
    && (if c.isInitialized then c.initializing.None?
        else c.short.updating.None? && c.extended.updating.None? && AllDirty(c.short) && AllDirty(c.extended))
  }

  lemma FirstKeepsInv(w: World)
    requires First(w)
    ensures Inv(w)
  {
    EmptyIsSound<ShortEntry>(TABLE_SIZE);
    EmptyIsSound<u64>(TABLE_SIZE);
  }

  lemma NextKeepsInv(w: World, e: Event, w': World)
    requires Inv(w) && Next(w, e, w')
    ensures Inv(w')
  {
    hide Mirrors, Sound;
    var c := w.table;
    match e {
      case SetPending(d, inserted) =>
        match d {
          case None =>
          case Some(FullAddress(pan, Short(a))) =>
            SetIsSound(c.short, (pan, a), inserted);
            SetKeepsMirror(c.short, (pan, a), inserted, w.short);
          case Some(FullAddress(_, Extended(a))) =>
            SetIsSound(c.extended, a, inserted);
            SetKeepsMirror(c.extended, a, inserted, w.extended);
        }
      case PollAction(key, action) =>
        PolledIsSound(c.short, key);
        PolledIsSound(c.extended, key);
        PollKeepsMirror(c.short, key, w.short);
        PollKeepsMirror(c.extended, key, w.extended);
      case InitAnswer(key, success) =>
        AssumedEmptyIsSound(c.short);
        AssumedEmptyIsSound(c.extended);
        if IsAccepted(w, e) {
          MirrorFacts(c.short, w.short);
          MirrorFacts(c.extended, w.extended);
          ClearingKeepsMirror(c.short, w'.short);
          ClearingKeepsMirror(c.extended, w'.extended);
        }
      case UpdateAnswer(key, success) =>
        ReportedIsSound(c.short, key, success);
        ReportedIsSound(c.extended, key, success);
        AnswerKeepsMirror(c.short, key, success, w.short, w'.short);
        AnswerKeepsMirror(c.extended, key, success, w.extended, w'.extended);
      case RadioMoves =>
        if c.isInitialized {
          FlightMovesKeepMirror(c.short, w.short, w'.short);
          FlightMovesKeepMirror(c.extended, w.extended, w'.extended);
        } else {
          MirrorFacts(c.short, w.short);
          MirrorFacts(c.extended, w.extended);
          DirtyMirrorsAnything(c.short, w'.short);
          DirtyMirrorsAnything(c.extended, w'.extended);
        }
    }
  }

  lemma MirrorFacts<T(!new)>(p: Pending<T>, m: Mirror<T>)
    requires Mirrors(p, m)
    ensures |m.slots| == |p.table| && (p.updating.Some? <==> m.flight.Some?)
  {
  }

  // ----- Whole runs

  /** A run: the worlds before, between and after its events. */
  ghost predicate IsRun(worlds: seq<World>, events: seq<Event>) {
    && |worlds| == |events| + 1
    && First(worlds[0])
    && forall i | 0 <= i < |events| :: Next(worlds[i], events[i], worlds[i + 1])
  }

  lemma {:induction false} RunKeepsInv(worlds: seq<World>, events: seq<Event>, i: nat)
    requires IsRun(worlds, events) && i < |worlds|
    ensures Inv(worlds[i])
    decreases i
  {
    if i == 0 {
      FirstKeepsInv(worlds[0]);
    } else {
      RunKeepsInv(worlds, events, i - 1);
      NextKeepsInv(worlds[i - 1], events[i - 1], worlds[i]);
    }
  }

  /** The tables are initialised exactly when a handshake was accepted before. */
  lemma {:induction false} InitialisedByHandshake(worlds: seq<World>, events: seq<Event>, i: nat)
    requires IsRun(worlds, events) && i < |worlds|
    ensures worlds[i].table.isInitialized <==> exists j | 0 <= j < i :: IsAccepted(worlds[j], events[j])
    decreases i
  {
    if i > 0 {
      InitialisedByHandshake(worlds, events, i - 1);
      RunKeepsInv(worlds, events, i - 1);
      var w, e, w' := worlds[i - 1], events[i - 1], worlds[i];
      assert Next(w, e, w');
      if IsAccepted(w, e) {
        assert w'.table.isInitialized;
      } else {
        assert w'.table.isInitialized == w.table.isInitialized;
      }
    }
  }

  /** No update is sent before a handshake was accepted, and no handshake is started afterwards. */
  lemma HandshakeComesFirst(worlds: seq<World>, events: seq<Event>, i: nat)
    requires IsRun(worlds, events) && i < |events|
    requires events[i].PollAction? && events[i].action.Some?
    ensures var handshaken := exists j | 0 <= j < i :: IsAccepted(worlds[j], events[j]);
            events[i].action.value.Init? <==> !handshaken
  {
    InitialisedByHandshake(worlds, events, i);
    assert Next(worlds[i], events[i], worlds[i + 1]);
  }

  /** When the tables are cleared no update is under way that could arrive later. */
  lemma ClearedWithoutFlight(worlds: seq<World>, events: seq<Event>, i: nat)
    requires IsRun(worlds, events) && i < |events| && IsAccepted(worlds[i], events[i])
    ensures worlds[i].table.short.updating.None? && worlds[i].table.extended.updating.None?
  {
    RunKeepsInv(worlds, events, i);
  }

  /** The values the radio shows in its slots. */
  function Shown<T>(slots: seq<Option<T>>): set<T> {
    set i | 0 <= i < |slots| && slots[i].Some? :: slots[i].value
  }

  ghost predicate ShowsTable<T(!new)>(p: Pending<T>, m: Mirror<T>) {
    |m.slots| == |p.table| && forall s | 0 <= s < |p.table| :: m.slots[s] == p.table[s].value
  }

  /**
   * When there is nothing to do and nothing under way, the radio shows, slot by slot, what the
   * tables hold: the most recent of the destinations that are wanted.
   */
  lemma IdleMeansEqual(worlds: seq<World>, events: seq<Event>, i: nat)
    requires IsRun(worlds, events) && i < |events| && events[i].PollAction? && events[i].action.None?
    requires var c := worlds[i].table;
             c.initializing.None? && c.short.updating.None? && c.extended.updating.None?
    ensures var w := worlds[i];
            && ShowsTable(w.table.short, w.short) && ShowsTable(w.table.extended, w.extended)
            && Shown(w.short.slots) == Elements(Recent(w.table.short)) <= w.table.short.values
            && Shown(w.extended.slots) == Elements(Recent(w.table.extended)) <= w.table.extended.values
  {
    var w := worlds[i];
    RunKeepsInv(worlds, events, i);
    assert Next(w, events[i], worlds[i + 1]);
    IdleTable(w.table.short, events[i].pollKey, w.short);
    IdleTable(w.table.extended, events[i].pollKey, w.extended);
  }

  lemma IdleTable<T(!new)>(p: Pending<T>, key: Key, m: Mirror<T>)
    requires Sound(p) && Mirrors(p, m) && p.updating.None? && Polled(p, key).1.None?
    ensures ShowsTable(p, m)
    ensures Shown(m.slots) == Elements(Recent(p)) <= p.values
  {
    PollKeepsMirror(p, key, m);
    RecentIsWanted(p);
  }

  // ----- Implementation

  class CombinedPendingTable {
    var initializing: Option<Key>
    var isInitialized: bool
    var none: bool
    const short: PendingTable<ShortEntry>
    const extended: PendingTable<u64>

    ghost function View(): Combined
      reads this, short, extended
    {
      Combined(initializing, isInitialized, none, short.View(), extended.View())
    }

    ghost predicate Valid()
      reads this, short, extended
    {
      && Sound(short.View()) && Sound(extended.View())
      && |short.table| == |extended.table| == TABLE_SIZE
    }

    constructor ()
      ensures Valid() && View() == Start()
      ensures fresh(short) && fresh(extended)
    {
      initializing, isInitialized, none := None, false, false;
      short := new PendingTable(TABLE_SIZE);
      extended := new PendingTable(TABLE_SIZE);
      new;
      EmptyIsSound<ShortEntry>(TABLE_SIZE);
      EmptyIsSound<u64>(TABLE_SIZE);
    }

    method ReportInitResult(key: Key, success: bool)
      requires Valid()
      modifies this, short, extended
      ensures Valid() && View() == InitReported(old(View()), key, success)
    {
      if initializing == Some(key) {
        initializing := None;
        isInitialized := success;
        if success {
          AssumedEmptyIsSound(short.View());
          AssumedEmptyIsSound(extended.View());
          short.AssumeEmpty();
          extended.AssumeEmpty();
        }
      }
    }

    method SetPending(address: Destination, inserted: bool)
      requires Valid()
      modifies this, short, extended
      ensures Valid() && View() == Set(old(View()), address, inserted)
    {
      match address {
        case None => none := inserted;
        case Some(FullAddress(pan, Short(a))) =>
          SetIsSound(short.View(), (pan, a), inserted);
          short.Set((pan, a), inserted);
        case Some(FullAddress(_, Extended(a))) =>
          SetIsSound(extended.View(), a, inserted);
          extended.Set(a, inserted);
      }
    }

    method PollAction(keys: KeySource) returns (action: Option<Action>)
      requires Valid()
      modifies this, short, extended, keys
      ensures Valid() && (View(), action) == Poll(old(View()), old(keys.next))
      ensures keys.next == old(keys.next) + (if action.Some? then 1 else 0)
    {
      PolledIsSound(short.View(), keys.next);
      PolledIsSound(extended.View(), keys.next);
      if initializing.Some? {
        return None;
      }
      if !isInitialized {
        var key := keys.New();
        initializing := Some(key);
        return Some(Init(key));
      }
      var shortUpdate := short.PollUpdate(keys);
      if shortUpdate.Some? {
        return Some(UpdateShort(shortUpdate.value));
      }
      var extendedUpdate := extended.PollUpdate(keys);
      if extendedUpdate.Some? {
        return Some(UpdateExtended(extendedUpdate.value));
      }
      return None;
    }

    method ReportUpdateResult(key: Key, success: bool)
      requires Valid()
      modifies this, short, extended
      ensures Valid() && View() == UpdateReported(old(View()), key, success)
    {
      ReportedIsSound(short.View(), key, success);
      ReportedIsSound(extended.View(), key, success);
      short.ReportUpdateResult(key, success);
      extended.ReportUpdateResult(key, success);
    }
  }
}
