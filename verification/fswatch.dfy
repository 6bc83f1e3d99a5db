/**
 * The file watcher's batches (`fswatch.rs`): how the changes of a path coalesce into at most one
 * event, what a watch delivers, and when the debouncer fires.
 */
module FsWatch {

  import opened Common
  import opened Order

  // ---- One path ----------------------------------------------------------------------------

  datatype Change = Create | Update | Remove

  datatype Entry = Entry(created: bool, deleted: bool)

  datatype EventKind = Updated | Deleted

  /** What a change makes of a path's entry. */
  function Noted(entry: Option<Entry>, change: Change): Entry {
    var before := if entry.Some? then entry.value else Entry(false, false);
    match change
    case Create => if before.deleted then Entry(false, false) else before.(created := true)
    case Update => before
    case Remove => before.(deleted := true)
  }

  /** The event an entry drains to. */
  function Drained(entry: Option<Entry>): Option<EventKind> {
    if entry.None? || (entry.value.created && entry.value.deleted) then None
    else Some(if entry.value.deleted then Deleted else Updated)
  }

  /** The entry after a path's changes. */
  function Entered(changes: seq<Change>): Option<Entry> {
    if changes == [] then None
    else Some(Noted(Entered(changes[..|changes| - 1]), changes[|changes| - 1]))
  }

  /** Whether the path exists after the changes, if it did before as `present` says. */
  function Present(changes: seq<Change>, present: bool): bool {
    if changes == [] then present else !changes[|changes| - 1].Remove?
  }

  /** Only an absent path is created, and only a present one updated or removed. */
  ghost predicate Truthful(changes: seq<Change>, present: bool) {
    forall i | 0 <= i < |changes| :: changes[i].Create? <==> !Present(changes[..i], present)
  }

  function Removals(changes: seq<Change>): nat {
    if changes == [] then 0
    else Removals(changes[..|changes| - 1]) + if changes[|changes| - 1].Remove? then 1 else 0
  }

  /** The entry after a true history: what it remembers of the path. */
  lemma {:induction false} EnteredMeans(changes: seq<Change>, present: bool)
    requires Truthful(changes, present) && changes != []
    ensures Entered(changes).Some?
    ensures Entered(changes).value.deleted == !Present(changes, present)
    ensures Entered(changes).value.created == (!present && Removals(changes) == (if Present(changes, present) then 0 else 1))
  {
    var before, last := changes[..|changes| - 1], changes[|changes| - 1];
    assert last.Create? <==> !Present(before, present);
    if before != [] {
      forall i | 0 <= i < |before| ensures before[i].Create? <==> !Present(before[..i], present) {
        assert before[..i] == changes[..i];
      }
      EnteredMeans(before, present);
    }
  }

  /**
   * What a batch says of a path, for every true history: an update if the path exists at the end;
   * a deletion if it does not, and did at the start or came back in between; and nothing if it was
   * created and removed just once, or nothing happened. A path absent before and after is reported
   * deleted exactly when it was removed more than once.
   */
  lemma Coalesced(changes: seq<Change>, present: bool)
    requires Truthful(changes, present)
    ensures Drained(Entered(changes)) ==
            if changes == [] then None
            else if Present(changes, present) then Some(Updated)
            else if present || Removals(changes) >= 2 then Some(Deleted)
            else None
  {
    if changes != [] {
      EnteredMeans(changes, present);
      if !present && !Present(changes, present) {
        assert changes[|changes| - 1].Remove? && Removals(changes) >= 1;
      }
    }
  }

  /** Created, removed, created and removed again, a path that never was is reported deleted. */
  lemma FlickerReported()
    ensures Truthful([Create, Remove, Create, Remove], false)
    ensures Drained(Entered([Create, Remove, Create, Remove])) == Some(Deleted)
  {
    var all := [Create, Remove, Create, Remove];
    assert all[..0] == [] && all[..1] == [Create] && all[..2] == [Create, Remove] && all[..3] == [Create, Remove, Create];
    assert [Create, Remove, Create][..2] == [Create, Remove] && [Create, Remove][..1] == [Create] && [Create][..0] == [];
  }

  // ---- A batch -----------------------------------------------------------------------------

  datatype PathChange = PathChange(path: string, change: Change)

  datatype Event = Event(kind: EventKind, path: string)

  /** The changes of one path, in order. */
  function Of(batch: seq<PathChange>, path: string): seq<Change> {
    if batch == [] then []
    else
      var last := batch[|batch| - 1];
      Of(batch[..|batch| - 1], path) + if last.path == path then [last.change] else []
  }

  function EntryAt(entries: map<string, Entry>, path: string): Option<Entry> {
    if path in entries then Some(entries[path]) else None
  }

  /** The entries are those of the batch, path by path. */
  ghost predicate Records(entries: map<string, Entry>, batch: seq<PathChange>) {
    forall path :: EntryAt(entries, path) == Entered(Of(batch, path))
  }

  lemma OfOneMore(batch: seq<PathChange>, next: PathChange, path: string)
    ensures Of(batch + [next], path) == Of(batch, path) + if next.path == path then [next.change] else []
  {
    assert (batch + [next])[..|batch|] == batch;
  }

  lemma RecordsOneMore(entries: map<string, Entry>, batch: seq<PathChange>, next: PathChange)
    requires Records(entries, batch)
    ensures Records(entries[next.path := Noted(EntryAt(entries, next.path), next.change)], batch + [next])
  {
    var after := entries[next.path := Noted(EntryAt(entries, next.path), next.change)];
    forall path ensures EntryAt(after, path) == Entered(Of(batch + [next], path)) {
      OfOneMore(batch, next, path);
      var changes := Of(batch, path);
      assert EntryAt(entries, path) == Entered(changes);
      if path == next.path {
        assert (changes + [next.change])[..|changes|] == changes;
        assert Entered(changes + [next.change]) == Some(Noted(Entered(changes), next.change));
      } else {
        assert changes + [] == changes;
      }
    }
  }

  /** One event for each path whose entry drains to one, in the order of the paths. */
  ghost predicate EventsOf(events: seq<Event>, entries: map<string, Entry>) {
    (forall i, j | 0 <= i < j < |events| :: TextBefore(events[i].path, events[j].path)) &&
    (forall e :: e in events <==> Drained(EntryAt(entries, e.path)) == Some(e.kind))
  }

  /** An overflow lets the watch go on; any other error ends it. */
  datatype WatchError = Overflow | Terminated

  /** `EventList`: one entry for each path that changed, and the first error. */
  class EventList {
    var entries: map<string, Entry>
    var error: Option<WatchError>
    /** The changes since the last drain. */
    ghost var batch: seq<PathChange>

    ghost predicate Valid()
      reads this
    {
      Records(entries, batch)
    }

    constructor ()
      ensures Valid() && entries == map[] && error == None && batch == []
    {
      entries, error, batch := map[], None, [];
    }

    method Note(path: string, change: Change)
      requires Valid()
      modifies `entries, `batch
      ensures Valid() && batch == old(batch) + [PathChange(path, change)]
    {
      RecordsOneMore(entries, batch, PathChange(path, change));
      var entry := EntryAt(entries, path);
      match change {
        case Create =>
          if entry.Some? && entry.value.deleted {
            // Gone and back again: the path may hold something new.
            entries := entries[path := Entry(false, false)];
          } else {
            entries := entries[path := (if entry.Some? then entry.value else Entry(false, false)).(created := true)];
          }
        case Update => entries := entries[path := if entry.Some? then entry.value else Entry(false, false)];
        case Remove =>
          entries := entries[path := (if entry.Some? then entry.value else Entry(false, false)).(deleted := true)];
      }
      batch := batch + [PathChange(path, change)];
    }

    method SetError(e: WatchError)
      modifies `error
      ensures error == if old(error).None? then Some(e) else old(error)
    {
      if error.None? {
        error := Some(e);
      }
    }

    predicate IsEmpty()
      reads this
    {
      entries == map[] && error.None?
    }

    /** `drain`: the batch's events and the error. */
    method Drain() returns (events: seq<Event>, failure: Option<WatchError>)
      requires Valid()
      modifies this
      ensures Valid() && IsEmpty() && batch == [] && failure == old(error)
      ensures EventsOf(events, old(entries))
    {
      assert Records(map[], []);
      hide Records, TextBefore;
      events, failure := [], error;
      var left := entries.Keys;
      while left != {}
        invariant left <= entries.Keys && entries == old(entries) && Valid()
        invariant forall i, j | 0 <= i < j < |events| :: TextBefore(events[i].path, events[j].path)
        invariant forall e, p | e in events && p in left :: TextBefore(e.path, p)
        invariant forall e :: e in events <==> e.path !in left && Drained(EntryAt(entries, e.path)) == Some(e.kind)
      {
        // The entries are a map ordered by path.
        ghost var least := LeastText(left);
        var path :| path in left && forall p | p in left :: p == path || TextBefore(path, p);
        var entry := entries[path];
        if !(entry.created && entry.deleted) {
          events := events + [Event(if entry.deleted then Deleted else Updated, path)];
        }
        left := left - {path};
      }
      entries, error, batch := map[], None, [];
    }
  }

  /**
   * What a drained batch says, over every batch whose changes are true of a file system in which
   * `present` existed: at most one event for each path, a deletion only of what is gone, an update
   * only of what is there, and silence about a path only if it is as it was or came and went.
   */
  lemma BatchMeans(batch: seq<PathChange>, entries: map<string, Entry>, events: seq<Event>, present: set<string>, path: string)
    requires Records(entries, batch) && EventsOf(events, entries)
    requires Truthful(Of(batch, path), path in present)
    ensures var changes, there := Of(batch, path), Present(Of(batch, path), path in present);
            (Event(Updated, path) in events <==> changes != [] && there) &&
            (Event(Deleted, path) in events <==> changes != [] && !there && (path in present || Removals(changes) >= 2))
  {
    Coalesced(Of(batch, path), path in present);
    assert EntryAt(entries, path) == Entered(Of(batch, path));
  }

  // ---- Delivery ----------------------------------------------------------------------------

  /** A path, by its components from the root. */
  predicate DirectChild(dir: string, path: string) {
    |path| > |dir| + 1 && path[..|dir|] == dir && path[|dir|] == '/' && '/' !in path[|dir| + 1..]
  }

  /** That is, the directory, a slash, and a name. */
  lemma DirectChildMeans(dir: string, path: string)
    ensures DirectChild(dir, path) <==> exists name :: name != "" && '/' !in name && path == dir + "/" + name
  {
    if DirectChild(dir, path) {
      assert path == dir + "/" + path[|dir| + 1..];
    }
    if name :| name != "" && '/' !in name && path == dir + "/" + name {
      assert path[|dir| + 1..] == name;
    }
  }

  function ChildrenOnly(events: seq<Event>, dir: string): (r: seq<Event>)
    ensures forall e :: e in r <==> e in events && DirectChild(dir, e.path)
  {
    if events == [] then []
    else (if DirectChild(dir, events[0].path) then [events[0]] else []) + ChildrenOnly(events[1..], dir)
  }

  lemma {:induction false} ChildrenSum(a: seq<Event>, b: seq<Event>, dir: string)
    ensures ChildrenOnly(a + b, dir) == ChildrenOnly(a, dir) + ChildrenOnly(b, dir)
  {
    hide DirectChild;
    if a == [] {
      assert a + b == b;
    } else {
      assert (a + b)[0] == a[0] && (a + b)[1..] == a[1..] + b;
      ChildrenSum(a[1..], b, dir);
    }
  }

  lemma OneChild(event: Event, dir: string)
    ensures ChildrenOnly([event], dir) == if DirectChild(dir, event.path) then [event] else []
  {
    assert [event][1..] == [];
  }

  /** The events keep their order. */
  lemma ChildrenInOrder(before: seq<Event>, event: Event, after: seq<Event>, dir: string)
    ensures ChildrenOnly(before + [event] + after, dir) ==
            ChildrenOnly(before, dir) + (if DirectChild(dir, event.path) then [event] else []) + ChildrenOnly(after, dir)
  {
    hide ChildrenOnly, DirectChild;
    ChildrenSum(before + [event], after, dir);
    ChildrenSum(before, [event], dir);
    OneChild(event, dir);
  }

  datatype Delivery = Delivery(callback: nat, events: seq<Event>, error: Option<WatchError>)

  /** `DirWatch`: what is kept for one directory being watched. */
  class DirWatch {
    const dir: string
    const recursive: bool
    const events: EventList
    var callbacks: seq<nat>
    var dead: bool
    /** The watch died with an overflow still to be delivered, which keeps the terminal error out. */
    ghost var unreported: bool

    /**
     * A dead watch has its terminal error pending or delivered, unless an overflow came first; then
     * it has it never.
     */
    ghost predicate Valid()
      reads this, events
    {
      events.Valid() && (events.error == Some(Terminated) ==> dead && !unreported) && (unreported ==> dead) &&
      (dead && !unreported ==> events.error == Some(Terminated) || callbacks == [])
    }

    constructor (path: string, deep: bool, callback: nat)
      ensures Valid() && fresh(events) && dir == path && recursive == deep && callbacks == [callback] && !dead
    {
      dir, recursive, callbacks, dead, unreported := path, deep, [callback], false, false;
      events := new EventList();
    }

    /** `fail`: the first error is kept until it is delivered; a terminal one ends the recording. */
    method Fail(error: WatchError)
      requires Valid()
      modifies `dead, `unreported, events
      ensures Valid() && dead == (old(dead) || error.Terminated?)
      ensures events.batch == old(events.batch) && events.entries == old(events.entries)
      ensures events.error == if old(dead) || old(events.error).Some? then old(events.error) else Some(error)
      ensures unreported == (old(unreported) || (!old(dead) && error.Terminated? && old(events.error) == Some(Overflow)))
    {
      if dead {
        return;
      }
      events.SetError(error);
      if error.Terminated? {
        assert events.error.value.Overflow? || events.error.value.Terminated?;
        unreported := events.error == Some(Overflow);
        dead := true;
      }
    }

    /** One path of a backend event inside the directory; `gone` says the directory went away. */
    method Record(path: string, change: Change, inside: bool, gone: bool)
      requires Valid()
      modifies `dead, `unreported, events
      ensures Valid() && dead == (old(dead) || gone)
      ensures unreported == (old(unreported) || (!old(dead) && gone && old(events.error) == Some(Overflow)))
      ensures old(dead) ==> events.batch == old(events.batch) && events.error == old(events.error)
      ensures old(dead) ==> events.entries == old(events.entries)
      ensures !old(dead) ==>
                events.batch == old(events.batch) + (if inside then [PathChange(path, change)] else []) +
                                (if gone then [PathChange(dir, Remove)] else []) &&
                events.error == if gone && old(events.error).None? then Some(Terminated) else old(events.error)
    {
      if dead {
        return;
      }
      if inside {
        events.Note(path, change);
      }
      if gone {
        events.Note(dir, Remove);
        events.SetError(Terminated);
        assert events.error.value.Overflow? || events.error.value.Terminated?;
        unreported := events.error == Some(Overflow);
        dead := true;
      }
    }

    /** `trigger_callbacks`: drains the batch and calls everyone with it. */
    method TriggerCallbacks() returns (deliveries: seq<Delivery>)
      requires Valid()
      modifies `callbacks, events
      ensures Valid()
      ensures old(callbacks) == [] || (old(events.entries) == map[] && old(events.error).None?) ==>
                deliveries == [] && callbacks == old(callbacks) && events.batch == old(events.batch)
      ensures old(callbacks) != [] && (old(events.entries) != map[] || old(events.error).Some?) ==>
                events.entries == map[] && events.error.None? && events.batch == [] &&
                (exists all :: EventsOf(all, old(events.entries)) &&
                   var seen := if recursive then all else ChildrenOnly(all, dir);
                   if seen == [] && old(events.error).None? then deliveries == []
                   else deliveries == Deliveries(old(callbacks), seen, old(events.error)))
      ensures callbacks == if old(callbacks) != [] && old(events.error) == Some(Terminated) then [] else old(callbacks)
      ensures dead && callbacks != [] ==> unreported && forall d | d in deliveries :: d.error != Some(Terminated)
    {
      if callbacks == [] || events.IsEmpty() {
        return [];
      }
      var all, error := events.Drain();
      var called := callbacks;
      if error == Some(Terminated) {
        // This call is the last.
        callbacks := [];
      }
      var seen := if recursive then all else ChildrenOnly(all, dir);
      if seen == [] && error.None? {
        return [];
      }
      deliveries := CallAll(called, seen, error);
    }
  }

  /** The loop over the callbacks. */
  method CallAll(called: seq<nat>, events: seq<Event>, error: Option<WatchError>) returns (deliveries: seq<Delivery>)
    ensures deliveries == Deliveries(called, events, error)
  {
    deliveries := [];
    var index := 0;
    while index < |called|
      invariant 0 <= index <= |called|
      invariant deliveries == Deliveries(called[..index], events, error)
    {
      deliveries := deliveries + [Delivery(called[index], events, error)];
      assert called[..index + 1][..index] == called[..index];
      index := index + 1;
    }
    assert called[..index] == called;
  }

  /**
   * A watch that overflows and then loses its directory before the batch is delivered tells its
   * callbacks of the overflow alone. It is dead, keeps its callbacks, and never tells them more.
   */
  method OverflowHidesDeath(watch: DirWatch) returns (first: seq<Delivery>, later: seq<Delivery>)
    requires watch.Valid() && !watch.dead && watch.callbacks != [] && watch.events.IsEmpty()
    modifies watch, watch.events
    ensures watch.dead && watch.callbacks == old(watch.callbacks)
    ensures |first| == |watch.callbacks| && forall d | d in first :: d.error == Some(Overflow)
    ensures later == []
  {
    hide Records, EventsOf;
    watch.Fail(Overflow);
    watch.Fail(Terminated);
    first := watch.TriggerCallbacks();
    later := DeadIsSilent(watch);
  }

  /** A dead watch with nothing left to deliver has nothing to deliver after more events and errors. */
  method DeadIsSilent(watch: DirWatch) returns (later: seq<Delivery>)
    requires watch.Valid() && watch.dead && watch.events.IsEmpty()
    modifies watch, watch.events
    ensures later == [] && watch.Valid() && watch.dead && watch.callbacks == old(watch.callbacks)
  {
    hide Records, EventsOf;
    watch.Record(watch.dir, Update, true, true);
    watch.Fail(Terminated);
    later := watch.TriggerCallbacks();
  }

  /** The batch, once to each callback, in order. */
  function Deliveries(callbacks: seq<nat>, events: seq<Event>, error: Option<WatchError>): (r: seq<Delivery>)
    ensures |r| == |callbacks| && forall i | 0 <= i < |r| :: r[i] == Delivery(callbacks[i], events, error)
  {
    if callbacks == [] then []
    else
      Deliveries(callbacks[..|callbacks| - 1], events, error) + [Delivery(callbacks[|callbacks| - 1], events, error)]
  }

  // ---- The debouncer -----------------------------------------------------------------------

  datatype DebounceState = DebounceState(notified: bool, generation: nat, closed: bool)

  /** Where the debounce loop is; a fire visits the watches there were when it began. */
  datatype Loop = Waiting | Settling(generation: nat) | Firing(left: set<nat>) | Returned

  /**
   * The debouncer, the changes recorded in each watch and not delivered, the watches there ever were,
   * and the history. A watch that is shut stays so; its directory is opened anew as another one.
   */
  datatype Debouncer = Debouncer(state: DebounceState, loop: Loop, pending: map<nat, nat>, known: set<nat>, recorders: nat,
                                 triggers: nat, fires: nat)

  predicate InitDebouncer(d: Debouncer) {
    d == Debouncer(DebounceState(false, 0, false), Waiting, map[], {}, 0, 0, 0)
  }

  datatype Step =
    | Open(watch: nat)
    | Shut(watch: nat)
    | Record(watch: nat)
    | MoreRecord(watch: nat)
    | Trigger
    | Close
    | Wake(quiet: bool)
    | Restart
    | TimeOut
    | Visit(watch: nat)
    | Fired

  predicate Enabled(d: Debouncer, step: Step) {
    match step
    case Open(watch) => watch !in d.known
    case Shut(watch) => watch in d.pending
    // The backend's handler records a path in a watch, maybe more, and triggers once.
    case Record(watch) => watch in d.pending
    case MoreRecord(watch) => watch in d.pending && d.recorders > 0
    case Trigger => d.recorders > 0
    case Close => true
    case Wake(_) => d.loop.Waiting? && (d.state.notified || d.state.closed)
    // The wait ends early for a new trigger or the close, and otherwise times out.
    case Restart => d.loop.Settling? && (d.state.closed || d.state.generation != d.loop.generation)
    case TimeOut => d.loop.Settling? && !d.state.closed && d.state.generation == d.loop.generation
    case Visit(watch) => d.loop.Firing? && watch in d.loop.left
    case Fired => d.loop.Firing? && d.loop.left == {}
  }

  function Fire(d: Debouncer): Debouncer {
    d.(state := d.state.(notified := false), loop := Firing(d.pending.Keys), fires := d.fires + 1)
  }

  function Apply(d: Debouncer, step: Step): Debouncer
    requires Enabled(d, step)
  {
    match step
    case Open(watch) => d.(pending := d.pending[watch := 0], known := d.known + {watch})
    case Shut(watch) => d.(pending := d.pending - {watch})
    case Record(watch) => d.(pending := d.pending[watch := d.pending[watch] + 1], recorders := d.recorders + 1)
    case MoreRecord(watch) => d.(pending := d.pending[watch := d.pending[watch] + 1])
    case Trigger =>
      d.(state := d.state.(notified := true, generation := d.state.generation + 1),
         recorders := d.recorders - 1, triggers := d.triggers + 1)
    case Close => d.(state := d.state.(closed := true))
    case Wake(quiet) =>
      if d.state.closed then d.(loop := Returned)
      else if quiet then Fire(d)
      else d.(loop := Settling(d.state.generation))
    case Restart => d.(loop := if d.state.closed then Returned else Waiting)
    case TimeOut => Fire(d)
    case Visit(watch) =>
      d.(loop := Firing(d.loop.left - {watch}), pending := if watch in d.pending then d.pending[watch := 0] else d.pending)
    case Fired => d.(loop := Waiting)
  }

  ghost predicate Run(states: seq<Debouncer>, steps: seq<Step>) {
    |states| == |steps| + 1 && InitDebouncer(states[0]) &&
    forall i | 0 <= i < |steps| :: Enabled(states[i], steps[i]) && states[i + 1] == Apply(states[i], steps[i])
  }

  /** Undelivered changes have a trigger set or coming, or a fire on its way to their watch. */
  ghost predicate NothingDropped(d: Debouncer) {
    (forall w | w in d.pending && d.pending[w] > 0 ::
       d.state.notified || d.recorders > 0 || (d.loop.Firing? && w in d.loop.left) || d.loop.Returned?) &&
    (d.loop.Settling? ==> d.state.notified && d.loop.generation <= d.state.generation) &&
    (d.loop.Returned? ==> d.state.closed) &&
    d.pending.Keys <= d.known && (d.loop.Firing? ==> d.loop.left <= d.known) &&
    d.fires + (if d.state.notified then 1 else 0) <= d.triggers
  }

  lemma {:induction false} NeverDropped(states: seq<Debouncer>, steps: seq<Step>, k: nat)
    requires Run(states, steps) && k < |states|
    ensures NothingDropped(states[k])
  {
    if k > 0 {
      NeverDropped(states, steps, k - 1);
      StepKeeps(states[k - 1], steps[k - 1]);
    }
  }

  lemma StepKeeps(d: Debouncer, step: Step)
    requires NothingDropped(d) && Enabled(d, step)
    ensures NothingDropped(Apply(d, step))
  {
  }

  /** In every run, with the debouncer open, idle and untriggered, every change was delivered. */
  lemma IdleMeansDelivered(states: seq<Debouncer>, steps: seq<Step>, k: nat, watch: nat)
    requires Run(states, steps) && k < |states| && watch in states[k].pending
    requires states[k].loop.Waiting? && !states[k].state.notified && states[k].recorders == 0
    ensures states[k].pending[watch] == 0
  {
    NeverDropped(states, steps, k);
  }

  /** A fire after the settling wait comes only if nothing triggered during the wait. */
  lemma SettledBeforeFire(states: seq<Debouncer>, steps: seq<Step>, k: nat)
    requires Run(states, steps) && k < |steps| && steps[k].TimeOut?
    ensures states[k].state.notified && states[k].state.generation == states[k].loop.generation
    ensures states[k + 1].fires <= states[k + 1].triggers
  {
    NeverDropped(states, steps, k);
    NeverDropped(states, steps, k + 1);
  }

  /**
   * A fire begins in two ways only: on a trigger after a quiet time, at once; or when nothing more came
   * while it settled. A trigger in a busy time begins no fire by itself.
   */
  lemma FiresOnlyThen(states: seq<Debouncer>, steps: seq<Step>, k: nat)
    requires Run(states, steps) && k < |steps|
    ensures states[k + 1].fires > states[k].fires <==>
            (steps[k] == Wake(true) && !states[k].state.closed) || steps[k].TimeOut?
    ensures states[k + 1].fires > states[k].fires ==>
              states[k].state.notified && !states[k].state.closed && states[k + 1].loop == Firing(states[k].pending.Keys)
    ensures steps[k] == Wake(false) && !states[k].state.closed ==> states[k + 1].loop == Settling(states[k].state.generation)
  {
    NeverDropped(states, steps, k);
  }

  /** The watch was opened, and not shut since. */
  ghost predicate IsOpen(steps: seq<Step>, k: nat, watch: nat)
    requires k <= |steps|
  {
    exists j | 0 <= j < k :: steps[j] == Open(watch) && forall m | j < m < k :: steps[m] != Shut(watch)
  }

  /** The watch recorded something that no fire has visited since. */
  ghost predicate HasNew(steps: seq<Step>, k: nat, watch: nat)
    requires k <= |steps|
  {
    exists j | 0 <= j < k ::
      (steps[j] == Record(watch) || steps[j] == MoreRecord(watch)) &&
      forall m | j < m < k :: steps[m] != Visit(watch) && steps[m] != Shut(watch)
  }

  lemma HistoryNext(steps: seq<Step>, k: nat, watch: nat)
    requires k < |steps|
    ensures IsOpen(steps, k + 1, watch) <==> steps[k] == Open(watch) || (IsOpen(steps, k, watch) && steps[k] != Shut(watch))
    ensures HasNew(steps, k + 1, watch) <==>
            steps[k] == Record(watch) || steps[k] == MoreRecord(watch) ||
            (HasNew(steps, k, watch) && steps[k] != Visit(watch) && steps[k] != Shut(watch))
  {
  }

  /** What the debouncer holds of a watch, by what happened to it. */
  lemma {:induction false} PendingMeans(states: seq<Debouncer>, steps: seq<Step>, k: nat, watch: nat)
    requires Run(states, steps) && k < |states|
    ensures watch in states[k].pending <==> IsOpen(steps, k, watch)
    ensures watch in states[k].pending && states[k].pending[watch] > 0 <==> HasNew(steps, k, watch)
  {
    if k == 0 {
    } else {
      hide IsOpen, HasNew, Apply, Enabled, NothingDropped, InitDebouncer;
      PendingMeans(states, steps, k - 1, watch);
      NeverDropped(states, steps, k - 1);
      assert Enabled(states[k - 1], steps[k - 1]) && states[k] == Apply(states[k - 1], steps[k - 1]);
      PendingNext(states[k - 1], steps[k - 1], watch);
      HistoryNext(steps, k - 1, watch);
    }
  }

  lemma PendingNext(d: Debouncer, step: Step, watch: nat)
    requires NothingDropped(d) && Enabled(d, step)
    ensures var after := Apply(d, step).pending;
            (watch in after <==> step == Open(watch) || (watch in d.pending && step != Shut(watch))) &&
            (watch in after && after[watch] > 0 <==>
               step == Record(watch) || step == MoreRecord(watch) ||
               (watch in d.pending && d.pending[watch] > 0 && step != Visit(watch) && step != Shut(watch)))
  {
  }

  // ---- Every change is delivered while the debouncer is open ---------------------------------

  /** Steps one after the other. */
  ghost predicate Possible(d: Debouncer, steps: seq<Step>)
    decreases |steps|
  {
    steps == [] || (Enabled(d, steps[0]) && Possible(Apply(d, steps[0]), steps[1..]))
  }

  ghost function After(d: Debouncer, steps: seq<Step>): Debouncer
    requires Possible(d, steps)
    decreases |steps|
  {
    if steps == [] then d else After(Apply(d, steps[0]), steps[1..])
  }

  /** A step of the threads under way: a trigger that is due, or the loop's next. */
  predicate Own(step: Step) {
    step.Trigger? || step.Wake? || step.Restart? || step.TimeOut? || step.Visit? || step.Fired?
  }

  lemma {:induction false} Chained(d: Debouncer, a: seq<Step>, b: seq<Step>)
    requires Possible(d, a) && Possible(After(d, a), b)
    ensures Possible(d, a + b) && After(d, a + b) == After(After(d, a), b)
    decreases |a|
  {
    if a == [] {
      assert a + b == b;
    } else {
      assert (a + b)[0] == a[0] && (a + b)[1..] == a[1..] + b;
      Chained(Apply(d, a[0]), a[1..], b);
    }
  }

  lemma Begun(d: Debouncer, step: Step, rest: seq<Step>)
    requires Enabled(d, step) && Possible(Apply(d, step), rest)
    ensures Possible(d, [step] + rest) && After(d, [step] + rest) == After(Apply(d, step), rest)
  {
    assert ([step] + rest)[1..] == rest;
  }

  /** The loop finishes a fire: it visits what is left and waits again. */
  lemma {:induction false} FireEnds(d: Debouncer) returns (steps: seq<Step>)
    requires d.loop.Firing?
    ensures Possible(d, steps) && (forall step | step in steps :: Own(step))
    ensures var e := After(d, steps);
            e.loop.Waiting? && e.state == d.state && e.recorders == d.recorders && e.pending.Keys == d.pending.Keys
    decreases |d.loop.left|
  {
    if d.loop.left == {} {
      steps := [];
      Begun(d, Fired, []);
      steps := [Fired] + [];
    } else {
      var watch :| watch in d.loop.left;
      var rest := FireEnds(Apply(d, Visit(watch)));
      Begun(d, Visit(watch), rest);
      steps := [Visit(watch)] + rest;
    }
  }

  /** Waiting, with a trigger set or due, the loop fires and visits the watch. */
  lemma WaitingDelivers(d: Debouncer, watch: nat) returns (steps: seq<Step>)
    requires d.loop.Waiting? && !d.state.closed && (d.state.notified || d.recorders > 0) && watch in d.pending
    ensures Possible(d, steps) && (forall step | step in steps :: Own(step))
    ensures watch in After(d, steps).pending && After(d, steps).pending[watch] == 0
  {
    var e := if d.state.notified then d else Apply(d, Trigger);
    var fired := Apply(e, Wake(true));
    Begun(fired, Visit(watch), []);
    Begun(e, Wake(true), [Visit(watch)] + []);
    steps := [Wake(true)] + ([Visit(watch)] + []);
    if !d.state.notified {
      Begun(d, Trigger, steps);
      steps := [Trigger] + steps;
    }
  }

  /**
   * From every state of every run in which the debouncer is open, the steps of its own threads lead
   * to the delivery of any change that is recorded.
   */
  lemma ChangeReachesDelivery(states: seq<Debouncer>, run: seq<Step>, k: nat, watch: nat) returns (steps: seq<Step>)
    requires Run(states, run) && k < |states| && !states[k].state.closed
    requires watch in states[k].pending && states[k].pending[watch] > 0
    ensures Possible(states[k], steps) && (forall step | step in steps :: Own(step))
    ensures watch in After(states[k], steps).pending && After(states[k], steps).pending[watch] == 0
  {
    NeverDropped(states, run, k);
    var d := states[k];
    if d.loop.Firing? && watch in d.loop.left {
      Begun(d, Visit(watch), []);
      steps := [Visit(watch)] + [];
    } else if d.loop.Firing? {
      var first := FireEnds(d);
      var second := WaitingDelivers(After(d, first), watch);
      Chained(d, first, second);
      steps := first + second;
    } else if d.loop.Settling? && d.state.generation == d.loop.generation {
      Begun(Apply(d, TimeOut), Visit(watch), []);
      Begun(d, TimeOut, [Visit(watch)] + []);
      steps := [TimeOut] + ([Visit(watch)] + []);
    } else if d.loop.Settling? {
      var rest := WaitingDelivers(Apply(d, Restart), watch);
      Begun(d, Restart, rest);
      steps := [Restart] + rest;
    } else {
      steps := WaitingDelivers(d, watch);
    }
  }
}
