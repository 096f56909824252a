/**
 An array's life: base bdevs are added, examined and removed, the array goes online and offline and
 is deleted (raid/bdev_raid.c). The bdev layer's asynchronous answers are events of their own.
 */
module Lifecycle {

  datatype Phase = Configuring | Online | Offline

  /** struct raid_base_bdev_info: a name, an open descriptor, and the flag of a scheduled removal. */
  datatype Slot = Slot(named: bool, open: bool, removing: bool)

  // What the bdev layer still owes: `quiescing`, the removals that wait for it; `unregistering`, a call of the
  // destructor; `stopping`, the callback after the level has stopped and the channels are gone.
  datatype Raid = Raid(
    phase: Phase,
    slots: seq<Slot>,
    discovered: nat,
    minimum: nat,
    destroyStarted: bool,
    quiescing: set<nat>,
    unregistering: bool,
    stopping: bool,
    freed: bool)

  function OpenCount(slots: seq<Slot>): (c: nat)
    ensures c <= |slots|
  {
    if slots == [] then 0
    else OpenCount(slots[..|slots| - 1]) + if slots[|slots| - 1].open then 1 else 0
  }

  lemma {:induction false} OpenCountUpdate(slots: seq<Slot>, i: nat, s: Slot)
    requires i < |slots|
    ensures OpenCount(slots[i := s]) == OpenCount(slots) + (if s.open then 1 else 0) - (if slots[i].open then 1 else 0)
  {
    var last := |slots| - 1;
    if i < last {
      OpenCountUpdate(slots[..last], i, s);
      assert slots[i := s][..last] == slots[..last][i := s];
    } else {
      assert slots[i := s][..last] == slots[..last];
    }
  }

  lemma {:induction false} SomeOpen(slots: seq<Slot>, i: nat)
    requires i < |slots| && slots[i].open
    ensures OpenCount(slots) > 0
  {
    if i < |slots| - 1 {
      SomeOpen(slots[..|slots| - 1], i);
    }
  }

  lemma {:induction false} AllOpen(slots: seq<Slot>, i: nat)
    requires i < |slots| && OpenCount(slots) == |slots|
    ensures slots[i].open
  {
    if i < |slots| - 1 {
      AllOpen(slots[..|slots| - 1], i);
    }
  }

  // ---- what always holds ----

  ghost predicate Inv(r: Raid)
  {
    && 1 <= r.minimum <= |r.slots|
    && r.discovered == OpenCount(r.slots)
    && (forall i :: 0 <= i < |r.slots| && r.slots[i].open ==> r.slots[i].named)
    && (r.phase != Configuring ==> forall i :: 0 <= i < |r.slots| && r.slots[i].named ==> r.slots[i].open)
    && (forall i :: i in r.quiescing ==> i < |r.slots|)
    && (r.phase == Configuring ==> r.quiescing == {})
    && (r.unregistering || r.stopping ==> r.phase == Offline)
    && (r.freed ==> r.discovered == 0)
  }

  /** An online array keeps its minimum even when the removals under way are carried out. */
  ghost predicate Operational(r: Raid)
  {
    r.phase == Online ==>
      && r.discovered >= r.minimum + |r.quiescing|
      && forall i :: i in r.quiescing ==> i < |r.slots| && r.slots[i].open && r.slots[i].removing
  }

  /** The bdev layer still owes the array a call. */
  predicate Owed(r: Raid)
  {
    r.quiescing != {} || r.unregistering || r.stopping
  }

  // ---- the functions of the source ----

  /** raid_bdev_free_base_bdev_resource */
  function FreeSlot(r: Raid, i: nat): (r': Raid)
    requires i < |r.slots| && r.discovered == OpenCount(r.slots)
    ensures r'.discovered == OpenCount(r'.slots) && |r'.slots| == |r.slots|
    ensures r' == r.(slots := r'.slots, discovered := r'.discovered)
    ensures r'.slots == r.slots[i := Slot(false, false, r.slots[i].removing)]
  {
    var s := Slot(false, false, r.slots[i].removing);
    OpenCountUpdate(r.slots, i, s);
    r.(slots := r.slots[i := s], discovered := if r.slots[i].open then r.discovered - 1 else r.discovered)
  }

  function Mark(r: Raid, i: nat, removing: bool): Raid
    requires i < |r.slots|
  {
    r.(slots := r.slots[i := r.slots[i].(removing := removing)])
  }

  lemma {:induction false} MarkCounts(r: Raid, i: nat, removing: bool)
    requires i < |r.slots|
    ensures OpenCount(Mark(r, i, removing).slots) == OpenCount(r.slots)
  {
    OpenCountUpdate(r.slots, i, r.slots[i].(removing := removing));
  }

  /** How opening and configuring go: the answers of the bdev layer and of the RAID level. */
  datatype Answers = Answers(opens: bool, claims: bool, dataFits: bool, starts: bool, registers: bool)

  /**
   raid_bdev_configure: a level that does not start changes nothing, a failed registration goes back to
   configuring.
   */
  function Configure(r: Raid, a: Answers): (r': Raid)
    ensures |r'.slots| == |r.slots| && r'.minimum == r.minimum
  {
    if !a.starts then r else r.(phase := if a.registers then Online else Configuring)
  }

  /** raid_bdev_configure_base_bdev */
  function ConfigureBase(r: Raid, i: nat, a: Answers): (r': Raid)
    requires i < |r.slots| && !r.slots[i].open
    ensures |r'.slots| == |r.slots| && r'.minimum == r.minimum
  {
    if !a.opens || !a.claims then r
    else
      var r1 := r.(slots := r.slots[i := r.slots[i].(open := true)], discovered := r.discovered + 1);
      if a.dataFits && r1.discovered == |r1.slots| then Configure(r1, a) else r1
  }

  /** The source's assertions on the way: an online array opens nothing, and only a configuring one is configured. */
  predicate ConfigureBaseAsserts(r: Raid, a: Answers)
  {
    a.opens && a.claims ==>
      && r.phase != Online
      && (a.dataFits && r.discovered + 1 == |r.slots| ==> r.phase == Configuring)
  }

  predicate AddAsserts(r: Raid, i: nat, a: Answers)
  {
    i < |r.slots| && !r.slots[i].named ==> ConfigureBaseAsserts(r, a)
  }

  /** raid_bdev_add_base_device */
  function Add(r: Raid, i: nat, a: Answers): (r': Raid)
    requires Inv(r)
    ensures |r'.slots| == |r.slots| && r'.minimum == r.minimum
  {
    if i >= |r.slots| || r.slots[i].named then r
    else ConfigureBase(r.(slots := r.slots[i := r.slots[i].(named := true)]), i, a)
  }

  /** raid_bdev_examine for a base bdev that carries the name of slot `i`. */
  function Examine(r: Raid, i: nat, a: Answers): (r': Raid)
    ensures |r'.slots| == |r.slots| && r'.minimum == r.minimum
  {
    if i < |r.slots| && r.slots[i].named && !r.slots[i].open then ConfigureBase(r, i, a) else r
  }

  /** raid_bdev_cleanup_and_free when no base bdev is left. */
  function FreeIfEmpty(r: Raid): Raid
  {
    if r.discovered == 0 then r.(freed := true) else r
  }

  /** raid_bdev_deconfigure */
  function Deconfigure(r: Raid): Raid
  {
    if r.phase != Online then r else r.(phase := Offline, unregistering := true)
  }

  /** raid_bdev_remove_base_bdev for the base bdev open in slot `i`. */
  function Remove(r: Raid, i: nat, quiesces: bool): (r': Raid)
    requires Inv(r) && i < |r.slots|
    ensures |r'.slots| == |r.slots| && r'.minimum == r.minimum
  {
    if r.slots[i].removing then r
    else
      MarkCounts(r, i, true);
      var r1 := Mark(r, i, true);
      if r1.phase != Online then FreeIfEmpty(FreeSlot(r1, i))
      else if r1.discovered == r1.minimum then Deconfigure(r1)
      else if quiesces then r1.(quiescing := r1.quiescing + {i})
      else Mark(r1, i, false)
  }

  /** The removal's quiesce or unquiesce has ended; `ok` when both went well. */
  function RemovalDone(r: Raid, i: nat, ok: bool): (r': Raid)
    requires Inv(r) && i < |r.slots|
    ensures |r'.slots| == |r.slots| && r'.minimum == r.minimum
  {
    MarkCounts(r, i, false);
    var r1 := Mark(r, i, false).(quiescing := r.quiescing - {i});
    if ok then FreeSlot(r1, i) else r1
  }

  /** One round of raid_bdev_delete's loop. */
  function DeleteOne(r: Raid, i: nat): (r': Raid)
    requires i < |r.slots| && r.discovered == OpenCount(r.slots)
    ensures r'.discovered == OpenCount(r'.slots) && |r'.slots| == |r.slots|
    ensures r' == r.(slots := r'.slots, discovered := r'.discovered)
    ensures forall k :: 0 <= k < |r.slots| && k != i ==> r'.slots[k] == r.slots[k]
    ensures r.phase != Online ==> !r'.slots[i].open
    ensures r.phase == Online ==> r'.discovered == r.discovered
  {
    MarkCounts(r, i, true);
    if r.phase != Online then FreeSlot(Mark(r, i, true), i) else Mark(r, i, true)
  }

  /** The loop of raid_bdev_delete over the first `k` slots. */
  function DeleteSlots(r: Raid, k: nat): (r': Raid)
    requires k <= |r.slots| && r.discovered == OpenCount(r.slots)
    ensures r'.discovered == OpenCount(r'.slots) && |r'.slots| == |r.slots|
    ensures r' == r.(slots := r'.slots, discovered := r'.discovered)
  {
    if k == 0 then r else DeleteOne(DeleteSlots(r, k - 1), k - 1)
  }

  /** The assertion of raid_bdev_cleanup, reached by deleting an array without open base bdevs. */
  predicate DeleteAsserts(r: Raid)
  {
    !r.destroyStarted ==> !(r.phase == Online && r.discovered == 0)
  }

  /** raid_bdev_delete */
  function Delete(r: Raid): (r': Raid)
    requires Inv(r)
    ensures |r'.slots| == |r.slots| && r'.minimum == r.minimum
  {
    if r.destroyStarted then r
    else
      var r1 := DeleteSlots(r.(destroyStarted := true), |r.slots|);
      if r1.discovered == 0 then r1.(freed := true) else Deconfigure(r1)
  }

  /** The loop of _raid_bdev_destruct over the first `k` slots. */
  function DestructSlots(r: Raid, k: nat, shutdown: bool): (r': Raid)
    requires k <= |r.slots| && r.discovered == OpenCount(r.slots)
    ensures r'.discovered == OpenCount(r'.slots) && |r'.slots| == |r.slots|
    ensures r' == r.(slots := r'.slots, discovered := r'.discovered)
  {
    if k == 0 then r
    else
      var r1 := DestructSlots(r, k - 1, shutdown);
      if shutdown || r1.slots[k - 1].removing then FreeSlot(r1, k - 1) else r1
  }

  /** _raid_bdev_destruct, up to the level's stop */
  function Destruct(r: Raid, shutdown: bool): (r': Raid)
    requires Inv(r)
    ensures |r'.slots| == |r.slots| && r'.minimum == r.minimum
  {
    var r1 := DestructSlots(r, |r.slots|, shutdown);
    r1.(phase := if shutdown then Offline else r1.phase, unregistering := false, stopping := true)
  }

  /** raid_bdev_io_device_unregister_cb */
  function Unregistered(r: Raid): Raid
  {
    FreeIfEmpty(r.(stopping := false))
  }

  // ---- events ----

  // Devices are added by the request that creates the array, so before it is online. The bdev layer calls the
  // destructor of an unregistered array, or of any online one at shutdown.
  datatype Event =
    | AddEvent(slot: nat, answers: Answers)
    | ExamineEvent(slot: nat, answers: Answers)
    | RemoveEvent(slot: nat, quiesces: bool)
    | RemovalDoneEvent(slot: nat, ok: bool)
    | DeleteEvent
    | DestructEvent(shutdown: bool)
    | UnregisteredEvent

  predicate Enabled(r: Raid, e: Event)
  {
    !r.freed &&
    match e
    case AddEvent(_, _) => r.phase == Configuring
    case ExamineEvent(_, _) => true
    case RemoveEvent(i, _) => i < |r.slots| && r.slots[i].open
    case RemovalDoneEvent(i, _) => i in r.quiescing
    case DeleteEvent => true
    case DestructEvent(shutdown) => r.unregistering || (shutdown && r.phase == Online)
    case UnregisteredEvent => r.stopping
  }

  /**
   A removal that leaves an online array its minimum: it takes the array offline, or there is a base
   bdev to spare after all removals under way. No other event needs care.
   */
  predicate Careful(r: Raid, e: Event)
  {
    e.RemoveEvent? && e.quiesces && e.slot < |r.slots| && !r.slots[e.slot].removing && r.phase == Online ==>
      r.discovered == r.minimum || r.discovered > r.minimum + |r.quiescing|
  }

  function Step(r: Raid, e: Event): (r': Raid)
    requires Inv(r) && Enabled(r, e)
    ensures |r'.slots| == |r.slots| && r'.minimum == r.minimum
  {
    match e
    case AddEvent(i, a) => Add(r, i, a)
    case ExamineEvent(i, a) => Examine(r, i, a)
    case RemoveEvent(i, quiesces) => Remove(r, i, quiesces)
    case RemovalDoneEvent(i, ok) => RemovalDone(r, i, ok)
    case DeleteEvent => Delete(r)
    case DestructEvent(shutdown) => Destruct(r, shutdown)
    case UnregisteredEvent => Unregistered(r)
  }

  // ---- the invariant is kept ----

  lemma {:induction false} ConfigureBaseInv(r: Raid, i: nat, a: Answers)
    requires Inv(r) && r.phase == Configuring && !r.freed && i < |r.slots| && r.slots[i].named && !r.slots[i].open
    ensures Inv(ConfigureBase(r, i, a))
    ensures ConfigureBase(r, i, a).phase == Online ==> OpenCount(ConfigureBase(r, i, a).slots) == |r.slots|
  {
    var s := r.slots[i].(open := true);
    OpenCountUpdate(r.slots, i, s);
    var slots := r.slots[i := s];
    if OpenCount(slots) == |slots| {
      forall k | 0 <= k < |slots| ensures slots[k].open { AllOpen(slots, k); }
    }
  }

  lemma {:induction false} AddInv(r: Raid, i: nat, a: Answers)
    requires Inv(r) && r.phase == Configuring && !r.freed
    ensures Inv(Add(r, i, a))
  {
    if i < |r.slots| && !r.slots[i].named {
      var s := r.slots[i].(named := true);
      OpenCountUpdate(r.slots, i, s);
      ConfigureBaseInv(r.(slots := r.slots[i := s]), i, a);
    }
  }

  lemma {:induction false} ExamineInv(r: Raid, i: nat, a: Answers)
    requires Inv(r) && !r.freed
    ensures Inv(Examine(r, i, a))
  {
    if i < |r.slots| && r.slots[i].named && !r.slots[i].open {
      ConfigureBaseInv(r, i, a);
    }
  }

  lemma {:induction false} FreeSlotInv(r: Raid, i: nat)
    requires Inv(r) && i < |r.slots| && !r.freed
    ensures Inv(FreeSlot(r, i))
  {
  }

  lemma {:induction false} RemoveInv(r: Raid, i: nat, quiesces: bool)
    requires Inv(r) && i < |r.slots| && r.slots[i].open && !r.freed
    ensures Inv(Remove(r, i, quiesces))
  {
    if !r.slots[i].removing {
      MarkCounts(r, i, true);
      var r1 := Mark(r, i, true);
      if r1.phase != Online {
        FreeSlotInv(r1, i);
      } else {
        MarkCounts(r1, i, false);
      }
    }
  }

  lemma {:induction false} RemovalDoneInv(r: Raid, i: nat, ok: bool)
    requires Inv(r) && i in r.quiescing && !r.freed
    ensures Inv(RemovalDone(r, i, ok))
  {
    MarkCounts(r, i, false);
    var r1 := Mark(r, i, false).(quiescing := r.quiescing - {i});
    FreeSlotInv(r1, i);
  }

  ghost predicate Alive(r: Raid)
  {
    Inv(r) && !r.freed
  }

  lemma {:induction false} DeleteOneAlive(r: Raid, i: nat)
    requires Alive(r) && i < |r.slots|
    ensures Alive(DeleteOne(r, i))
  {
    MarkCounts(r, i, true);
    FreeSlotInv(Mark(r, i, true), i);
  }

  lemma {:induction false} DeleteSlotsAlive(r: Raid, k: nat)
    requires Alive(r) && k <= |r.slots|
    ensures Alive(DeleteSlots(r, k))
  {
    if k > 0 {
      DeleteSlotsAlive(r, k - 1);
      DeleteOneAlive(DeleteSlots(r, k - 1), k - 1);
    }
  }

  lemma {:induction false} DeleteSlotsClosed(r: Raid, k: nat, i: nat)
    requires i < k <= |r.slots| && r.discovered == OpenCount(r.slots) && r.phase != Online
    ensures !DeleteSlots(r, k).slots[i].open
  {
    if i < k - 1 {
      DeleteSlotsClosed(r, k - 1, i);
    }
  }

  lemma {:induction false} NoneOpen(slots: seq<Slot>)
    requires forall i :: 0 <= i < |slots| ==> !slots[i].open
    ensures OpenCount(slots) == 0
  {
    if slots != [] {
      NoneOpen(slots[..|slots| - 1]);
    }
  }

  /** Deleting an online array keeps the descriptors open; deleting any other closes them all. */
  lemma {:induction false} OnlineDeleteKeeps(r: Raid, k: nat)
    requires Inv(r) && r.phase == Online && k <= |r.slots|
    ensures DeleteSlots(r, k).discovered == r.discovered
  {
    if k > 0 {
      OnlineDeleteKeeps(r, k - 1);
    }
  }

  lemma {:induction false} DeleteInv(r: Raid)
    requires Inv(r) && !r.freed
    ensures Inv(Delete(r))
  {
    if !r.destroyStarted {
      var r0 := r.(destroyStarted := true);
      DeleteSlotsAlive(r0, |r.slots|);
      var r1 := DeleteSlots(r0, |r.slots|);
      if r.phase == Online {
        OnlineDeleteKeeps(r0, |r.slots|);
      } else {
        forall i | 0 <= i < |r1.slots| ensures !r1.slots[i].open { DeleteSlotsClosed(r0, |r.slots|, i); }
        NoneOpen(r1.slots);
      }
    }
  }

  lemma {:induction false} DestructSlotsInv(r: Raid, k: nat, shutdown: bool)
    requires Inv(r) && !r.freed && k <= |r.slots|
    ensures Inv(DestructSlots(r, k, shutdown))
  {
    if k > 0 {
      DestructSlotsInv(r, k - 1, shutdown);
      FreeSlotInv(DestructSlots(r, k - 1, shutdown), k - 1);
    }
  }

  lemma {:induction false} DestructInv(r: Raid, shutdown: bool)
    requires Inv(r) && !r.freed && (r.unregistering || (shutdown && r.phase == Online))
    ensures Inv(Destruct(r, shutdown))
  {
    DestructSlotsInv(r, |r.slots|, shutdown);
  }

  lemma {:induction false} StepInv(r: Raid, e: Event)
    requires Inv(r) && Enabled(r, e)
    ensures Inv(Step(r, e))
  {
    match e
    case AddEvent(i, a) => AddInv(r, i, a);
    case ExamineEvent(i, a) => ExamineInv(r, i, a);
    case RemoveEvent(i, quiesces) => RemoveInv(r, i, quiesces);
    case RemovalDoneEvent(i, ok) => RemovalDoneInv(r, i, ok);
    case DeleteEvent => DeleteInv(r);
    case DestructEvent(shutdown) => DestructInv(r, shutdown);
    case UnregisteredEvent =>
  }

  lemma {:induction false} ConfigureBaseOperational(r: Raid, i: nat, a: Answers)
    requires Inv(r) && Operational(r) && r.phase == Configuring && i < |r.slots| && !r.slots[i].open
    ensures Operational(ConfigureBase(r, i, a))
  {
  }

  lemma {:induction false} AddOperational(r: Raid, i: nat, a: Answers)
    requires Inv(r) && Operational(r) && r.phase == Configuring
    ensures Operational(Add(r, i, a))
  {
  }

  lemma {:induction false} ExamineOperational(r: Raid, i: nat, a: Answers)
    requires Inv(r) && Operational(r)
    ensures Operational(Examine(r, i, a))
  {
    if i < |r.slots| && r.slots[i].named && !r.slots[i].open {
      ConfigureBaseOperational(r, i, a);
    }
  }

  lemma {:induction false} RemoveOperationalIff(r: Raid, i: nat, quiesces: bool)
    requires Inv(r) && Operational(r) && i < |r.slots| && r.slots[i].open
    ensures Operational(Remove(r, i, quiesces)) <==> Careful(r, RemoveEvent(i, quiesces))
  {
  }

  lemma {:induction false} RemovalDoneOperational(r: Raid, i: nat, ok: bool)
    requires Inv(r) && Operational(r) && i in r.quiescing
    ensures Operational(RemovalDone(r, i, ok))
  {
  }

  lemma {:induction false} DeleteOperational(r: Raid)
    requires Inv(r) && Operational(r)
    ensures Operational(Delete(r))
  {
    if r.phase == Online {
      OnlineDeleteKeeps(r.(destroyStarted := true), |r.slots|);
    }
  }

  // ---- runs ----

  /** A newly created array of `n` slots. */
  function Create(n: nat, minimum: nat): (r: Raid)
    requires 1 <= minimum <= n
    ensures Inv(r) && Operational(r)
  {
    var slots := seq(n, _ => Slot(false, false, false));
    NoneOpen(slots);
    Raid(Configuring, slots, 0, minimum, false, {}, false, false, false)
  }

  ghost predicate LegalRun(n: nat, minimum: nat, events: seq<Event>)
    decreases |events|, 0
  {
    if events == [] then 1 <= minimum <= n
    else
      var before, e := events[..|events| - 1], events[|events| - 1];
      LegalRun(n, minimum, before) && Enabled(Run(n, minimum, before), e)
  }

  ghost function Run(n: nat, minimum: nat, events: seq<Event>): (r: Raid)
    requires LegalRun(n, minimum, events)
    ensures Inv(r) && |r.slots| == n && r.minimum == minimum
    decreases |events|, 1
  {
    if events == [] then Create(n, minimum)
    else
      var r, e := Run(n, minimum, events[..|events| - 1]), events[|events| - 1];
      StepInv(r, e);
      Step(r, e)
  }

  /** Each removal of the run was careful when it came. */
  ghost predicate CarefulRun(n: nat, minimum: nat, events: seq<Event>)
    requires LegalRun(n, minimum, events)
  {
    events == [] ||
    (var before := events[..|events| - 1];
     CarefulRun(n, minimum, before) && Careful(Run(n, minimum, before), events[|events| - 1]))
  }

  lemma {:induction false} RunNext(n: nat, minimum: nat, events: seq<Event>, e: Event)
    requires LegalRun(n, minimum, events) && Enabled(Run(n, minimum, events), e)
    ensures LegalRun(n, minimum, events + [e])
    ensures Run(n, minimum, events + [e]) == Step(Run(n, minimum, events), e)
  {
    assert (events + [e])[..|events + [e]| - 1] == events;
  }

  // ---- main results ----

  /** An online array that keeps its minimum goes on keeping it if and only if the event is careful. */
  lemma {:induction false} OperationalIff(r: Raid, e: Event)
    requires Inv(r) && Operational(r) && Enabled(r, e)
    ensures Operational(Step(r, e)) <==> Careful(r, e)
  {
    match e
    case AddEvent(i, a) => AddOperational(r, i, a);
    case ExamineEvent(i, a) => ExamineOperational(r, i, a);
    case RemoveEvent(i, quiesces) => RemoveOperationalIff(r, i, quiesces);
    case RemovalDoneEvent(i, ok) => RemovalDoneOperational(r, i, ok);
    case DeleteEvent => DeleteOperational(r);
    case DestructEvent(_) =>
    case UnregisteredEvent =>
  }

  /** Over every run, the counter of discovered base bdevs is the number of open descriptors. */
  lemma {:induction false} CountsOpen(n: nat, minimum: nat, events: seq<Event>)
    requires LegalRun(n, minimum, events)
    ensures var r := Run(n, minimum, events);
            && r.discovered == OpenCount(r.slots) <= n
            && (r.freed ==> forall i :: 0 <= i < n ==> !r.slots[i].open)
  {
    var r := Run(n, minimum, events);
    if r.freed {
      forall i | 0 <= i < n ensures !r.slots[i].open {
        if r.slots[i].open {
          SomeOpen(r.slots, i);
        }
      }
    }
  }

  /** Over every careful run, an online array keeps its minimum of open base bdevs. */
  lemma {:induction false} KeepsMinimum(n: nat, minimum: nat, events: seq<Event>)
    requires LegalRun(n, minimum, events) && CarefulRun(n, minimum, events)
    ensures var r := Run(n, minimum, events);
            Operational(r) && (r.phase == Online ==> minimum <= OpenCount(r.slots))
    decreases |events|
  {
    if events != [] {
      var before := events[..|events| - 1];
      KeepsMinimum(n, minimum, before);
      OperationalIff(Run(n, minimum, before), events[|events| - 1]);
    }
  }

  /** An array goes online only from configuring, with every slot open; one that is offline stays offline. */
  lemma {:induction false} Transitions(r: Raid, e: Event)
    requires Inv(r) && Enabled(r, e)
    ensures r.phase != Online && Step(r, e).phase == Online ==>
              r.phase == Configuring && forall i :: 0 <= i < |r.slots| ==> Step(r, e).slots[i].open
    ensures r.phase == Offline ==> Step(r, e).phase == Offline
  {
    if r.phase == Configuring && Step(r, e).phase == Online {
      GoesOnlineFull(r, e);
      forall i | 0 <= i < |r.slots| ensures Step(r, e).slots[i].open {
        AllOpen(Step(r, e).slots, i);
      }
    }
  }

  lemma {:induction false} GoesOnlineFull(r: Raid, e: Event)
    requires Inv(r) && Enabled(r, e) && r.phase == Configuring && Step(r, e).phase == Online
    ensures |Step(r, e).slots| == |r.slots| && OpenCount(Step(r, e).slots) == |r.slots|
  {
    match e
    case AddEvent(i, a) =>
      var s := r.slots[i].(named := true);
      OpenCountUpdate(r.slots, i, s);
      ConfigureBaseInv(r.(slots := r.slots[i := s]), i, a);
    case ExamineEvent(i, a) => ConfigureBaseInv(r, i, a);
    case RemoveEvent(_, _) =>
    case RemovalDoneEvent(_, _) =>
    case DeleteEvent =>
    case DestructEvent(_) =>
    case UnregisteredEvent =>
  }

  /** The assertions on the state: on the events of a run, adding and examining never trip one. */
  lemma {:induction false} AddingAsserts(r: Raid, e: Event)
    requires Inv(r) && Enabled(r, e)
    ensures e.AddEvent? ==> AddAsserts(r, e.slot, e.answers)
    ensures e.ExamineEvent? && e.slot < |r.slots| && r.slots[e.slot].named && !r.slots[e.slot].open ==>
              ConfigureBaseAsserts(r, e.answers)
  {
  }

  /**
   Over every run, deleting trips its assertion if and only if every base bdev of an online array has gone; no careful
   run brings that about.
   */
  lemma {:induction false} DeletesEmptyOnline(n: nat, minimum: nat, events: seq<Event>)
    requires LegalRun(n, minimum, events)
    ensures var r := Run(n, minimum, events);
            && (!DeleteAsserts(r) <==>
                !r.destroyStarted && r.phase == Online && forall i :: 0 <= i < n ==> !r.slots[i].open)
            && (CarefulRun(n, minimum, events) ==> DeleteAsserts(r))
  {
    var r := Run(n, minimum, events);
    if CarefulRun(n, minimum, events) {
      KeepsMinimum(n, minimum, events);
    }
    if forall i :: 0 <= i < n ==> !r.slots[i].open {
      NoneOpen(r.slots);
    }
    forall i | 0 <= i < n && r.slots[i].open ensures r.discovered > 0 {
      SomeOpen(r.slots, i);
    }
  }

  /** A step leaves the array freed with a call still owed to it if and only if one was owed and this event frees it. */
  lemma {:induction false} FreedWhileOwedIff(r: Raid, e: Event)
    requires Inv(r) && Enabled(r, e)
    ensures Step(r, e).freed && Owed(Step(r, e))
            <==> match e
                 case RemoveEvent(i, _) => Owed(r) && r.phase != Online && !r.slots[i].removing && r.discovered == 1
                 case DeleteEvent => Owed(r) && !r.destroyStarted && (r.phase != Online || r.discovered == 0)
                 case UnregisteredEvent => (r.quiescing != {} || r.unregistering) && r.discovered == 0
                 case _ => false
  {
    match e
    case DeleteEvent =>
      DeleteFrees(r);
    case RemoveEvent(i, _) =>
      SomeOpen(r.slots, i);
    case _ =>
  }

  /** Deletion frees exactly the arrays that are not online, and an online one with nothing open. */
  lemma {:induction false} DeleteFrees(r: Raid)
    requires Inv(r) && !r.freed
    ensures Delete(r).freed <==> !r.destroyStarted && (r.phase != Online || r.discovered == 0)
    ensures Delete(r).freed ==> Owed(Delete(r)) == Owed(r)
  {
    if !r.destroyStarted {
      var r0 := r.(destroyStarted := true);
      var r1 := DeleteSlots(r0, |r.slots|);
      if r.phase == Online {
        OnlineDeleteKeeps(r0, |r.slots|);
      } else {
        forall i | 0 <= i < |r1.slots| ensures !r1.slots[i].open { DeleteSlotsClosed(r0, |r.slots|, i); }
        NoneOpen(r1.slots);
      }
    }
  }

  /** The removal of an open base bdev from an array at rest is ignored if and only if its slot is already flagged. */
  lemma {:induction false} RemovalIgnoredIff(r: Raid, i: nat)
    requires Inv(r) && Enabled(r, RemoveEvent(i, true)) && !Owed(r)
    ensures Step(r, RemoveEvent(i, true)) == r <==> r.slots[i].removing
  {
    var r' := Step(r, RemoveEvent(i, true));
    if !r.slots[i].removing {
      assert r.phase != Online ==> !r'.slots[i].open;
      assert r.phase == Online ==> r'.slots[i].removing;
    }
  }

  // ---- two runs ----

  const ALL_WELL := Answers(true, true, true, true, true)

  /** A three-disk array that needs two goes online. */
  lemma {:induction false} ThreeDisksOnline() returns (events: seq<Event>)
    ensures LegalRun(3, 2, events) && CarefulRun(3, 2, events)
    ensures var up := Slot(true, true, false);
            Run(3, 2, events) == Raid(Online, [up, up, up], 3, 2, false, {}, false, false, false)
  {
    var up, down := Slot(true, true, false), Slot(false, false, false);
    events := [];
    assert Run(3, 2, events).slots == [down, down, down];
    Extend(3, 2, events, AddEvent(0, ALL_WELL));
    events := events + [AddEvent(0, ALL_WELL)];
    assert Run(3, 2, events).slots == [up, down, down];
    Extend(3, 2, events, AddEvent(1, ALL_WELL));
    events := events + [AddEvent(1, ALL_WELL)];
    assert Run(3, 2, events).slots == [up, up, down];
    Extend(3, 2, events, AddEvent(2, ALL_WELL));
    events := events + [AddEvent(2, ALL_WELL)];
    assert Run(3, 2, events).slots == [up, up, up];
  }

  lemma {:induction false} Extend(n: nat, minimum: nat, events: seq<Event>, e: Event)
    requires LegalRun(n, minimum, events) && CarefulRun(n, minimum, events)
    requires Enabled(Run(n, minimum, events), e) && Careful(Run(n, minimum, events), e)
    ensures LegalRun(n, minimum, events + [e]) && CarefulRun(n, minimum, events + [e])
    ensures Run(n, minimum, events + [e]) == Step(Run(n, minimum, events), e)
  {
    RunNext(n, minimum, events, e);
    assert (events + [e])[..|events + [e]| - 1] == events;
  }

  /** From there, one removal is under way. */
  lemma {:induction false} OneRemovalUnderWay() returns (events: seq<Event>)
    ensures LegalRun(3, 2, events) && CarefulRun(3, 2, events)
    ensures var up, going := Slot(true, true, false), Slot(true, true, true);
            Run(3, 2, events) == Raid(Online, [going, up, up], 3, 2, false, {0}, false, false, false)
  {
    var online := ThreeDisksOnline();
    var e := RemoveEvent(0, true);
    Extend(3, 2, online, e);
    events := online + [e];
    assert Run(3, 2, events).slots == [Slot(true, true, true), Slot(true, true, false), Slot(true, true, false)];
  }

  // ---- what the events do ----

  lemma {:induction false} DeleteSlotsFlags(r: Raid, k: nat)
    requires k <= |r.slots| && r.discovered == OpenCount(r.slots) && r.phase == Online
    ensures DeleteSlots(r, k).discovered == r.discovered
    ensures forall i :: 0 <= i < |r.slots| ==>
      DeleteSlots(r, k).slots[i] == if i < k then r.slots[i].(removing := true) else r.slots[i]
  {
    if k > 0 {
      DeleteSlotsFlags(r, k - 1);
    }
  }

  /** The destructor's loop closes the flagged slots, or all at shutdown, and no other. */
  lemma {:induction false} DestructSlotsCloses(r: Raid, k: nat, shutdown: bool)
    requires k <= |r.slots| && r.discovered == OpenCount(r.slots)
    ensures forall i :: 0 <= i < |r.slots| ==>
      DestructSlots(r, k, shutdown).slots[i]
      == if i < k && (shutdown || r.slots[i].removing) then Slot(false, false, r.slots[i].removing) else r.slots[i]
  {
    if k > 0 {
      DestructSlotsCloses(r, k - 1, shutdown);
    }
  }

  /** Deletion begins once, and of an array that is not online closes everything and frees it. */
  lemma {:induction false} DeleteOnce(r: Raid)
    requires Inv(r) && !r.freed
    ensures r.destroyStarted ==> Delete(r) == r
    ensures !r.destroyStarted && r.phase != Online ==>
      && Delete(r).freed && Delete(r).phase == r.phase
      && forall i :: 0 <= i < |r.slots| ==> !Delete(r).slots[i].open
  {
    if !r.destroyStarted && r.phase != Online {
      DeleteFrees(r);
      forall i | 0 <= i < |r.slots| ensures !Delete(r).slots[i].open {
        DeleteSlotsClosed(r.(destroyStarted := true), |r.slots|, i);
      }
    }
  }

  /** Deleting an online array takes it offline and unregisters it; descriptors stay open, every slot is flagged. */
  lemma {:induction false} DeleteTakesOffline(r: Raid)
    requires Inv(r) && r.phase == Online && !r.destroyStarted && r.discovered > 0
    ensures var r' := Delete(r);
            && r'.phase == Offline && r'.unregistering && r'.destroyStarted && r'.freed == r.freed
            && r'.discovered == r.discovered && r'.quiescing == r.quiescing && r'.stopping == r.stopping
            && forall i :: 0 <= i < |r.slots| ==> r'.slots[i] == r.slots[i].(removing := true)
  {
    DeleteSlotsFlags(r.(destroyStarted := true), |r.slots|);
  }

  /** The destructor closes the flagged slots, or at shutdown all, going offline; then the level is to stop. */
  lemma {:induction false} DestructCloses(r: Raid, shutdown: bool)
    requires Inv(r)
    ensures var r' := Destruct(r, shutdown);
            && r'.phase == (if shutdown then Offline else r.phase) && r'.stopping && !r'.unregistering
            && r'.freed == r.freed && r'.quiescing == r.quiescing
            && forall i :: 0 <= i < |r.slots| ==>
                 r'.slots[i] == if shutdown || r.slots[i].removing then Slot(false, false, r.slots[i].removing)
                                else r.slots[i]
  {
    DestructSlotsCloses(r, |r.slots|, shutdown);
  }

  /** An array whose deletion has begun is offline, or gone. */
  lemma {:induction false} DeletedIsOffline(n: nat, minimum: nat, events: seq<Event>)
    requires LegalRun(n, minimum, events)
    ensures var r := Run(n, minimum, events); r.destroyStarted && !r.freed ==> r.phase == Offline
    decreases |events|
  {
    if events != [] {
      var before, e := events[..|events| - 1], events[|events| - 1];
      DeletedIsOffline(n, minimum, before);
      DeletedStep(Run(n, minimum, before), e);
    }
  }

  lemma {:induction false} DeletedStep(r: Raid, e: Event)
    requires Inv(r) && Enabled(r, e) && (r.destroyStarted ==> r.phase == Offline)
    ensures Step(r, e).destroyStarted && !Step(r, e).freed ==> Step(r, e).phase == Offline
  {
    if e.DeleteEvent? {
      DeleteFrees(r);
    }
  }

  /**
   From any reachable online array with a base bdev open and no removal pending, deletion, the destructor and
   the callback follow one another and free it with every descriptor closed and nothing owed.
   */
  lemma {:induction false} DeletionFrees(n: nat, minimum: nat, events: seq<Event>)
    requires LegalRun(n, minimum, events)
    requires var r := Run(n, minimum, events); r.phase == Online && !r.freed && r.quiescing == {} && r.discovered > 0
    ensures var all := events + [DeleteEvent] + [DestructEvent(false)] + [UnregisteredEvent];
            && LegalRun(n, minimum, all) && Run(n, minimum, all).freed && !Owed(Run(n, minimum, all))
            && forall i :: 0 <= i < n ==> !Run(n, minimum, all).slots[i].open
  {
    var r := Run(n, minimum, events);
    DeletedIsOffline(n, minimum, events);
    DeleteTakesOffline(r);
    RunNext(n, minimum, events, DeleteEvent);
    var deleted := events + [DeleteEvent];
    DestructCloses(Run(n, minimum, deleted), false);
    RunNext(n, minimum, deleted, DestructEvent(false));
    Stopped(n, minimum, deleted + [DestructEvent(false)]);
  }

  /** At shutdown any reachable online array is destroyed and freed, its descriptors closed. */
  lemma {:induction false} ShutdownFrees(n: nat, minimum: nat, events: seq<Event>)
    requires LegalRun(n, minimum, events)
    requires var r := Run(n, minimum, events); r.phase == Online && !r.freed && r.quiescing == {}
    ensures var all := events + [DestructEvent(true)] + [UnregisteredEvent];
            && LegalRun(n, minimum, all) && Run(n, minimum, all).freed && !Owed(Run(n, minimum, all))
            && Run(n, minimum, all).phase == Offline
            && forall i :: 0 <= i < n ==> !Run(n, minimum, all).slots[i].open
  {
    DestructCloses(Run(n, minimum, events), true);
    RunNext(n, minimum, events, DestructEvent(true));
    Stopped(n, minimum, events + [DestructEvent(true)]);
  }

  /** The callback after the level has stopped frees an array with nothing open. */
  lemma {:induction false} Stopped(n: nat, minimum: nat, events: seq<Event>)
    requires LegalRun(n, minimum, events)
    requires var r := Run(n, minimum, events);
             && r.stopping && !r.freed && !r.unregistering && r.quiescing == {}
             && forall i :: 0 <= i < |r.slots| ==> !r.slots[i].open
    ensures LegalRun(n, minimum, events + [UnregisteredEvent])
    ensures var r, r' := Run(n, minimum, events), Run(n, minimum, events + [UnregisteredEvent]);
            r'.freed && !Owed(r') && r'.slots == r.slots && r'.phase == r.phase
  {
    NoneOpen(Run(n, minimum, events).slots);
    RunNext(n, minimum, events, UnregisteredEvent);
  }

  /** A removal carried out closes its slot and forgets its base bdev; nothing else changes. */
  lemma {:induction false} RemovalCarriedOut(r: Raid, i: nat)
    requires Inv(r) && r.phase == Online && !r.freed && i < |r.slots| && r.slots[i].open && !r.slots[i].removing
    requires r.discovered != r.minimum && i !in r.quiescing
    ensures Inv(Remove(r, i, true)) && i in Remove(r, i, true).quiescing
    ensures RemovalDone(Remove(r, i, true), i, true)
            == r.(slots := r.slots[i := Slot(false, false, false)], discovered := r.discovered - 1)
  {
    RemoveInv(r, i, true);
    assert r.quiescing + {i} - {i} == r.quiescing;
  }

  /** A removal that cannot be carried out leaves slots, counters and state as they were. */
  lemma {:induction false} RemovalUndone(r: Raid, i: nat)
    requires Inv(r) && r.phase == Online && !r.freed && i < |r.slots| && r.slots[i].open && !r.slots[i].removing
    requires r.discovered != r.minimum && i !in r.quiescing
    ensures Remove(r, i, false) == r
    ensures Inv(Remove(r, i, true)) && RemovalDone(Remove(r, i, true), i, false) == r
  {
    RemoveInv(r, i, true);
    assert r.quiescing + {i} - {i} == r.quiescing;
    assert r.slots[i := r.slots[i].(removing := true)][i := r.slots[i]] == r.slots;
    assert r.slots[i := r.slots[i]] == r.slots;
  }

  /** A removal an online array cannot spare takes it offline; its destructor then closes the flagged slots only. */
  lemma {:induction false} RemovalAtMinimum(r: Raid, i: nat, quiesces: bool)
    requires Inv(r) && r.phase == Online && !r.freed && i < |r.slots| && r.slots[i].open && !r.slots[i].removing
    requires r.discovered == r.minimum && forall k :: 0 <= k < |r.slots| ==> !r.slots[k].removing
    ensures var r1 := Remove(r, i, quiesces);
            && Inv(r1) && r1.phase == Offline && r1.unregistering && r1.discovered == r.discovered
            && Destruct(r1, false).slots == r.slots[i := Slot(false, false, true)]
            && Destruct(r1, false).discovered == r.discovered - 1
            && (Unregistered(Destruct(r1, false)).freed <==> r.discovered == 1)
  {
    RemoveInv(r, i, quiesces);
    var r1 := Remove(r, i, quiesces);
    DestructCloses(r1, false);
    assert Destruct(r1, false).slots == r.slots[i := Slot(false, false, true)];
    OpenCountUpdate(r.slots, i, Slot(false, false, true));
  }

  /** A removal from an array that is not online closes its slot, and frees the array if it was the last. */
  lemma {:induction false} RemovalOffline(r: Raid, i: nat, quiesces: bool)
    requires Inv(r) && r.phase != Online && !r.freed && i < |r.slots| && r.slots[i].open && !r.slots[i].removing
    ensures var r' := Remove(r, i, quiesces);
            && r'.slots == r.slots[i := Slot(false, false, true)] && r'.phase == r.phase
            && (r'.freed <==> forall k :: 0 <= k < |r.slots| && k != i ==> !r.slots[k].open)
  {
    var r' := Remove(r, i, quiesces);
    assert r'.slots == r.slots[i := Slot(false, false, true)];
    if r'.freed {
      ZeroOpen(r'.slots);
      assert forall k :: 0 <= k < |r.slots| && k != i ==> r'.slots[k] == r.slots[k];
    } else if forall k :: 0 <= k < |r.slots| && k != i ==> !r.slots[k].open {
      NoneOpen(r'.slots);
    }
  }

  /** Whether slot `i` is opened by a base bdev that comes, and whether it is the last one missing. */
  predicate Opens(r: Raid, e: Event, i: nat)
  {
    && i < |r.slots| && !r.slots[i].open
    && ((e.AddEvent? && e.slot == i && !r.slots[i].named) || (e.ExamineEvent? && e.slot == i && r.slots[i].named))
    && e.answers.opens && e.answers.claims
  }

  /** A slot of a configuring array is open after a base bdev has come if it was, or this one was opened and claimed. */
  lemma {:induction false} ComesOpen(r: Raid, e: Event, i: nat)
    requires Inv(r) && Enabled(r, e) && r.phase == Configuring && (e.AddEvent? || e.ExamineEvent?) && i < |r.slots|
    ensures Step(r, e).slots[i].open <==> r.slots[i].open || Opens(r, e, i)
    ensures Step(r, e).slots[i].named <==> r.slots[i].named || (e.AddEvent? && e.slot == i)
    ensures Step(r, e).slots[i].removing == r.slots[i].removing
  {
  }

  lemma {:induction false} OpenAll(slots: seq<Slot>)
    requires forall i :: 0 <= i < |slots| ==> slots[i].open
    ensures OpenCount(slots) == |slots|
  {
    if slots != [] {
      OpenAll(slots[..|slots| - 1]);
    }
  }

  /**
   A configuring array goes online if and only if the base bdev that comes is opened and claimed, its data fits, every
   other slot is open, the level starts and the array can be registered.
   */
  lemma {:induction false} GoesOnlineIff(r: Raid, e: Event)
    requires Inv(r) && Enabled(r, e) && r.phase == Configuring && (e.AddEvent? || e.ExamineEvent?)
    ensures Step(r, e).phase == Online
            <==> && Opens(r, e, e.slot) && e.answers.dataFits && e.answers.starts && e.answers.registers
                 && forall k :: 0 <= k < |r.slots| && k != e.slot ==> r.slots[k].open
    ensures Step(r, e).phase != Online ==> Step(r, e).phase == Configuring
  {
    var r', i := Step(r, e), e.slot;
    if Opens(r, e, i) {
      var all := r.slots[i := r.slots[i].(named := true, open := true)];
      OpenCountUpdate(r.slots, i, r.slots[i].(named := true, open := true));
      OpenCountUpdate(r.slots, i, r.slots[i].(named := true));
      if forall k :: 0 <= k < |r.slots| && k != i ==> r.slots[k].open {
        OpenAll(all);
      } else if r.discovered + 1 == |r.slots| {
        forall k | 0 <= k < |r.slots| && k != i ensures r.slots[k].open {
          AllOpen(all, k);
        }
      }
    }
  }

  // ---- what becomes of a removal that is not careful ----

  /** Online, and what is to be removed is there. */
  ghost predicate Removing(r: Raid)
  {
    Inv(r) && r.phase == Online && !r.freed && forall k :: k in r.quiescing ==> k < |r.slots| && r.slots[k].open
  }

  /** The removals under way have gone well. */
  ghost predicate Removed(r: Raid, r': Raid)
  {
    && r'.phase == Online && !r'.freed && r'.destroyStarted == r.destroyStarted
    && r'.quiescing == {} && r'.discovered == r.discovered - |r.quiescing|
  }

  lemma {:induction false} OneEnds(r: Raid, i: nat)
    requires Removing(r) && i in r.quiescing
    ensures var r' := RemovalDone(r, i, true);
            && r'.phase == r.phase && r'.freed == r.freed && r'.destroyStarted == r.destroyStarted
            && r'.quiescing == r.quiescing - {i} && r'.discovered == r.discovered - 1
            && forall k :: k in r'.quiescing ==> k < |r'.slots| && r'.slots[k].open
  {
  }

  /** When the bdev layer answers all removals under way and each goes well, every one of them costs a base bdev. */
  lemma {:induction false} AllEnd(n: nat, minimum: nat, events: seq<Event>, r: Raid) returns (all: seq<Event>)
    requires LegalRun(n, minimum, events) && r == Run(n, minimum, events) && Removing(r)
    ensures events <= all && LegalRun(n, minimum, all) && Removed(r, Run(n, minimum, all))
    decreases |r.quiescing|
  {
    if r.quiescing == {} {
      all := events;
    } else {
      var i :| i in r.quiescing;
      var r' := RemovalDone(r, i, true);
      OneEnds(r, i);
      RunNext(n, minimum, events, RemovalDoneEvent(i, true));
      all := AllEnd(n, minimum, events + [RemovalDoneEvent(i, true)], r');
    }
  }

  /**
   After any careful run, a removal that is not careful has a continuation that leaves the array online and one
   below its minimum: the removals under way go well.
   */
  lemma {:induction false} OverlapBreaksMinimum(n: nat, minimum: nat, events: seq<Event>, i: nat)
    returns (all: seq<Event>)
    requires LegalRun(n, minimum, events) && CarefulRun(n, minimum, events)
    requires var r, e := Run(n, minimum, events), RemoveEvent(i, true); Enabled(r, e) && !Careful(r, e)
    ensures events + [RemoveEvent(i, true)] <= all && LegalRun(n, minimum, all)
    ensures var r' := Run(n, minimum, all);
            && r'.phase == Online && !r'.freed && r'.quiescing == {} && r'.discovered == minimum - 1
            && r'.destroyStarted == Run(n, minimum, events).destroyStarted
  {
    var r := Run(n, minimum, events);
    KeepsMinimum(n, minimum, events);
    RunNext(n, minimum, events, RemoveEvent(i, true));
    assert Remove(r, i, true).quiescing == r.quiescing + {i} && i !in r.quiescing;
    all := AllEnd(n, minimum, events + [RemoveEvent(i, true)], Remove(r, i, true));
  }

  /** Care is needed: such a state is reached, and left below the minimum. */
  lemma {:induction false} CarelessRun() returns (one: seq<Event>, events: seq<Event>)
    ensures LegalRun(3, 2, one) && CarefulRun(3, 2, one) && Enabled(Run(3, 2, one), RemoveEvent(1, true))
    ensures !Careful(Run(3, 2, one), RemoveEvent(1, true))
    ensures one + [RemoveEvent(1, true)] <= events
    ensures LegalRun(3, 2, events) && Run(3, 2, events).phase == Online && Run(3, 2, events).discovered == 1
  {
    one := OneRemovalUnderWay();
    events := OverlapBreaksMinimum(3, 2, one, 1);
  }

  /** A two-disk array that needs one goes online, and a removal is under way. */
  lemma {:induction false} PairUnderWay() returns (events: seq<Event>)
    ensures LegalRun(2, 1, events) && CarefulRun(2, 1, events)
    ensures var up, going := Slot(true, true, false), Slot(true, true, true);
            Run(2, 1, events) == Raid(Online, [going, up], 2, 1, false, {0}, false, false, false)
  {
    var up, down := Slot(true, true, false), Slot(false, false, false);
    events := [];
    assert Run(2, 1, events).slots == [down, down];
    Extend(2, 1, events, AddEvent(0, ALL_WELL));
    events := events + [AddEvent(0, ALL_WELL)];
    assert Run(2, 1, events).slots == [up, down];
    Extend(2, 1, events, AddEvent(1, ALL_WELL));
    events := events + [AddEvent(1, ALL_WELL)];
    assert Run(2, 1, events).slots == [up, up];
    Extend(2, 1, events, RemoveEvent(0, true));
    events := events + [RemoveEvent(0, true)];
    assert Run(2, 1, events).slots == [Slot(true, true, true), up];
  }

  /** A mirror can lose both its disks and stay online; deleting it then trips the assertion. */
  lemma {:induction false} EmptyOnlineRun() returns (events: seq<Event>)
    ensures LegalRun(2, 1, events)
    ensures var r := Run(2, 1, events);
            && r.phase == Online && !r.freed && (forall i :: 0 <= i < 2 ==> !r.slots[i].open)
            && Enabled(r, DeleteEvent) && !DeleteAsserts(r)
  {
    var one := PairUnderWay();
    events := OverlapBreaksMinimum(2, 1, one, 1);
    ZeroOpen(Run(2, 1, events).slots);
    DeletesEmptyOnline(2, 1, events);
  }

  lemma {:induction false} ZeroOpen(slots: seq<Slot>)
    requires OpenCount(slots) == 0
    ensures forall i :: 0 <= i < |slots| ==> !slots[i].open
  {
    forall i | 0 <= i < |slots| ensures !slots[i].open {
      if slots[i].open {
        SomeOpen(slots, i);
      }
    }
  }

  lemma {:induction false} DestructOne(slots: seq<Slot>)
    requires slots == [Slot(false, false, false), Slot(true, true, true), Slot(true, true, false)]
    requires OpenCount(slots) == 2
    ensures var r := Raid(Offline, slots, 2, 2, false, {}, true, false, false);
            Destruct(r, false)
            == Raid(Offline, slots[1 := Slot(false, false, true)], 1, 2, false, {}, false, true, false)
  {
    var r := Raid(Offline, slots, 2, 2, false, {}, true, false, false);
    assert DestructSlots(r, 1, false) == r;
    assert DestructSlots(r, 2, false) == FreeSlot(r, 1);
    assert DestructSlots(r, 3, false) == FreeSlot(r, 1);
  }

  /** Two removals, one after the other; the second takes the array offline. */
  lemma {:induction false} TakenOffline() returns (events: seq<Event>)
    ensures LegalRun(3, 2, events) && CarefulRun(3, 2, events)
    ensures var up, down, going := Slot(true, true, false), Slot(false, false, false), Slot(true, true, true);
            Run(3, 2, events) == Raid(Offline, [down, going, up], 2, 2, false, {}, true, false, false)
  {
    var up, down, going := Slot(true, true, false), Slot(false, false, false), Slot(true, true, true);
    events := OneRemovalUnderWay();
    Extend(3, 2, events, RemovalDoneEvent(0, true));
    events := events + [RemovalDoneEvent(0, true)];
    assert Run(3, 2, events) == Raid(Online, [down, up, up], 2, 2, false, {}, false, false, false);
    Extend(3, 2, events, RemoveEvent(1, true));
    events := events + [RemoveEvent(1, true)];
    assert Run(3, 2, events).slots == [down, going, up];
  }

  /** The destructor has closed the second slot, and the level is being stopped. */
  lemma {:induction false} StoppingRun() returns (events: seq<Event>)
    ensures LegalRun(3, 2, events) && CarefulRun(3, 2, events)
    ensures var up, down, gone := Slot(true, true, false), Slot(false, false, false), Slot(false, false, true);
            Run(3, 2, events) == Raid(Offline, [down, gone, up], 1, 2, false, {}, false, true, false)
  {
    events := TakenOffline();
    DestructOne(Run(3, 2, events).slots);
    Extend(3, 2, events, DestructEvent(false));
    events := events + [DestructEvent(false)];
  }

  /**
   A run of careful removals, one after the other, frees an array while its level is still being stopped: the callback
   that ends the unregistration then gets an array already freed.
   */
  lemma {:induction false} FreedWhileStoppingRun() returns (events: seq<Event>)
    ensures LegalRun(3, 2, events) && CarefulRun(3, 2, events)
    ensures var r := Run(3, 2, events); r.freed && r.stopping && Owed(r)
  {
    events := StoppingRun();
    Extend(3, 2, events, RemoveEvent(2, true));
    events := events + [RemoveEvent(2, true)];
  }

  /**
   A removal from an array that is not online leaves the flag behind, and a base bdev added to the slot
   later has it.
   */
  lemma {:induction false} FlagOutlivesRemoval(r: Raid, i: nat)
    requires Inv(r) && Enabled(r, RemoveEvent(i, true)) && !r.slots[i].removing
    requires r.phase == Configuring && r.discovered > 1
    ensures var r1 := Step(r, RemoveEvent(i, true));
            && Inv(r1) && Enabled(r1, AddEvent(i, ALL_WELL)) && !r1.slots[i].named
            && Add(r1, i, ALL_WELL).slots[i] == Slot(true, true, true)
  {
    RemoveInv(r, i, true);
  }

  /**
   A removal from an array that is not online leaves the slot's flag behind. If a base bdev is then
   added to the slot, its removal is ignored.
   */
  lemma {:induction false} IgnoredRemovalRun() returns (events: seq<Event>)
    ensures LegalRun(3, 2, events) && Run(3, 2, events).slots[0] == Slot(true, true, true)
    ensures Enabled(Run(3, 2, events), RemoveEvent(0, true)) && !Owed(Run(3, 2, events))
    ensures Step(Run(3, 2, events), RemoveEvent(0, true)) == Run(3, 2, events)
  {
    var up, down := Slot(true, true, false), Slot(false, false, false);
    assert Run(3, 2, []).slots == [down, down, down];
    RunNext(3, 2, [], AddEvent(0, ALL_WELL));
    var one := [] + [AddEvent(0, ALL_WELL)];
    assert Run(3, 2, one).slots == [up, down, down];
    RunNext(3, 2, one, AddEvent(1, ALL_WELL));
    var two := one + [AddEvent(1, ALL_WELL)];
    assert Run(3, 2, two).slots == [up, up, down];
    RunNext(3, 2, two, RemoveEvent(0, true));
    var three := two + [RemoveEvent(0, true)];
    assert Run(3, 2, three).slots == [Slot(false, false, true), up, down];
    RunNext(3, 2, three, AddEvent(0, ALL_WELL));
    events := three + [AddEvent(0, ALL_WELL)];
  }
}
