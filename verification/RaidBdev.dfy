/**
 struct raid_bdev as an object: the functions of raid/bdev_raid.c that open, close and count base
 bdevs, tied to module Lifecycle. The source's assertions are proved where they stand.
 */
module RaidBdev {
  import opened Lifecycle

  class Array {
    const slots: array<Slot>
    const minimum: nat
    var phase: Phase
    var discovered: nat
    var destroyStarted: bool

    // What the bdev layer still owes, and whether the array has been freed.
    ghost var quiescing: set<nat>
    ghost var unregistering: bool
    ghost var stopping: bool
    ghost var freed: bool

    ghost function Model(): Raid
      reads this, slots
    {
      Raid(phase, slots[..], discovered, minimum, destroyStarted, quiescing, unregistering, stopping, freed)
    }

    /** raid_bdev_create, once the parameters are accepted */
    constructor (n: nat, minimum: nat)
      requires 1 <= minimum <= n
      ensures Model() == Create(n, minimum) && fresh(slots)
    {
      slots := new Slot[n](_ => Slot(false, false, false));
      this.minimum := minimum;
      phase, discovered, destroyStarted := Configuring, 0, false;
      quiescing, unregistering, stopping, freed := {}, false, false, false;
      new;
      assert slots[..] == Create(n, minimum).slots;
    }

    /** raid_bdev_free_base_bdev_resource */
    method FreeBaseBdevResource(i: nat)
      requires i < slots.Length && discovered == OpenCount(slots[..])
      modifies this`discovered, slots
      ensures Model() == FreeSlot(old(Model()), i)
    {
      ghost var was := slots[..];
      slots[i] := slots[i].(named := false);
      assert slots[..] == was[i := was[i].(named := false)];
      if !slots[i].open {
        return;
      }
      slots[i] := slots[i].(open := false);
      SomeOpen(was, i);
      assert discovered > 0;
      discovered := discovered - 1;
      assert slots[..] == was[i := Slot(false, false, was[i].removing)];
    }

    /** raid_bdev_cleanup_and_free; `asserted` tells whether its assertions hold: not online, no descriptor open. */
    ghost method CleanupAndFree() returns (asserted: bool)
      modifies this`freed
      ensures Model() == old(Model()).(freed := true)
      ensures asserted <==> phase != Online && forall i :: 0 <= i < slots.Length ==> !slots[i].open
    {
      freed := true;
      asserted := phase != Online && forall i :: 0 <= i < slots.Length ==> !slots[i].open;
    }

    /** An array without discovered base bdevs has none open. */
    lemma NoneDiscovered()
      requires discovered == OpenCount(slots[..]) == 0
      ensures forall i :: 0 <= i < slots.Length ==> !slots[i].open
    {
      forall i | 0 <= i < slots.Length ensures !slots[i].open {
        if slots[i].open {
          SomeOpen(slots[..], i);
        }
      }
    }

    /**
     raid_bdev_configure, when every base bdev is there; `asserted` tells whether the assertion on the
     state holds.
     */
    method Configure(a: Answers) returns (ghost asserted: bool)
      requires discovered == slots.Length && forall i :: 0 <= i < slots.Length ==> slots[i].open
      modifies this`phase
      ensures Model() == Lifecycle.Configure(old(Model()), a)
      ensures asserted <==> old(phase) == Configuring
    {
      asserted := phase == Configuring;
      if !a.starts {
        return;
      }
      phase := Online;
      if !a.registers {
        phase := Configuring;
      }
    }

    /** raid_bdev_configure_base_bdev; `asserted` tells whether the assertions on the state hold. */
    method ConfigureBaseBdev(i: nat, a: Answers) returns (ghost asserted: bool)
      requires discovered == OpenCount(slots[..]) && i < slots.Length && slots[i].named && !slots[i].open
      modifies this`phase, this`discovered, slots
      ensures Model() == ConfigureBase(old(Model()), i, a)
      ensures asserted <==> ConfigureBaseAsserts(old(Model()), a)
    {
      asserted := true;
      if !a.opens || !a.claims {
        return;
      }
      asserted := phase != Online;
      ghost var was := slots[..];
      slots[i] := slots[i].(open := true);
      discovered := discovered + 1;
      assert slots[..] == was[i := was[i].(open := true)];
      OpenCountUpdate(was, i, was[i].(open := true));
      assert discovered <= slots.Length;
      if !a.dataFits {
        return;
      }
      if discovered == slots.Length {
        forall k | 0 <= k < slots.Length ensures slots[k].open { AllOpen(slots[..], k); }
        ghost var inState := Configure(a);
        asserted := asserted && inState;
      }
    }

    /** raid_bdev_add_base_device, in any state of the array. */
    method AddBaseDevice(i: nat, a: Answers) returns (accepted: bool, ghost asserted: bool)
      requires Inv(Model()) && !freed
      modifies this`phase, this`discovered, slots
      ensures Model() == Add(old(Model()), i, a)
      ensures accepted <==> i < slots.Length && !old(slots[..])[i].named
      ensures asserted <==> AddAsserts(old(Model()), i, a)
      ensures old(phase) == Configuring ==> asserted && Inv(Model())
    {
      if phase == Configuring {
        AddInv(Model(), i, a);
      }
      if i >= slots.Length {
        return false, true;
      }
      if slots[i].named {
        return false, true;
      }
      ghost var was := slots[..];
      slots[i] := slots[i].(named := true);
      assert slots[..] == was[i := was[i].(named := true)];
      OpenCountUpdate(was, i, was[i].(named := true));
      asserted := ConfigureBaseBdev(i, a);
      accepted := true;
    }

    /** raid_bdev_examine for a base bdev with the name of slot `i`: no assertion on the state can fail. */
    method ExamineBdev(i: nat, a: Answers)
      requires Inv(Model()) && !freed && i < slots.Length
      modifies this`phase, this`discovered, slots
      ensures Model() == Examine(old(Model()), i, a) && Inv(Model())
    {
      ExamineInv(Model(), i, a);
      if slots[i].named && !slots[i].open {
        ghost var asserted := ConfigureBaseBdev(i, a);
        assert asserted;
      }
    }

    /** raid_bdev_deconfigure */
    method Deconfigure()
      requires phase == Online ==> discovered > 0
      modifies this`phase, this`unregistering
      ensures Model() == Lifecycle.Deconfigure(old(Model()))
    {
      if phase != Online {
        return;
      }
      phase := Offline;
      assert discovered > 0;
      unregistering := true;
    }

    method SetRemoving(i: nat, removing: bool)
      requires i < slots.Length
      modifies slots
      ensures Model() == Mark(old(Model()), i, removing)
    {
      ghost var was := slots[..];
      slots[i] := slots[i].(removing := removing);
      assert slots[..] == was[i := was[i].(removing := removing)];
    }

    /** raid_bdev_remove_base_bdev for the base bdev open in slot `i`. */
    method RemoveBaseBdev(i: nat, quiesces: bool)
      requires Inv(Model()) && !freed && i < slots.Length && slots[i].open
      modifies this, slots
      ensures Model() == Remove(old(Model()), i, quiesces) && Inv(Model())
    {
      RemoveInv(Model(), i, quiesces);
      if slots[i].removing {
        return;
      }
      MarkCounts(Model(), i, true);
      SetRemoving(i, true);
      if phase != Online {
        FreeBaseBdevResource(i);
        if discovered == 0 {
          NoneDiscovered();
          ghost var asserted := CleanupAndFree();
          assert asserted;
        }
      } else if discovered == minimum {
        Deconfigure();
      } else {
        if quiesces {
          quiescing := quiescing + {i};
        } else {
          SetRemoving(i, false);
        }
      }
    }

    /** raid_bdev_remove_base_bdev_on_quiesced when it fails, or raid_bdev_remove_base_bdev_on_unquiesced. */
    method RemovalEnds(i: nat, ok: bool)
      requires Inv(Model()) && !freed && i in quiescing
      modifies this`discovered, this`quiescing, slots
      ensures Model() == RemovalDone(old(Model()), i, ok) && Inv(Model())
    {
      RemovalDoneInv(Model(), i, ok);
      MarkCounts(Model(), i, false);
      quiescing := quiescing - {i};
      SetRemoving(i, false);
      if !ok {
        return;
      }
      FreeBaseBdevResource(i);
    }

    /** The loop of raid_bdev_delete. */
    method DeleteLoop()
      requires discovered == OpenCount(slots[..])
      modifies this`discovered, slots
      ensures Model() == DeleteSlots(old(Model()), slots.Length)
    {
      ghost var r0 := Model();
      for i := 0 to slots.Length
        invariant discovered == OpenCount(slots[..]) && Model() == DeleteSlots(r0, i)
      {
        DeleteSlot(i);
        assert DeleteSlots(r0, i + 1) == DeleteOne(DeleteSlots(r0, i), i);
      }
    }

    /** One round of that loop. */
    method DeleteSlot(i: nat)
      requires i < slots.Length && discovered == OpenCount(slots[..])
      modifies this`discovered, slots
      ensures Model() == DeleteOne(old(Model()), i)
    {
      MarkCounts(Model(), i, true);
      SetRemoving(i, true);
      if phase != Online {
        FreeBaseBdevResource(i);
      }
    }

    /**
     raid_bdev_delete; false when it has been started before. `asserted` tells whether the assertion on
     the state holds, which only deleting an online array without base bdevs breaks.
     */
    method Delete() returns (started: bool, ghost asserted: bool)
      requires Inv(Model()) && !freed
      modifies this, slots
      ensures Model() == Lifecycle.Delete(old(Model())) && Inv(Model())
      ensures started == !old(destroyStarted)
      ensures asserted <==> DeleteAsserts(old(Model()))
    {
      DeleteInv(Model());
      if destroyStarted {
        return false, true;
      }
      destroyStarted := true;
      ghost var r0 := Model();
      if phase == Online {
        OnlineDeleteKeeps(r0, slots.Length);
      }
      DeleteLoop();
      started, asserted := true, true;
      if discovered == 0 {
        NoneDiscovered();
        asserted := CleanupAndFree();
      } else {
        Deconfigure();
      }
    }

    /** The loop of _raid_bdev_destruct. */
    method DestructLoop(shutdown: bool)
      requires discovered == OpenCount(slots[..])
      modifies this`discovered, slots
      ensures Model() == DestructSlots(old(Model()), slots.Length, shutdown)
    {
      for i := 0 to slots.Length
        invariant Model() == DestructSlots(old(Model()), i, shutdown)
        invariant discovered == OpenCount(slots[..])
      {
        if shutdown || slots[i].removing {
          FreeBaseBdevResource(i);
        }
      }
    }

    /** _raid_bdev_destruct, up to the level's stop, which will call back. */
    method Destruct(shutdown: bool)
      requires Inv(Model()) && !freed && (unregistering || (shutdown && phase == Online))
      modifies this, slots
      ensures Model() == Lifecycle.Destruct(old(Model()), shutdown) && Inv(Model())
    {
      DestructInv(Model(), shutdown);
      DestructLoop(shutdown);
      if shutdown {
        phase := Offline;
      }
      unregistering, stopping := false, true;
    }

    /** raid_bdev_io_device_unregister_cb */
    method IoDeviceUnregistered()
      requires Inv(Model()) && !freed && stopping
      modifies this`stopping, this`freed
      ensures Model() == Unregistered(old(Model())) && Inv(Model())
    {
      stopping := false;
      if discovered == 0 {
        NoneDiscovered();
        ghost var asserted := CleanupAndFree();
        assert asserted;
      }
    }
  }
}
