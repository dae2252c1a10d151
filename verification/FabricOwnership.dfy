/** Every transition of the fabric keeps the ownership invariant. */
module FabricOwnership {
  import opened Wrappers
  import opened Fabric

  /** The slot is as before, or job `i` took it while free or gave it back; `i` says so itself. */
  ghost predicate SlotMoved(c: Config, s: State, r: State, i: nat, slot: Slot)
    requires i < |r.jobs| && JobOk(c, r.jobs[i])
  {
    && (Holder(r, slot) == Some(i) <==> Claims(c, r.jobs[i], slot))
    && (|| Holder(s, slot) == Holder(r, slot)
        || ((Holder(s, slot).None? || Holder(s, slot) == Some(i)) && (Holder(r, slot).None? || Holder(r, slot) == Some(i))))
  }

  /** If only job `i` moved, ownership has to be rechecked for job `i` alone. */
  lemma OneJobMoved(c: Config, s: State, r: State, i: nat)
    requires Owned(c, s) && Shape(c, r)
    requires i < |s.jobs| == |r.jobs| && forall n :: 0 <= n < |s.jobs| && n != i ==> r.jobs[n] == s.jobs[n]
    requires forall slot :: SlotMoved(c, s, r, i, slot)
    ensures Owned(c, r)
  {
    forall slot | Holder(r, slot).Some?
      ensures Holder(r, slot).value < |r.jobs| && Claims(c, r.jobs[Holder(r, slot).value], slot)
    {
      assert SlotMoved(c, s, r, i, slot);
    }
    forall n, slot | 0 <= n < |r.jobs| && Claims(c, r.jobs[n], slot) ensures Holder(r, slot) == Some(n) {
      assert SlotMoved(c, s, r, i, slot);
      assert n != i ==> Claims(c, s.jobs[n], slot);
    }
  }

  lemma SlotsOf(c: Config, s: State, i: nat, slot: Slot)
    requires Owned(c, s) && i < |s.jobs|
    ensures Holder(s, slot) == Some(i) <==> Claims(c, s.jobs[i], slot)
  {
  }

  lemma FillKeepsOwned(c: Config, s: State, k: nat, i: nat, bank: nat)
    requires Owned(c, s) && CanFill(s, k, i, bank)
    ensures Owned(c, StartFill(c, s, k, i, bank))
  {
    var r := StartFill(c, s, k, i, bank);
    assert JobOk(c, s.jobs[i]) && JobOk(c, r.jobs[i]);
    forall slot ensures SlotMoved(c, s, r, i, slot) {
      SlotsOf(c, s, i, slot);
    }
    OneJobMoved(c, s, r, i);
  }

  lemma DirectKeepsOwned(c: Config, s: State, i: nat)
    requires Owned(c, s) && CanDirect(s, i)
    ensures Owned(c, StartDirect(c, s, i))
  {
    var r := StartDirect(c, s, i);
    assert JobOk(c, s.jobs[i]) && JobOk(c, r.jobs[i]);
    forall slot ensures SlotMoved(c, s, r, i, slot) {
      SlotsOf(c, s, i, slot);
    }
    OneJobMoved(c, s, r, i);
  }

  lemma RelayKeepsOwned(c: Config, s: State, i: nat, bank: nat)
    requires Owned(c, s) && CanRelay(c, s, i, bank)
    ensures Owned(c, StartRelay(c, s, i, bank))
  {
    var r := StartRelay(c, s, i, bank);
    assert JobOk(c, s.jobs[i]) && JobOk(c, r.jobs[i]);
    forall slot ensures SlotMoved(c, s, r, i, slot) {
      SlotsOf(c, s, i, slot);
    }
    OneJobMoved(c, s, r, i);
  }

  lemma GpuKeepsOwned(c: Config, s: State, k: nat, i: nat)
    requires Owned(c, s) && CanGpu(c, s, k, i)
    ensures Owned(c, StartGpu(c, s, k, i))
  {
    var r := StartGpu(c, s, k, i);
    assert JobOk(c, s.jobs[i]) && JobOk(c, r.jobs[i]);
    forall slot ensures SlotMoved(c, s, r, i, slot) {
      SlotsOf(c, s, i, slot);
    }
    OneJobMoved(c, s, r, i);
  }

  lemma EndFillKeepsOwned(c: Config, s: State, i: nat)
    requires Owned(c, s) && IsEndingStage(s, i, HbfFill)
    ensures Owned(c, EndFill(c, s, i))
  {
    var r := EndFill(c, s, i);
    assert JobOk(c, s.jobs[i]) && JobOk(c, r.jobs[i]);
    forall slot ensures SlotMoved(c, s, r, i, slot) {
      SlotsOf(c, s, i, slot);
    }
    OneJobMoved(c, s, r, i);
  }

  lemma EndDirectKeepsOwned(c: Config, s: State, i: nat)
    requires Owned(c, s) && IsEndingStage(s, i, HbfDirect)
    ensures Owned(c, EndDirect(c, s, i))
  {
    var r := EndDirect(c, s, i);
    assert JobOk(c, s.jobs[i]) && JobOk(c, r.jobs[i]);
    forall slot ensures SlotMoved(c, s, r, i, slot) {
      SlotsOf(c, s, i, slot);
    }
    OneJobMoved(c, s, r, i);
  }

  lemma EndRelayKeepsOwned(c: Config, s: State, i: nat)
    requires Owned(c, s) && IsEndingStage(s, i, HbfRelay)
    ensures Owned(c, EndRelay(c, s, i))
  {
    var r := EndRelay(c, s, i);
    assert JobOk(c, s.jobs[i]) && JobOk(c, r.jobs[i]);
    forall slot ensures SlotMoved(c, s, r, i, slot) {
      SlotsOf(c, s, i, slot);
    }
    OneJobMoved(c, s, r, i);
  }

  lemma EndGpuKeepsOwned(c: Config, s: State, i: nat)
    requires Owned(c, s) && IsEndingStage(s, i, HbmGpu)
    ensures Owned(c, EndGpu(c, s, i))
  {
    var r := EndGpu(c, s, i);
    assert JobOk(c, s.jobs[i]) && JobOk(c, r.jobs[i]);
    forall slot ensures SlotMoved(c, s, r, i, slot) {
      SlotsOf(c, s, i, slot);
    }
    OneJobMoved(c, s, r, i);
  }

  lemma CompleteKeepsOwned(c: Config, s: State, i: nat)
    requires Owned(c, s) && IsEnding(s, i)
    ensures Owned(c, CompleteStage(c, s, i))
  {
    match s.jobs[i].state.stage
    case HbfFill => EndFillKeepsOwned(c, s, i);
    case HbfDirect => EndDirectKeepsOwned(c, s, i);
    case HbfRelay => EndRelayKeepsOwned(c, s, i);
    case HbmGpu => EndGpuKeepsOwned(c, s, i);
  }

  lemma WakeKeepsOwned(c: Config, s: State, i: nat)
    requires Owned(c, s) && IsWaking(s, i)
    ensures Owned(c, WakeReserved(s, i))
  {
    var r := WakeReserved(s, i);
    assert JobOk(c, s.jobs[i]) && JobOk(c, r.jobs[i]);
    forall slot ensures SlotMoved(c, s, r, i, slot) {
      SlotsOf(c, s, i, slot);
    }
    OneJobMoved(c, s, r, i);
  }

  lemma ArriveKeepsOwned(c: Config, s: State, i: nat)
    requires Owned(c, s) && IsArriving(s, i)
    ensures Owned(c, ArriveMedia(s, i))
  {
    var r := ArriveMedia(s, i);
    assert JobOk(c, s.jobs[i]) && JobOk(c, r.jobs[i]);
    forall slot ensures SlotMoved(c, s, r, i, slot) {
      SlotsOf(c, s, i, slot);
    }
    OneJobMoved(c, s, r, i);
  }
}
