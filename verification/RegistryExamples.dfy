/** Two short runs of the registry (cmd/cpa-session-collector/snapshot.go): an entry swept
although it was just used, and one read transaction more than the capacity. */
module RegistryExamples {
  import opened Types
  import opened SnapshotRegistry
  import opened RegistryHistory

  /** A registry for one snapshot, leased for 100 with an idle TTL of 10. */
  function Small(now: int, snapshots: map<Id, Handle>, entries: Entries, exports: map<nat, Handle>,
                 closing: map<Handle, nat>): Registry {
    Registry(100, 10, 1, now, snapshots, entries, {}, exports, closing, {})
  }

  function Lease(id: Id, createdAt: int, lastUsedAt: int, exports: int): Entry {
    Entry(id, "", "", 1, createdAt, lastUsedAt, createdAt + 100, map[], exports)
  }

  const Empty := Small(0, map[], map[], map[], map[])
  const Created := Small(0, map["a" := 0], map[0 := Lease("a", 0, 0, 0)], map[], map[])
  const Exporting := Small(0, map["a" := 0], map[0 := Lease("a", 0, 0, 1)], map[7 := 0], map[])

  ghost predicate Leads(r: Registry, step: Step, next: Registry) {
    CanStep(r) && Enabled(r, step) && next == Next(r, step)
  }

  lemma Creates()
    ensures Leads(Empty, Create(0, "a", "", "", 1, Opened), Created)
  {
    assert Doomed(Empty) == {};
    assert Cleaned(Empty) == Empty;
  }

  lemma NotDoomed(r: Registry)
    requires Linked(r) && forall id | id in r.snapshots :: !Lapsed(r, r.entries[r.snapshots[id]])
                                                         || r.entries[r.snapshots[id]].activeExports > 0
    ensures Cleaned(r) == r
  {
    assert Doomed(r) == {};
    assert r.snapshots - {} == r.snapshots;
  }

  lemma Begins()
    ensures Leads(Created, ExportBegin(7, "a"), Exporting)
  {
    NotDoomed(Created);
  }

  // ----- Swept just after a use -----

  const Waiting := Small(8, map["a" := 0], map[0 := Lease("a", 0, 0, 1)], map[7 := 0], map[])
  const Used := Small(8, map["a" := 0], map[0 := Lease("a", 0, 8, 1)], map[7 := 0], map[])
  const Ended := Small(8, map["a" := 0], map[0 := Lease("a", 0, 1, 0)], map[], map[])
  const Later := Small(12, map["a" := 0], map[0 := Lease("a", 0, 1, 0)], map[], map[])

  lemma Uses()
    ensures Leads(Waiting, Get("a", "", "", 1), Used) && Recorded(Waiting, Get("a", "", "", 1), 0) == Some(8)
  {
    NotDoomed(Waiting);
  }

  lemma Ends()
    ensures Leads(Used, ExportEnd(7, 1), Ended)
  {
    assert map[7 := 0] - {7} == map[];
  }

  const EarlyRun := [Empty, Created, Exporting, Waiting, Used, Ended, Later]
  const EarlySteps := [
    Create(0, "a", "", "", 1, Opened), ExportBegin(7, "a"), Tick(8), Get("a", "", "", 1), ExportEnd(7, 1), Tick(12)]



  lemma EarlyStep0()
    ensures StepAt(EarlyRun, EarlySteps, 0)
  {
    Creates();
  }

  lemma EarlyStep1()
    ensures StepAt(EarlyRun, EarlySteps, 1)
  {
    Begins();
  }

  lemma EarlyStep2()
    ensures StepAt(EarlyRun, EarlySteps, 2)
  {
  }

  lemma EarlyStep3()
    ensures StepAt(EarlyRun, EarlySteps, 3)
  {
    Uses();
  }

  lemma EarlyStep4()
    ensures StepAt(EarlyRun, EarlySteps, 4)
  {
    Ends();
  }

  lemma EarlyStep5()
    ensures StepAt(EarlyRun, EarlySteps, 5)
  {
  }

  lemma EarlyIsRun()
    ensures IsRun(EarlyRun, EarlySteps)
  {
    forall i | 0 <= i < |EarlySteps| ensures StepAt(EarlyRun, EarlySteps, i) {
      match i
      case 0 => EarlyStep0();
      case 1 => EarlyStep1();
      case 2 => EarlyStep2();
      case 3 => EarlyStep3();
      case 4 => EarlyStep4();
      case _ => EarlyStep5();
    }
  }

  /** An export finished at 1 but got the lock only after a use at 8: at 12 the entry is swept,
      although its idle TTL is 10 and its lease runs to 100. */
  lemma SweptAfterUse()
    ensures IsRun(EarlyRun, EarlySteps)
    ensures Recorded(EarlyRun[3], EarlySteps[3], 0) == Some(8)
    ensures EarlyRun[6].now == 12 && EarlyRun[6].idleTtl == 10 && EarlyRun[6].entries[0].expiresAt == 100
    ensures Linked(EarlyRun[6]) && Flying(EarlyRun[6].exports, 0) == {} && "a" !in Cleaned(EarlyRun[6]).snapshots
  {
    EarlyIsRun();
    Uses();
    assert "a" in Doomed(Later);
  }

  // ----- One transaction more than the capacity -----

  const Expired := Small(100, map["a" := 0], map[0 := Lease("a", 0, 0, 1)], map[7 := 0], map[])
  const HandedOver := Small(100, map[], map[0 := Lease("a", 0, 100, 0)], map[], map[0 := 7])
  const Again :=
    Small(100, map["b" := 1], map[0 := Lease("a", 0, 100, 0), 1 := Lease("b", 100, 100, 0)], map[], map[0 := 7])

  lemma HandsOver()
    ensures Leads(Expired, ExportEnd(7, 100), HandedOver)
  {
    assert map[7 := 0] - {7} == map[];
    assert map["a" := 0] - {"a"} == map[];
  }

  lemma CreatesAgain()
    ensures Leads(HandedOver, Create(1, "b", "", "", 1, Opened), Again)
  {
    NotDoomed(HandedOver);
  }

  const FullRun := [Empty, Created, Exporting, Expired, HandedOver, Again]
  const FullSteps := [
    Create(0, "a", "", "", 1, Opened), ExportBegin(7, "a"), Tick(100), ExportEnd(7, 100),
    Create(1, "b", "", "", 1, Opened)]

  lemma FullStep0()
    ensures StepAt(FullRun, FullSteps, 0)
  {
    Creates();
  }

  lemma FullStep1()
    ensures StepAt(FullRun, FullSteps, 1)
  {
    Begins();
  }

  lemma FullStep2()
    ensures StepAt(FullRun, FullSteps, 2)
  {
  }

  lemma FullStep3()
    ensures StepAt(FullRun, FullSteps, 3)
  {
    HandsOver();
  }

  lemma FullStep4()
    ensures StepAt(FullRun, FullSteps, 4)
  {
    CreatesAgain();
  }

  lemma FullIsRun()
    ensures IsRun(FullRun, FullSteps)
  {
    forall i | 0 <= i < |FullSteps| ensures StepAt(FullRun, FullSteps, i) {
      match i
      case 0 => FullStep0();
      case 1 => FullStep1();
      case 2 => FullStep2();
      case 3 => FullStep3();
      case _ => FullStep4();
    }
  }

  /** The last export of an expired entry hands it over for closing, the next create finds room,
      and two read transactions are open in a registry for one. */
  lemma LateCloseExceedsCapacity()
    ensures IsRun(FullRun, FullSteps)
    ensures FullRun[5].maxActive == 1 && |FullRun[5].entries.Keys - FullRun[5].closed| == 2
  {
    FullIsRun();
    assert Again.entries.Keys - Again.closed == {0, 1};
  }
}
