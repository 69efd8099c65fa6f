/** What the identity and the configuration read as over whole runs of the node:
    requests, boots, power losses and factory resets. */
module StoreRuns {
  import opened Words
  import opened Options
  import opened PersistentRecord
  import opened Nvm
  import opened FactoryReset
  import opened Bootstrap
  import opened NodeRuns
  import I = NodeIdentityStore
  import C = ConfigurationStore

  /** The event is a restore whose record reached its slot. */
  ghost predicate Commits(n: Node, e: Event, n': Node) {
    e.Handle? && e.request.RestoreConfiguration? && e.request.numbers.Some?
    && C.Committed(n.cells, Requested(e.request.numbers.value), n'.cells)
  }

  /** The configuration store is consistent and holds a valid slot. */
  ghost predicate Recoverable(c: Cells) {
    C.Consistent(c) && C.HasConfiguration(c)
  }

  lemma SameIdentityLoads(c: Cells, c': Cells)
    requires SameAt(c, c', IDENTITY_A) && SameAt(c, c', IDENTITY_B)
    ensures I.LoadFrom(c') == I.LoadFrom(c)
  {
    hide I.ReadIdentity;
    I.ReadUnchanged(c, c', IDENTITY_A);
    I.ReadUnchanged(c, c', IDENTITY_B);
  }

  lemma SameConfigurationLoads(c: Cells, c': Cells)
    requires SameAt(c, c', CONFIGURATION_A) && SameAt(c, c', CONFIGURATION_B)
    ensures C.LoadFrom(c') == C.LoadFrom(c)
    ensures C.Consistent(c') == C.Consistent(c) && C.HasConfiguration(c') == C.HasConfiguration(c)
  {
    hide C.ReadSlot;
    C.ReadElsewhere(c, c', CONFIGURATION_A);
    C.ReadElsewhere(c, c', CONFIGURATION_B);
  }

  // ----- Between resets -----

  /** Without a marker or an authorised confirmation an event changes the memory
      only by provisioning or by a configuration write. */
  lemma StepOnStores(hardwareId: Text, n: Node, e: Event, n': Node)
    requires Step(hardwareId, n, e, n') && RESET_MARKER !in n.cells && !AuthorisedConfirm(n, e)
    ensures RESET_MARKER !in n'.cells
    ensures
      || n'.cells == n.cells
      || (e.Handle? && e.request.ProvisionIdentity? && e.request.nodeId.Some?
          && I.ProvisionReaches(n.cells, e.request.nodeId.value, n'.cells))
      || (e.Handle? && e.request.RestoreConfiguration? && e.request.numbers.Some?
          && C.WriteReaches(n.cells, Requested(e.request.numbers.value), n'.cells))
  {
    hide I.ProvisionReaches, C.WriteReaches, ControlStep, Authorised, Journalled;
    if e.Handle? {
      MarkerNotListed();
      RequestTouches(n, e, n'.cells, RESET_MARKER);
    }
  }

  /** One event between resets: a loaded identity stays, a loadable configuration
      stays loadable and changes only by a committed restore. */
  lemma StepKeepsStores(hardwareId: Text, n: Node, e: Event, n': Node)
    requires Step(hardwareId, n, e, n') && RESET_MARKER !in n.cells && !AuthorisedConfirm(n, e)
    ensures I.LoadFrom(n.cells).Loaded? ==> I.LoadFrom(n'.cells) == I.LoadFrom(n.cells)
    ensures Recoverable(n.cells) ==>
      && Recoverable(n'.cells) && C.LoadFrom(n'.cells).status in {Ok, RecoveredFromPrevious}
      && C.LoadFrom(n'.cells).value ==
           (if Commits(n, e, n') then Some(C.Proposed(n.cells, Requested(e.request.numbers.value)))
            else C.LoadFrom(n.cells).value)
  {
    hide Step, AuthorisedConfirm, I.LoadFrom, C.LoadFrom, C.Consistent, C.HasConfiguration, C.Committed, C.Proposed;
    StepOnStores(hardwareId, n, e, n');
    if Recoverable(n.cells) {
      C.LoadsOtherSlot(n.cells);
    }
    if e.Handle? && e.request.RestoreConfiguration? && e.request.numbers.Some? {
      var input := Requested(e.request.numbers.value);
      assert C.WriteReaches(n.cells, input, n'.cells);
      if Recoverable(n.cells) {
        C.WriteKeepsConfiguration(n.cells, input, n'.cells);
      }
      RestoreTouches(n.cells, input, n'.cells, IDENTITY_A);
      RestoreTouches(n.cells, input, n'.cells, IDENTITY_B);
      SameIdentityLoads(n.cells, n'.cells);
    } else if n'.cells != n.cells {
      var id := e.request.nodeId.value;
      ProvisionTouches(n.cells, id, n'.cells, CONFIGURATION_A);
      ProvisionTouches(n.cells, id, n'.cells, CONFIGURATION_B);
      SameConfigurationLoads(n.cells, n'.cells);
    }
  }

  /** Until a reset is confirmed, through every request, failure, tear, boot and
      power loss: a loaded identity loads unchanged, and the configuration loads as
      the last committed restore, or as at the start when there was none. */
  lemma {:induction false} StoresUntilReset(hardwareId: Text, nodes: seq<Node>, events: seq<Event>, i: nat) returns (last: int)
    requires IsRun(hardwareId, nodes, events) && i <= |events| && RESET_MARKER !in nodes[0].cells
    requires forall j :: 0 <= j < i ==> !AuthorisedConfirm(nodes[j], events[j])
    ensures RESET_MARKER !in nodes[i].cells
    ensures I.LoadFrom(nodes[0].cells).Loaded? ==> I.LoadFrom(nodes[i].cells) == I.LoadFrom(nodes[0].cells)
    ensures -1 <= last < i && forall j :: last < j < i ==> !Commits(nodes[j], events[j], nodes[j + 1])
    ensures last >= 0 ==> Commits(nodes[last], events[last], nodes[last + 1])
    ensures Recoverable(nodes[0].cells) ==>
      && Recoverable(nodes[i].cells) && C.LoadFrom(nodes[i].cells).status in {Ok, RecoveredFromPrevious}
      && C.LoadFrom(nodes[i].cells).value ==
           (if last < 0 then C.LoadFrom(nodes[0].cells).value
            else Some(C.Proposed(nodes[last].cells, Requested(events[last].request.numbers.value))))
    decreases i
  {
    hide Step, AuthorisedConfirm, I.LoadFrom, C.LoadFrom, Recoverable, C.Committed, C.Proposed;
    last := -1;
    if i == 0 {
      RecoverableLoads(nodes[0].cells);
    } else {
      last := StoresUntilReset(hardwareId, nodes, events, i - 1);
      StepOnStores(hardwareId, nodes[i - 1], events[i - 1], nodes[i]);
      StepKeepsStores(hardwareId, nodes[i - 1], events[i - 1], nodes[i]);
      if Commits(nodes[i - 1], events[i - 1], nodes[i]) {
        last := i - 1;
      }
    }
  }

  lemma RecoverableLoads(c: Cells)
    ensures Recoverable(c) ==> C.LoadFrom(c).status in {Ok, RecoveredFromPrevious}
  {
    hide C.LoadFrom, C.Consistent, C.HasConfiguration;
    if Recoverable(c) {
      C.LoadsOtherSlot(c);
    }
  }

  // ----- Across resets -----

  lemma ErasedSlot(c: Cells, key: Key)
    requires key !in c
    ensures C.ReadSlot(c, key) == C.NoSlot(NotFound)
  {
    hide Decode;
  }

  lemma ErasingKeepsConsistent(c: Cells, c': Cells)
    requires C.Consistent(c) && FactoryErasing(c, c')
    ensures C.Consistent(c')
  {
    hide C.ReadSlot;
    if SameAt(c, c', CONFIGURATION_A) {
      C.ReadElsewhere(c, c', CONFIGURATION_A);
    } else {
      ErasedSlot(c', CONFIGURATION_A);
    }
    if SameAt(c, c', CONFIGURATION_B) {
      C.ReadElsewhere(c, c', CONFIGURATION_B);
    } else {
      ErasedSlot(c', CONFIGURATION_B);
    }
  }

  lemma WriteKeepsConsistent(c: Cells, input: C.StoredConfiguration, c': Cells)
    requires C.Consistent(c) && C.WriteReaches(c, input, c')
    ensures C.Consistent(c')
  {
    hide C.ReadSlot, C.Proposed, C.RecordOf, C.InRange, Undecodable;
    if C.Committed(c, input, c') {
      C.CommitBecomesCurrent(c, input, c');
    } else if c' != c {
      var t := C.TargetSlot(C.NextGeneration(c));
      C.ReadTorn(c, t, c');
      C.ReadElsewhere(c, c', if t == CONFIGURATION_A then CONFIGURATION_B else CONFIGURATION_A);
    }
  }

  lemma StepKeepsConsistent(hardwareId: Text, n: Node, e: Event, n': Node)
    requires Step(hardwareId, n, e, n') && C.Consistent(n.cells)
    ensures C.Consistent(n'.cells)
  {
    hide C.Consistent, C.WriteReaches, I.ProvisionReaches, Journalled, ControlStep;
    match e
    case BootUp(_) =>
      if !Stuck(n.cells) {
        var c1 :| RecoverReaches(n.cells, c1) && CompleteReaches(c1, n'.cells);
        if c1 != n.cells {
          JournalledErases(n.cells, c1);
          ErasingKeepsConsistent(n.cells, c1);
        }
        if n'.cells != c1 {
          MarkerRemoved(c1);
          ErasingKeepsConsistent(c1, n'.cells);
        }
      }
    case PowerLoss =>
    case Handle(ProvisionIdentity(Some(id)), _, _) =>
      if n'.cells != n.cells {
        ProvisionTouches(n.cells, id, n'.cells, CONFIGURATION_A);
        ProvisionTouches(n.cells, id, n'.cells, CONFIGURATION_B);
        SameConfigurationLoads(n.cells, n'.cells);
      }
    case Handle(RestoreConfiguration(Some(f)), _, _) =>
      if n'.cells != n.cells {
        WriteKeepsConsistent(n.cells, Requested(f), n'.cells);
      }
    case Handle(_, _, _) =>
      if n'.cells != n.cells {
        JournalledErases(n.cells, n'.cells);
        ErasingKeepsConsistent(n.cells, n'.cells);
      }
  }

  lemma NoConflict(c: Cells)
    requires C.Consistent(c)
    ensures C.LoadFrom(c).status != GenerationConflict
  {
    hide C.ReadSlot;
  }

  /** Whatever happens to a node whose memory started empty, resets and torn writes
      included, its configuration slots never conflict. */
  lemma {:induction false} ConfigurationNeverConflicts(hardwareId: Text, nodes: seq<Node>, events: seq<Event>, i: nat)
    requires IsRun(hardwareId, nodes, events) && i <= |events|
    requires CONFIGURATION_A !in nodes[0].cells && CONFIGURATION_B !in nodes[0].cells
    ensures C.Consistent(nodes[i].cells) && C.LoadFrom(nodes[i].cells).status != GenerationConflict
    decreases i
  {
    hide Step, C.LoadFrom, C.Consistent;
    if i == 0 {
      EmptyConsistent(nodes[0].cells);
    } else {
      ConfigurationNeverConflicts(hardwareId, nodes, events, i - 1);
      StepKeepsConsistent(hardwareId, nodes[i - 1], events[i - 1], nodes[i]);
    }
    NoConflict(nodes[i].cells);
  }

  lemma EmptyConsistent(c: Cells)
    requires CONFIGURATION_A !in c && CONFIGURATION_B !in c
    ensures C.Consistent(c)
  {
    hide C.ReadSlot;
    ErasedSlot(c, CONFIGURATION_A);
    ErasedSlot(c, CONFIGURATION_B);
  }
}
