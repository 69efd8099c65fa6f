/** Where the promises of the factory reset stop: torn markers, which of them a boot
    replays, and what that costs. */
module ResetLimits {
  import opened Words
  import opened Options
  import opened PersistentRecord
  import opened Nvm
  import opened FactoryReset
  import opened Bootstrap
  import opened NodeRuns
  import StoreRuns
  import C = ConfigurationStore
  import I = NodeIdentityStore

  /** Recovery gives up on exactly the markers that are too long to read, or carry
      the record magic with a foreign envelope version. */
  lemma StuckBytes(c: Cells)
    requires RESET_MARKER in c
    ensures var b := c[RESET_MARKER];
      Stuck(c) <==> |b| > MAX_RECORD || (|b| >= HEADER_SIZE && Get32(b[0..4]) == MAGIC && b[5] != ENVELOPE_VERSION)
  {
    hide Get16, Get32;
  }

  /** Such bytes exist, and are what a torn write may leave. */
  lemma StuckTornMarker(c: Cells)
    ensures var bytes := Put32(MAGIC) + seq(20, _ => 0xFF);
      && Undecodable(bytes) && Stuck(c[RESET_MARKER := bytes]) && Torn(c, RESET_MARKER, c[RESET_MARKER := bytes])
  {
    var bytes := Put32(MAGIC) + seq(20, _ => 0xFF);
    Get32Put32(MAGIC);
    assert bytes[0..4] == Put32(MAGIC) && bytes[5] == 0xFF && |bytes| == HEADER_SIZE;
  }

  lemma StuckIsLocal(c: Cells, c': Cells)
    requires SameAt(c, c', RESET_MARKER)
    ensures Stuck(c') == Stuck(c)
  {
    hide ReadMarkerFrom;
    MarkerIsLocal(c, c');
  }

  lemma TornIsStored(c: Cells, torn: Cells)
    requires Torn(c, RESET_MARKER, torn)
    ensures RESET_MARKER in torn && Undecodable(torn[RESET_MARKER])
  {
  }

  lemma CommitKeepsMarker(c: Cells, input: C.StoredConfiguration, c': Cells)
    requires C.Committed(c, input, c')
    ensures SameAt(c, c', RESET_MARKER)
  {
    hide C.LoadFrom, C.RecordOf, C.Proposed, C.Accepted;
  }

  /** A boot without failures over an unreadable marker leaves everything as it is, or
      nothing of the factory list. */
  lemma UnreadableMarkerOutcome(c: Cells)
    requires RESET_MARKER in c && ReadMarkerFrom(c).NoMarker?
    ensures if Stuck(c) then BootOutcome(c) == c
            else AllErased(BootOutcome(c), FACTORY_RESET) && RESET_MARKER !in BootOutcome(c)
  {
    hide ReadMarkerFrom;
  }

  lemma CommitIsReached(c: Cells, s: Controller, f: RestoreFields, now: u32, c': Cells)
    requires !Busy(s) && C.Committed(c, Requested(f), c')
    ensures RequestReaches(c, s, RestoreConfiguration(Some(f)), now, c')
  {
    hide C.Committed, I.ProvisionReaches, Torn;
  }

  /** A marker write torn by a fault leaves the guard open, so a configuration request
      is still carried out. The configuration it commits survives the next boot
      without failures if and only if the torn marker is stuck; otherwise that boot
      erases the whole factory list. */
  lemma TornMarkerDecidesLaterWrite(c: Cells, torn: Cells, s: Controller, f: RestoreFields, now: u32, written: Cells)
    requires Torn(c, RESET_MARKER, torn) && !Busy(s) && C.Consistent(torn)
    requires C.Committed(torn, Requested(f), written)
    ensures RequestReaches(torn, s, RestoreConfiguration(Some(f)), now, written)
    ensures C.LoadFrom(written) == C.LoadResult(Ok, Some(C.Proposed(torn, Requested(f))))
    ensures C.LoadFrom(BootOutcome(written)).value == Some(C.Proposed(torn, Requested(f))) <==> Stuck(torn)
    ensures if Stuck(torn) then BootOutcome(written) == written
            else AllErased(BootOutcome(written), FACTORY_RESET) && RESET_MARKER !in BootOutcome(written)
  {
    hide C.Proposed, C.LoadFrom, C.Consistent, C.Committed, ReadMarkerFrom, AllErased, I.LoadFrom, Stuck, BootOutcome, Torn,
      RequestReaches, Undecodable;
    CommitIsReached(torn, s, f, now, written);
    C.CommitBecomesCurrent(torn, Requested(f), written);
    TornIsStored(c, torn);
    UndecodableReadsAsNone(torn);
    CommitKeepsMarker(torn, Requested(f), written);
    StuckIsLocal(torn, written);
    MarkerIsLocal(torn, written);
    UnreadableMarkerOutcome(written);
    if !Stuck(torn) {
      ErasedStores(BootOutcome(written));
    }
  }

  // ----- The loss, as one run -----

  /** Everything that one such run is made of: the memory at the start, the bytes that
      the torn marker write leaves, the tokens drawn and the configuration sent. */
  datatype Story = Story(start: Cells, bytes: seq<byte>, token: Text, fields: RestoreFields) {
    ghost predicate Admissible() {
      && RESET_MARKER !in start && C.Consistent(start) && C.Accepted(start, Requested(fields))
      && |bytes| < HEADER_SIZE && |token| == TOKEN_LENGTH
    }

    ghost function Torn(): Cells {
      start[RESET_MARKER := bytes]
    }

    ghost function Written(): Cells {
      Torn()[C.TargetSlot(C.NextGeneration(Torn())) := C.RecordOf(C.Proposed(Torn(), Requested(fields)))]
    }

    function Preparing(hardwareId: Text): Event {
      Handle(PrepareReset(Some(2), true, Some(hardwareId)), 0, Some(Tokens(token, token)))
    }

    function Confirming(hardwareId: Text): Event {
      Handle(ConfirmReset(Some(2), true, Some(ConfirmFields(hardwareId, token, token))), 0, None)
    }

    function Restoring(): Event {
      Handle(RestoreConfiguration(Some(fields)), 0, None)
    }

    /** The controller once prepared, and once its challenge is spent. */
    function Prepared(hardwareId: Text, pending: bool): Controller {
      FRESH.(challenge := ResetChallenge(pending, ApplicationFactory, token, token, hardwareId, RESET_TTL))
    }
  }

  lemma ShortMarkerIsTorn(s: Story)
    requires s.Admissible()
    ensures Torn(s.start, RESET_MARKER, s.Torn()) && !Stuck(s.Torn())
  {
    hide C.Consistent, C.Accepted;
  }

  lemma RestoreCommits(s: Story)
    requires s.Admissible()
    ensures C.Consistent(s.Torn()) && C.Committed(s.Torn(), Requested(s.fields), s.Written())
    ensures C.LoadFrom(s.Written()) == C.LoadResult(Ok, Some(C.Proposed(s.Torn(), Requested(s.fields))))
    ensures SameAt(s.Torn(), s.Written(), RESET_MARKER)
  {
    hide C.RecordOf, C.Proposed, C.LoadFrom, C.Consistent, C.InRange;
    StoreRuns.SameConfigurationLoads(s.start, s.Torn());
    C.CommitBecomesCurrent(s.Torn(), Requested(s.fields), s.Written());
  }

  lemma FirstBoot(hardwareId: Text, c: Cells)
    requires RESET_MARKER !in c
    ensures Step(hardwareId, Off(c), BootUp(Ok), On(c, FRESH))
  {
    hide Decode;
    assert RecoverReaches(c, c) && CompleteReaches(c, c);
  }

  lemma PrepareStep(hardwareId: Text, s: Story)
    requires |s.token| == TOKEN_LENGTH
    ensures Step(hardwareId, On(s.start, FRESH), s.Preparing(hardwareId), On(s.start, s.Prepared(hardwareId, true)))
  {
  }

  lemma TornConfirmStep(hardwareId: Text, s: Story)
    requires s.Admissible()
    ensures Step(hardwareId, On(s.start, s.Prepared(hardwareId, true)), s.Confirming(hardwareId),
                 On(s.Torn(), s.Prepared(hardwareId, false)))
    ensures AuthorisedConfirm(On(s.start, s.Prepared(hardwareId, true)), s.Confirming(hardwareId))
  {
    hide Undecodable, ReadMarkerFrom, C.Consistent, C.Accepted, Stuck;
    ShortMarkerIsTorn(s);
    UndecodableReadsAsNone(s.Torn());
    assert ConfirmReaches(s.start, s.Torn());
  }

  lemma RestoreStep(hardwareId: Text, s: Story)
    requires s.Admissible()
    ensures Step(hardwareId, On(s.Torn(), s.Prepared(hardwareId, false)), s.Restoring(),
                 On(s.Written(), s.Prepared(hardwareId, false)))
  {
    hide C.Committed, C.LoadFrom, C.Proposed, C.Consistent, C.RecordOf, C.Accepted, Torn, I.ProvisionReaches, Decode, Stuck;
    RestoreCommits(s);
  }

  /** Recovery may erase the whole list under a marker that it does not give up on. */
  lemma BootErases(c: Cells)
    requires RESET_MARKER in c && !Stuck(c)
    ensures BootReaches(c, Erased(c) - {RESET_MARKER})
  {
    hide Undecodable, ReadMarkerFrom;
    MarkerNotListed();
    var c1 := Erased(c);
    assert SameAt(c, c1, RESET_MARKER);
    assert Journalled(c, c1);
    assert RecoverReaches(c, c1) && CompleteReaches(c1, c1 - {RESET_MARKER});
  }

  lemma LastBoot(hardwareId: Text, c: Cells)
    requires RESET_MARKER in c && !Stuck(c)
    ensures Step(hardwareId, Off(c), BootUp(Ok), On(Erased(c) - {RESET_MARKER}, FRESH))
  {
    hide Stuck, BootReaches;
    BootErases(c);
  }

  lemma PowerStep(hardwareId: Text, c: Cells, s: Controller)
    ensures Step(hardwareId, On(c, s), PowerLoss, Off(c))
  {
  }

  /** The run: boot, prepare, a confirmation whose marker write is torn and reported as
      failed, a restore that is committed and reported as a success, power loss, boot.
      The configuration is gone, and so is everything else on the factory list. */
  lemma CommittedRestoreIsLost(hardwareId: Text, s: Story) returns (nodes: seq<Node>, events: seq<Event>)
    requires s.Admissible()
    ensures IsRun(hardwareId, nodes, events) && nodes[0] == Off(s.start)
    ensures events == [BootUp(Ok), s.Preparing(hardwareId), s.Confirming(hardwareId), s.Restoring(), PowerLoss, BootUp(Ok)]
    ensures AuthorisedConfirm(nodes[2], events[2])
    ensures nodes[3].On? && !Busy(nodes[3].control) && Torn(nodes[2].cells, RESET_MARKER, nodes[3].cells)
    ensures nodes[4].On? && C.Committed(nodes[3].cells, Requested(s.fields), nodes[4].cells)
    ensures C.LoadFrom(nodes[4].cells) == C.LoadResult(Ok, Some(C.Proposed(nodes[3].cells, Requested(s.fields))))
    ensures nodes[6].On? && AllErased(nodes[6].cells, FACTORY_RESET) && C.LoadFrom(nodes[6].cells).status == NotFound
  {
    hide Step, AuthorisedConfirm, Torn, Stuck, Decode, I.LoadFrom, C.Consistent, C.Accepted, C.Committed, C.RecordOf,
      C.LoadFrom, C.Proposed;
    var spent := s.Prepared(hardwareId, false);
    var end := Erased(s.Written()) - {RESET_MARKER};
    events := [BootUp(Ok), s.Preparing(hardwareId), s.Confirming(hardwareId), s.Restoring(), PowerLoss, BootUp(Ok)];
    nodes := [Off(s.start), On(s.start, FRESH), On(s.start, s.Prepared(hardwareId, true)), On(s.Torn(), spent),
              On(s.Written(), spent), Off(s.Written()), On(end, FRESH)];
    ShortMarkerIsTorn(s);
    RestoreCommits(s);
    FirstBoot(hardwareId, s.start);
    PrepareStep(hardwareId, s);
    TornConfirmStep(hardwareId, s);
    RestoreStep(hardwareId, s);
    PowerStep(hardwareId, s.Written(), spent);
    StuckIsLocal(s.Torn(), s.Written());
    LastBoot(hardwareId, s.Written());
    ErasedStores(end);
  }

  /** Such a run starts from the empty memory, with any token and any configuration in range. */
  lemma EmptyNodeAdmits(token: Text, fields: RestoreFields)
    requires |token| == TOKEN_LENGTH && C.InRange(Requested(fields))
    ensures Story(map[], [], token, fields).Admissible()
  {
    hide Decode;
    StoreRuns.EmptyConsistent(map[]);
  }
}
