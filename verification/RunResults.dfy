/** What a run of the matrix leaves in the dict of findings and in the files of a process. */
module RunResults {
  import opened Options
  import opened Findings
  import opened StoredFiles
  import opened ProcessRecord
  import opened Workspace
  import Documents

  /** The finding is kept under its evidence group, or under its own id without one. */
  predicate Under(f: Finding, key: string) {
    match f.group
    case Some(g) => if g == "" then key == f.id else key == g
    case None => key == f.id
  }

  predicate Reported(fs: seq<Finding>, key: string) {
    exists i :: 0 <= i < |fs| && Under(fs[i], key)
  }

  /** The i-th reported finding is the last of its key. */
  predicate LastUnder(fs: seq<Finding>, key: string, i: nat) {
    i < |fs| && Under(fs[i], key) && forall j | i < j < |fs| :: !Under(fs[j], key)
  }

  /** A human decision on the same difference, found again as a candidate. */
  predicate SameDifference(previous: Finding, found: Finding) {
    && (previous.status == ConfirmedViolation || previous.status == NegativeVerified) && previous.decision.Some?
    && found.status == Candidate
    && (previous.group, previous.rule) == (found.group, found.rule)
    && (previous.expected, previous.actual) == (found.expected, found.actual)
  }

  /** The decision of this key is found again every time the run reports the key. */
  predicate FoundAgain(b: Book, fs: seq<Finding>, key: string) {
    key in b.at && forall i | 0 <= i < |fs| && Under(fs[i], key) :: SameDifference(b.at[key], fs[i])
  }

  lemma UnderIsKey(f: Finding, key: string)
    ensures Under(f, key) <==> KeyOf(f) == key
  {
  }

  lemma SameDifferenceCarries(previous: Finding, found: Finding)
    ensures SameDifference(previous, found) <==> Carries(previous, found)
  {
  }

  lemma ReportedIsKeyed(fs: seq<Finding>, key: string)
    ensures Reported(fs, key) <==> Keyed(fs, key)
  {
    hide Under; hide KeyOf;
    forall f ensures Under(f, key) <==> KeyOf(f) == key {
      UnderIsKey(f, key);
    }
    if Keyed(fs, key) {
      var f :| f in fs && KeyOf(f) == key;
      var i :| 0 <= i < |fs| && fs[i] == f;
    }
  }

  lemma {:induction false} LastUnderIs(fs: seq<Finding>, key: string, i: nat)
    requires LastUnder(fs, key, i)
    ensures Keyed(fs, key) && LastPut(fs, key) == fs[i]
  {
    ReportedIsKeyed(fs, key);
    UnderIsKey(fs[|fs| - 1], key);
    hide Under; hide KeyOf;
    if i < |fs| - 1 {
      LastUnderIs(fs[..|fs| - 1], key, i);
    }
  }

  lemma FoundAgainPasses(b: Book, fs: seq<Finding>, key: string)
    requires key in b.at
    ensures FoundAgain(b, fs, key) <==> PassesAll(b.at[key], fs, key)
  {
    hide Under; hide KeyOf; hide SameDifference; hide Carries;
    forall f ensures (Under(f, key) <==> KeyOf(f) == key) && (SameDifference(b.at[key], f) <==> Carries(b.at[key], f)) {
      UnderIsKey(f, key);
      SameDifferenceCarries(b.at[key], f);
    }
    if FoundAgain(b, fs, key) {
      forall f | f in fs && KeyOf(f) == key ensures Carries(b.at[key], f) {
        var i :| 0 <= i < |fs| && fs[i] == f;
      }
    }
  }

  /** What a run makes of the dict, key by key: a reported key holds the last finding put under it, with the decision
      it had if that is found again each time; another key is as before. */
  ghost predicate RunLeft(b: Book, fs: seq<Finding>, after: Book) {
    && b.order <= after.order
    && (forall key :: key in after.at <==> key in b.at || Reported(fs, key))
    && (forall key | key in b.at && !Reported(fs, key) :: after.at[key] == b.at[key])
    && (forall key, i: nat | LastUnder(fs, key, i) && key in after.at ::
          after.at[key] ==
          if key in b.at && FoundAgain(b, fs, key)
          then fs[i].(status := b.at[key].status, decision := b.at[key].decision) else fs[i])
  }

  lemma PutAllLeaves(b: Book, fs: seq<Finding>)
    requires forall f | f in fs :: MachineMade(f)
    ensures RunLeft(b, fs, PutAll(b, fs))
  {
    hide Under; hide KeyOf; hide MachineMade; hide PutAll; hide Chain; hide LastPut; hide FoundAgain; hide PassesAll;
    hide Reported; hide Keyed;
    PutAllOrder(b, fs);
    forall key ensures Reported(fs, key) <==> Keyed(fs, key) {
      ReportedIsKeyed(fs, key);
    }
    var after := PutAll(b, fs);
    forall key | key in b.at && !Reported(fs, key) ensures after.at[key] == b.at[key] {
      PutAllEntry(b, fs, key);
      ChainExactly(Entry(b, key), fs, key);
    }
    forall key, i: nat | LastUnder(fs, key, i) && key in after.at
      ensures after.at[key] ==
              if key in b.at && FoundAgain(b, fs, key)
              then fs[i].(status := b.at[key].status, decision := b.at[key].decision) else fs[i]
    {
      LastUnderIs(fs, key, i);
      PutAllEntry(b, fs, key);
      ChainExactly(Entry(b, key), fs, key);
      if key in b.at {
        FoundAgainPasses(b, fs, key);
      }
    }
  }

  /** A scheduled run that reports: the process is READY, every reported key holds its last finding, decided as before
      only if the difference is found again each time, other keys and other processes are untouched. */
  lemma RunReports(items: Items, op: Op)
    requires AllReadable(items) && FromMatrix(op) && op.RunOp? && op.report.Some?
    requires op.pid < |items| && items[op.pid].state == Parsing
    ensures var before, done := items[op.pid], Apply(items, op);
            && done.fault == None && |done.items| == |items|
            && (forall i | 0 <= i < |items| && i != op.pid :: done.items[i] == items[i])
            && var after := done.items[op.pid];
            && after.state == Ready && after.parses == before.parses + 1
            && RunLeft(before.book, op.report.value.findings, after.book)
            && after.files == Recorded(Appended(before.files, op.report.value.expanded), op.report.value.stamps)
            && after.audit == before.audit + [Event("system", "PIPELINE")]
            && (after.sync, after.attempts, after.selected) == (before.sync, before.attempts, before.selected)
            && (after.finalizedBy, after.protocolId) == (before.finalizedBy, before.protocolId)
  {
    assert items[op.pid] in items;
    PutAllLeaves(items[op.pid].book, op.report.value.findings);
    hide RunLeft; hide PutAll; hide MachineMade; hide Recorded; hide Appended; hide Readable;
  }

  /** A run that is no longer wanted does nothing; one that fails is noted and leaves files and findings. */
  lemma RunWithoutReport(items: Items, op: Op)
    requires AllReadable(items) && op.RunOp? && op.pid < |items|
    requires items[op.pid].state != Parsing || op.report == None
    ensures var before := items[op.pid];
            if before.state != Parsing then Apply(items, op) == Answer(items, None)
            else Apply(items, op) ==
                 Answer(items[op.pid := before.(audit := before.audit + [Event("system", "PIPELINE_FAILED")])],
                        Some(RunFailed))
  {
    assert items[op.pid] in items;
    SameItem(items, op.pid);
    hide Readable;
  }

  // ----- files ----------------------------------------------------------------------------------------------------

  /** The stamp of a file after a run: the one the run read, or else the one it had. */
  function StampAfter(f: StoredFile, stamps: map<string, Documents.Approval>): Documents.Approval {
    if f.id in stamps then stamps[f.id] else f.stamp
  }

  /** A new file is one of the documents out of zips, not read before. */
  ghost predicate FromZip(f: StoredFile, expanded: seq<StoredFile>) {
    exists e :: e in expanded && f == StoredFile(e.id, e.hash, e.stage, Documents.Unknown)
  }

  lemma {:induction false} AppendedIs(files: seq<StoredFile>, expanded: seq<StoredFile>)
    ensures var all := Appended(files, expanded);
            && files <= all
            && (forall i | |files| <= i < |all| :: FromZip(all[i], expanded) && !HasId(files, all[i].id))
            && (forall i, j | |files| <= i < j < |all| :: all[i].id != all[j].id)
  {
    if expanded != [] {
      var init, last := expanded[..|expanded| - 1], expanded[|expanded| - 1];
      assert expanded == init + [last];
      AppendedIs(files, init);
      var before, all := Appended(files, init), Appended(files, expanded);
      forall i | |files| <= i < |all| ensures FromZip(all[i], expanded) && !HasId(files, all[i].id) {
        if i < |before| {
          var e :| e in init && before[i] == StoredFile(e.id, e.hash, e.stage, Documents.Unknown);
          assert e in expanded;
        } else {
          assert last in expanded;
          assert forall f | f in files :: f in before;
        }
      }
      forall i | |files| <= i < |before| ensures HasId(before, before[i].id) {
        assert before[i] in before;
      }
    }
  }

  /** The files after a run: the old ones in their places, behind them the new documents once each, all with the stamps
      read; nothing that was known is stored again, and no document is left out. */
  lemma FilesAfterRun(files: seq<StoredFile>, expanded: seq<StoredFile>, stamps: map<string, Documents.Approval>)
    ensures var all, after := Appended(files, expanded), Recorded(Appended(files, expanded), stamps);
            && |after| == |all|
            && (forall i | 0 <= i < |after| :: after[i] == all[i].(stamp := StampAfter(all[i], stamps)))
            && files <= all
            && (forall i | |files| <= i < |all| :: FromZip(all[i], expanded) && !HasId(files, all[i].id))
            && (forall i, j | |files| <= i < j < |all| :: all[i].id != all[j].id)
            && (forall e | e in expanded :: HasId(all, e.id))
  {
    AppendedIs(files, expanded);
    forall e | e in expanded ensures HasId(Appended(files, expanded), e.id) {
      AppendedIds(files, expanded, e.id);
    }
    hide Appended;
  }

  // ----- the run after a choice of a revision ---------------------------------------------------------------------

  /** The dict holds the reported findings alone, each key its last one as reported. */
  ghost predicate Replaced(fs: seq<Finding>, after: Book) {
    && (forall key :: key in after.at <==> Reported(fs, key))
    && (forall key, i: nat | LastUnder(fs, key, i) && key in after.at :: after.at[key] == fs[i])
  }

  lemma FillReplaces(fs: seq<Finding>)
    ensures Replaced(fs, Fill(fs))
  {
    hide Under; hide KeyOf; hide Fill; hide LastPut; hide Reported; hide Keyed;
    forall key ensures key in Fill(fs).at <==> Reported(fs, key) {
      ReportedIsKeyed(fs, key);
      FillLast(fs, key);
    }
    forall key, i: nat | LastUnder(fs, key, i) && key in Fill(fs).at ensures Fill(fs).at[key] == fs[i] {
      LastUnderIs(fs, key, i);
      FillLast(fs, key);
    }
  }

  lemma {:induction false} FillLast(fs: seq<Finding>, key: string)
    ensures key in Fill(fs).at <==> Keyed(fs, key)
    ensures Keyed(fs, key) ==> Fill(fs).at[key] == LastPut(fs, key)
  {
    hide KeyOf;
    if fs != [] {
      var init, last := fs[..|fs| - 1], fs[|fs| - 1];
      assert fs == init + [last];
      assert forall f :: f in fs <==> f in init || f == last;
      FillLast(init, key);
    }
  }

  /** The files after a choice: the stamp the run read, or for the chosen file, the first of its id, the one read before
      the choice, or else the old one. */
  ghost predicate ChoiceStamps(before: seq<StoredFile>, after: seq<StoredFile>, id: string, stamp: Documents.Approval,
                               stamps: map<string, Documents.Approval>) {
    && |after| == |before|
    && forall i | 0 <= i < |before| ::
         && after[i].(stamp := before[i].stamp) == before[i]
         && after[i].stamp ==
            if before[i].id in stamps then stamps[before[i].id]
            else if before[i].id == id && !HasId(before[..i], id) then stamp
            else before[i].stamp
  }

  /** An accepted choice of a revision replaces all findings by those of the new run, undecided; the file is chosen, its
      stamp is the one read unless the run reads another, and the state stays. */
  lemma ChoiceReplaces(items: Items, op: Op)
    requires AllReadable(items) && FromMatrix(op) && op.SelectOp? && op.pid < |items|
    requires Apply(items, op).fault == None
    ensures op.report.Some? && op.stamp.Some? && op.actor.human && op.comment != ""
    ensures op.stamp.value != Documents.NotApproved
    ensures var before, after := items[op.pid], Apply(items, op).items[op.pid];
            && Replaced(op.report.value.findings, after.book)
            && (forall key | key in after.book.at :: after.book.at[key].decision == None)
            && after.state == before.state && (before.state == Ready || before.state == Verifying)
            && after.selected == before.selected + {op.id} && HasId(before.files, op.id)
            && ChoiceStamps(before.files, after.files, op.id, op.stamp.value, op.report.value.stamps)
            && after.audit == before.audit + [Event(op.actor.name, "SELECT_REVISION"), Event("system", "PIPELINE")]
            && (after.sync, after.attempts, after.parses) == (before.sync, before.attempts, before.parses)
            && (after.finalizedBy, after.protocolId) == (before.finalizedBy, before.protocolId)
  {
    assert items[op.pid] in items;
    FillReplaces(op.report.value.findings);
    FillUndecided(op.report.value.findings);
    hide Replaced; hide Fill; hide MachineMade; hide Recorded; hide Readable; hide Position; hide HasDecision;
    hide WithStamp; hide ChoiceStamps;
    var before := items[op.pid];
    PositionIsThere(before.files, op.id);
    StampsOfChoice(before.files, op.id, op.stamp.value, op.report.value.stamps);
    assert before.audit + [Event(op.actor.name, "SELECT_REVISION")] + [Event("system", "PIPELINE")]
        == before.audit + [Event(op.actor.name, "SELECT_REVISION"), Event("system", "PIPELINE")];
  }

  lemma StampsOfChoice(files: seq<StoredFile>, id: string, stamp: Documents.Approval,
                       stamps: map<string, Documents.Approval>)
    requires Position(files, id).Some?
    ensures ChoiceStamps(files, Recorded(WithStamp(files, Position(files, id).value, stamp), stamps), id, stamp, stamps)
  {
    var p := Position(files, id).value;
    forall i | 0 <= i < p ensures files[i].id != id {
      assert files[..p][i] in files[..p];
    }
    forall i | 0 <= i < |files| && files[i].id == id ensures !HasId(files[..i], id) <==> i == p {
      if i > p {
        assert files[..i][p] in files[..i];
      }
    }
    hide Position; hide HasId;
  }

  lemma PositionIsThere(files: seq<StoredFile>, id: string)
    ensures Position(files, id).Some? ==> HasId(files, id)
  {
  }

  lemma FillUndecided(fs: seq<Finding>)
    requires forall f | f in fs :: MachineMade(f)
    ensures forall key | key in Fill(fs).at :: Fill(fs).at[key].decision == None
  {
    hide Fill; hide KeyOf; hide Keyed; hide LastPut;
    forall key | key in Fill(fs).at ensures Fill(fs).at[key].decision == None {
      FillLast(fs, key);
      LastPutFacts(fs, key);
    }
  }
}
