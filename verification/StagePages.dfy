/** The pages of a stage (`_stages_from_heads`, process_pipeline.py): which resolved heads are compared, and what a
    choice of the inspector does to them. */
module StagePages {
  import opened Options
  import opened Documents
  import opened Revisions
  import opened IdentityHeads
  import opened Recheck

  /** Once the inspector has chosen a file, an unkeyed project page stays only if it was chosen. */
  predicate Dropped(stage: Stage, selected: set<string>, c: Doc) {
    stage == PD && selected != {} && c.id !in selected && IdentityKey(c) == None
  }

  /** The document of a head is compared: the head is resolved, and its document has a cipher, is no project
      document, was chosen, or nothing was chosen. */
  predicate Compared(h: Head, stage: Stage, selected: set<string>) {
    && h.resolution.Resolved?
    && (h.resolution.document.code != "" || stage != PD || h.resolution.document.id in selected || selected == {})
  }

  /** The pages are the documents of the heads at these places, in their order. */
  ghost predicate PagesAt(heads: seq<Head>, stage: Stage, selected: set<string>, at: seq<nat>, pages: seq<Doc>) {
    && |at| == |pages| && (forall i, j | 0 <= i < j < |at| :: at[i] < at[j])
    && (forall i | 0 <= i < |at| ::
          at[i] < |heads| && heads[at[i]].resolution.Resolved? && pages[i] == heads[at[i]].resolution.document)
    && forall k: nat | k < |heads| :: k in at <==> Compared(heads[k], stage, selected)
  }

  lemma PagesAtNext(heads: seq<Head>, k: nat, stage: Stage, selected: set<string>, at: seq<nat>, pages: seq<Doc>)
    requires k < |heads| && PagesAt(heads[..k], stage, selected, at, pages)
    ensures Compared(heads[k], stage, selected) ==>
              PagesAt(heads[..k + 1], stage, selected, at + [k], pages + [heads[k].resolution.document])
    ensures !Compared(heads[k], stage, selected) ==> PagesAt(heads[..k + 1], stage, selected, at, pages)
  {
    hide Compared;
    var now := heads[..k + 1];
    forall i | 0 <= i < |at| ensures at[i] < k && now[at[i]] == heads[..k][at[i]] {
    }
    assert now[k] == heads[k] && forall n: nat | n < k :: now[n] == heads[..k][n];
    assert k !in at;
    if Compared(heads[k], stage, selected) {
      ComparedIsResolved(heads[k], stage, selected);
      var more := at + [k];
      assert forall n: nat :: n in more <==> n in at || n == k;
      assert forall i, j | 0 <= i < j < |more| :: more[i] < more[j];
    }
  }

  lemma ComparedIsResolved(h: Head, stage: Stage, selected: set<string>)
    requires Compared(h, stage, selected)
    ensures h.resolution.Resolved?
  {
  }

  /** `_stages_from_heads`, one stage. */
  method StagePages(documents: seq<Doc>, stage: Stage, selected: set<string>, soleHead: bool) returns (pages: seq<Doc>)
    ensures exists at :: PagesAt(Heads(documents, stage, selected, soleHead), stage, selected, at, pages)
  {
    hide Heads; hide PagesAt;
    var heads := ResolveHeads(documents, stage, selected, soleHead);
    pages := [];
    ghost var at: seq<nat> := [];
    NoPagesYet(stage, selected);
    for i := 0 to |heads|
      invariant PagesAt(heads[..i], stage, selected, at, pages)
    {
      PagesAtNext(heads, i, stage, selected, at, pages);
      var r := heads[i].resolution;
      if r.Resolved? && !Dropped(stage, selected, r.document) {
        pages, at := pages + [r.document], at + [i];
      }
    }
    assert heads[..|heads|] == heads;
  }

  lemma NoPagesYet(stage: Stage, selected: set<string>)
    ensures PagesAt([], stage, selected, [], [])
  {
  }

  ghost predicate IsHeadDocument(documents: seq<Doc>, stage: Stage, selected: set<string>, soleHead: bool, c: Doc) {
    exists h :: h in Heads(documents, stage, selected, soleHead) && h.resolution.Resolved?
                && h.resolution.document == c
  }

  /** Every resolved document passes the check of `evaluate_rule`, but for one whose raw document, unselected,
      names itself as successor. */
  lemma EveryPagePasses(documents: seq<Doc>, stage: Stage, selected: set<string>, soleHead: bool, c: Doc)
    requires DistinctIds(documents) && IsHeadDocument(documents, stage, selected, soleHead, c)
    ensures exists raw :: raw in documents && raw.id == c.id
                          && (Passes(documents, stage, c, selected, soleHead) <==> NoSelfLoop(raw, selected))
  {
    hide Heads; hide Passes; hide DistinctIds;
    var h :| h in Heads(documents, stage, selected, soleHead) && h.resolution.Resolved? && h.resolution.document == c;
    var raw := RawDocument(documents, stage, selected, soleHead, h);
    RecheckAgrees(documents, stage, selected, soleHead, h, raw);
  }

  // ----- choices of unkeyed files ---------------------------------------------------------------------------------

  /** The two choices differ in files without a cipher only. */
  ghost predicate SameKeyedChoice(documents: seq<Doc>, before: set<string>, after: set<string>) {
    forall d | d in documents && d.code != "" :: d.id in before <==> d.id in after
  }

  /** Whatever unkeyed files the inspector chooses besides, the heads of ciphers stay what they were, and the documents
      of those that are resolved are compared. */
  lemma KeyedHeadsSurvive(documents: seq<Doc>, stage: Stage, before: set<string>, after: set<string>, soleHead: bool,
                          key: Key, h: Head)
    requires SameKeyedChoice(documents, before, after)
    requires h in Heads(documents, stage, before, soleHead) && h.key == Some(key)
    ensures h in Heads(documents, stage, after, soleHead)
    ensures h.resolution.Resolved? ==> Compared(h, stage, before) && Compared(h, stage, after)
  {
    KeyedHead(documents, stage, before, soleHead, key, h);
    KeyedHead(documents, stage, after, soleHead, key, h);
    var group := KeyGroup(documents, stage, Some(key));
    KeyGroupStage(documents, stage, Some(key));
    KeyGroupCodes(documents, stage, key);
    assert before * Ids(group) == after * Ids(group);
    hide KeyGroup; hide Heads; hide Resolve;
    if h.resolution.Resolved? {
      HeadInside(Some(key), group, stage, before, soleHead, h);
      ResolvedPicks(group, before, soleHead);
    }
  }

  lemma KeyGroupCodes(documents: seq<Doc>, stage: Stage, key: Key)
    ensures forall d | d in KeyGroup(documents, stage, Some(key)) :: d.code != "" && d.code == key.code
  {
  }
}
