/** The head of a chain built from file names, without a choice of the inspector: one head exactly when the
    files that are not refused form one block. */
module ChainHead {
  import opened Options
  import opened Documents
  import opened Lists
  import opened FileChain
  import opened Revisions

  /** No refused file between two others. */
  ghost predicate OneBlock(chain: seq<Doc>) {
    forall i, j, k | 0 <= i < j < k < |chain| && Eligible(chain[i]) && Eligible(chain[k]) :: Eligible(chain[j])
  }

  ghost predicate IsTop(chain: seq<Doc>, top: nat) {
    && top < |chain| && Eligible(chain[top])
    && forall j | top < j < |chain| :: !Eligible(chain[j])
  }

  lemma {:induction false} TopExists(chain: seq<Doc>, n: nat) returns (top: nat)
    requires 0 < n <= |chain| && exists i :: 0 <= i < n && Eligible(chain[i])
    ensures top < n && Eligible(chain[top]) && forall j | top < j < n :: !Eligible(chain[j])
  {
    if Eligible(chain[n - 1]) {
      top := n - 1;
    } else {
      top := TopExists(chain, n - 1);
    }
  }

  /** Eligible, and the next file of the chain is not. */
  predicate EndsBlock(chain: seq<Doc>, i: nat)
    requires i < |chain|
  {
    Eligible(chain[i]) && (i + 1 == |chain| || !Eligible(chain[i + 1]))
  }

  lemma SinkIffEndsBlock(chain: seq<Doc>, i: nat)
    requires DoublyLinked(chain) && DistinctIds(chain) && i < |chain|
    ensures Both(IsEligible(), SinkIn(Ids(Filter(IsEligible(), chain))))(chain[i]) <==> EndsBlock(chain, i)
  {
    hide Filter; hide Ids; hide DistinctIds;
    if i + 1 < |chain| {
      EligibleId(chain, i + 1);
    }
    LinkAt(chain, i);
    hide DoublyLinked;
  }

  lemma LinkAt(chain: seq<Doc>, i: nat)
    requires DoublyLinked(chain) && i < |chain|
    ensures chain[i].succ == if i + 1 < |chain| then Some(chain[i + 1].id) else None
  {
  }

  lemma EligibleId(chain: seq<Doc>, j: nat)
    requires DistinctIds(chain) && j < |chain|
    ensures chain[j].id in Ids(Filter(IsEligible(), chain)) <==> Eligible(chain[j])
  {
    var eligible := Filter(IsEligible(), chain);
    assert chain[j] in chain;
    if chain[j].id in Ids(eligible) {
      var d :| d in eligible && d.id == chain[j].id;
      var k :| 0 <= k < |chain| && chain[k] == d;
      assert k == j;
    }
    hide Filter;
  }

  lemma OneEnd(chain: seq<Doc>, top: nat, i: nat)
    requires OneBlock(chain) && IsTop(chain, top) && i < |chain| && i != top
    ensures !EndsBlock(chain, i)
  {
    if i < top && Eligible(chain[i]) && i + 1 < top {
      assert Eligible(chain[i + 1]);
    }
  }

  lemma TwoEnds(chain: seq<Doc>, top: nat) returns (low: nat)
    requires !OneBlock(chain) && IsTop(chain, top)
    ensures low < top && EndsBlock(chain, low) && EndsBlock(chain, top)
  {
    var i, j, k :| 0 <= i < j < k < |chain| && Eligible(chain[i]) && Eligible(chain[k]) && !Eligible(chain[j]);
    assert k <= top;
    low := TopExists(chain, j);
  }

  /** On a linked chain with distinct files and at least one that is not refused: one head, the highest of
      them, when they form one block, and a conflict otherwise. */
  lemma HeadOfChain(chain: seq<Doc>, soleHead: bool) returns (top: nat)
    requires DoublyLinked(chain) && DistinctIds(chain) && exists i :: 0 <= i < |chain| && Eligible(chain[i])
    ensures IsTop(chain, top)
    ensures PickHead(Filter(IsEligible(), chain), {}, soleHead) ==
            if OneBlock(chain) then FinishHead(chain[top], Filter(IsEligible(), chain), false, soleHead)
            else Conflict(SeveralHeads)
  {
    top := TopExists(chain, |chain|);
    var eligible := Filter(IsEligible(), chain);
    var sink := SinkIn(Ids(eligible));
    FilterNone(OneOf({}), eligible);
    FilterBoth(IsEligible(), sink, chain);
    SinkIffEndsBlock(chain, top);
    hide Filter; hide FinishHead; hide DoublyLinked; hide DistinctIds; hide SinkIn; hide Ids; hide OneOf;
    hide IsEligible;
    if OneBlock(chain) {
      forall i | 0 <= i < |chain| && i != top ensures !Both(IsEligible(), sink)(chain[i]) {
        OneEnd(chain, top, i);
        SinkIffEndsBlock(chain, i);
      }
      FilterSole(Both(IsEligible(), sink), chain, top);
    } else {
      var low := TwoEnds(chain, top);
      SinkIffEndsBlock(chain, low);
      FilterTwo(Both(IsEligible(), sink), chain, low, top);
    }
  }

  /** The same for the files of one volume as they are stored: unkeyed, of one stage. */
  lemma HeadOfFilenames(docs: seq<Doc>, stage: Stage, soleHead: bool) returns (top: nat)
    requires ChainOf(docs).Linked? && DistinctIds(docs)
    requires forall d | d in docs :: d.stage == stage && d.code == ""
    requires exists c :: c in ChainOf(docs).docs && Eligible(c)
    ensures var chain := ChainOf(docs).docs;
            && IsTop(chain, top)
            && (forall i | 0 <= i < top :: chain[i].mark.number.Some? && chain[top].mark.number.Some?
                                           && chain[i].mark.number.value < chain[top].mark.number.value)
            && Resolve(chain, stage, None, {}, soleHead) ==
               if OneBlock(chain) then FinishHead(chain[top], Filter(IsEligible(), chain), false, soleHead)
               else Conflict(SeveralHeads)
  {
    var chain := ChainOf(docs).docs;
    ChainShape(docs);
    ChainKeeps(docs, stage);
    hide ChainOf; hide DistinctIds; hide DoublyLinked; hide LastOfNumber; hide PickHead; hide OneBlock; hide FinishHead;
    var c :| c in chain && Eligible(c);
    var i :| 0 <= i < |chain| && chain[i] == c;
    top := HeadOfChain(chain, soleHead);
    UnkeyedResolve(chain, stage, c, {}, soleHead);
  }

  /** Among unkeyed files of the stage only the graph decides. */
  lemma UnkeyedResolve(pool: seq<Doc>, stage: Stage, c: Doc, selected: set<string>, soleHead: bool)
    requires forall d | d in pool :: d.stage == stage && d.code == ""
    requires c in pool && Eligible(c)
    ensures Resolve(pool, stage, None, selected, soleHead) == PickHead(Filter(IsEligible(), pool), selected, soleHead)
  {
    FilterAll(OfStage(stage), pool);
    NoKeys(pool);
    assert c in Filter(IsEligible(), pool);
    hide PickHead; hide Filter;
  }

  lemma NoKeys(docs: seq<Doc>)
    requires forall d | d in docs :: d.code == ""
    ensures !TwoKeys(docs) && !HalfKeyed(docs)
  {
  }

  /** Chaining keeps stages, ciphers and distinct ids. */
  lemma ChainKeeps(docs: seq<Doc>, stage: Stage)
    requires ChainOf(docs).Linked? && DistinctIds(docs)
    requires forall d | d in docs :: d.stage == stage && d.code == ""
    ensures var chain := ChainOf(docs).docs;
            DistinctIds(chain) && forall d | d in chain :: d.stage == stage && d.code == ""
  {
    ChainShape(docs);
    var chain := ChainOf(docs).docs;
    hide ChainOf; hide DoublyLinked; hide LastOfNumber;
    forall c | c in chain ensures c.stage == stage && c.code == "" {
      var k :| 0 <= k < |docs| && SameFile(docs[k], c) && LastOfNumber(docs, k);
      assert docs[k] in docs;
    }
    forall i, j | 0 <= i < j < |chain| ensures chain[i].id != chain[j].id {
      assert chain[i] in chain && chain[j] in chain;
      var a :| 0 <= a < |docs| && SameFile(docs[a], chain[i]) && LastOfNumber(docs, a);
      var b :| 0 <= b < |docs| && SameFile(docs[b], chain[j]) && LastOfNumber(docs, b);
      assert docs[a].mark != docs[b].mark;
    }
  }
}
