/** The choice of a revision runs the matrix over the stored files without their places in the manifest
    (`_pipeline_files`, application/runtime.py:744-756). Places are handed on, but decide nothing in the worklist. */
module Origins {
  import opened Options
  import opened Archive
  import opened Worklist
  import opened Expansion

  function Bare(x: Item): Item {
    x.(origin := 0)
  }

  function BareItems(items: seq<Item>): seq<Item> {
    seq(|items|, i requires 0 <= i < |items| => Bare(items[i]))
  }

  function BareTaken(t: Taken): Taken {
    t.(item := Bare(t.item))
  }

  function BareLog(log: seq<Taken>): seq<Taken> {
    seq(|log|, i requires 0 <= i < |log| => BareTaken(log[i]))
  }

  function BareBorn(born: seq<Child>): seq<Child> {
    seq(|born|, i requires 0 <= i < |born| => born[i].(item := Bare(born[i].item)))
  }

  lemma BareChildren(t: Taken)
    ensures ChildrenOf(BareTaken(t)) == BareBorn(ChildrenOf(t))
  {
    hide ChildId;
  }

  lemma BareBornConcat(a: seq<Child>, b: seq<Child>)
    ensures BareBorn(a + b) == BareBorn(a) + BareBorn(b)
  {
  }

  lemma BareSnoc(log: seq<Taken>)
    requires log != []
    ensures BareLog(log) == BareLog(log[..|log| - 1]) + [BareTaken(log[|log| - 1])]
  {
    hide Bare;
  }

  /** Outputs do not show the places. */
  lemma {:induction false} BareOutputs(log: seq<Taken>)
    ensures Born(BareLog(log)) == BareBorn(Born(log)) && Ids(BareLog(log)) == Ids(log)
    ensures Pages(BareLog(log)) == Pages(log) && Problems(BareLog(log)) == Problems(log)
  {
    if log != [] {
      var init, last := log[..|log| - 1], log[|log| - 1];
      BareOutputs(init);
      BareSnoc(log);
      BareChildren(last);
      SameOutputs(last);
      assert log == init + [last];
      hide *;
      LogSnoc([], init, last);
      LogSnoc([], BareLog(init), BareTaken(last));
      BareBornConcat(Born(init), ChildrenOf(last));
    }
  }

  lemma SameOutputs(t: Taken)
    ensures PageOf(BareTaken(t)) == PageOf(t) && ProblemOf(BareTaken(t)) == ProblemOf(t)
    ensures BareTaken(t).item.id == t.item.id
  {
  }

  lemma {:induction false} BareStored(blobs: map<string, Blob>, born: seq<Child>)
    ensures Stored(blobs, BareBorn(born)) == Stored(blobs, born)
  {
    if born != [] {
      var init := born[..|born| - 1];
      BareStored(blobs, init);
      assert BareBorn(born)[..|born| - 1] == BareBorn(init);
    }
  }

  lemma BareQueue(files: seq<Item>, log: seq<Taken>)
    ensures Queue(BareItems(files), BareLog(log)) == BareItems(Queue(files, log))
  {
    BareOutputs(log);
    hide Born;
  }

  lemma BareFate(x: Item, repeated: bool, raw: Option<Blob>, reader: Reader)
    ensures FateOf(Bare(x), repeated, raw, reader) == FateOf(x, repeated, raw, reader)
  {
    hide KindOf; hide Expand;
  }

  lemma BareStep(files: seq<Item>, blobs: map<string, Blob>, reader: Reader, before: seq<Taken>, t: Taken)
    requires Step(files, blobs, reader, before, t)
    ensures Step(BareItems(files), blobs, reader, BareLog(before), BareTaken(t))
  {
    BareQueue(files, before);
    BareOutputs(before);
    BareStored(blobs, Born(before));
    BareFate(t.item, t.item.id in Ids(before), Lookup(Stored(blobs, Born(before)), t.item.id), reader);
    hide Queue; hide Born; hide Stored; hide FateOf; hide Ids; hide Lookup; hide Pages; hide Problems; hide BareBorn;
  }

  lemma {:induction false} BareFollows(files: seq<Item>, blobs: map<string, Blob>, reader: Reader, log: seq<Taken>)
    requires Follows(files, blobs, reader, log)
    ensures Follows(BareItems(files), blobs, reader, BareLog(log))
  {
    hide Step; hide BareItems; hide BareTaken;
    if log != [] {
      var init, last := log[..|log| - 1], log[|log| - 1];
      BareFollows(files, blobs, reader, init);
      BareStep(files, blobs, reader, init, last);
      BareSnoc(log);
      hide BareLog;
      FollowsSnoc(BareItems(files), blobs, reader, BareLog(init), BareTaken(last));
    }
  }

  /** Runs over files that differ in their places only take the same ids and names with the same outcomes, give the same
      pages and report the same errors. */
  lemma OriginsDoNotMatter(a: seq<Item>, b: seq<Item>, blobs: map<string, Blob>, reader: Reader, log: seq<Taken>,
                           other: seq<Taken>)
    requires BareItems(a) == BareItems(b)
    requires Complete(a, blobs, reader, log) && Complete(b, blobs, reader, other)
    ensures BareLog(log) == BareLog(other) && Pages(log) == Pages(other) && Problems(log) == Problems(other)
  {
    BareComplete(a, blobs, reader, log);
    BareComplete(b, blobs, reader, other);
    hide *;
    LogIsDetermined(BareItems(a), blobs, reader, BareLog(log), BareLog(other));
    BareOutputs(log);
    BareOutputs(other);
  }

  lemma BareComplete(files: seq<Item>, blobs: map<string, Blob>, reader: Reader, log: seq<Taken>)
    requires Complete(files, blobs, reader, log)
    ensures Complete(BareItems(files), blobs, reader, BareLog(log))
  {
    BareFollows(files, blobs, reader, log);
    BareQueue(files, log);
    hide Follows; hide Queue; hide Bare; hide BareTaken;
  }
}
