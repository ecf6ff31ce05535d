/** The worklist of `_pages_from_blobs` (application/process_pipeline.py): files are taken from the front, the
    documents of a zip join the back. What the readers make of bytes is a parameter; what is done with a file, and
    which files a zip adds, follows from its name and from `expand_zip`. */
module Worklist {
  import opened Options
  import opened Archive

  /** `origin`: stage and place in the manifest, which the documents of a zip inherit. */
  datatype Item = Item(id: string, name: string, origin: int)

  datatype Kind = Xml | Docx | Zip | Sealed | Pdf | Foreign

  datatype Text = Unread | Read(skipped: bool)

  /** `open`: the entries of an archive, or nothing for a bomb or a broken one. */
  datatype Reader = Reader(open: Blob -> Option<seq<Entry>>, read: (Kind, Blob) -> Text)

  datatype Problem = Repeated | NoContent | Unreadable | BadZip | NotExpanded | Unsupported | Skipped

  /** What became of a taken file. */
  datatype Fate = Failed(problem: Problem) | Page(content: Blob, skipped: bool) | Opened(members: seq<Member>)

  datatype Taken = Taken(item: Item, fate: Fate)

  /** A document out of a zip. */
  datatype Child = Child(item: Item, content: Blob)

  function KindOf(name: string): Kind {
    if EndsWith(name, ".docx") then Docx
    else if EndsWith(name, ".xml") then Xml
    else if IsZip(name) then Zip
    else if EndsWith(name, ".7z") || EndsWith(name, ".rar") then Sealed
    else if EndsWith(name, ".pdf") then Pdf
    else Foreign
  }

  function FateOf(item: Item, repeated: bool, raw: Option<Blob>, reader: Reader): Fate {
    var kind := KindOf(item.name);
    if repeated then Failed(Repeated)
    else if kind == Sealed then Failed(NotExpanded)
    else if kind == Foreign then Failed(Unsupported)
    else if raw == None then Failed(NoContent)
    else if kind == Zip then
      var entries := reader.open(raw.value);
      var members := if entries.Some? then Expand(entries.value) else None;
      if members == None then Failed(BadZip) else Opened(members.value)
    else match reader.read(kind, raw.value)
      case Unread => Failed(Unreadable)
      case Read(skipped) => Page(raw.value, skipped && kind == Docx)
  }

  function Numeral(n: nat): string {
    if n < 10 then [(48 + n) as char] else Numeral(n / 10) + [(48 + n % 10) as char]
  }

  function ChildId(id: string, index: nat): string {
    id + "__" + Numeral(index)
  }

  function Children(zip: Item, members: seq<Member>): seq<Child> {
    seq(|members|, i requires 0 <= i < |members| =>
      Child(Item(ChildId(zip.id, i + 1), members[i].name, zip.origin), members[i].content))
  }

  function Items(born: seq<Child>): seq<Item> {
    seq(|born|, i requires 0 <= i < |born| => born[i].item)
  }

  function ChildrenOf(t: Taken): seq<Child> {
    if t.fate.Opened? then Children(t.item, t.fate.members) else []
  }

  function PageOf(t: Taken): seq<(string, Blob)> {
    if t.fate.Page? then [(t.item.id, t.fate.content)] else []
  }

  function ProblemOf(t: Taken): seq<(string, Problem)> {
    match t.fate
    case Failed(problem) => [(t.item.id, problem)]
    case Page(_, skipped) => if skipped then [(t.item.id, Skipped)] else []
    case Opened(_) => []
  }

  function Born(log: seq<Taken>): seq<Child> {
    if log == [] then [] else Born(log[..|log| - 1]) + ChildrenOf(log[|log| - 1])
  }

  function Pages(log: seq<Taken>): seq<(string, Blob)> {
    if log == [] then [] else Pages(log[..|log| - 1]) + PageOf(log[|log| - 1])
  }

  function Problems(log: seq<Taken>): seq<(string, Problem)> {
    if log == [] then [] else Problems(log[..|log| - 1]) + ProblemOf(log[|log| - 1])
  }

  function Stored(blobs: map<string, Blob>, born: seq<Child>): map<string, Blob> {
    if born == [] then blobs
    else Stored(blobs, born[..|born| - 1])[born[|born| - 1].item.id := born[|born| - 1].content]
  }

  function Lookup(stored: map<string, Blob>, id: string): Option<Blob> {
    if id in stored then Some(stored[id]) else None
  }

  /** Everything there is to take: the given files and the documents of the zips taken so far. */
  function Queue(files: seq<Item>, log: seq<Taken>): seq<Item> {
    files + Items(Born(log))
  }

  function Ids(log: seq<Taken>): set<string> {
    set t | t in log :: t.item.id
  }

  ghost predicate Step(
    files: seq<Item>, blobs: map<string, Blob>, reader: Reader, before: seq<Taken>, t: Taken) {
    && |before| < |Queue(files, before)|
    && t.item == Queue(files, before)[|before|]
    && t.fate == FateOf(t.item, t.item.id in Ids(before), Lookup(Stored(blobs, Born(before)), t.item.id), reader)
  }

  /** Each file was taken in its turn and treated by its name, its id and what was stored at that time. */
  ghost predicate Follows(files: seq<Item>, blobs: map<string, Blob>, reader: Reader, log: seq<Taken>) {
    log == [] || (Follows(files, blobs, reader, log[..|log| - 1])
                  && Step(files, blobs, reader, log[..|log| - 1], log[|log| - 1]))
  }

  /** The log of a whole run. */
  ghost predicate Complete(files: seq<Item>, blobs: map<string, Blob>, reader: Reader, log: seq<Taken>) {
    Follows(files, blobs, reader, log) && |log| == |Queue(files, log)|
  }

  // ----- the loop -----------------------------------------------------------------------------------------------

  /** Zips still to be taken. */
  function Zips(pending: seq<Item>): nat {
    if pending == [] then 0 else (if KindOf(pending[0].name) == Zip then 1 else 0) + Zips(pending[1..])
  }

  lemma {:induction false} ZipsConcat(a: seq<Item>, b: seq<Item>)
    ensures Zips(a + b) == Zips(a) + Zips(b)
  {
    hide KindOf;
    if a == [] {
      assert a + b == b;
    } else {
      assert (a + b)[1..] == a[1..] + b;
      ZipsConcat(a[1..], b);
    }
  }

  lemma {:induction false} NoZips(items: seq<Item>)
    requires forall x | x in items :: KindOf(x.name) != Zip
    ensures Zips(items) == 0
  {
    hide KindOf;
    if items != [] {
      assert items[0] in items;
      NoZips(items[1..]);
    }
  }

  lemma DocumentKind(name: string)
    requires IsDocument(name)
    ensures KindOf(name) in {Xml, Docx, Pdf}
  {
    hide EndsWith;
    DocumentIsNoZip(name);
    if EndsWith(name, ".pdf") {
      DocumentIsNotSealed(name);
    }
  }

  lemma DocumentIsNotSealed(name: string)
    requires EndsWith(name, ".pdf")
    ensures !EndsWith(name, ".7z") && !EndsWith(name, ".rar")
  {
    hide EndsWith;
    if EndsWith(name, ".7z") {
      OneEnding(name, ".pdf", ".7z");
    }
    if EndsWith(name, ".rar") {
      OneEnding(name, ".pdf", ".rar");
    }
  }

  lemma OpenedFacts(item: Item, repeated: bool, raw: Option<Blob>, reader: Reader)
    requires FateOf(item, repeated, raw, reader).Opened?
    ensures KindOf(item.name) == Zip && !repeated && raw.Some? && reader.open(raw.value).Some?
    ensures Expand(reader.open(raw.value).value) == Some(FateOf(item, repeated, raw, reader).members)
  {
    hide KindOf; hide Expand;
  }

  /** Only documents come out of a zip, because `expand_zip` keeps nothing else. */
  lemma ChildrenAreDocuments(item: Item, repeated: bool, raw: Option<Blob>, reader: Reader, c: Child)
    requires var fate := FateOf(item, repeated, raw, reader); fate.Opened? && c in Children(item, fate.members)
    ensures KindOf(c.item.name) in {Xml, Docx, Pdf}
  {
    hide KindOf; hide FateOf; hide IsDocument; hide Documents;
    OpenedFacts(item, repeated, raw, reader);
    var members := FateOf(item, repeated, raw, reader).members;
    var i :| 0 <= i < |members| && Children(item, members)[i] == c;
    MembersAreDocuments(reader.open(raw.value).value, members[i]);
    DocumentKind(c.item.name);
  }

  lemma ItemsConcat(a: seq<Child>, b: seq<Child>)
    ensures Items(a + b) == Items(a) + Items(b)
  {
  }

  lemma {:induction false} StoredConcat(blobs: map<string, Blob>, a: seq<Child>, b: seq<Child>)
    ensures Stored(blobs, a + b) == Stored(Stored(blobs, a), b)
    decreases |b|
  {
    if b == [] {
      assert a + b == a;
    } else {
      assert (a + b)[..|a + b| - 1] == a + b[..|b| - 1];
      StoredConcat(blobs, a, b[..|b| - 1]);
    }
  }

  lemma StoredSnoc(blobs: map<string, Blob>, born: seq<Child>, c: Child)
    ensures Stored(blobs, born + [c]) == Stored(blobs, born)[c.item.id := c.content]
  {
    assert (born + [c])[..|born|] == born;
  }

  lemma LogSnoc(files: seq<Item>, log: seq<Taken>, t: Taken)
    ensures Born(log + [t]) == Born(log) + ChildrenOf(t)
    ensures Pages(log + [t]) == Pages(log) + PageOf(t) && Problems(log + [t]) == Problems(log) + ProblemOf(t)
    ensures Queue(files, log + [t]) == Queue(files, log) + Items(ChildrenOf(t))
    ensures Ids(log + [t]) == Ids(log) + {t.item.id}
  {
    assert (log + [t])[..|log|] == log;
    ItemsConcat(Born(log), ChildrenOf(t));
    assert forall x :: x in log + [t] <==> x in log || x == t;
    hide ChildrenOf;
  }

  lemma FollowsSnoc(files: seq<Item>, blobs: map<string, Blob>, reader: Reader, log: seq<Taken>, t: Taken)
    requires Follows(files, blobs, reader, log) && Step(files, blobs, reader, log, t)
    ensures Follows(files, blobs, reader, log + [t])
  {
    assert (log + [t])[..|log|] == log;
    hide Step;
  }

  lemma KidsHaveNoZips(t: Taken, repeated: bool, raw: Option<Blob>, reader: Reader)
    requires t.fate == FateOf(t.item, repeated, raw, reader)
    ensures Zips(Items(ChildrenOf(t))) == 0
    ensures t.fate.Opened? ==> KindOf(t.item.name) == Zip
  {
    hide KindOf; hide FateOf;
    forall x | x in Items(ChildrenOf(t)) ensures KindOf(x.name) != Zip {
      var c :| c in ChildrenOf(t) && c.item == x;
      ChildrenAreDocuments(t.item, repeated, raw, reader, c);
    }
    NoZips(Items(ChildrenOf(t)));
    if t.fate.Opened? {
      OpenedFacts(t.item, repeated, raw, reader);
    }
  }

  /** Where the loop stands: what was taken, what is left, and what is stored. */
  ghost predicate Stands(
    files: seq<Item>, blobs: map<string, Blob>, reader: Reader, log: seq<Taken>, pending: seq<Item>,
    seen: set<string>, stored: map<string, Blob>) {
    && Follows(files, blobs, reader, log)
    && |log| <= |Queue(files, log)| && pending == Queue(files, log)[|log|..]
    && seen == Ids(log) && stored == Stored(blobs, Born(log))
  }

  lemma StandsAtStart(files: seq<Item>, blobs: map<string, Blob>, reader: Reader)
    ensures Stands(files, blobs, reader, [], files, {}, blobs) && Recorded([], [], [], [], map[])
  {
    assert Queue(files, []) == files;
  }

  lemma StandsStep(files: seq<Item>, blobs: map<string, Blob>, reader: Reader, log: seq<Taken>, pending: seq<Item>,
                   seen: set<string>, stored: map<string, Blob>, t: Taken)
    requires Stands(files, blobs, reader, log, pending, seen, stored)
    requires pending != [] && t.item == pending[0]
    requires t.fate == FateOf(t.item, t.item.id in seen, Lookup(stored, t.item.id), reader)
    ensures Stands(files, blobs, reader, log + [t], pending[1..] + Items(ChildrenOf(t)), seen + {t.item.id},
                   Stored(stored, ChildrenOf(t)))
  {
    hide FateOf; hide Born; hide ChildrenOf; hide Stored; hide Items; hide Queue; hide Ids; hide Follows; hide Step;
    hide Pages; hide Problems; hide PageOf; hide ProblemOf; hide Lookup;
    LogSnoc(files, log, t);
    StoredConcat(blobs, Born(log), ChildrenOf(t));
    StepNow(files, blobs, reader, log, pending, t);
    FollowsSnoc(files, blobs, reader, log, t);
    TakeFront(Queue(files, log), |log|, Items(ChildrenOf(t)));
  }

  lemma TakeFront(queue: seq<Item>, n: nat, kids: seq<Item>)
    requires n < |queue|
    ensures queue[n..][1..] + kids == (queue + kids)[n + 1..]
  {
  }

  lemma StepNow(files: seq<Item>, blobs: map<string, Blob>, reader: Reader, log: seq<Taken>, pending: seq<Item>,
                t: Taken)
    requires |log| <= |Queue(files, log)| && pending == Queue(files, log)[|log|..]
    requires pending != [] && t.item == pending[0]
    requires t.fate == FateOf(t.item, t.item.id in Ids(log), Lookup(Stored(blobs, Born(log)), t.item.id), reader)
    ensures Step(files, blobs, reader, log, t)
  {
    hide FateOf; hide Born; hide Stored; hide Queue; hide Ids;
  }

  lemma LessToDo(t: Taken, pending: seq<Item>, repeated: bool, raw: Option<Blob>, reader: Reader)
    requires pending != [] && t.item == pending[0] && t.fate == FateOf(t.item, repeated, raw, reader)
    ensures Zips(pending[1..] + Items(ChildrenOf(t))) == Zips(pending) - if KindOf(t.item.name) == Zip then 1 else 0
    ensures t.fate.Opened? ==> KindOf(t.item.name) == Zip
  {
    KidsHaveNoZips(t, repeated, raw, reader);
    hide KindOf; hide FateOf; hide ChildrenOf;
    ZipsConcat(pending[1..], Items(ChildrenOf(t)));
  }

  /** The outputs say what the log says. */
  ghost predicate Recorded(
    log: seq<Taken>, built: seq<(string, Blob)>, errors: seq<(string, Problem)>, expanded: seq<Item>,
    contents: map<string, Blob>) {
    && built == Pages(log) && errors == Problems(log)
    && expanded == Items(Born(log)) && contents == Stored(map[], Born(log))
  }

  lemma RecordedStep(log: seq<Taken>, built: seq<(string, Blob)>, errors: seq<(string, Problem)>,
                     expanded: seq<Item>, contents: map<string, Blob>, t: Taken)
    requires Recorded(log, built, errors, expanded, contents)
    ensures Recorded(log + [t], built + PageOf(t), errors + ProblemOf(t), expanded + Items(ChildrenOf(t)),
                     Stored(contents, ChildrenOf(t)))
  {
    LogSnoc([], log, t);
    StoredConcat(map[], Born(log), ChildrenOf(t));
    ItemsConcat(Born(log), ChildrenOf(t));
    hide Born; hide Pages; hide Problems; hide Stored; hide Items; hide ChildrenOf;
  }

  lemma OutputsOf(t: Taken)
    ensures t.fate.Opened? ==>
              ChildrenOf(t) == Children(t.item, t.fate.members) && PageOf(t) == [] && ProblemOf(t) == []
    ensures t.fate.Failed? ==> ProblemOf(t) == [(t.item.id, t.fate.problem)] && PageOf(t) == []
    ensures t.fate.Page? ==>
              PageOf(t) == [(t.item.id, t.fate.content)]
              && ProblemOf(t) == if t.fate.skipped then [(t.item.id, Skipped)] else []
    ensures !t.fate.Opened? ==> Items(ChildrenOf(t)) == []
  {
  }

  lemma KeepsStores(t: Taken, stored: map<string, Blob>, contents: map<string, Blob>)
    ensures !t.fate.Opened? ==>
              Stored(stored, ChildrenOf(t)) == stored && Stored(contents, ChildrenOf(t)) == contents
  {
  }

  lemma AtEnd(files: seq<Item>, blobs: map<string, Blob>, reader: Reader, log: seq<Taken>, seen: set<string>,
              stored: map<string, Blob>)
    requires Stands(files, blobs, reader, log, [], seen, stored)
    ensures Complete(files, blobs, reader, log)
  {
  }

  /** Files are taken until none is left. The loop ends because no document of a zip is a zip. */
  method PagesFromBlobs(files: seq<Item>, blobs: map<string, Blob>, reader: Reader)
    returns (built: seq<(string, Blob)>, errors: seq<(string, Problem)>, expanded: seq<Item>,
             contents: map<string, Blob>)
    ensures exists log :: Complete(files, blobs, reader, log) && Recorded(log, built, errors, expanded, contents)
  {
    var pending, stored := files, blobs;
    var seen: set<string> := {};
    built, errors, expanded, contents := [], [], [], map[];
    ghost var log: seq<Taken> := [];
    hide *;
    StandsAtStart(files, blobs, reader);
    while pending != []
      invariant Stands(files, blobs, reader, log, pending, seen, stored)
      invariant Recorded(log, built, errors, expanded, contents)
      decreases Zips(pending), |pending|
    {
      var item := pending[0];
      var fate := FateOf(item, item.id in seen, Lookup(stored, item.id), reader);
      ghost var t := Taken(item, fate);
      StandsStep(files, blobs, reader, log, pending, seen, stored, t);
      RecordedStep(log, built, errors, expanded, contents, t);
      LessToDo(t, pending, item.id in seen, Lookup(stored, item.id), reader);
      OutputsOf(t);
      KeepsStores(t, stored, contents);
      assert pending[1..] + [] == pending[1..] && expanded + [] == expanded;
      assert built + [] == built && errors + [] == errors;
      pending := pending[1..];
      seen := seen + {item.id};
      log := log + [t];
      match fate
      case Failed(problem) =>
        errors := errors + [(item.id, problem)];
      case Page(content, skipped) =>
        if skipped {
          errors := errors + [(item.id, Skipped)];
        }
        built := built + [(item.id, content)];
      case Opened(members) =>
        pending, stored, expanded, contents := AddMembers(item, members, pending, stored, expanded, contents);
    }
    AtEnd(files, blobs, reader, log, seen, stored);
  }

  /** The inner loop over the documents of a zip. */
  method AddMembers(zip: Item, members: seq<Member>, queue: seq<Item>, store: map<string, Blob>, out: seq<Item>,
                    outBlobs: map<string, Blob>)
    returns (pending: seq<Item>, stored: map<string, Blob>, expanded: seq<Item>, contents: map<string, Blob>)
    ensures pending == queue + Items(Children(zip, members))
    ensures expanded == out + Items(Children(zip, members))
    ensures stored == Stored(store, Children(zip, members))
    ensures contents == Stored(outBlobs, Children(zip, members))
  {
    pending, stored, expanded, contents := queue, store, out, outBlobs;
    ghost var all := Children(zip, members);
    for i := 0 to |members|
      invariant pending == queue + Items(all[..i]) && expanded == out + Items(all[..i])
      invariant stored == Stored(store, all[..i]) && contents == Stored(outBlobs, all[..i])
    {
      var child := Item(ChildId(zip.id, i + 1), members[i].name, zip.origin);
      assert all[..i + 1] == all[..i] + [Child(child, members[i].content)];
      StoredSnoc(store, all[..i], Child(child, members[i].content));
      StoredSnoc(outBlobs, all[..i], Child(child, members[i].content));
      hide ChildId; hide Stored;
      stored := stored[child.id := members[i].content];
      pending, expanded := pending + [child], expanded + [child];
      contents := contents[child.id := members[i].content];
    }
    assert all[..|members|] == all;
  }
}
