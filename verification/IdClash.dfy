/** A given file that is read from the content of another: a zip "a" and a document given under the id "a__1". */
module IdClash {
  import opened Options
  import opened Texts
  import opened Archive
  import opened Worklist
  import opened Expansion
  import opened Reruns

  const ZIP := Item("a", "a.zip", 0)
  const PDF := Item("a__1", "b.pdf", 0)
  const BLOBS: map<string, Blob> := map["a" := 1, "a__1" := 2]
  const ENTRY := Entry("x.pdf", false, Some(7))
  const MEMBER := Member("x.pdf", 7)
  const READER := Reader((raw: Blob) => Some([ENTRY]), (kind: Kind, raw: Blob) => Read(false))

  lemma EntryName()
    ensures Slashed("x.pdf") == "x.pdf" && !Unsafe("x.pdf") && IsDocumentName("x.pdf") && BaseName("x.pdf") == "x.pdf"
  {
    var name := "x.pdf";
    assert name[0] == 'x' && name[1] == '.' && name[2] == 'p' && name[3] == 'd' && name[4] == 'f';
    assert LastIndex(name, '.') == 1 && LastIndex(name, '/') == -1;
    assert Lower(name[1..]) == ".pdf";
    assert Split(name, '/') == [name];
  }

  lemma EntryComesOut()
    ensures Expand([ENTRY]) == Some([MEMBER])
  {
    EntryName();
    hide IsDocumentName; hide Unsafe; hide BaseName; hide Slashed;
    assert [ENTRY][..0] == [] && Documents([]) == Some([]);
    assert Documents([ENTRY]) == Some([] + [MEMBER]);
    assert [] + [MEMBER] == [MEMBER];
    assert |[MEMBER]| == 1 <= MAX_MEMBERS;
  }

  lemma LowerNames()
    ensures Lower("a.zip") == "a.zip" && Lower("b.pdf") == "b.pdf"
  {
  }

  lemma ZipKind()
    ensures KindOf("a.zip") == Zip
  {
    LowerNames();
    hide Lower;
    assert "a.zip"[1..] == ".zip" && "a.zip"[0..] == "a.zip";
    assert "a.zip"[1..] != ".xml";
  }

  lemma PdfKind()
    ensures KindOf("b.pdf") == Pdf
  {
    LowerNames();
    hide Lower;
    assert "b.pdf"[1..] == ".pdf" && "b.pdf"[0..] == "b.pdf" && "b.pdf"[2..] == "pdf";
    assert ".pdf" != ".zip" && ".pdf" != ".xml" && "b.pdf" != ".docx" && "pdf" != ".7z" && ".pdf" != ".rar";
  }

  lemma ZipOpens()
    ensures TakenOwn([], ZIP, BLOBS, READER) == Taken(ZIP, Opened([MEMBER]))
  {
    EntryComesOut();
    ZipKind();
    hide Expand; hide KindOf;
    assert ZIP.id !in IdsOf([]);
  }

  lemma MemberBorn()
    ensures Children(ZIP, [MEMBER]) == [Child(Item("a__1", "x.pdf", 0), 7)]
  {
    assert Numeral(1) == "1";
    assert ChildId("a", 1) == "a__1";
  }

  lemma ZipYields()
    ensures Born(Opening([ZIP], BLOBS, READER)) == [Child(Item("a__1", "x.pdf", 0), 7)]
  {
    ZipOpens();
    MemberBorn();
    hide TakenOwn; hide Children;
    var t := Taken(ZIP, Opened([MEMBER]));
    assert [ZIP][..0] == [] && [t][..0] == [];
    assert Opening([ZIP], BLOBS, READER) == [t];
    assert Born([t]) == Born([]) + ChildrenOf(t);
  }

  /** The document given as "a__1" gets the page of the one in the zip, and none of its own. */
  lemma MemberReplacesGiven(log: seq<Taken>)
    requires Complete([ZIP, PDF], BLOBS, READER, log)
    ensures ("a__1", 7) in Pages(log) && ("a__1", 2) !in Pages(log)
  {
    hide Complete; hide Opening; hide Born; hide Pages; hide KindOf; hide FateOf; hide Follows; hide Children;
    hide Stored; hide Queue; hide First; hide Reading;
    var files := [ZIP, PDF];
    AllTaken(files, BLOBS, READER, log);
    ReadsMember(log);
    FirstOfTwo();
    GivenFirst(files, log, 1);
    QueueGiven(files, log, 1);
    PdfKind();
    PagesExactly(files, BLOBS, READER, log, 1, 7);
    PagesExactly(files, BLOBS, READER, log, 1, 2);
  }

  lemma FirstOfTwo()
    ensures First([ZIP, PDF], 1)
  {
    assert [ZIP, PDF][0].id == "a" && [ZIP, PDF][1].id == "a__1" && |"a"| != |"a__1"|;
  }

  lemma ReadsMember(log: seq<Taken>)
    requires Complete([ZIP, PDF], BLOBS, READER, log) && |log| >= 2
    ensures Reading(BLOBS, log, 1) == Some(7)
  {
    hide Complete; hide Opening; hide Born; hide KindOf; hide FateOf; hide Follows; hide Children; hide Stored;
    hide Queue; hide Reading; hide Supplants; hide Expand;
    var files, c := [ZIP, PDF], Child(Item("a__1", "x.pdf", 0), 7);
    AllTaken(files, BLOBS, READER, log);
    FirstIsOwn(log);
    ZipYields();
    TakenAt(files, BLOBS, READER, log, 1);
    QueueGiven(files, log, 1);
    IsSupplanted(log, 1, c);
    GivenReads(files, BLOBS, READER, log, 1);
  }

  lemma FirstIsOwn(log: seq<Taken>)
    requires Complete([ZIP, PDF], BLOBS, READER, log) && |log| >= 1
    ensures log[..1] == Opening([ZIP], BLOBS, READER)
  {
    var files := [ZIP, PDF];
    AllTaken(files, BLOBS, READER, log);
    assert files[..1] == [ZIP] && files[..0] == [];
    assert Born(Opening([], BLOBS, READER)) == [];
    hide Complete; hide Opening; hide Born; hide Follows;
    OwnUpTo(files, BLOBS, READER, log, 1);
    OwnSoFar(files, BLOBS, READER, log, 1);
  }
}
