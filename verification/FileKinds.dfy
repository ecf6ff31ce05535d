/** What the worklist does with a file, by the end of its name in whatever case. */
module FileKinds {
  import opened Options
  import opened Archive
  import opened ArchiveContents
  import opened Worklist

  /** Small letters, digits and dots. */
  predicate Plainly(suffix: string) {
    forall i | 0 <= i < |suffix| :: 'a' <= suffix[i] <= 'z' || '0' <= suffix[i] <= '9' || suffix[i] == '.'
  }

  lemma PlainLetter(c: char, l: char)
    requires 'a' <= l <= 'z' || '0' <= l <= '9' || l == '.'
    ensures LowerChar(c) == l <==> SameLetter(c, l)
  {
  }

  lemma EndsIs(name: string, suffix: string)
    requires Plainly(suffix)
    ensures EndsWith(name, suffix) <==> EndsIn(name, suffix)
  {
    if |suffix| <= |name| {
      var at := |name| - |suffix|;
      var tail := Lower(name)[at..];
      forall i | 0 <= i < |suffix| ensures tail[i] == suffix[i] <==> SameLetter(name[at + i], suffix[i]) {
        LastLower(name, at + i);
        PlainLetter(name[at + i], suffix[i]);
      }
      hide SameLetter; hide LowerChar; hide Lower;
      if EndsIn(name, suffix) {
        assert tail == suffix;
      }
    }
  }

  /** Texts, zips, closed archives and drawings by their suffixes; a name ends in one of them at most. */
  lemma KindExactly(name: string)
    ensures KindOf(name) == Docx <==> EndsIn(name, ".docx")
    ensures KindOf(name) == Xml <==> EndsIn(name, ".xml")
    ensures KindOf(name) == Zip <==> EndsIn(name, ".zip")
    ensures KindOf(name) == Sealed <==> EndsIn(name, ".7z") || EndsIn(name, ".rar")
    ensures KindOf(name) == Pdf <==> EndsIn(name, ".pdf")
    ensures KindOf(name) == Foreign <==>
            !(EndsIn(name, ".docx") || EndsIn(name, ".xml") || EndsIn(name, ".zip") || EndsIn(name, ".7z")
              || EndsIn(name, ".rar") || EndsIn(name, ".pdf"))
  {
    EndsIs(name, ".docx");
    EndsIs(name, ".xml");
    EndsIs(name, ".zip");
    EndsIs(name, ".7z");
    EndsIs(name, ".rar");
    EndsIs(name, ".pdf");
    OneEnd(name, ".docx", ".xml");
    OneEnd(name, ".docx", ".zip");
    OneEnd(name, ".docx", ".7z");
    OneEnd(name, ".docx", ".rar");
    OneEnd(name, ".docx", ".pdf");
    OneEnd(name, ".xml", ".zip");
    OneEnd(name, ".xml", ".7z");
    OneEnd(name, ".xml", ".rar");
    OneEnd(name, ".xml", ".pdf");
    OneEnd(name, ".zip", ".7z");
    OneEnd(name, ".zip", ".rar");
    OneEnd(name, ".zip", ".pdf");
    OneEnd(name, ".7z", ".pdf");
    OneEnd(name, ".rar", ".pdf");
    hide EndsWith; hide EndsIn;
  }

  lemma OneEnd(name: string, a: string, b: string)
    requires a != "" && b != "" && a[|a| - 1] != b[|b| - 1]
    ensures !(EndsWith(name, a) && EndsWith(name, b))
  {
    hide EndsWith;
    if EndsWith(name, a) && EndsWith(name, b) {
      OneEnding(name, a, b);
    }
  }

  /** What becomes of a file whose id was not seen yet. */
  lemma FateExactly(item: Item, raw: Option<Blob>, reader: Reader)
    ensures var fate := FateOf(item, false, raw, reader);
            && (EndsIn(item.name, ".7z") || EndsIn(item.name, ".rar") ==> fate == Failed(NotExpanded))
            && (KindOf(item.name) == Foreign ==> fate == Failed(Unsupported))
            && (KindOf(item.name) in {Docx, Xml, Pdf, Zip} && raw == None ==> fate == Failed(NoContent))
            && (raw.Some? && EndsIn(item.name, ".zip") ==>
                  fate == match reader.open(raw.value)
                          case None => Failed(BadZip)
                          case Some(entries) => (match Expand(entries)
                                                 case None => Failed(BadZip) case Some(members) => Opened(members)))
            && (raw.Some? && KindOf(item.name) in {Docx, Xml, Pdf} ==>
                  fate == match reader.read(KindOf(item.name), raw.value)
                          case Unread => Failed(Unreadable)
                          case Read(skipped) => Page(raw.value, skipped && EndsIn(item.name, ".docx")))
    ensures FateOf(item, true, raw, reader) == Failed(Repeated)
  {
    KindExactly(item.name);
    hide KindOf; hide EndsIn; hide Expand;
  }
}
