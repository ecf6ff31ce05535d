/** `expand_zip` (application/archive_expand.py): the documents of an archive, or nothing where the source raises.
    Names are compared in ASCII lower case. */
module Archive {
  import opened Options
  import opened Texts

  type Blob = int

  /** An entry of the central directory; the content is missing when it cannot be read. */
  datatype Entry = Entry(name: string, dir: bool, content: Option<Blob>)

  datatype Member = Member(name: string, content: Blob)

  const MAX_MEMBERS := 40

  function LowerChar(c: char): char {
    if 'A' <= c <= 'Z' then (c as int + 32) as char else c
  }

  function Lower(s: string): string {
    seq(|s|, i requires 0 <= i < |s| => LowerChar(s[i]))
  }

  predicate EndsWith(name: string, suffix: string) {
    |suffix| <= |name| && Lower(name)[|name| - |suffix|..] == suffix
  }

  /** `_suffix`: from the last dot on, in lower case. */
  function Suffix(name: string): string {
    var dot := LastIndex(name, '.');
    if dot < 0 then "" else Lower(name[dot..])
  }

  predicate IsDocumentName(name: string) {
    Suffix(name) == ".pdf" || Suffix(name) == ".docx" || Suffix(name) == ".xml"
  }

  function Slashed(name: string): string {
    seq(|name|, i requires 0 <= i < |name| => if name[i] == '\\' then '/' else name[i])
  }

  /** `_unsafe_name`: absolute, or with an empty, current or parent step. */
  predicate Unsafe(name: string) {
    name == "" || name[0] == '/' || "" in Split(name, '/') || "." in Split(name, '/') || ".." in Split(name, '/')
  }

  function BaseName(name: string): string {
    name[LastIndex(name, '/') + 1..]
  }

  /** The documents among the entries, under their base names; nothing at the first unsafe name or unreadable
      document. */
  function Documents(entries: seq<Entry>): Option<seq<Member>> {
    if entries == [] then Some([])
    else
      var before, e := Documents(entries[..|entries| - 1]), entries[|entries| - 1];
      var name := Slashed(e.name);
      if before == None then None
      else if e.dir then before
      else if Unsafe(name) then None
      else if !IsDocumentName(name) then before
      else match e.content
        case None => None
        case Some(content) => Some(before.value + [Member(BaseName(name), content)])
  }

  /** `expand_zip` on the entries of a readable archive that is no bomb. */
  function Expand(entries: seq<Entry>): Option<seq<Member>> {
    var documents := Documents(entries);
    if documents == None || |documents.value| > MAX_MEMBERS || documents.value == [] then None else documents
  }

  lemma {:induction false} DocumentsStop(entries: seq<Entry>, n: nat)
    requires n <= |entries| && Documents(entries[..n]) == None
    ensures Documents(entries) == None
  {
    if n < |entries| {
      assert entries[..|entries| - 1][..n] == entries[..n];
      DocumentsStop(entries[..|entries| - 1], n);
    } else {
      assert entries[..n] == entries;
    }
  }

  lemma DocumentsSnoc(entries: seq<Entry>, i: nat)
    requires i < |entries| && Documents(entries[..i]).Some?
    ensures var before, e, name := Documents(entries[..i]).value, entries[i], Slashed(entries[i].name);
            Documents(entries[..i + 1]) ==
            if e.dir then Some(before)
            else if Unsafe(name) then None
            else if !IsDocumentName(name) then Some(before)
            else if e.content == None then None
            else Some(before + [Member(BaseName(name), e.content.value)])
  {
    assert entries[..i + 1][..i] == entries[..i];
  }

  /** The loop of `expand_zip`. */
  method ExpandZip(entries: seq<Entry>) returns (members: Option<seq<Member>>)
    ensures members == Expand(entries)
  {
    var documents: seq<Member> := [];
    for i := 0 to |entries|
      invariant Documents(entries[..i]) == Some(documents)
    {
      DocumentsSnoc(entries, i);
      hide *;
      var e := entries[i];
      if !e.dir {
        var name := Slashed(e.name);
        if Unsafe(name) {
          DocumentsStop(entries, i + 1);
          return None;
        }
        if IsDocumentName(name) {
          if e.content == None {
            DocumentsStop(entries, i + 1);
            return None;
          }
          documents := documents + [Member(BaseName(name), e.content.value)];
        }
      }
    }
    assert entries[..|entries|] == entries;
    if |documents| > MAX_MEMBERS || documents == [] {
      return None;
    }
    return Some(documents);
  }

  // ----- members are documents --------------------------------------------------------------------------------

  lemma LastLower(s: string, k: nat)
    requires k < |s|
    ensures |Lower(s)| == |s| && Lower(s)[k] == LowerChar(s[k])
  {
  }

  lemma SuffixHasNoSlash(suffix: string, k: nat)
    requires suffix in {".pdf", ".docx", ".xml"} && k < |suffix|
    ensures suffix[k] != '/'
  {
  }

  lemma SlashBeforeDot(name: string)
    requires Suffix(name) in {".pdf", ".docx", ".xml"}
    ensures LastIndex(name, '/') < LastIndex(name, '.')
  {
    var dot, slash := LastIndex(name, '.'), LastIndex(name, '/');
    if slash > dot {
      var tail := name[dot..];
      LastLower(tail, slash - dot);
      SuffixHasNoSlash(Suffix(name), slash - dot);
    }
  }

  lemma TailEnds(base: string, k: nat, suffix: string)
    requires k <= |base| && Lower(base[k..]) == suffix
    ensures EndsWith(base, suffix)
  {
    assert |suffix| == |base| - k;
    assert Lower(base)[k..] == suffix;
  }

  lemma TailOfTail(name: string, a: nat, b: nat)
    requires a <= b <= |name|
    ensures name[a..][b - a..] == name[b..]
  {
  }

  /** The suffix of a document name is the end of its base name. */
  lemma BaseKeepsSuffix(name: string, suffix: string)
    requires Suffix(name) == suffix && suffix in {".pdf", ".docx", ".xml"}
    ensures EndsWith(BaseName(name), suffix)
  {
    SlashBeforeDot(name);
    hide Lower; hide EndsWith;
    var dot, slash := LastIndex(name, '.'), LastIndex(name, '/');
    assert dot >= 0;
    TailOfTail(name, slash + 1, dot);
    TailEnds(BaseName(name), dot - (slash + 1), suffix);
  }

  lemma OneEnding(name: string, a: string, b: string)
    requires a != "" && b != "" && EndsWith(name, a) && EndsWith(name, b)
    ensures a[|a| - 1] == b[|b| - 1]
  {
    assert Lower(name)[|name| - |a|..][|a| - 1] == Lower(name)[|name| - 1];
    assert Lower(name)[|name| - |b|..][|b| - 1] == Lower(name)[|name| - 1];
  }

  predicate IsZip(name: string) {
    EndsWith(name, ".zip")
  }

  predicate IsDocument(name: string) {
    EndsWith(name, ".pdf") || EndsWith(name, ".docx") || EndsWith(name, ".xml")
  }

  /** A document name is no zip. */
  lemma DocumentIsNoZip(name: string)
    requires IsDocument(name)
    ensures !IsZip(name)
  {
    hide EndsWith;
    if IsZip(name) {
      var suffix := if EndsWith(name, ".pdf") then ".pdf" else if EndsWith(name, ".docx") then ".docx" else ".xml";
      OneEnding(name, suffix, ".zip");
    }
  }

  lemma BaseIsDocument(name: string)
    requires IsDocumentName(name)
    ensures IsDocument(BaseName(name))
  {
    hide BaseName; hide EndsWith; hide Suffix;
    BaseKeepsSuffix(name, Suffix(name));
  }

  lemma LastMember(entries: seq<Entry>, m: Member)
    requires entries != [] && Documents(entries).Some? && m in Documents(entries).value
    ensures Documents(entries[..|entries| - 1]).Some?
    ensures m in Documents(entries[..|entries| - 1]).value
            || (var e := entries[|entries| - 1];
                !e.dir && IsDocumentName(Slashed(e.name)) && m.name == BaseName(Slashed(e.name))
                && e.content == Some(m.content))
  {
    hide Slashed; hide BaseName; hide IsDocumentName; hide Unsafe;
  }

  ghost predicate ReadFrom(entries: seq<Entry>, m: Member) {
    exists e :: e in entries && !e.dir && m.name == BaseName(Slashed(e.name)) && e.content == Some(m.content)
  }

  lemma ReadFromMore(entries: seq<Entry>, m: Member)
    requires entries != []
    requires var e := entries[|entries| - 1];
             ReadFrom(entries[..|entries| - 1], m)
             || (!e.dir && m.name == BaseName(Slashed(e.name)) && e.content == Some(m.content))
    ensures ReadFrom(entries, m)
  {
    hide BaseName; hide Slashed;
    if ReadFrom(entries[..|entries| - 1], m) {
      var e :| e in entries[..|entries| - 1] && !e.dir && m.name == BaseName(Slashed(e.name))
               && e.content == Some(m.content);
      assert e in entries;
    } else {
      assert entries[|entries| - 1] in entries;
    }
  }

  /** Whatever comes out of an archive is a document by its name, and was read from an entry. */
  lemma {:induction false} MembersAreDocuments(entries: seq<Entry>, m: Member)
    requires Documents(entries).Some? && m in Documents(entries).value
    ensures IsDocument(m.name) && ReadFrom(entries, m)
  {
    assert entries != [];
    hide *;
    LastMember(entries, m);
    if m in Documents(entries[..|entries| - 1]).value {
      MembersAreDocuments(entries[..|entries| - 1], m);
    } else {
      BaseIsDocument(Slashed(entries[|entries| - 1].name));
    }
    ReadFromMore(entries, m);
  }
}
