/** What `expand_zip` takes out of an archive, in terms of the characters of the names. */
module ArchiveContents {
  import opened Options
  import opened Texts
  import opened Archive

  // ----- names ----------------------------------------------------------------------------------------------------

  /** c is the lower case letter, digit or dot l in either case. */
  predicate SameLetter(c: char, l: char) {
    c == l || ('a' <= l <= 'z' && c as int + 32 == l as int)
  }

  predicate EndsIn(name: string, suffix: string) {
    |suffix| <= |name| && forall i | 0 <= i < |suffix| :: SameLetter(name[|name| - |suffix| + i], suffix[i])
  }

  predicate IsSuffix(suffix: string) {
    suffix == ".pdf" || suffix == ".docx" || suffix == ".xml"
  }

  predicate NamesDocument(name: string) {
    EndsIn(name, ".pdf") || EndsIn(name, ".docx") || EndsIn(name, ".xml")
  }

  /** s is the name with slashes for backslashes. */
  predicate WithSlashes(name: string, s: string) {
    |s| == |name| && forall i | 0 <= i < |name| :: (s[i] == '/' <==> name[i] == '/' || name[i] == '\\')
                                                  && (s[i] != '/' ==> s[i] == name[i])
  }

  /** From i to j the name has a whole step between slashes. */
  predicate StepAt(s: string, i: int, j: int) {
    && 0 <= i <= j <= |s| && (i == 0 || s[i - 1] == '/') && (j == |s| || s[j] == '/')
    && forall k | i <= k < j :: s[k] != '/'
  }

  /** A relative path without empty, current and parent steps. */
  ghost predicate Proper(s: string) {
    forall i, j | StepAt(s, i, j) :: s[i..j] != "" && s[i..j] != "." && s[i..j] != ".."
  }

  /** b is the last step. */
  predicate LastStep(s: string, b: string) {
    |b| <= |s| && StepAt(s, |s| - |b|, |s|) && s[|s| - |b|..] == b
  }

  lemma LowerLetter(c: char, l: char)
    requires 'a' <= l <= 'z' || l == '.'
    ensures LowerChar(c) == l <==> SameLetter(c, l)
  {
  }

  lemma SuffixLetters(suffix: string, i: nat)
    requires IsSuffix(suffix) && i < |suffix|
    ensures 'a' <= suffix[i] <= 'z' || suffix[i] == '.'
    ensures suffix[i] == '.' <==> i == 0
  {
  }

  lemma LowerTail(name: string, suffix: string)
    requires IsSuffix(suffix) && |suffix| <= |name|
    ensures Lower(name[|name| - |suffix|..]) == suffix <==> EndsIn(name, suffix)
  {
    var at := |name| - |suffix|;
    forall i | 0 <= i < |suffix|
      ensures Lower(name[at..])[i] == suffix[i] <==> SameLetter(name[at + i], suffix[i])
    {
      SuffixLetters(suffix, i);
      LastLower(name[at..], i);
      LowerLetter(name[at + i], suffix[i]);
    }
    hide SameLetter; hide LowerChar;
    assert |Lower(name[at..])| == |suffix|;
  }

  lemma EndingHasLastDot(name: string, suffix: string)
    requires IsSuffix(suffix) && EndsIn(name, suffix)
    ensures LastIndex(name, '.') == |name| - |suffix|
  {
    var at := |name| - |suffix|;
    SuffixLetters(suffix, 0);
    assert SameLetter(name[at + 0], suffix[0]);
    forall i | at < i < |name| ensures name[i] != '.' {
      SuffixLetters(suffix, i - at);
      assert SameLetter(name[at + (i - at)], suffix[i - at]);
    }
  }

  lemma SuffixIs(name: string, suffix: string)
    requires IsSuffix(suffix)
    ensures Suffix(name) == suffix <==> EndsIn(name, suffix)
  {
    var dot := LastIndex(name, '.');
    if EndsIn(name, suffix) {
      EndingHasLastDot(name, suffix);
      LowerTail(name, suffix);
    }
    hide EndsIn;
    if Suffix(name) == suffix {
      assert dot >= 0 && |suffix| == |name| - dot;
      LowerTail(name, suffix);
    }
  }

  lemma DocumentNames(name: string)
    ensures IsDocumentName(name) <==> NamesDocument(name)
  {
    SuffixIs(name, ".pdf");
    SuffixIs(name, ".docx");
    SuffixIs(name, ".xml");
    hide Suffix; hide EndsIn;
  }

  lemma SlashedIs(name: string)
    ensures WithSlashes(name, Slashed(name))
  {
  }

  lemma OneSlashed(name: string, s: string)
    requires WithSlashes(name, s)
    ensures s == Slashed(name)
  {
  }

  lemma BaseIsLastStep(s: string)
    ensures LastStep(s, BaseName(s))
    ensures forall b | LastStep(s, b) :: b == BaseName(s)
  {
    hide LastStep;
    BaseIsOne(s);
    forall b | LastStep(s, b) ensures b == BaseName(s) {
      LastStepStart(s, b);
    }
  }

  lemma BaseIsOne(s: string)
    ensures LastStep(s, BaseName(s))
  {
    var p := LastIndex(s, '/');
    assert |s| - |BaseName(s)| == p + 1;
  }

  lemma LastStepStart(s: string, b: string)
    requires LastStep(s, b)
    ensures b == BaseName(s)
  {
    var p, i := LastIndex(s, '/'), |s| - |b|;
    assert (p >= 0 ==> p < i) && (i > 0 ==> i - 1 <= p);
  }

  ghost predicate HasStep(s: string, x: string) {
    exists i, j :: StepAt(s, i, j) && s[i..j] == x
  }

  lemma OneStep(s: string, x: string)
    requires LastIndex(s, '/') < 0
    ensures HasStep(s, x) <==> x == s
  {
    assert StepAt(s, 0, |s|) && s[0..|s|] == s;
    forall i, j | StepAt(s, i, j) ensures i == 0 && j == |s| {
    }
    hide StepAt; hide LastIndex;
  }

  lemma FrontStep(s: string, p: nat, i: int, j: int)
    requires p < |s| && s[p] == '/' && StepAt(s[..p], i, j)
    ensures StepAt(s, i, j) && s[i..j] == s[..p][i..j]
  {
  }

  lemma StepInFront(s: string, p: nat, i: int, j: int)
    requires p < |s| && s[p] == '/' && (forall k | p < k < |s| :: s[k] != '/') && StepAt(s, i, j)
    ensures (i == p + 1 && j == |s|) || (j <= p && StepAt(s[..p], i, j) && s[i..j] == s[..p][i..j])
  {
    if i <= p {
      assert j <= p;
    }
  }

  lemma LastOfSteps(s: string, x: string)
    requires LastIndex(s, '/') >= 0
    ensures var p := LastIndex(s, '/'); HasStep(s, x) <==> HasStep(s[..p], x) || x == s[p + 1..]
  {
    var p := LastIndex(s, '/');
    var front := s[..p];
    assert StepAt(s, p + 1, |s|) && s[p + 1..|s|] == s[p + 1..];
    StepsInside(s);
    StepsInside(front);
    hide StepAt; hide LastIndex;
    if i, j :| StepAt(front, i, j) && front[i..j] == x {
      FrontStep(s, p, i, j);
    }
    if i, j :| StepAt(s, i, j) && s[i..j] == x {
      StepInFront(s, p, i, j);
    }
  }

  lemma StepsInside(s: string)
    ensures forall i, j | StepAt(s, i, j) :: 0 <= i <= j <= |s|
  {
  }

  /** The steps of a path are what it splits into. */
  lemma {:induction false} SplitSteps(s: string, x: string)
    ensures x in Split(s, '/') <==> HasStep(s, x)
    decreases |s|
  {
    hide HasStep; hide LastIndex;
    var p := LastIndex(s, '/');
    if p < 0 {
      OneStep(s, x);
    } else {
      LastOfSteps(s, x);
      SplitSteps(s[..p], x);
    }
  }

  lemma UnsafeIs(s: string)
    ensures !Unsafe(s) <==> Proper(s)
  {
    SplitSteps(s, "");
    SplitSteps(s, ".");
    SplitSteps(s, "..");
    hide Split;
    if s == "" || s[0] == '/' {
      assert StepAt(s, 0, 0) && s[0..0] == "";
    }
    if !Proper(s) {
      var i, j :| StepAt(s, i, j) && (s[i..j] == "" || s[i..j] == "." || s[i..j] == "..");
    }
  }

  // ----- contents -------------------------------------------------------------------------------------------------

  predicate IsFileOf(e: Entry) {
    !e.dir && NamesDocument(Slashed(e.name))
  }

  /** The archive may be read: every file has a proper name and every document a content. */
  ghost predicate Sane(entries: seq<Entry>) {
    forall k | 0 <= k < |entries| && !entries[k].dir ::
      Proper(Slashed(entries[k].name)) && (NamesDocument(Slashed(entries[k].name)) ==> entries[k].content.Some?)
  }

  /** The members are the documents at these places, in their order, each under the last step of its name. */
  ghost predicate TakenFrom(entries: seq<Entry>, at: seq<nat>, members: seq<Member>) {
    && |at| == |members| && (forall i, j | 0 <= i < j < |at| :: at[i] < at[j])
    && (forall k: nat | k < |entries| :: k in at <==> IsFileOf(entries[k]))
    && (forall i | 0 <= i < |at| ::
          at[i] < |entries| && LastStep(Slashed(entries[at[i]].name), members[i].name)
          && entries[at[i]].content == Some(members[i].content))
  }

  ghost predicate ComesOut(entries: seq<Entry>, members: seq<Member>) {
    exists at :: TakenFrom(entries, at, members)
  }

  lemma TakenNext(entries: seq<Entry>, k: nat, at: seq<nat>, members: seq<Member>, m: Member)
    requires k < |entries| && TakenFrom(entries[..k], at, members)
    ensures !IsFileOf(entries[k]) ==> TakenFrom(entries[..k + 1], at, members)
    ensures IsFileOf(entries[k]) && LastStep(Slashed(entries[k].name), m.name)
            && entries[k].content == Some(m.content) ==>
              TakenFrom(entries[..k + 1], at + [k], members + [m])
  {
    hide IsFileOf; hide LastStep; hide Slashed;
    var now := entries[..k + 1];
    forall i | 0 <= i < |at| ensures at[i] < k && now[at[i]] == entries[..k][at[i]] {
    }
    assert now[k] == entries[k] && forall n: nat | n < k :: now[n] == entries[..k][n];
    assert k !in at;
    var more := at + [k];
    assert forall n: nat :: n in more <==> n in at || n == k;
    assert forall i, j | 0 <= i < j < |more| :: more[i] < more[j];
  }

  lemma {:induction false} DocumentsTaken(entries: seq<Entry>, n: nat)
    requires n <= |entries|
    ensures Documents(entries[..n]).Some? <==> Sane(entries[..n])
    ensures Documents(entries[..n]).Some? ==> ComesOut(entries[..n], Documents(entries[..n]).value)
    decreases n
  {
    if n == 0 {
        assert entries[..0] == [] && TakenFrom([], [], []);
    } else {
      DocumentsTaken(entries, n - 1);
      hide *;
      SaneNext(entries, n - 1);
      if Documents(entries[..n - 1]).Some? {
        DocumentsNext(entries, n - 1);
      } else {
        assert entries[..n][..n - 1] == entries[..n - 1];
        DocumentsStop(entries[..n], n - 1);
      }
    }
  }

  lemma SaneNext(entries: seq<Entry>, k: nat)
    requires k < |entries|
    ensures Sane(entries[..k + 1]) <==> Sane(entries[..k]) && SaneEntry(entries[k])
  {
    hide Proper; hide NamesDocument; hide Slashed;
    assert entries[..k + 1] == entries[..k] + [entries[k]];
    forall i | 0 <= i < k ensures entries[..k + 1][i] == entries[..k][i] {
    }
    if Sane(entries[..k + 1]) {
      assert entries[..k + 1][k] == entries[k];
    }
  }

  ghost predicate SaneEntry(e: Entry) {
    !e.dir ==> Proper(Slashed(e.name)) && (NamesDocument(Slashed(e.name)) ==> e.content.Some?)
  }

  lemma OneMore(entries: seq<Entry>, k: nat) returns (m: Member)
    requires k < |entries| && Documents(entries[..k]).Some?
    ensures Documents(entries[..k + 1]).Some? <==> SaneEntry(entries[k])
    ensures SaneEntry(entries[k]) && !IsFileOf(entries[k]) ==> Documents(entries[..k + 1]) == Documents(entries[..k])
    ensures SaneEntry(entries[k]) && IsFileOf(entries[k]) ==>
              && Documents(entries[..k + 1]) == Some(Documents(entries[..k]).value + [m])
              && LastStep(Slashed(entries[k].name), m.name) && entries[k].content == Some(m.content)
  {
    var e, name := entries[k], Slashed(entries[k].name);
    DocumentsSnoc(entries, k);
    DocumentNames(name);
    UnsafeIs(name);
    BaseIsLastStep(name);
    hide Documents; hide Slashed; hide Unsafe; hide IsDocumentName; hide NamesDocument; hide LastStep; hide BaseName;
    hide Proper;
    m := Member(BaseName(name), if e.content.Some? then e.content.value else 0);
  }

  lemma DocumentsNext(entries: seq<Entry>, k: nat)
    requires k < |entries| && Documents(entries[..k]).Some?
    requires ComesOut(entries[..k], Documents(entries[..k]).value)
    ensures Documents(entries[..k + 1]).Some? <==> SaneEntry(entries[k])
    ensures Documents(entries[..k + 1]).Some? ==>
              ComesOut(entries[..k + 1], Documents(entries[..k + 1]).value)
  {
    var m := OneMore(entries, k);
    hide Documents; hide LastStep; hide IsFileOf; hide SaneEntry; hide TakenFrom; hide Slashed;
    var before := Documents(entries[..k]).value;
    var at :| TakenFrom(entries[..k], at, before);
    TakenNext(entries, k, at, before, m);
  }

  /** An archive is expanded if and only if every file in it has a proper name, every document a content, and there are
      one to forty documents; what comes out is then one member for each document, in the order of the entries. */
  lemma ExpandExactly(entries: seq<Entry>)
    ensures Expand(entries).Some? <==>
            Sane(entries) && exists members :: ComesOut(entries, members) && 1 <= |members| <= 40
    ensures Expand(entries).Some? ==> ComesOut(entries, Expand(entries).value)
  {
    DocumentsTaken(entries, |entries|);
    assert entries[..|entries|] == entries;
    hide Documents; hide Sane; hide TakenFrom;
    if Sane(entries) {
      var members := Documents(entries).value;
      var at :| TakenFrom(entries, at, members);
      forall others | ComesOut(entries, others) ensures |others| == |members| {
        var places :| TakenFrom(entries, places, others);
        SamePlaces(entries, at, members, places, others);
      }
    }
  }

  lemma SamePlaces(entries: seq<Entry>, a: seq<nat>, m: seq<Member>, b: seq<nat>, n: seq<Member>)
    requires TakenFrom(entries, a, m) && TakenFrom(entries, b, n)
    ensures |m| == |n|
  {
    hide IsFileOf; hide LastStep; hide Slashed;
    forall k: nat ensures k in a <==> k in b {
      if k in a {
        var i :| 0 <= i < |a| && a[i] == k;
      }
      if k in b {
        var i :| 0 <= i < |b| && b[i] == k;
      }
    }
    IncreasingCount(a);
    IncreasingCount(b);
    assert Places(a) == Places(b);
  }

  ghost function Places(a: seq<nat>): set<nat> {
    set k | k in a
  }

  lemma {:induction false} IncreasingCount(a: seq<nat>)
    requires forall i, j | 0 <= i < j < |a| :: a[i] < a[j]
    ensures |Places(a)| == |a|
  {
    if a != [] {
      var init, last := a[..|a| - 1], a[|a| - 1];
      IncreasingCount(init);
      assert a == init + [last];
      assert last !in init;
      assert forall k: nat :: k in a <==> k in init || k == last;
      assert Places(a) == Places(init) + {last};
    }
  }

  /** So no document is lost, whatever the case of its suffix. */
  lemma EveryDocumentComesOut(entries: seq<Entry>, k: nat)
    requires Expand(entries).Some? && k < |entries| && !entries[k].dir && NamesDocument(Slashed(entries[k].name))
    ensures exists m :: m in Expand(entries).value && entries[k].content == Some(m.content)
                        && LastStep(Slashed(entries[k].name), m.name)
  {
    ExpandExactly(entries);
    hide Expand; hide NamesDocument; hide LastStep; hide Slashed; hide Sane;
    var members := Expand(entries).value;
    var at :| TakenFrom(entries, at, members);
    var i :| 0 <= i < |at| && at[i] == k;
    assert members[i] in members;
  }
}
