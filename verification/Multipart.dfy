/** The gateway's streaming look at an upload (limits.js): boundary markers are found by a plain scan,
    each slice between two of them is one part (section 5.1.1 of RFC 2046, form parts as in section 4
    of RFC 7578), and only parts with a file name are sized. */
module Multipart {
  import opened Options

  newtype byte = b: int | 0 <= b < 256

  type Bytes = seq<byte>

  const CR: byte := 13
  const LF: byte := 10
  const DASH: byte := 45
  const CRLF: Bytes := [CR, LF]
  const BLANK: Bytes := [CR, LF, CR, LF]
  const DASHES: Bytes := [DASH, DASH]
  /** "filename=" in lower case. */
  const FILENAME: Bytes := [102, 105, 108, 101, 110, 97, 109, 101, 61]

  predicate At(body: Bytes, pattern: Bytes, i: nat) {
    i + |pattern| <= |body| && body[i..i + |pattern|] == pattern
  }

  /** `indexOf`: the first occurrence at or after `from`, or -1. */
  function Find(body: Bytes, pattern: Bytes, from: nat): (r: int)
    ensures r == -1 || (from <= r && At(body, pattern, r))
    ensures r == -1 ==> forall i: nat | from <= i :: !At(body, pattern, i)
    ensures r >= 0 ==> forall i: nat | from <= i < r :: !At(body, pattern, i)
    decreases |body| - from
  {
    if from > |body| then -1
    else if At(body, pattern, from) then from
    else Find(body, pattern, from + 1)
  }

  function Lower(s: Bytes): (r: Bytes)
    ensures |r| == |s|
  {
    if s == [] then [] else [if 65 <= s[0] <= 90 then s[0] + 32 else s[0]] + Lower(s[1..])
  }

  /** `/filename=/i.test(headers)` */
  predicate HasFilename(headers: Bytes) {
    Find(Lower(headers), FILENAME, 0) >= 0
  }

  /** `partFileSize`: the content length of one slice, or nothing when it is not a file part. */
  function PartFileSize(slice: Bytes, unfinished: bool): Option<nat> {
    if |slice| >= 2 && slice[..2] == DASHES then None
    else
      var inner := if |slice| >= 2 && slice[..2] == CRLF then slice[2..] else slice;
      var data :=
        if !unfinished && |inner| >= 2 && inner[|inner| - 2..] == CRLF then inner[..|inner| - 2] else inner;
      var headerEnd := Find(data, BLANK, 0);
      if headerEnd < 0 then (if unfinished then Some(0) else None)
      else if !HasFilename(data[..headerEnd]) then None
      else Some(|data| - headerEnd - 4)
  }

  predicate Apart(at: seq<nat>, gap: nat) {
    forall i, j | 0 <= i < j < |at| :: at[i] + gap <= at[j]
  }

  predicate AllAt(body: Bytes, pattern: Bytes, at: seq<nat>) {
    forall i | 0 <= i < |at| :: At(body, pattern, at[i])
  }

  /** The markers met by the scan, without overlaps. */
  function Markers(body: Bytes, marker: Bytes, from: nat): (r: seq<nat>)
    requires marker != []
    ensures AllAt(body, marker, r) && Apart(r, |marker|)
    ensures forall i | 0 <= i < |r| :: from <= r[i]
    decreases |body| - from
  {
    if from >= |body| then []
    else
      var at := Find(body, marker, from);
      if at < 0 then [] else [at] + Markers(body, marker, at + |marker|)
  }

  /** Sizes of the file parts between markers number 0..n. */
  function Sizes(body: Bytes, marker: Bytes, at: seq<nat>, n: nat): seq<nat>
    requires (n < |at| || n == 0) && AllAt(body, marker, at) && Apart(at, |marker|)
  {
    if n == 0 then []
    else
      assert At(body, marker, at[n - 1]) && At(body, marker, at[n]);
      Sizes(body, marker, at, n - 1) + Listed(PartFileSize(body[at[n - 1] + |marker|..at[n]], false))
  }

  function OrZero(size: Option<nat>): nat {
    match size { case None => 0 case Some(n) => n }
  }

  datatype FileState = FileState(complete: seq<nat>, open: nat)

  function StateOf(body: Bytes, boundary: Bytes): FileState {
    var marker := DASHES + boundary;
    var at := Markers(body, marker, 0);
    if at == [] then FileState([], 0)
    else
      FileState(
        Sizes(body, marker, at, |at| - 1),
        OrZero(PartFileSize(body[at[|at| - 1] + |marker|..], true)))
  }

  /** The scanning loop of `multipartFileState`. */
  method ScanMarkers(body: Bytes, marker: Bytes) returns (indexes: seq<nat>)
    requires marker != []
    ensures indexes == Markers(body, marker, 0)
  {
    hide At; hide Apart; hide AllAt;
    indexes := [];
    var from := 0;
    while from < |body|
      invariant indexes + Markers(body, marker, from) == Markers(body, marker, 0)
      decreases |body| - from
    {
      var at := Find(body, marker, from);
      if at < 0 { break; }
      indexes := indexes + [at];
      from := at + |marker|;
    }
  }

  /** `multipartFileState`. */
  method MultipartFileState(body: Bytes, boundary: Bytes) returns (state: FileState)
    ensures state == StateOf(body, boundary)
  {
    hide At; hide Apart; hide PartFileSize;
    var marker := DASHES + boundary;
    var indexes := ScanMarkers(body, marker);
    var complete := [];
    var open := 0;
    if indexes != [] {
      complete := SizeParts(body, marker, indexes);
      assert At(body, marker, indexes[|indexes| - 1]);
      AtInside(body, marker, indexes[|indexes| - 1]);
      var size := PartFileSize(body[indexes[|indexes| - 1] + |marker|..], true);
      if size.Some? {
        open := size.value;
      }
    }
    state := FileState(complete, open);
  }

  /** The sizing loop of `multipartFileState`. */
  method SizeParts(body: Bytes, marker: Bytes, indexes: seq<nat>) returns (complete: seq<nat>)
    requires indexes != [] && AllAt(body, marker, indexes) && Apart(indexes, |marker|)
    ensures complete == Sizes(body, marker, indexes, |indexes| - 1)
  {
    hide PartFileSize;
    complete := [];
    for i := 0 to |indexes| - 1
      invariant complete == Sizes(body, marker, indexes, i)
    {
      assert At(body, marker, indexes[i]) && At(body, marker, indexes[i + 1]);
      var size := PartFileSize(body[indexes[i] + |marker|..indexes[i + 1]], false);
      if size.Some? {
        complete := complete + [size.value];
      }
    }
  }

  lemma AtInside(body: Bytes, marker: Bytes, i: nat)
    requires At(body, marker, i)
    ensures i + |marker| <= |body|
  {
  }

  // ----- the encoder --------------------------------------------------------------------------------

  datatype Part = Part(headers: Bytes, content: Bytes)

  /** The blank line after the headers is the first one. */
  predicate GoodHeaders(p: Part) {
    Find(p.headers + BLANK, BLANK, 0) == |p.headers|
  }

  /** What stands between two markers. */
  function Inner(p: Part): Bytes {
    CRLF + (p.headers + BLANK + p.content) + CRLF
  }

  /** Whole parts, then a last marker followed by `rest`. */
  function Encode(parts: seq<Part>, marker: Bytes, rest: Bytes): Bytes {
    if parts == [] then marker + rest
    else marker + Inner(parts[0]) + Encode(parts[1..], marker, rest)
  }

  /** Where the encoder put the markers, `base` bytes into the body. */
  function Delimiters(parts: seq<Part>, marker: Bytes, base: nat): (r: seq<nat>)
    ensures |r| == |parts| + 1 && r[0] == base
  {
    if parts == [] then [base]
    else [base] + Delimiters(parts[1..], marker, base + |marker| + |Inner(parts[0])|)
  }

  ghost predicate OnlyAtDelimiters(parts: seq<Part>, marker: Bytes, rest: Bytes) {
    forall i: nat | At(Encode(parts, marker, rest), marker, i) :: i in Delimiters(parts, marker, 0)
  }

  /** Content lengths of the parts that carry a file name, in order. */
  function FileSizes(parts: seq<Part>): seq<nat> {
    if parts == [] then []
    else
      var last := parts[|parts| - 1];
      FileSizes(parts[..|parts| - 1]) + (if HasFilename(last.headers) then [|last.content|] else [])
  }

  // ----- one slice ------------------------------------------------------------------------------------

  /** The first blank line stays the first whatever follows. */
  lemma HeaderEndFound(p: Part, more: Bytes)
    requires GoodHeaders(p)
    ensures Find(p.headers + BLANK + more, BLANK, 0) == |p.headers|
  {
    var short, long := p.headers + BLANK, p.headers + BLANK + more;
    var n := |p.headers|;
    assert long[n..n + 4] == BLANK;
    assert At(long, BLANK, n);
    forall i: nat | i < n ensures !At(long, BLANK, i) {
      assert i + 4 <= |short| && long[i..i + 4] == short[i..i + 4];
      assert !At(short, BLANK, i);
    }
  }

  lemma WholePart(p: Part)
    requires GoodHeaders(p)
    ensures PartFileSize(Inner(p), false) == if HasFilename(p.headers) then Some(|p.content|) else None
  {
    var slice := Inner(p);
    var data := p.headers + BLANK + p.content;
    assert slice[..2] == CRLF && slice[2..] == data + CRLF;
    assert (data + CRLF)[|data|..] == CRLF && (data + CRLF)[..|data|] == data;
    HeaderEndFound(p, p.content);
    assert data[..|p.headers|] == p.headers;
    hide HasFilename;
  }

  lemma OpenPart(p: Part)
    requires GoodHeaders(p)
    ensures PartFileSize(CRLF + (p.headers + BLANK + p.content), true) ==
            if HasFilename(p.headers) then Some(|p.content|) else None
  {
    var data := p.headers + BLANK + p.content;
    var slice := CRLF + data;
    assert slice[..2] == CRLF && slice[2..] == data;
    HeaderEndFound(p, p.content);
    assert data[..|p.headers|] == p.headers;
    hide HasFilename;
  }

  // ----- the scan finds the delimiters ------------------------------------------------------------------

  /** The positions are spaced occurrences from `from` on, and no occurrence is missing. */
  ghost predicate Exactly(body: Bytes, marker: Bytes, from: nat, at: seq<nat>) {
    && AllAt(body, marker, at) && Apart(at, |marker|)
    && (forall i | 0 <= i < |at| :: from <= at[i])
    && (forall i: nat | from <= i && At(body, marker, i) :: i in at)
  }

  lemma ExactlyTail(body: Bytes, marker: Bytes, from: nat, at: seq<nat>)
    requires Exactly(body, marker, from, at) && at != [] && marker != []
    ensures Exactly(body, marker, at[0] + |marker|, at[1..])
  {
    hide At;
    forall i | 0 <= i < |at[1..]| ensures At(body, marker, at[1..][i]) && at[0] + |marker| <= at[1..][i] {
      assert At(body, marker, at[i + 1]);
    }
    forall i: nat | at[0] + |marker| <= i && At(body, marker, i) ensures i in at[1..] {
      assert i in at;
    }
  }

  lemma ExactlyHead(body: Bytes, marker: Bytes, from: nat, at: seq<nat>)
    requires Exactly(body, marker, from, at) && marker != []
    ensures at == [] ==> Find(body, marker, from) < 0
    ensures at != [] ==> Find(body, marker, from) == at[0] && from < |body|
  {
    if at != [] {
      assert At(body, marker, at[0]);
      hide At;
      FirstFound(body, marker, from, at);
    } else {
      hide At;
      assert forall i: nat :: i !in at;
    }
  }

  /** Then they are exactly what the scan meets. */
  lemma {:induction false} ScanMeets(body: Bytes, marker: Bytes, from: nat, at: seq<nat>)
    requires marker != [] && Exactly(body, marker, from, at)
    ensures Markers(body, marker, from) == at
    decreases |at|
  {
    hide Exactly; hide Find;
    ExactlyHead(body, marker, from, at);
    if at != [] {
      ExactlyTail(body, marker, from, at);
      ScanMeets(body, marker, at[0] + |marker|, at[1..]);
      assert at == [at[0]] + at[1..];
    }
  }

  lemma FirstFound(body: Bytes, marker: Bytes, from: nat, at: seq<nat>)
    requires at != [] && At(body, marker, at[0]) && Apart(at, |marker|) && from <= at[0]
    requires forall i: nat | from <= i && At(body, marker, i) :: i in at
    ensures Find(body, marker, from) == at[0]
  {
    hide At;
    var found := Find(body, marker, from);
    assert found in at;
  }

  /** Part i stands between its markers. */
  ghost predicate PartAt(body: Bytes, marker: Bytes, at: seq<nat>, i: nat, p: Part)
    requires i + 1 < |at|
  {
    && at[i + 1] == at[i] + |marker| + |Inner(p)| && at[i + 1] <= |body|
    && body[at[i] + |marker|..at[i + 1]] == Inner(p)
  }

  /** Markers and parts are where the encoder put them, and the last marker is followed by `rest`. */
  ghost predicate LaidOut(body: Bytes, parts: seq<Part>, marker: Bytes, rest: Bytes, at: seq<nat>) {
    && |at| == |parts| + 1
    && AllAt(body, marker, at)
    && (forall i | 0 <= i < |parts| :: PartAt(body, marker, at, i, parts[i]))
    && at[|parts|] + |marker| <= |body| && body[at[|parts|] + |marker|..] == rest
  }

  lemma ConcatSlices(before: Bytes, marker: Bytes, inner: Bytes, after: Bytes)
    ensures var body, b, m := before + (marker + inner + after), |before|, |before| + |marker|;
            && body == before + marker + inner + after
            && body[b..m] == marker && body[m..m + |inner|] == inner
  {
  }

  lemma {:induction false} Layout(before: Bytes, parts: seq<Part>, marker: Bytes, rest: Bytes)
    ensures LaidOut(before + Encode(parts, marker, rest), parts, marker, rest, Delimiters(parts, marker, |before|))
    decreases |parts|
  {
    var base := |before|;
    var body := before + Encode(parts, marker, rest);
    var at := Delimiters(parts, marker, base);
    if parts == [] {
      assert body[base..base + |marker|] == marker && body[base + |marker|..] == rest;
    } else {
      var inner := Inner(parts[0]);
      hide Inner;
      var before' := before + marker + inner;
      var at' := Delimiters(parts[1..], marker, |before'|);
      Layout(before', parts[1..], marker, rest);
      ConcatSlices(before, marker, inner, Encode(parts[1..], marker, rest));
      assert body == before' + Encode(parts[1..], marker, rest);
      assert at == [base] + at';
      assert At(body, marker, at[0]);
      assert PartAt(body, marker, at, 0, parts[0]);
      hide LaidOut; hide At; hide Encode; hide Delimiters; hide PartAt;
      assert at[1..] == at';
      LayoutCons(body, parts, marker, rest, at);
    }
  }

  lemma LayoutCons(body: Bytes, parts: seq<Part>, marker: Bytes, rest: Bytes, at: seq<nat>)
    requires parts != [] && |at| == |parts| + 1 && At(body, marker, at[0]) && PartAt(body, marker, at, 0, parts[0])
    requires LaidOut(body, parts[1..], marker, rest, at[1..])
    ensures LaidOut(body, parts, marker, rest, at)
  {
    hide Inner; hide At;
    forall i | 0 <= i < |parts| ensures PartAt(body, marker, at, i, parts[i]) {
      if i > 0 {
        assert PartAt(body, marker, at[1..], i - 1, parts[1..][i - 1]);
      }
    }
    hide PartAt;
    forall i | 0 <= i < |at| ensures At(body, marker, at[i]) {
      if i > 0 { assert At(body, marker, at[1..][i - 1]); }
    }
  }

  lemma {:induction false} Spaced(parts: seq<Part>, marker: Bytes, base: nat)
    ensures Apart(Delimiters(parts, marker, base), |marker|)
    ensures forall i | 0 <= i < |Delimiters(parts, marker, base)| :: base <= Delimiters(parts, marker, base)[i]
    decreases |parts|
  {
    hide Inner;
    if parts != [] {
      var next := base + |marker| + |Inner(parts[0])|;
      Spaced(parts[1..], marker, next);
      var at, at' := Delimiters(parts, marker, base), Delimiters(parts[1..], marker, next);
      assert at == [base] + at';
      hide Delimiters;
      forall i, j | 0 <= i < j < |at| ensures at[i] + |marker| <= at[j] {
        assert at[j] == at'[j - 1] && next <= at'[j - 1];
        if i > 0 { assert at[i] == at'[i - 1]; }
      }
    }
  }

  lemma {:induction false} SizesAreFileSizes(
    body: Bytes, parts: seq<Part>, marker: Bytes, rest: Bytes, at: seq<nat>, n: nat)
    requires LaidOut(body, parts, marker, rest, at) && n <= |parts| && Apart(at, |marker|)
    requires forall p | p in parts :: GoodHeaders(p)
    ensures Sizes(body, marker, at, n) == FileSizes(parts[..n])
  {
    hide HasFilename; hide PartFileSize; hide GoodHeaders; hide At; hide Inner; hide Apart; hide AllAt;
    if n > 0 {
      SizesAreFileSizes(body, parts, marker, rest, at, n - 1);
      assert PartAt(body, marker, at, n - 1, parts[n - 1]);
      hide LaidOut;
      WholePart(parts[n - 1]);
      assert parts[..n][..n - 1] == parts[..n - 1];
    }
  }

  /** Whole parts followed by anything: the complete sizes are those of the file parts, in order, and
      the open size is that of the rest. */
  lemma ScanReadsEncoding(parts: seq<Part>, boundary: Bytes, rest: Bytes)
    requires forall p | p in parts :: GoodHeaders(p)
    requires OnlyAtDelimiters(parts, DASHES + boundary, rest)
    ensures StateOf(Encode(parts, DASHES + boundary, rest), boundary) ==
            FileState(FileSizes(parts), OrZero(PartFileSize(rest, true)))
  {
    var marker := DASHES + boundary;
    EncodingExact(parts, marker, rest);
    EncodingSizes(parts, marker, rest);
    hide *;
    ScanMeets(Encode(parts, marker, rest), marker, 0, Delimiters(parts, marker, 0));
    StateFromMarkers(Encode(parts, marker, rest), boundary, Delimiters(parts, marker, 0), rest);
  }

  lemma EncodingSizes(parts: seq<Part>, marker: Bytes, rest: Bytes)
    requires OnlyAtDelimiters(parts, marker, rest) && forall p | p in parts :: GoodHeaders(p)
    ensures var body, at := Encode(parts, marker, rest), Delimiters(parts, marker, 0);
            && |at| == |parts| + 1 && AllAt(body, marker, at) && Apart(at, |marker|)
            && at[|parts|] + |marker| <= |body| && body[at[|parts|] + |marker|..] == rest
            && Sizes(body, marker, at, |parts|) == FileSizes(parts)
  {
    EncodingExact(parts, marker, rest);
    hide PartFileSize; hide FileSizes; hide Sizes; hide Encode; hide Delimiters;
    hide Apart; hide At; hide PartAt; hide GoodHeaders; hide OnlyAtDelimiters; hide Exactly; hide AllAt;
    SizesAreFileSizes(Encode(parts, marker, rest), parts, marker, rest, Delimiters(parts, marker, 0), |parts|);
    assert parts[..|parts|] == parts;
  }

  lemma EncodingExact(parts: seq<Part>, marker: Bytes, rest: Bytes)
    requires OnlyAtDelimiters(parts, marker, rest)
    ensures var body, at := Encode(parts, marker, rest), Delimiters(parts, marker, 0);
            Exactly(body, marker, 0, at) && LaidOut(body, parts, marker, rest, at) && AllAt(body, marker, at)
              && Apart(at, |marker|)
  {
    hide Encode; hide Delimiters; hide At; hide PartAt; hide Apart;
    assert [] + Encode(parts, marker, rest) == Encode(parts, marker, rest);
    Layout([], parts, marker, rest);
    Spaced(parts, marker, 0);
  }

  lemma StateFromMarkers(body: Bytes, boundary: Bytes, at: seq<nat>, rest: Bytes)
    requires var marker := DASHES + boundary;
             && at != [] && AllAt(body, marker, at) && Apart(at, |marker|) && Markers(body, marker, 0) == at
             && at[|at| - 1] + |marker| <= |body| && body[at[|at| - 1] + |marker|..] == rest
    ensures StateOf(body, boundary) ==
            FileState(Sizes(body, DASHES + boundary, at, |at| - 1), OrZero(PartFileSize(rest, true)))
  {
    hide PartFileSize; hide Sizes; hide Markers; hide Apart; hide AllAt; hide At;
  }

  // ----- whole bodies and cut bodies ------------------------------------------------------------------

  /** A finished body: every file part is counted with its content length, nothing is open. */
  lemma FinishedBody(parts: seq<Part>, boundary: Bytes, epilogue: Bytes)
    requires forall p | p in parts :: GoodHeaders(p)
    requires OnlyAtDelimiters(parts, DASHES + boundary, DASHES + epilogue)
    ensures StateOf(Encode(parts, DASHES + boundary, DASHES + epilogue), boundary) == FileState(FileSizes(parts), 0)
  {
    ScanReadsEncoding(parts, boundary, DASHES + epilogue);
    assert (DASHES + epilogue)[..2] == DASHES;
  }

  /** What has arrived when the body is cut after j content bytes of part k. */
  function Received(parts: seq<Part>, k: nat, j: nat, marker: Bytes): Bytes
    requires k < |parts| && j <= |parts[k].content|
  {
    Encode(parts[..k], marker, CRLF + (parts[k].headers + BLANK + parts[k].content[..j]))
  }

  lemma {:induction false} ReceivedIsPrefix(parts: seq<Part>, k: nat, j: nat, marker: Bytes, rest: Bytes)
    requires k < |parts| && j <= |parts[k].content|
    ensures var r := Received(parts, k, j, marker);
            |r| <= |Encode(parts, marker, rest)| && Encode(parts, marker, rest)[..|r|] == r
    decreases k
  {
    var whole, r := Encode(parts, marker, rest), Received(parts, k, j, marker);
    var more := Encode(parts[1..], marker, rest);
    if k == 0 {
      var p := parts[0];
      var inner := CRLF + (p.headers + BLANK + p.content[..j]);
      assert Inner(p)[..|inner|] == inner by { assert p.content == p.content[..j] + p.content[j..]; }
      assert parts[..0] == [];
      assert r == marker + inner;
      hide Inner;
      assert whole[..|r|] == marker + Inner(p)[..|inner|];
    } else {
      hide Inner;
      ReceivedIsPrefix(parts[1..], k - 1, j, marker, rest);
      assert parts[..k][1..] == parts[1..][..k - 1] && parts[..k][0] == parts[0];
      var r' := Received(parts[1..], k - 1, j, marker);
      var front := marker + Inner(parts[0]);
      assert r == front + r' && whole == front + more;
      assert whole[..|r|] == front + more[..|r'|];
    }
  }

  lemma {:induction false} DelimitersPrefix(parts: seq<Part>, k: nat, marker: Bytes, base: nat)
    requires k < |parts|
    ensures Delimiters(parts[..k], marker, base) == Delimiters(parts, marker, base)[..k + 1]
    decreases k
  {
    hide Inner;
    if k > 0 {
      assert parts[..k][1..] == parts[1..][..k - 1] && parts[..k][0] == parts[0];
      DelimitersPrefix(parts[1..], k - 1, marker, base + |marker| + |Inner(parts[0])|);
    }
  }

  /** Delimiters of later parts lie beyond what has been received. */
  lemma CutKeepsDelimiters(parts: seq<Part>, k: nat, j: nat, marker: Bytes, rest: Bytes)
    requires k < |parts| && j <= |parts[k].content| && OnlyAtDelimiters(parts, marker, rest) && marker != []
    ensures OnlyAtDelimiters(parts[..k], marker, CRLF + (parts[k].headers + BLANK + parts[k].content[..j]))
  {
    var whole, r := Encode(parts, marker, rest), Received(parts, k, j, marker);
    var at := Delimiters(parts, marker, 0);
    ReceivedIsPrefix(parts, k, j, marker, rest);
    DelimitersPrefix(parts, k, marker, 0);
    ReceivedLength(parts, k, j, marker, rest);
    Spaced(parts, marker, 0);
    hide Encode; hide Delimiters; hide Inner; hide At; hide Received;
    forall i: nat | At(r, marker, i) ensures i in at[..k + 1] {
      PrefixAt(r, whole, marker, i);
      AtInside(r, marker, i);
      BeforeLater(at, i, k, |marker|);
    }
    ReceivedUnfolds(parts, k, j, marker);
  }

  lemma ReceivedUnfolds(parts: seq<Part>, k: nat, j: nat, marker: Bytes)
    requires k < |parts| && j <= |parts[k].content|
    ensures Received(parts, k, j, marker) ==
            Encode(parts[..k], marker, CRLF + (parts[k].headers + BLANK + parts[k].content[..j]))
  {
    hide Encode;
  }

  lemma BeforeLater(at: seq<nat>, i: nat, k: nat, gap: nat)
    requires Apart(at, gap) && i in at && k + 1 < |at| && i < at[k + 1]
    ensures i in at[..k + 1]
  {
    var m :| 0 <= m < |at| && at[m] == i;
    assert m <= k;
    assert at[..k + 1][m] == i;
  }

  lemma PrefixAt(r: Bytes, whole: Bytes, marker: Bytes, i: nat)
    requires |r| <= |whole| && whole[..|r|] == r && At(r, marker, i)
    ensures At(whole, marker, i)
  {
    assert whole[i..i + |marker|] == r[i..i + |marker|];
  }

  lemma ReceivedLength(parts: seq<Part>, k: nat, j: nat, marker: Bytes, rest: Bytes)
    requires k < |parts| && j <= |parts[k].content|
    ensures |Received(parts, k, j, marker)| <= Delimiters(parts, marker, 0)[k + 1]
  {
    var open := CRLF + (parts[k].headers + BLANK + parts[k].content[..j]);
    assert [] + Received(parts, k, j, marker) == Received(parts, k, j, marker);
    Layout([], parts[..k], marker, open);
    DelimitersPrefix(parts, k, marker, 0);
    var whole := Encode(parts, marker, rest);
    assert [] + whole == whole;
    Layout([], parts, marker, rest);
  }

  /** A body cut inside the content of part k: the file parts before k are complete, and if part k is
      a file its open size is the number of content bytes received. */
  lemma CutInsideContent(parts: seq<Part>, boundary: Bytes, rest: Bytes, k: nat, j: nat)
    requires forall p | p in parts :: GoodHeaders(p)
    requires OnlyAtDelimiters(parts, DASHES + boundary, rest)
    requires k < |parts| && j <= |parts[k].content|
    ensures var r := Received(parts, k, j, DASHES + boundary);
            && |r| <= |Encode(parts, DASHES + boundary, rest)| && r == Encode(parts, DASHES + boundary, rest)[..|r|]
            && StateOf(r, boundary) == FileState(FileSizes(parts[..k]), if HasFilename(parts[k].headers) then j else 0)
  {
    var marker := DASHES + boundary;
    ReceivedIsPrefix(parts, k, j, marker, rest);
    CutKeepsDelimiters(parts, k, j, marker, rest);
    var p := Part(parts[k].headers, parts[k].content[..j]);
    assert GoodHeaders(parts[k]) && GoodHeaders(p);
    OpenPart(p);
    ScanReadsEncoding(parts[..k], boundary, CRLF + (p.headers + BLANK + p.content));
  }
}
