/** What one slice between two markers counts for, whatever stands in it (`partFileSize`, limits.js). */
module PartSizes {
  import opened Options
  import opened Multipart

  /** b is the lower case letter or sign l in either case. */
  predicate SameByte(b: byte, l: byte) {
    b == l || (97 <= l <= 122 && b as int + 32 == l as int)
  }

  /** The bytes from i on read "filename=", whatever their case. */
  predicate NamesFileAt(headers: Bytes, i: nat) {
    i + 9 <= |headers| && forall k | 0 <= k < 9 :: SameByte(headers[i + k], FILENAME[k])
  }

  lemma FilenameBytes()
    ensures |FILENAME| == 9 && forall k | 0 <= k < 9 :: FILENAME[k] as int == "filename="[k] as int
  {
  }

  lemma {:induction false} LowerByte(s: Bytes, k: nat)
    requires k < |s|
    ensures Lower(s)[k] == if 65 <= s[k] <= 90 then s[k] + 32 else s[k]
  {
    if k > 0 {
      LowerByte(s[1..], k - 1);
    }
  }

  lemma LowerAt(headers: Bytes, i: nat)
    ensures At(Lower(headers), FILENAME, i) <==> NamesFileAt(headers, i)
  {
    FilenameBytes();
    if i + 9 <= |headers| {
      var low := Lower(headers)[i..i + 9];
      forall k | 0 <= k < 9 ensures low[k] == FILENAME[k] <==> SameByte(headers[i + k], FILENAME[k]) {
        LowerByte(headers, i + k);
        LetterOrSign(k);
      }
      hide SameByte; hide Lower;
      if NamesFileAt(headers, i) {
        assert low == FILENAME;
      }
    }
  }

  lemma LetterOrSign(k: nat)
    requires k < 9
    ensures 97 <= FILENAME[k] <= 122 || FILENAME[k] == 61
  {
  }

  /** Headers name a file exactly when "filename=" occurs in them, in whatever case. */
  lemma HasFilenameIs(headers: Bytes)
    ensures HasFilename(headers) <==> exists i: nat :: NamesFileAt(headers, i)
  {
    hide NamesFileAt; hide Lower; hide At;
    forall i: nat ensures At(Lower(headers), FILENAME, i) <==> NamesFileAt(headers, i) {
      LowerAt(headers, i);
    }
    if i: nat :| NamesFileAt(headers, i) {
      assert At(Lower(headers), FILENAME, i);
    }
  }

  /** What follows a closing marker is no part, even if nothing follows. */
  lemma ClosingIsNoPart(rest: Bytes, unfinished: bool)
    ensures PartFileSize(DASHES + rest, unfinished) == None
  {
    assert (DASHES + rest)[..2] == DASHES;
  }

  predicate StartsWith(s: Bytes, pattern: Bytes) {
    |s| >= |pattern| && s[..|pattern|] == pattern
  }

  predicate EndsWith(s: Bytes, pattern: Bytes) {
    |s| >= |pattern| && s[|s| - |pattern|..] == pattern
  }

  /** A slice without the line break that may open it, and without the one that closes a finished one. */
  function Stripped(slice: Bytes, unfinished: bool): Bytes {
    var inner := if StartsWith(slice, CRLF) then slice[2..] else slice;
    if !unfinished && EndsWith(inner, CRLF) then inner[..|inner| - 2] else inner
  }

  function SizeOf(data: Bytes, unfinished: bool): Option<nat> {
    var headerEnd := Find(data, BLANK, 0);
    if headerEnd < 0 then (if unfinished then Some(0) else None)
    else if !HasFilename(data[..headerEnd]) then None
    else Some(|data| - headerEnd - 4)
  }

  lemma SizeOfStripped(slice: Bytes, unfinished: bool)
    requires !StartsWith(slice, DASHES)
    ensures PartFileSize(slice, unfinished) == SizeOf(Stripped(slice, unfinished), unfinished)
  {
    hide HasFilename; hide Find;
  }

  lemma StripsBreaks(lead: Bytes, data: Bytes, tail: Bytes, unfinished: bool)
    requires (lead == CRLF || lead == []) && (tail == CRLF || tail == [])
    requires lead == [] ==> !StartsWith(data + tail, CRLF)
    requires (unfinished ==> tail == []) && (!unfinished && tail == [] ==> !EndsWith(data, CRLF))
    ensures Stripped(lead + data + tail, unfinished) == data
  {
    var slice, inner := lead + data + tail, data + tail;
    if lead == CRLF {
      assert slice[..2] == CRLF && slice[2..] == inner;
    } else {
      assert slice == inner;
    }
    if tail == CRLF {
      assert inner[|inner| - 2..] == CRLF && inner[..|inner| - 2] == data;
    } else {
      assert inner == data;
    }
  }

  /** The line break that may open a slice, and the one that closes a finished one, do not count; without them every
      byte of the content does. */
  lemma SliceExactly(lead: Bytes, p: Part, tail: Bytes, unfinished: bool)
    requires GoodHeaders(p) && (lead == CRLF || lead == []) && (tail == CRLF || tail == [])
    requires var data := p.headers + BLANK + p.content;
             && (lead == [] ==> !StartsWith(data + tail, CRLF) && !StartsWith(data + tail, DASHES))
             && (unfinished ==> tail == []) && (!unfinished && tail == [] ==> !EndsWith(data, CRLF))
    ensures PartFileSize(lead + (p.headers + BLANK + p.content) + tail, unfinished) ==
            if HasFilename(p.headers) then Some(|p.content|) else None
  {
    var data := p.headers + BLANK + p.content;
    StripsBreaks(lead, data, tail, unfinished);
    NoDashes(lead, data, tail);
    SizeOfPart(p, unfinished);
    hide *;
    SizeOfStripped(lead + data + tail, unfinished);
  }

  lemma NoDashes(lead: Bytes, data: Bytes, tail: Bytes)
    requires lead == CRLF || (lead == [] && !StartsWith(data + tail, DASHES))
    ensures !StartsWith(lead + data + tail, DASHES)
  {
    if lead == CRLF {
      assert (lead + data + tail)[..2] == CRLF;
      assert CRLF[0] != DASHES[0];
    } else {
      assert lead + data + tail == data + tail;
    }
  }

  lemma SizeOfPart(p: Part, unfinished: bool)
    requires GoodHeaders(p)
    ensures SizeOf(p.headers + BLANK + p.content, unfinished) ==
            if HasFilename(p.headers) then Some(|p.content|) else None
  {
    var data := p.headers + BLANK + p.content;
    HeaderEndFound(p, p.content);
    assert data[..|p.headers|] == p.headers;
    hide HasFilename; hide GoodHeaders; hide Find;
  }

  /** A slice without a blank line is no part when it is finished, and an empty one while it is not. */
  lemma WithoutBlankLine(slice: Bytes, unfinished: bool)
    requires !StartsWith(slice, DASHES) && forall i: nat :: !At(slice, BLANK, i)
    ensures PartFileSize(slice, unfinished) == if unfinished then Some(0) else None
  {
    SizeOfStripped(slice, unfinished);
    StrippedHasNone(slice, unfinished);
    hide HasFilename; hide PartFileSize; hide Stripped; hide At;
  }

  lemma StrippedHasNone(slice: Bytes, unfinished: bool)
    requires forall i: nat :: !At(slice, BLANK, i)
    ensures forall i: nat :: !At(Stripped(slice, unfinished), BLANK, i)
  {
    var data, shift := Stripped(slice, unfinished), if StartsWith(slice, CRLF) then 2 else 0;
    assert forall k | 0 <= k < |data| :: data[k] == slice[k + shift];
    assert |data| + shift <= |slice|;
    hide Stripped; hide StartsWith;
    forall i: nat ensures !At(data, BLANK, i) {
      if At(data, BLANK, i) {
        SameBytes(data, slice, shift, i);
      }
    }
  }

  lemma SameBytes(data: Bytes, slice: Bytes, shift: nat, i: nat)
    requires |data| + shift <= |slice| && forall k | 0 <= k < |data| :: data[k] == slice[k + shift]
    requires At(data, BLANK, i)
    ensures At(slice, BLANK, i + shift)
  {
    assert slice[i + shift..i + shift + 4] == data[i..i + 4];
  }

  /** Without a marker nothing is complete and nothing open. */
  lemma WithoutMarker(body: Bytes, boundary: Bytes)
    requires forall i: nat :: !At(body, DASHES + boundary, i)
    ensures StateOf(body, boundary) == FileState([], 0)
  {
    assert Find(body, DASHES + boundary, 0) < 0;
    hide At; hide PartFileSize; hide Find;
  }
}
