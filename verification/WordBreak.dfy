/** `_pieces` (room_compare.py): a text that is one room number, or room numbers glued together with nothing
    between them. The two regular expressions are predicates on strings; the text is given stripped. */
module WordBreak {
  import opened Options

  type Words = seq<string>

  function Joined(words: Words): string {
    if words == [] then "" else words[0] + Joined(words[1..])
  }

  /** A way to cut the text into non-empty matching pieces. */
  ghost predicate IsBreak(part: string -> bool, text: string, words: Words) {
    Joined(words) == text && forall w | w in words :: w != "" && part(w)
  }

  /** The inner function `walk`. */
  function Walk(part: string -> bool, rest: string): Option<Words>
    decreases |rest|, |rest| + 1
  {
    if rest == "" then Some([]) else WalkFrom(part, rest, 1)
  }

  /** Its loop, from the given end of the first piece. */
  function WalkFrom(part: string -> bool, rest: string, end: nat): Option<Words>
    requires 1 <= end <= |rest| + 1
    decreases |rest|, |rest| + 1 - end
  {
    if end > |rest| then None
    else if part(rest[..end]) && Walk(part, rest[end..]).Some? then Some([rest[..end]] + Walk(part, rest[end..]).value)
    else WalkFrom(part, rest, end + 1)
  }

  /** `_pieces` */
  function Pieces(whole: string -> bool, part: string -> bool, text: string): Words {
    if whole(text) then [text]
    else match Walk(part, text)
      case None => []
      case Some(words) => if |words| < 2 then [] else words
  }

  lemma JoinedCons(w: string, words: Words)
    ensures Joined([w] + words) == w + Joined(words)
  {
    assert ([w] + words)[1..] == words;
  }

  // ----- soundness -----------------------------------------------------------------------------------------------

  lemma {:induction false} WalkSound(part: string -> bool, rest: string)
    ensures Walk(part, rest).Some? ==> IsBreak(part, rest, Walk(part, rest).value)
    decreases |rest|, |rest| + 1
  {
    if rest != "" {
      WalkFromSound(part, rest, 1);
    }
  }

  lemma {:induction false} WalkFromSound(part: string -> bool, rest: string, end: nat)
    requires 1 <= end <= |rest| + 1
    ensures WalkFrom(part, rest, end).Some? ==> IsBreak(part, rest, WalkFrom(part, rest, end).value)
    decreases |rest|, |rest| + 1 - end
  {
    if end <= |rest| {
      if part(rest[..end]) && Walk(part, rest[end..]).Some? {
        WalkSound(part, rest[end..]);
        JoinedCons(rest[..end], Walk(part, rest[end..]).value);
        assert rest == rest[..end] + rest[end..];
      } else {
        WalkFromSound(part, rest, end + 1);
      }
    }
  }

  // ----- completeness, shortest pieces first -------------------------------------------------------------------

  /** No later in the order that compares the lengths of the pieces from the front. */
  predicate NoLater(a: Words, b: Words) {
    a == [] || b == [] || |a[0]| < |b[0]| || (|a[0]| == |b[0]| && NoLater(a[1..], b[1..]))
  }

  lemma FirstPiece(part: string -> bool, rest: string, words: Words)
    requires IsBreak(part, rest, words) && rest != ""
    ensures words != [] && 1 <= |words[0]| <= |rest|
    ensures words[0] == rest[..|words[0]|] && part(words[0])
    ensures IsBreak(part, rest[|words[0]|..], words[1..])
  {
    assert words[0] in words;
    assert rest == words[0] + Joined(words[1..]);
  }

  /** If the text can be cut at all, the walk finds the cut whose pieces are shortest from the front. */
  lemma {:induction false} WalkComplete(part: string -> bool, rest: string, words: Words)
    requires IsBreak(part, rest, words)
    ensures Walk(part, rest).Some? && NoLater(Walk(part, rest).value, words)
    decreases |rest|, |rest| + 1
  {
    if rest != "" {
      FirstPiece(part, rest, words);
      WalkFromComplete(part, rest, 1, words);
    }
  }

  lemma {:induction false} WalkFromComplete(part: string -> bool, rest: string, end: nat, words: Words)
    requires IsBreak(part, rest, words) && rest != "" && words != [] && 1 <= end <= |words[0]| <= |rest|
    ensures WalkFrom(part, rest, end).Some? && NoLater(WalkFrom(part, rest, end).value, words)
    decreases |rest|, |rest| + 1 - end
  {
    FirstPiece(part, rest, words);
    if end == |words[0]| {
      WalkComplete(part, rest[end..], words[1..]);
      var tail := Walk(part, rest[end..]).value;
      assert ([rest[..end]] + tail)[1..] == tail;
    } else if !(part(rest[..end]) && Walk(part, rest[end..]).Some?) {
      WalkFromComplete(part, rest, end + 1, words);
    }
  }

  /** The walk succeeds exactly on texts that can be cut. */
  lemma WalkExactly(part: string -> bool, text: string)
    ensures Walk(part, text).Some? <==> exists words :: IsBreak(part, text, words)
  {
    hide IsBreak;
    WalkSound(part, text);
    if words :| IsBreak(part, text, words) {
      WalkComplete(part, text, words);
    }
  }

  lemma SinglePiece(words: Words)
    requires |words| == 1
    ensures Joined(words) == words[0]
  {
    JoinedCons(words[0], []);
    assert words == [words[0]] + [];
  }

  lemma OnePieceIsLast(part: string -> bool, text: string, words: Words)
    requires IsBreak(part, text, words) && |words| >= 2
    ensures Walk(part, text).Some? && |Walk(part, text).value| >= 2
  {
    WalkComplete(part, text, words);
    WalkSound(part, text);
    var found := Walk(part, text).value;
    assert words[0] in words && words[1] in words;
    assert Joined(words[1..]) == words[1] + Joined(words[1..][1..]);
    assert |words[0]| < |text|;
    if |found| == 1 {
      SinglePiece(found);
    }
  }

  /** A text gives pieces exactly when it is a number itself or can be cut into at least two; then it is its own
      only piece, or every piece is non-empty and matches and together they are the text. */
  lemma PiecesExactly(whole: string -> bool, part: string -> bool, text: string)
    ensures Pieces(whole, part, text) != [] <==>
            whole(text) || exists words :: IsBreak(part, text, words) && |words| >= 2
    ensures whole(text) ==> Pieces(whole, part, text) == [text]
    ensures !whole(text) && Pieces(whole, part, text) != [] ==>
              IsBreak(part, text, Pieces(whole, part, text)) && |Pieces(whole, part, text)| >= 2
  {
    WalkSound(part, text);
    if words :| IsBreak(part, text, words) && |words| >= 2 {
      OnePieceIsLast(part, text, words);
    }
  }
}
