/** The operation id taken from an Incus operation reference. */
module Operations {
  import opened Strings
  import opened PathEscaping

  const MAX_OPERATION_ID := 128

  /** The text after the last slash. */
  function LastSegment(op: Text): Text {
    op[LastIndexOf(op, '/') + 1..]
  }

  function NormalizeOperationID(op: Text): (id: Text)
  {
    var trimmed := TrimSpace(op);
    if trimmed == "" then ""
    else
      var id := TrimSpace(LastSegment(trimmed));
      if |id| > MAX_OPERATION_ID then "" else id
  }

  function WaitPath(id: Text): Text {
    "/1.0/operations/" + PathEscape(id) + "/wait"
  }

  /** A normalized id has no separator, no white space at its ends, and a bounded length. */
  lemma NormalizedIsClean(op: Text)
    ensures var id := NormalizeOperationID(op);
            && '/' !in id && |id| <= 128
            && SpaceAtFront(id) == 0 && SpaceAtBack(id) == 0
            && Within(id, op)
  {
    var trimmed := TrimSpace(op);
    TrimSpaceWithin(op);
    var segment := LastSegment(trimmed);
    TrimSpaceWithin(segment);
    assert segment == trimmed[LastIndexOf(trimmed, '/') + 1..|trimmed|];
    WithinTransitive(segment, trimmed, op);
    WithinTransitive(TrimSpace(segment), segment, op);
    WithinKeepsAbsence(TrimSpace(segment), segment, '/');
    assert op[0..0] == [];
  }

  /** Normalizing again changes nothing. */
  lemma NormalizeIdempotent(op: Text)
    ensures NormalizeOperationID(NormalizeOperationID(op)) == NormalizeOperationID(op)
  {
    NormalizedIsClean(op);
    var id := NormalizeOperationID(op);
    assert LastIndexOf(id, '/') == -1;
    assert LastSegment(id) == id;
  }

  lemma SpacesAreNotDots(s: Text)
    ensures forall k | 0 <= k < SpaceAtFront(s) :: s[k] != '.'
    ensures forall k | |s| - SpaceAtBack(s) <= k < |s| :: s[k] != '.'
  {
  }

  lemma DotsAfter(s: Text, n: nat)
    requires n <= |s| && forall k | 0 <= k < n :: s[k] != '.'
    ensures HasDotDot(s[n..]) <==> HasDotDot(s)
  {
    if HasDotDot(s) {
      var i :| 0 <= i < |s| - 1 && s[i] == '.' && s[i + 1] == '.';
      assert s[n..][i - n] == '.' && s[n..][i - n + 1] == '.';
    }
    if HasDotDot(s[n..]) {
      var i :| 0 <= i < |s[n..]| - 1 && s[n..][i] == '.' && s[n..][i + 1] == '.';
      assert s[n + i] == '.' && s[n + i + 1] == '.';
    }
  }

  lemma DotsBefore(s: Text, n: nat)
    requires n <= |s| && forall k | n <= k < |s| :: s[k] != '.'
    ensures HasDotDot(s[..n]) <==> HasDotDot(s)
  {
    if HasDotDot(s) {
      var i :| 0 <= i < |s| - 1 && s[i] == '.' && s[i + 1] == '.';
      assert s[..n][i] == '.' && s[..n][i + 1] == '.';
    }
    if HasDotDot(s[..n]) {
      var i :| 0 <= i < n - 1 && s[..n][i] == '.' && s[..n][i + 1] == '.';
      assert s[i] == '.' && s[i + 1] == '.';
    }
  }

  lemma {:induction false} TrimLeftKeepsDots(s: Text)
    ensures HasDotDot(TrimLeft(s)) <==> HasDotDot(s)
    decreases |s|
  {
    var n := SpaceAtFront(s);
    if n > 0 {
      TrimLeftKeepsDots(s[n..]);
      SpacesAreNotDots(s);
      DotsAfter(s, n);
    }
  }

  lemma {:induction false} TrimRightKeepsDots(s: Text)
    ensures HasDotDot(TrimRight(s)) <==> HasDotDot(s)
    decreases |s|
  {
    var n := SpaceAtBack(s);
    if n > 0 {
      var rest := s[..|s| - n];
      TrimRightKeepsDots(rest);
      SpacesAreNotDots(s);
      DotsBefore(s, |s| - n);
    }
  }

  lemma LastSegmentOfSuffix(op: Text, k: nat)
    requires k <= |op| && '/' !in op[..k]
    ensures '/' in op ==> LastSegment(op[k..]) == LastSegment(op)
    ensures '/' !in op ==> LastSegment(op[k..]) == op[k..] && LastSegment(op) == op
  {
    assert forall i | 0 <= i < k :: op[i] == op[..k][i];
    assert forall i | k <= i < |op| :: op[i] == op[k..][i - k];
  }

  lemma LastSegmentOfPrefix(op: Text, k: nat)
    requires k <= |op| && '/' !in op[k..]
    ensures |LastSegment(op)| >= |op| - k
    ensures LastSegment(op[..k]) == LastSegment(op)[..|LastSegment(op)| - (|op| - k)]
  {
    assert forall i | k <= i < |op| :: op[i] == op[k..][i - k];
  }

  lemma {:induction false} SegmentAfterTrimLeft(op: Text)
    ensures TrimSpace(LastSegment(TrimLeft(op))) == TrimSpace(LastSegment(op))
    decreases |op|
  {
    var n := SpaceAtFront(op);
    if n > 0 {
      SegmentAfterTrimLeft(op[n..]);
      NoSlashInSpace(op);
      LastSegmentOfSuffix(op, n);
    }
  }

  /** White space at the back of a reference is at the back of its last segment. */
  lemma BackIsInSegment(op: Text)
    ensures SpaceAtBack(LastSegment(op)) == SpaceAtBack(op)
    ensures LastSegment(op[..|op| - SpaceAtBack(op)]) == LastSegment(op)[..|LastSegment(op)| - SpaceAtBack(op)]
  {
    var n, segment := SpaceAtBack(op), LastSegment(op);
    NoSlashInSpace(op);
    LastSegmentOfPrefix(op, |op| - n);
    BackOfSuffix(op, |op| - |segment|);
    assert segment == op[|op| - |segment|..];
  }

  lemma SegmentAfterBack(op: Text)
    ensures TrimSpace(LastSegment(op[..|op| - SpaceAtBack(op)])) == TrimSpace(LastSegment(op))
  {
    BackIsInSegment(op);
    TrimAfterBack(LastSegment(op));
  }

  lemma {:induction false} SegmentAfterTrimRight(op: Text)
    ensures TrimSpace(LastSegment(TrimRight(op))) == TrimSpace(LastSegment(op))
    decreases |op|
  {
    if SpaceAtBack(op) > 0 {
      SegmentAfterBack(op);
      SegmentAfterTrimRight(op[..|op| - SpaceAtBack(op)]);
    }
  }

  lemma SegmentOfTrimmed(op: Text)
    ensures TrimSpace(LastSegment(TrimSpace(op))) == TrimSpace(LastSegment(op))
  {
    SegmentAfterTrimLeft(op);
    SegmentAfterTrimRight(TrimLeft(op));
  }

  lemma NothingTrimmed(s: Text)
    requires s == []
    ensures TrimSpace(s) == [] && LastSegment(s) == []
  {
    assert SpaceAtFront(s) == 0 && SpaceAtBack(s) == 0;
    assert TrimLeft(s) == s && TrimRight(s) == s;
    assert LastIndexOf(s, '/') == -1;
  }

  lemma NormalizeUnfolded(op: Text, trimmed: Text, id: Text)
    requires trimmed == TrimSpace(op) && id == TrimSpace(LastSegment(trimmed))
    ensures NormalizeOperationID(op) == if trimmed == [] || |id| > MAX_OPERATION_ID then [] else id
  {
  }

  /** What the id is, read off the reference itself: its trimmed last segment, unless too long. */
  lemma NormalizeMeaning(op: Text)
    ensures var id := TrimSpace(LastSegment(op));
            NormalizeOperationID(op) == if |id| > 128 then [] else id
  {
    var trimmed := TrimSpace(op);
    var id := TrimSpace(LastSegment(trimmed));
    NormalizeUnfolded(op, trimmed, id);
    SegmentOfTrimmed(op);
    if trimmed == [] {
      NothingTrimmed(trimmed);
      NothingTrimmed(LastSegment(trimmed));
    }
  }

  /** The id keeps a ".." exactly when the last segment of the reference holds one and is not
      dropped for its length: no path traversal is filtered out here. */
  lemma TraversalInId(op: Text)
    ensures HasDotDot(NormalizeOperationID(op)) <==>
            HasDotDot(LastSegment(op)) && |TrimSpace(LastSegment(op))| <= 128
  {
    NormalizeMeaning(op);
    TrimLeftKeepsDots(LastSegment(op));
    TrimRightKeepsDots(TrimLeft(LastSegment(op)));
  }

  /** The id is a dot segment exactly when the trimmed last segment of the reference is one. */
  lemma DotSegmentIff(op: Text)
    ensures NormalizeOperationID(op) in [".", ".."] <==> TrimSpace(LastSegment(op)) in [".", ".."]
  {
    NormalizeMeaning(op);
  }

  lemma NormalizePlain(id: Text)
    requires id != "" && '/' !in id && Graphic(id[0]) && Graphic(id[|id| - 1]) && |id| <= 128
    ensures NormalizeOperationID(['/'] + id) == id
  {
    var op := ['/'] + id;
    TrimSpaceOfGraphic(op);
    TrimSpaceOfGraphic(id);
    var k := LastIndexOf(op, '/');
    assert op[0] == '/' && forall j | 0 < j < |op| :: op[j] == id[j - 1];
    assert k == 0;
    assert LastSegment(op) == id;
  }

  /** A short slash-free id that needs no escaping goes into the wait path as it is. */
  lemma PlainIdIsWaitedFor(id: Text)
    requires id != "" && |id| <= 128
    requires forall i | 0 <= i < |id| :: StandsForItself(id[i])
    ensures NormalizeOperationID(['/'] + id) == id
    ensures WaitPath(id) == "/1.0/operations/" + id + "/wait"
  {
    NormalizePlain(id);
    EscapeIdentity(id);
  }

  /** References whose ids are ".." and ".", and the paths the agent would then wait on. */
  lemma TraversalExample()
    ensures NormalizeOperationID("/..") == ".." && WaitPath("..") == "/1.0/operations/" + ".." + "/wait"
    ensures NormalizeOperationID("/.") == "." && WaitPath(".") == "/1.0/operations/" + "." + "/wait"
  {
    var dots: Text, dot: Text := "..", ".";
    assert ['/'] + dots == "/.." && ['/'] + dot == "/.";
    PlainIdIsWaitedFor(dots);
    PlainIdIsWaitedFor(dot);
  }
}
