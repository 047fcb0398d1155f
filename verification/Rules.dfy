/** What the rules for paths and messages say byte by byte, apart from splitting at separators. */
module Rules {
  import opened Common
  import opened Lines
  import opened Values
  import opened VersionCodec

  /** A stretch between two separators, or between one and an end. */
  predicate PieceAt(s: Bytes, sep: Byte, i: nat, j: nat) {
    && i <= j <= |s| && sep !in s[i..j]
    && (i > 0 ==> s[i - 1] == sep) && (j < |s| ==> s[j] == sep)
  }

  lemma SliceOfTail(s: Bytes, i: nat, j: nat)
    requires 0 < i <= j <= |s|
    ensures s[1..][i - 1..j - 1] == s[i..j]
  {
    var t := s[1..];
    assert |t[i - 1..j - 1]| == |s[i..j]|;
    forall k | 0 <= k < j - i ensures t[i - 1..j - 1][k] == s[i..j][k] {
    }
  }

  lemma LaterPiece(s: Bytes, sep: Byte, i: nat, j: nat)
    requires s != "" && PieceAt(s[1..], sep, i, j) && (i > 0 || s[0] == sep)
    ensures PieceAt(s, sep, i + 1, j + 1) && s[i + 1..j + 1] == s[1..][i..j]
  {
    SliceOfTail(s, i + 1, j + 1);
  }

  lemma EarlierPiece(s: Bytes, sep: Byte, i: nat, j: nat)
    requires PieceAt(s, sep, i, j) && i > 0
    ensures PieceAt(s[1..], sep, i - 1, j - 1) && s[i..j] == s[1..][i - 1..j - 1]
  {
    SliceOfTail(s, i, j);
  }

  lemma LongerPiece(s: Bytes, sep: Byte, j: nat)
    requires s != "" && s[0] != sep && j < |s|
    ensures PieceAt(s, sep, 0, j + 1) <==> PieceAt(s[1..], sep, 0, j)
    ensures s[0..j + 1] == [s[0]] + s[1..][0..j]
  {
    assert s[0..j + 1] == [s[0]] + s[1..][0..j];
  }

  /** Each field is such a stretch; the first begins at the start, the last ends at the end. */
  lemma {:induction false} FieldIsPiece(s: Bytes, sep: Byte, k: nat) returns (i: nat, j: nat)
    requires k < |Split(s, sep)|
    ensures PieceAt(s, sep, i, j) && s[i..j] == Split(s, sep)[k]
    ensures (k == 0 <==> i == 0) && (k == |Split(s, sep)| - 1 <==> j == |s|)
  {
    if s == "" || (s[0] == sep && k == 0) {
      return 0, 0;
    }
    i, j := FieldIsPiece(s[1..], sep, if s[0] == sep then k - 1 else k);
    if s[0] != sep && k == 0 {
      LongerPiece(s, sep, j);
      i, j := 0, j + 1;
    } else {
      LaterPiece(s, sep, i, j);
      i, j := i + 1, j + 1;
    }
  }

  /** And each such stretch is a field. */
  lemma {:induction false} PieceIsField(s: Bytes, sep: Byte, i: nat, j: nat) returns (k: nat)
    requires PieceAt(s, sep, i, j)
    ensures k < |Split(s, sep)| && Split(s, sep)[k] == s[i..j]
    ensures (k == 0 <==> i == 0) && (k == |Split(s, sep)| - 1 <==> j == |s|)
  {
    if s == "" {
      return 0;
    }
    if i > 0 {
      EarlierPiece(s, sep, i, j);
      k := PieceIsField(s[1..], sep, i - 1, j - 1);
      k := if s[0] == sep then k + 1 else k;
    } else if s[0] == sep {
      assert j == 0;
      k := 0;
    } else {
      LongerPiece(s, sep, j - 1);
      k := PieceIsField(s[1..], sep, 0, j - 1);
    }
  }

  // ----- paths --------------------------------------------------------------------------------

  /**
   A path is accepted exactly if it is well-formed text without control characters and backslashes, and
   between any two slashes or ends stands a name other than "." and "..": nothing absolute, nothing that
   leaves the directory, one spelling per place.
   */
  lemma PathRule(u: Unicode, p: Bytes)
    ensures PathOk(u, p) <==>
      && Utf8(p) && u.isNfc(p) && (forall c | c in p :: c as int >= 0x20 && c as int != 0x7f && c != '\\')
      && forall i: nat, j: nat | PieceAt(p, '/', i, j) :: p[i..j] !in {"", ".", ".."}
  {
    assert forall i | 0 <= i < |p| :: p[i] in p;
    if PathOk(u, p) {
      forall i: nat, j: nat | PieceAt(p, '/', i, j) ensures p[i..j] !in {"", ".", ".."} {
        var k := PieceIsField(p, '/', i, j);
      }
    }
    if forall i: nat, j: nat | PieceAt(p, '/', i, j) :: p[i..j] !in {"", ".", ".."} {
      forall k | 0 <= k < |Split(p, '/')| ensures Split(p, '/')[k] !in {"", ".", ".."} {
        var i, j := FieldIsPiece(p, '/', k);
      }
      assert Split(p, '/')[0] != "";
    }
  }

  // ----- messages -----------------------------------------------------------------------------

  /** A line ends in front of every break, and at the end. */
  lemma {:induction false} PieceEndsAt(s: Bytes, sep: Byte, j: nat, i: nat) returns (start: nat)
    requires i <= j <= |s| && (j < |s| ==> s[j] == sep) && sep !in s[i..j]
    ensures start <= i && PieceAt(s, sep, start, j)
    decreases i
  {
    if i == 0 || s[i - 1] == sep {
      return i;
    }
    assert s[i - 1..j] == [s[i - 1]] + s[i..j];
    start := PieceEndsAt(s, sep, j, i - 1);
  }

  predicate NoBlankBeforeBreak(block: Bytes) {
    forall i | 0 < i < |block| && block[i] == LF :: block[i - 1] != ' ' && block[i - 1] != TAB
  }

  lemma LinesEndWell(body: Bytes)
    ensures (forall k | 0 <= k < |Split(body, LF)| :: NoTrailingBlank(Split(body, LF)[k])) <==>
            NoBlankBeforeBreak(body + [LF])
  {
    var ls, block := Split(body, LF), body + [LF];
    if forall k | 0 <= k < |ls| :: NoTrailingBlank(ls[k]) {
      forall j | 0 < j < |block| && block[j] == LF ensures block[j - 1] != ' ' && block[j - 1] != TAB {
        var i := PieceEndsAt(body, LF, j, j);
        var k := PieceIsField(body, LF, i, j);
        assert NoTrailingBlank(body[i..j]);
      }
    }
    if NoBlankBeforeBreak(block) {
      forall k | 0 <= k < |ls| ensures NoTrailingBlank(ls[k]) {
        var i, j := FieldIsPiece(body, LF, k);
        assert block[j] == LF;
        if i < j {
          assert ls[k][j - i - 1] == block[j - 1];
        }
      }
    }
  }

  lemma EdgesAreLines(body: Bytes)
    ensures var ls := Split(body, LF);
      ls[0] != "" && ls[|ls| - 1] != "" <==> body != "" && body[0] != LF && body[|body| - 1] != LF
  {
    var ls := Split(body, LF);
    var i, j := FieldIsPiece(body, LF, 0);
    var i', j' := FieldIsPiece(body, LF, |ls| - 1);
    if body != "" && body[|body| - 1] == LF {
      var k := PieceIsField(body, LF, |body|, |body|);
    }
  }

  /**
   A message block is accepted exactly if it ends with a line break, holds no carriage return and no blank in
   front of a line break, and neither begins nor ends with an empty line.
   */
  lemma MessageRule(block: Bytes)
    ensures MessageBlockOk(block) <==>
      && |block| >= 2 && block[|block| - 1] == LF && block[0] != LF && block[|block| - 2] != LF
      && (forall c | c in block :: c != '\r')
      && forall i | 0 < i < |block| && block[i] == LF :: block[i - 1] != ' ' && block[i - 1] != TAB
  {
    if block != "" && block[|block| - 1] == LF {
      var body := block[..|block| - 1];
      assert body + [LF] == block;
      LinesEndWell(body);
      EdgesAreLines(body);
    }
  }
}
