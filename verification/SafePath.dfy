/** Resolving `..` in the path of a static file. */
module SafePath {
  import opened Text

  const SEPARATORS: set<char> := {'/', '\\'}

  predicate HasDots(s: string) {
    exists i :: 0 <= i < |s| - 1 && s[i] == '.' && s[i + 1] == '.'
  }

  function Push(out: seq<string>, segment: string): seq<string> {
    if segment == ".." then if out == [] then [] else out[..|out| - 1]
    else out + [segment]
  }

  function ResolvedFrom(out: seq<string>, segments: seq<string>): seq<string>
    decreases |segments|
  {
    if segments == [] then out else ResolvedFrom(Push(out, segments[0]), segments[1..])
  }

  function Resolved(segments: seq<string>): seq<string> {
    ResolvedFrom([], segments)
  }

  function Safe(path: string): string {
    if !HasDots(path) then path else Join(Resolved(Split(path, SEPARATORS)), "/")
  }

  method ContainsDots(path: string) returns (r: bool)
    ensures r == HasDots(path)
  {
    for i := 0 to |path|
      invariant forall k :: 0 <= k < i && k < |path| - 1 ==> !(path[k] == '.' && path[k + 1] == '.')
    {
      if i + 1 < |path| && path[i] == '.' && path[i + 1] == '.' {
        return true;
      }
    }
    return false;
  }

  method SafePath(path: string) returns (r: string)
    ensures r == Safe(path)
  {
    var dots := ContainsDots(path);
    if !dots {
      return path;
    }
    var out: seq<string>, segments := [], Split(path, SEPARATORS);
    assert segments[0..] == segments;
    for i := 0 to |segments|
      invariant ResolvedFrom(out, segments[i..]) == Resolved(segments)
    {
      assert segments[i..][0] == segments[i] && segments[i..][1..] == segments[i + 1..];
      if segments[i] == ".." {
        if out != [] {
          out := out[..|out| - 1];
        }
      } else {
        out := out + [segments[i]];
      }
    }
    return Join(out, "/");
  }

  // ---- The stack is cancellation

  /** The index of the first `..`, or the length. */
  function FirstDots(segments: seq<string>): (i: nat)
    ensures i <= |segments| && ".." !in segments[..i]
    ensures i < |segments| <==> ".." in segments
    ensures i < |segments| ==> segments[i] == ".."
  {
    if segments == [] || segments[0] == ".." then 0
    else
      assert segments == [segments[0]] + segments[1..];
      var i := FirstDots(segments[1..]);
      assert segments[..i + 1] == [segments[0]] + segments[1..][..i];
      i + 1
  }

  /** The first `..` is removed, together with the segment before it if there is one. */
  function CancelFirst(segments: seq<string>): (r: seq<string>)
    requires ".." in segments
    ensures |r| < |segments|
  {
    var i := FirstDots(segments);
    segments[..if i == 0 then 0 else i - 1] + segments[i + 1..]
  }

  function Cancelled(segments: seq<string>): seq<string>
    decreases |segments|
  {
    if ".." in segments then Cancelled(CancelFirst(segments)) else segments
  }

  lemma {:induction false} ResolvedAppend(out: seq<string>, p: seq<string>, q: seq<string>)
    ensures ResolvedFrom(out, p + q) == ResolvedFrom(ResolvedFrom(out, p), q)
    decreases |p|
  {
    if p == [] {
      assert [] + q == q;
    } else {
      assert (p + q)[0] == p[0] && (p + q)[1..] == p[1..] + q;
      ResolvedAppend(Push(out, p[0]), p[1..], q);
    }
  }

  /** A segment and the `..` after it cancel wherever they stand, and a leading `..` does nothing. */
  lemma Cancels(p: seq<string>, x: string, q: seq<string>)
    requires x != ".."
    ensures Resolved(p + [x, ".."] + q) == Resolved(p + q)
    ensures Resolved([".."] + q) == Resolved(q)
  {
    var out := Resolved(p);
    ResolvedAppend([], p + [x, ".."], q);
    ResolvedAppend([], p, [x, ".."]);
    ResolvedAppend([], p, q);
    assert [x, ".."][1..] == [".."] && [".."][1..] == [];
    assert ResolvedFrom(out, [x, ".."]) == ResolvedFrom(out + [x], [".."]) == ResolvedFrom(out, []) by {
      assert (out + [x])[..|out|] == out;
    }
    assert ([".."] + q)[1..] == q;
  }

  lemma {:induction false} NothingToResolve(out: seq<string>, segments: seq<string>)
    requires ".." !in segments
    ensures ResolvedFrom(out, segments) == out + segments
    decreases |segments|
  {
    if segments == [] {
      assert out + [] == out;
    } else {
      NothingToResolve(out + [segments[0]], segments[1..]);
      assert out + [segments[0]] + segments[1..] == out + segments;
    }
  }

  /** The stack computes repeated cancellation of the first `..`. */
  lemma {:induction false} ResolvedIsCancelled(segments: seq<string>)
    ensures Resolved(segments) == Cancelled(segments)
    decreases |segments|
  {
    if ".." in segments {
      var i := FirstDots(segments);
      var q := segments[i + 1..];
      if i == 0 {
        assert segments == [".."] + q && CancelFirst(segments) == q;
        Cancels([], "", q);
      } else {
        var p, x := segments[..i - 1], segments[i - 1];
        assert x in segments[..i];
        assert segments == p + [x, ".."] + q;
        Cancels(p, x, q);
      }
      ResolvedIsCancelled(CancelFirst(segments));
    } else {
      NothingToResolve([], segments);
      assert [] + segments == segments;
    }
  }

  /** What is left over is free of `..`, and each segment comes from the path. */
  lemma {:induction false} ResolvedIsPlain(out: seq<string>, segments: seq<string>)
    requires ".." !in out
    ensures ".." !in ResolvedFrom(out, segments)
    ensures forall x :: x in ResolvedFrom(out, segments) ==> x in out || x in segments
    decreases |segments|
  {
    if segments != [] {
      ResolvedIsPlain(Push(out, segments[0]), segments[1..]);
      assert forall x :: x in Push(out, segments[0]) ==> x in out || x == segments[0];
    }
  }

  /** The segments of a resolved path are those left on the stack: no `..` among them. */
  lemma SafeSegments(path: string)
    requires HasDots(path)
    ensures var left := Resolved(Split(path, SEPARATORS));
            Split(Safe(path), SEPARATORS) == if left == [] then [""] else left
    ensures ".." !in Split(Safe(path), SEPARATORS)
    ensures Resolved(Split(path, SEPARATORS)) == Cancelled(Split(path, SEPARATORS))
  {
    var segments := Split(path, SEPARATORS);
    var left := Resolved(segments);
    ResolvedIsPlain([], segments);
    ResolvedIsCancelled(segments);
    if left == [] {
      SplitOne("", SEPARATORS);
    } else {
      SplitJoin(left, '/', SEPARATORS);
    }
  }

  // ---- No path gets through with a `..` segment

  predicate OccursAt(s: string, word: string, i: nat) {
    i + |word| <= |s| && s[i..i + |word|] == word
  }

  lemma OccursLater(s: string, n: nat, word: string, j: nat)
    requires n <= |s| && OccursAt(s[n..], word, j)
    ensures OccursAt(s, word, n + j)
  {
    assert s[n..][j..j + |word|] == s[n + j..n + j + |word|];
  }

  /** A piece between separators stands somewhere in the text. */
  lemma {:induction false} PieceOccurs(s: string, seps: set<char>, piece: string) returns (i: nat)
    requires piece in Split(s, seps)
    ensures OccursAt(s, piece, i)
    decreases |s|
  {
    var n := IndexOf(s, seps);
    if piece == s[..n] {
      i := 0;
    } else {
      var j := PieceOccurs(s[n + 1..], seps, piece);
      i := n + 1 + j;
      OccursLater(s, n + 1, piece, j);
    }
  }

  lemma DotsAt(s: string, i: nat)
    ensures OccursAt(s, "..", i) <==> i < |s| - 1 && s[i] == '.' && s[i + 1] == '.'
  {
    if i + 2 <= |s| {
      assert s[i..i + 2] == [s[i], s[i + 1]];
    }
  }

  lemma SegmentHasDots(path: string)
    requires ".." in Split(path, {'/', '\\'})
    ensures HasDots(path)
  {
    var i := PieceOccurs(path, {'/', '\\'}, "..");
    DotsAt(path, i);
  }

  lemma FreeOfBackslashes(parts: seq<string>)
    requires forall p :: p in parts ==> '\\' !in p
    ensures '\\' !in Join(parts, "/")
  {
  }

  /**
    No path is left with a `..` segment, whatever the separators. A path in which no two dots stand next to
    each other is kept; any other is rewritten with forward slashes only.
   */
  lemma NoDotsLeft(path: string)
    ensures ".." !in Split(Safe(path), {'/', '\\'})
    ensures (forall i :: !OccursAt(path, "..", i)) ==> Safe(path) == path
    ensures (exists i :: OccursAt(path, "..", i)) ==> '\\' !in Safe(path)
  {
    if HasDots(path) {
      var k :| 0 <= k < |path| - 1 && path[k] == '.' && path[k + 1] == '.';
      DotsAt(path, k);
      SafeSegments(path);
      var segments := Split(path, SEPARATORS);
      ResolvedIsPlain([], segments);
      forall p | p in Resolved(segments) ensures '\\' !in p {
        assert Free(p, SEPARATORS);
      }
      FreeOfBackslashes(Resolved(segments));
    } else {
      forall i: nat ensures !OccursAt(path, "..", i) {
        DotsAt(path, i);
      }
      if ".." in Split(path, {'/', '\\'}) {
        SegmentHasDots(path);
      }
    }
  }

  /** Resolving twice changes nothing more. */
  lemma Idempotent(path: string)
    ensures Safe(Safe(path)) == Safe(path)
  {
    if HasDots(path) {
      var left := Resolved(Split(path, SEPARATORS));
      ResolvedIsPlain([], Split(path, SEPARATORS));
      SafeSegments(path);
      if left != [] {
        NothingToResolve([], left);
        assert [] + left == left;
      }
    }
  }
}
