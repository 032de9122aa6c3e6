/** The message chunker of src/yakusoku/utils/message.py: a long message is
    cut into chunks of at most `max_length` characters, preferably right
    after (or, without `with_pattern`, right before and without) the last
    occurrence of `pattern` in the window. */
module Message {

  import opened Wrappers
  import opened Text

  /** What the generator produces: the chunks yielded, in order, and whether
      it then raised ValueError. */
  datatype Chunks = Chunks(chunks: seq<string>, failed: bool)

  /** Python's `s[:n]` and `s[n:]` for `n >= 0`. */
  function Take(s: string, n: nat): (r: string)
    ensures |r| == if n <= |s| then n else |s|
  {
    if n <= |s| then s[..n] else s
  }

  function Drop(s: string, n: nat): (r: string)
    ensures s == Take(s, n) + r
  {
    if n <= |s| then s[n..] else ""
  }

  /** The generator never ends when both the pattern is empty and
      `max_length` is zero, since every step would consume nothing. */
  predicate Terminates(pattern: string, maxLength: int)
  {
    maxLength >= 0 && (pattern == [] ==> maxLength > 0)
  }

  /** Where the chunk ends: the last pattern occurrence wholly inside the
      window, `max_length` for an empty pattern, and `None` when the pattern
      is not there. */
  function CutPoint(m: string, pattern: string, maxLength: nat): Option<nat>
    requires maxLength < |m|
  {
    if pattern != [] then RIndex(m, pattern, maxLength) else Some(maxLength)
  }

  /** `cut_message`. */
  function Cut(m: string, pattern: string, withPattern: bool, maxLength: int, forceCut: bool): Chunks
    requires Terminates(pattern, maxLength)
    decreases |m|
  {
    if m == [] then Chunks([], false)
    else if |m| <= maxLength then Chunks([m], false)
    else
      var found := CutPoint(m, pattern, maxLength);
      if found.None? && !forceCut then Chunks([], true)
      else
        var end := if found.Some? then found.value else maxLength;
        var chunk := if withPattern then Take(m, end + |pattern|) else m[..end];
        var rest := Cut(Drop(m, end + |pattern|), pattern, withPattern, maxLength, forceCut);
        Chunks([chunk] + rest.chunks, rest.failed)
  }

  /** `chunks` yielded before the generator `c`. */
  function Prepend(chunks: seq<string>, c: Chunks): Chunks
  {
    Chunks(chunks + c.chunks, c.failed)
  }

  /** One cut: the chunk ending at `end` comes first, then the chunks of
      what follows it, and what follows is shorter. */
  lemma CutStep(m: string, pattern: string, withPattern: bool, maxLength: int, forceCut: bool, end: nat)
    requires Terminates(pattern, maxLength) && maxLength < |m|
    requires CutPoint(m, pattern, maxLength) == Some(end)
             || (CutPoint(m, pattern, maxLength).None? && forceCut && end == maxLength)
    ensures |Drop(m, end + |pattern|)| < |m|
    ensures var chunk := if withPattern then Take(m, end + |pattern|) else m[..end];
            Cut(m, pattern, withPattern, maxLength, forceCut)
            == Prepend([chunk], Cut(Drop(m, end + |pattern|), pattern, withPattern, maxLength, forceCut))
  {
  }

  lemma PrependTwice(a: seq<string>, b: seq<string>, c: Chunks)
    ensures Prepend(a, Prepend(b, c)) == Prepend(a + b, c)
  {
    assert a + (b + c.chunks) == (a + b) + c.chunks;
  }

  /** The generator, as a loop that cuts chunks off the front of the message. */
  method CutMessage(message: string, pattern: string, withPattern: bool, maxLength: int, forceCut: bool)
    returns (r: Chunks)
    requires Terminates(pattern, maxLength)
    ensures r == Cut(message, pattern, withPattern, maxLength, forceCut)
  {
    var m := message;
    var out: seq<string> := [];
    assert [] + Cut(m, pattern, withPattern, maxLength, forceCut).chunks == Cut(m, pattern, withPattern, maxLength, forceCut).chunks;
    while m != []
      invariant Cut(message, pattern, withPattern, maxLength, forceCut)
                == Prepend(out, Cut(m, pattern, withPattern, maxLength, forceCut))
      decreases |m|
    {
      if |m| <= maxLength {
        assert Cut(m, pattern, withPattern, maxLength, forceCut) == Chunks([m], false);
        return Chunks(out + [m], false);
      }
      var end: nat;
      var found := CutPoint(m, pattern, maxLength);
      if found.None? {
        if !forceCut {
          assert Cut(m, pattern, withPattern, maxLength, forceCut) == Chunks([], true);
          assert out + [] == out;
          return Chunks(out, true);
        }
        end := maxLength;
      } else {
        end := found.value;
      }
      var chunk := if withPattern then Take(m, end + |pattern|) else m[..end];
      var next := Drop(m, end + |pattern|);
      CutStep(m, pattern, withPattern, maxLength, forceCut, end);
      PrependTwice(out, [chunk], Cut(next, pattern, withPattern, maxLength, forceCut));
      out := out + [chunk];
      m := next;
    }
    assert Cut(m, pattern, withPattern, maxLength, forceCut) == Chunks([], false);
    assert out + [] == out;
    return Chunks(out, false);
  }

  /** An empty message yields nothing and a short one yields itself. */
  lemma ShortMessages(m: string, pattern: string, withPattern: bool, maxLength: int, forceCut: bool)
    requires Terminates(pattern, maxLength)
    ensures m == [] ==> Cut(m, pattern, withPattern, maxLength, forceCut) == Chunks([], false)
    ensures m != [] && |m| <= maxLength ==> Cut(m, pattern, withPattern, maxLength, forceCut) == Chunks([m], false)
  {
  }

  /** With `with_pattern` nothing is lost: the chunks are a prefix of the
      message, and all of it unless the generator raised. */
  lemma {:induction false} WithPatternKeepsText(m: string, pattern: string, maxLength: int, forceCut: bool)
    requires Terminates(pattern, maxLength)
    ensures Concat(Cut(m, pattern, true, maxLength, forceCut).chunks) <= m
    ensures !Cut(m, pattern, true, maxLength, forceCut).failed ==> Concat(Cut(m, pattern, true, maxLength, forceCut).chunks) == m
    decreases |m|
  {
    var r := Cut(m, pattern, true, maxLength, forceCut);
    if m != [] && |m| <= maxLength {
      ConcatAppend([], m);
      assert [] + [m] == [m];
    } else if m != [] {
      var found := CutPoint(m, pattern, maxLength);
      if found.Some? || forceCut {
        var end := if found.Some? then found.value else maxLength;
        var chunk := Take(m, end + |pattern|);
        var tail := Drop(m, end + |pattern|);
        var rest := Cut(tail, pattern, true, maxLength, forceCut);
        assert r.chunks == [chunk] + rest.chunks;
        WithPatternKeepsText(tail, pattern, maxLength, forceCut);
        ConcatCons(chunk, rest.chunks);
        PrefixAppend(chunk, Concat(rest.chunks), tail);
      }
    }
  }

  lemma PrefixAppend(a: string, b: string, c: string)
    requires b <= c
    ensures a + b <= a + c
  {
    assert (a + c)[..|a + b|] == a + b;
  }

  /** A found pattern ends the chunk (kept with `with_pattern`, dropped
      without), the chunk fits in `max_length`, and the pattern does not occur
      later inside the window. */
  lemma PatternCut(m: string, pattern: string, withPattern: bool, maxLength: int, forceCut: bool)
    requires Terminates(pattern, maxLength) && pattern != [] && |m| > maxLength
    requires RIndex(m, pattern, maxLength).Some?
    ensures var i := RIndex(m, pattern, maxLength).value;
            var r := Cut(m, pattern, withPattern, maxLength, forceCut);
            r.chunks != []
            && |r.chunks[0]| <= maxLength
            && (withPattern ==> r.chunks[0] == m[..i + |pattern|] && EndsWith(r.chunks[0], pattern))
            && (!withPattern ==> m[..i + |pattern|] == r.chunks[0] + pattern)
            && r.chunks[1..] == Cut(m[i + |pattern|..], pattern, withPattern, maxLength, forceCut).chunks
            && (forall k :: i < k && k + |pattern| <= maxLength ==> !OccursAt(m, pattern, k))
  {
    var i := RIndex(m, pattern, maxLength).value;
    assert OccursAt(m, pattern, i);
    assert m[..i + |pattern|] == m[..i] + m[i..i + |pattern|];
  }

  /** Without the pattern in the window a force cut takes `max_length`
      characters and then `len(pattern)` more with `with_pattern`, which can
      exceed `max_length`; without `with_pattern` those extra characters are
      dropped from the output. */
  lemma ForceCut(m: string, pattern: string, withPattern: bool, maxLength: int)
    requires Terminates(pattern, maxLength) && pattern != [] && |m| > maxLength
    requires RIndex(m, pattern, maxLength).None?
    ensures var r := Cut(m, pattern, withPattern, maxLength, true);
            r.chunks != []
            && (withPattern ==> r.chunks[0] == Take(m, maxLength + |pattern|))
            && (withPattern && |m| >= maxLength + |pattern| ==> |r.chunks[0]| == maxLength + |pattern|)
            && (!withPattern ==> r.chunks[0] == m[..maxLength])
            && r.chunks[1..] == Cut(Drop(m, maxLength + |pattern|), pattern, withPattern, maxLength, true).chunks
  {
  }

  /** Without `force_cut` a window that lacks the pattern raises at once. */
  lemma NoForceCutRaises(m: string, pattern: string, withPattern: bool, maxLength: int)
    requires Terminates(pattern, maxLength) && pattern != [] && |m| > maxLength
    requires RIndex(m, pattern, maxLength).None?
    ensures Cut(m, pattern, withPattern, maxLength, false) == Chunks([], true)
  {
  }

  /** An empty pattern cuts fixed chunks: every chunk but the last has
      exactly `max_length` characters, and the last has at most that many. */
  lemma {:induction false} EmptyPatternFixedChunks(m: string, withPattern: bool, maxLength: int, forceCut: bool)
    requires maxLength > 0
    ensures var r := Cut(m, "", withPattern, maxLength, forceCut);
            !r.failed
            && (forall k :: 0 <= k < |r.chunks| - 1 ==> |r.chunks[k]| == maxLength)
            && (r.chunks != [] ==> 0 < |r.chunks[|r.chunks| - 1]| <= maxLength)
    decreases |m|
  {
    if m != [] && |m| > maxLength {
      var tail := Drop(m, maxLength);
      EmptyPatternFixedChunks(tail, withPattern, maxLength, forceCut);
      var r := Cut(m, "", withPattern, maxLength, forceCut);
      var rest := Cut(tail, "", withPattern, maxLength, forceCut);
      assert r.chunks == [m[..maxLength]] + rest.chunks;
      assert tail != [];
      forall k | 0 <= k < |r.chunks| - 1
        ensures |r.chunks[k]| == maxLength
      {
        if k > 0 {
          assert r.chunks[k] == rest.chunks[k - 1];
        }
      }
    }
  }
}
