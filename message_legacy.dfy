/** The older message chunker of yakusoku/utils/message.py: each chunk ends
    one character after the start of the last `wrap_after` in the window, or
    after `max_length + 1` characters when it is not there. */
module MessageLegacy {

  import opened Wrappers
  import opened Text
  import opened Message

  /** Where the chunk ends, before the `+ 1`. */
  function WrapPoint(m: string, wrapAfter: string, maxLength: nat): Option<nat>
    requires maxLength < |m|
  {
    if wrapAfter != [] then RIndex(m, wrapAfter, maxLength) else Some(maxLength)
  }

  /** `cut_message`; every step consumes at least one character, so any
      non-negative `max_length` terminates. */
  function CutAfter(m: string, wrapAfter: string, maxLength: nat, forceCut: bool): Chunks
    decreases |m|
  {
    if m == [] then Chunks([], false)
    else if |m| <= maxLength then Chunks([m], false)
    else
      var found := WrapPoint(m, wrapAfter, maxLength);
      if found.None? && !forceCut then Chunks([], true)
      else
        var end := (if found.Some? then found.value else maxLength) + 1;
        var rest := CutAfter(m[end..], wrapAfter, maxLength, forceCut);
        Chunks([m[..end]] + rest.chunks, rest.failed)
  }

  /** An empty message yields nothing and a short one yields itself. */
  lemma ShortMessages(m: string, wrapAfter: string, maxLength: nat, forceCut: bool)
    ensures m == [] ==> CutAfter(m, wrapAfter, maxLength, forceCut) == Chunks([], false)
    ensures m != [] && |m| <= maxLength ==> CutAfter(m, wrapAfter, maxLength, forceCut) == Chunks([m], false)
  {
  }

  /** One cut: the chunk up to and including position `end` comes first,
      then the chunks of the rest. */
  lemma CutAfterStep(m: string, wrapAfter: string, maxLength: nat, forceCut: bool, end: nat)
    requires maxLength < |m|
    requires WrapPoint(m, wrapAfter, maxLength) == Some(end)
             || (WrapPoint(m, wrapAfter, maxLength).None? && forceCut && end == maxLength)
    ensures end < |m|
    ensures CutAfter(m, wrapAfter, maxLength, forceCut)
            == Prepend([m[..end + 1]], CutAfter(m[end + 1..], wrapAfter, maxLength, forceCut))
  {
  }

  /** The generator, as a loop. */
  method CutMessage(message: string, wrapAfter: string, maxLength: nat, forceCut: bool) returns (r: Chunks)
    ensures r == CutAfter(message, wrapAfter, maxLength, forceCut)
  {
    var m := message;
    var out: seq<string> := [];
    assert [] + CutAfter(m, wrapAfter, maxLength, forceCut).chunks == CutAfter(m, wrapAfter, maxLength, forceCut).chunks;
    while m != []
      invariant CutAfter(message, wrapAfter, maxLength, forceCut)
                == Prepend(out, CutAfter(m, wrapAfter, maxLength, forceCut))
      decreases |m|
    {
      if |m| <= maxLength {
        assert CutAfter(m, wrapAfter, maxLength, forceCut) == Chunks([m], false);
        return Chunks(out + [m], false);
      }
      var end: nat;
      var found := WrapPoint(m, wrapAfter, maxLength);
      if found.None? {
        if !forceCut {
          assert CutAfter(m, wrapAfter, maxLength, forceCut) == Chunks([], true);
          assert out + [] == out;
          return Chunks(out, true);
        }
        end := maxLength;
      } else {
        end := found.value;
      }
      CutAfterStep(m, wrapAfter, maxLength, forceCut, end);
      end := end + 1;
      PrependTwice(out, [m[..end]], CutAfter(m[end..], wrapAfter, maxLength, forceCut));
      out := out + [m[..end]];
      m := m[end..];
    }
    assert CutAfter(m, wrapAfter, maxLength, forceCut) == Chunks([], false);
    assert out + [] == out;
    return Chunks(out, false);
  }

  /** The chunks always spell a prefix of the message, and all of it unless
      the generator raised. */
  lemma {:induction false} ChunksKeepText(m: string, wrapAfter: string, maxLength: nat, forceCut: bool)
    ensures KeepsText(m, CutAfter(m, wrapAfter, maxLength, forceCut))
    decreases |m|
  {
    if m != [] && |m| <= maxLength {
      ConcatAppend([], m);
      assert [] + [m] == [m];
    } else if m != [] {
      var found := WrapPoint(m, wrapAfter, maxLength);
      if found.Some? || forceCut {
        var at := if found.Some? then found.value else maxLength;
        CutAfterStep(m, wrapAfter, maxLength, forceCut, at);
        ChunksKeepText(m[at + 1..], wrapAfter, maxLength, forceCut);
        KeepsTextStep(m, at + 1, CutAfter(m[at + 1..], wrapAfter, maxLength, forceCut));
      }
    }
  }

  /** The chunks spell a prefix of `m`, and all of it unless they failed. */
  predicate KeepsText(m: string, c: Chunks)
  {
    Concat(c.chunks) <= m && (!c.failed ==> Concat(c.chunks) == m)
  }

  lemma KeepsTextStep(m: string, end: nat, rest: Chunks)
    requires end <= |m| && KeepsText(m[end..], rest)
    ensures KeepsText(m, Prepend([m[..end]], rest))
  {
    ConsKeepsText(m[..end], m[end..], rest);
    assert m[..end] + m[end..] == m;
  }

  /** One cut chunk in front of the chunks of the rest keeps the text of both. */
  lemma ConsKeepsText(chunk: string, tail: string, rest: Chunks)
    requires Concat(rest.chunks) <= tail
    requires !rest.failed ==> Concat(rest.chunks) == tail
    ensures Concat([chunk] + rest.chunks) <= chunk + tail
    ensures !rest.failed ==> Concat([chunk] + rest.chunks) == chunk + tail
  {
    ConcatCons(chunk, rest.chunks);
    PrefixAppend(chunk, Concat(rest.chunks), tail);
  }

  /** Every chunk holds at least one character and at most `max_length + 1`. */
  lemma {:induction false} ChunkSizes(m: string, wrapAfter: string, maxLength: nat, forceCut: bool)
    ensures forall k :: 0 <= k < |CutAfter(m, wrapAfter, maxLength, forceCut).chunks| ==>
              0 < |CutAfter(m, wrapAfter, maxLength, forceCut).chunks[k]| <= maxLength + 1
    decreases |m|
  {
    if m != [] && |m| > maxLength {
      var found := WrapPoint(m, wrapAfter, maxLength);
      if found.Some? || forceCut {
        var end := (if found.Some? then found.value else maxLength) + 1;
        var r := CutAfter(m, wrapAfter, maxLength, forceCut);
        var rest := CutAfter(m[end..], wrapAfter, maxLength, forceCut);
        assert r.chunks == [m[..end]] + rest.chunks;
        ChunkSizes(m[end..], wrapAfter, maxLength, forceCut);
        forall k | 0 <= k < |r.chunks|
          ensures 0 < |r.chunks[k]| <= maxLength + 1
        {
          if k > 0 { assert r.chunks[k] == rest.chunks[k - 1]; }
        }
      }
    }
  }

  /** A found `wrap_after` keeps only its first character in the chunk: the
      chunk fits in `max_length` and ends with that character, and the rest
      of `wrap_after` starts the next part of the message. */
  lemma WrapCut(m: string, wrapAfter: string, maxLength: nat, forceCut: bool)
    requires wrapAfter != [] && |m| > maxLength
    requires RIndex(m, wrapAfter, maxLength).Some?
    ensures var i := RIndex(m, wrapAfter, maxLength).value;
            var r := CutAfter(m, wrapAfter, maxLength, forceCut);
            r.chunks != [] && r.chunks[0] == m[..i + 1] && |r.chunks[0]| <= maxLength
            && r.chunks[0][i] == wrapAfter[0]
            && StartsWith(m[i + 1..], wrapAfter[1..])
            && r.chunks[1..] == CutAfter(m[i + 1..], wrapAfter, maxLength, forceCut).chunks
  {
    var i := RIndex(m, wrapAfter, maxLength).value;
    assert OccursAt(m, wrapAfter, i);
    assert m[i..i + |wrapAfter|][0] == wrapAfter[0];
    assert m[i + 1..][..|wrapAfter| - 1] == m[i..i + |wrapAfter|][1..];
  }

  /** A force cut, or an empty `wrap_after`, takes `max_length + 1` characters. */
  lemma ForceCutLength(m: string, wrapAfter: string, maxLength: nat)
    requires |m| > maxLength
    requires wrapAfter == [] || RIndex(m, wrapAfter, maxLength).None?
    ensures var r := CutAfter(m, wrapAfter, maxLength, true);
            r.chunks != [] && |r.chunks[0]| == maxLength + 1
  {
  }

  /** Without `force_cut` a window that lacks `wrap_after` raises at once. */
  lemma NoForceCutRaises(m: string, wrapAfter: string, maxLength: nat)
    requires wrapAfter != [] && |m| > maxLength
    requires RIndex(m, wrapAfter, maxLength).None?
    ensures CutAfter(m, wrapAfter, maxLength, false) == Chunks([], true)
  {
  }
}
