/** `formatted_join` of yakusoku/bot/utils/string.py: the pieces are joined
    with a space put between two neighbours exactly when one side is in
    Python's `string.printable` and the other is not, unless the text so far
    already ends in a space. The buffer starts as a single space that is cut
    off at the end. Reading the first character of an empty piece is the
    `IndexError` the source raises. */
module BotString {

  import opened Wrappers
  import opened Text

  /** `string.printable`: ASCII digits, letters, punctuation and the
      whitespace characters space, \t, \n, \r, \x0b and \x0c. */
  predicate IsPrintable(c: char)
  {
    0x20 <= c as int <= 0x7E || 0x09 <= c as int <= 0x0D
  }

  datatype JoinError = IndexError

  /** The buffer after one more piece. */
  function Step(buffer: string, s: string): (r: Result<string, JoinError>)
    requires buffer != []
    ensures r.Err? <==> buffer[|buffer| - 1] != ' ' && s == []
    ensures r.Ok? ==> r.value == buffer + s || r.value == buffer + " " + s
    ensures r.Ok? && s != [] ==>
              (r.value == buffer + " " + s <==>
               buffer[|buffer| - 1] != ' ' && IsPrintable(buffer[|buffer| - 1]) != IsPrintable(s[0]))
  {
    var last := buffer[|buffer| - 1];
    if last != ' ' && s == [] then Err(IndexError)
    else if last != ' ' && IsPrintable(last) != IsPrintable(s[0]) then Ok(buffer + " " + s)
    else Ok(buffer + s)
  }

  /** The buffer after all of `strs`, or the error of the first failing step. */
  function Buffer(strs: seq<string>): (r: Result<string, JoinError>)
    ensures r.Ok? ==> r.value != [] && r.value[0] == ' '
    decreases |strs|
  {
    if strs == [] then Ok(" ")
    else
      var before := Buffer(strs[..|strs| - 1]);
      if before.Err? then before else Step(before.value, strs[|strs| - 1])
  }

  /** The result of `formatted_join(*strs)`. */
  function Joined(strs: seq<string>): Result<string, JoinError>
  {
    var b := Buffer(strs);
    if b.Err? then Err(b.error) else Ok(b.value[1..])
  }

  /** Once a step fails, every longer argument list fails. */
  lemma {:induction false} ErrStays(strs: seq<string>, k: nat)
    requires k <= |strs| && Buffer(strs[..k]).Err?
    ensures Buffer(strs).Err?
    decreases |strs| - k
  {
    if k < |strs| {
      var next := strs[..k + 1];
      assert next[..k] == strs[..k];
      assert Buffer(next).Err?;
      ErrStays(strs, k + 1);
    } else {
      assert strs[..k] == strs;
    }
  }

  /** The loop of `formatted_join`. */
  method FormattedJoin(strs: seq<string>) returns (r: Result<string, JoinError>)
    ensures r == Joined(strs)
  {
    var buffer := " ";
    var i := 0;
    while i < |strs|
      invariant 0 <= i <= |strs|
      invariant Buffer(strs[..i]) == Ok(buffer)
    {
      var s := strs[i];
      assert strs[..i + 1][..i] == strs[..i];
      if buffer[|buffer| - 1] != ' ' {
        if s == [] {
          ErrStays(strs, i + 1);
          assert Buffer(strs).error == IndexError;
          return Err(IndexError);
        }
        if IsPrintable(buffer[|buffer| - 1]) != IsPrintable(s[0]) {
          buffer := buffer + " ";
        }
      }
      buffer := buffer + s;
      i := i + 1;
    }
    assert strs[..i] == strs;
    r := Ok(buffer[1..]);
  }

  /** `formatted_join()` is the empty string. */
  lemma JoinNothing()
    ensures Joined([]) == Ok("")
  {
    assert " "[1..] == "";
  }

  /** Deleting the inserted spaces gives back the plain concatenation. */
  lemma {:induction false} BufferSpaced(strs: seq<string>)
    requires Buffer(strs).Ok?
    ensures Spaced(Concat(strs), Buffer(strs).value[1..])
    decreases |strs|
  {
    if strs == [] {
      SpacedRefl("");
    } else {
      var init := strs[..|strs| - 1];
      var s := strs[|strs| - 1];
      var b := Buffer(init).value;
      BufferSpaced(init);
      var b2 := Buffer(strs).value;
      SpacedRefl(s);
      if b2 == b + " " + s {
        SpacedPrefixSpace(s, s);
        SpacedAppend(Concat(init), b[1..], s, " " + s);
        assert b2[1..] == b[1..] + (" " + s);
      } else {
        SpacedAppend(Concat(init), b[1..], s, s);
        assert b2[1..] == b[1..] + s;
      }
    }
  }

  lemma JoinedSpaced(strs: seq<string>)
    requires Joined(strs).Ok?
    ensures Spaced(Concat(strs), Joined(strs).value)
  {
    BufferSpaced(strs);
  }

  /** Pieces that are all non-empty never fail. */
  lemma {:induction false} NonEmptyPiecesJoin(strs: seq<string>)
    requires forall i :: 0 <= i < |strs| ==> strs[i] != []
    ensures Joined(strs).Ok?
    decreases |strs|
  {
    if strs != [] {
      NonEmptyPiecesJoin(strs[..|strs| - 1]);
    }
  }

  /** A step only appends, so each buffer extends the ones before it. */
  lemma {:induction false} BufferExtends(strs: seq<string>, k: nat)
    requires k <= |strs| && Buffer(strs).Ok?
    ensures Buffer(strs[..k]).Ok?
    ensures Buffer(strs[..k]).value <= Buffer(strs).value
    decreases |strs| - k
  {
    if k == |strs| {
      assert strs[..k] == strs;
    } else {
      var init := strs[..|strs| - 1];
      if Buffer(init).Err? {
        assert false;
      }
      BufferExtends(init, k);
      assert init[..k] == strs[..k];
    }
  }

  /** No space is put in front of the first piece: the result starts with it. */
  lemma FirstPieceLeads(strs: seq<string>)
    requires strs != [] && Joined(strs).Ok?
    ensures strs[0] <= Joined(strs).value
  {
    BufferExtends(strs, 1);
    assert strs[..1][..0] == [];
    assert Buffer(strs[..1]).value == " " + strs[0];
  }

  /** An empty piece after text that does not end in a space is an error,
      while one at the start is accepted. */
  lemma EmptyPieceCases()
    ensures Joined(["a", ""]).Err?
    ensures Joined([""]) == Ok("")
  {
    assert ["a", ""][..1] == ["a"];
    assert ["a"][..0] == [];
    assert " " + "a" == " a";
    assert Buffer(["a"]) == Ok(" a");
    assert [""][..0] == [];
    assert " " + "" == " " && " "[1..] == "";
  }

  /** Text in and out of `string.printable` is separated by one space. */
  lemma MixedPiecesSpaced()
    ensures Joined(["ab", "猫"]) == Ok("ab 猫")
    ensures Joined(["ab", "cd"]) == Ok("abcd")
  {
    assert ["ab", "猫"][..1] == ["ab"] && ["ab", "cd"][..1] == ["ab"];
    assert ["ab"][..0] == [];
    assert " " + "ab" == " ab";
    assert Buffer(["ab"]) == Ok(" ab");
    assert " ab" + " " + "猫" == " ab 猫" && " ab 猫"[1..] == "ab 猫";
    assert " ab" + "cd" == " abcd" && " abcd"[1..] == "abcd";
  }
}
