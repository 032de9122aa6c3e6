/** `stringify_entries` of src/yakusoku/modules/whois/main.py (the function in
    yakusoku/modules/whois/main.py is the same): each WHOIS entry with a
    truthy value becomes lines "Key: value", one per item for a list, with the
    key's '_'-separated parts capitalized and joined by spaces; the lines are
    joined by newlines. */
module Whois {

  import opened Text

  /** An entry value: `None`, a string, an integer, a list of strings, or any
      other object, shown by its `str()` and always truthy (dates, for one). */
  datatype Value = Null | Str(s: string) | Int(n: int) | Items(items: seq<string>) | Other(shown: string)

  /** Python truthiness of a value. */
  predicate Truthy(v: Value)
  {
    match v
    case Null => false
    case Str(s) => s != []
    case Int(n) => n != 0
    case Items(items) => items != []
    case Other(_) => true
  }

  /** `f"{value}"` for a value that is not a list. */
  function Shown(v: Value): string
  {
    match v
    case Null => "None"
    case Str(s) => s
    case Int(n) => IntToString(n)
    case Items(_) => ""
    case Other(shown) => shown
  }

  function Upper(c: char): char
  {
    if 'a' <= c <= 'z' then (c as int - 32) as char else c
  }

  function Lower(c: char): char
  {
    if 'A' <= c <= 'Z' then (c as int + 32) as char else c
  }

  function LowerAll(s: string): (r: string)
    ensures |r| == |s| && forall i :: 0 <= i < |s| ==> r[i] == Lower(s[i])
  {
    if s == [] then [] else [Lower(s[0])] + LowerAll(s[1..])
  }

  /** `str.capitalize`: the first character upper-cased, the rest lower-cased. */
  function Capitalize(p: string): string
  {
    if p == [] then [] else [Upper(p[0])] + LowerAll(p[1..])
  }

  /** `s.split(sep)`: the pieces between the separators, always at least one. */
  function SplitOn(s: string, sep: char): (r: seq<string>)
    ensures |r| >= 1
    decreases |s|
  {
    if s == [] then [""]
    else
      var parts := SplitOn(s[..|s| - 1], sep);
      var c := s[|s| - 1];
      if c == sep then parts + [""]
      else parts[..|parts| - 1] + [parts[|parts| - 1] + [c]]
  }

  /** `sep.join(parts)`. */
  function JoinWith(parts: seq<string>, sep: string): string
    decreases |parts|
  {
    if parts == [] then ""
    else if |parts| == 1 then parts[0]
    else JoinWith(parts[..|parts| - 1], sep) + sep + parts[|parts| - 1]
  }

  function CapitalizeAll(parts: seq<string>): seq<string>
  {
    seq(|parts|, i requires 0 <= i < |parts| => Capitalize(parts[i]))
  }

  /** `" ".join(part.capitalize() for part in key.split("_"))`, as the source
      computes it. */
  function TitleBySplit(key: string): string
  {
    JoinWith(CapitalizeAll(SplitOn(key, '_')), " ")
  }

  /** The title character at `i`, from the key alone: underscores become
      spaces, a character that starts a part is upper-cased and every other
      one lower-cased. */
  function TitleAt(key: string, i: nat): char
    requires i < |key|
  {
    if key[i] == '_' then ' '
    else if i == 0 || key[i - 1] == '_' then Upper(key[i])
    else Lower(key[i])
  }

  /** The displayed form of a key, character by character. */
  function KeyTitle(key: string): string
  {
    seq(|key|, i requires 0 <= i < |key| => TitleAt(key, i))
  }

  /** Splitting and rejoining with the same separator gives the string back. */
  lemma {:induction false} SplitJoin(s: string, sep: char)
    ensures JoinWith(SplitOn(s, sep), [sep]) == s
    decreases |s|
  {
    if s != [] {
      var init := s[..|s| - 1];
      var c := s[|s| - 1];
      assert init + [c] == s;
      var parts := SplitOn(init, sep);
      SplitJoin(init, sep);
      if c == sep {
        assert SplitOn(s, sep) == parts + [""];
        JoinWithEmptyLast(parts, [sep]);
      } else {
        assert SplitOn(s, sep) == parts[..|parts| - 1] + [parts[|parts| - 1] + [c]];
        JoinWithLastGrows(parts, [sep], c);
      }
    }
  }

  /** Extending the last part extends the joined string by the same character. */
  lemma JoinWithLastGrows(parts: seq<string>, sep: string, c: char)
    requires parts != []
    ensures JoinWith(parts[..|parts| - 1] + [parts[|parts| - 1] + [c]], sep) == JoinWith(parts, sep) + [c]
  {
    var n := |parts|;
    var grown := parts[..n - 1] + [parts[n - 1] + [c]];
    assert grown[..n - 1] == parts[..n - 1];
    if n > 1 {
      assert JoinWith(grown, sep) == JoinWith(parts[..n - 1], sep) + sep + (parts[n - 1] + [c]);
    }
  }

  /** A new empty last part adds one separator. */
  lemma JoinWithEmptyLast(parts: seq<string>, sep: string)
    requires parts != []
    ensures JoinWith(parts + [""], sep) == JoinWith(parts, sep) + sep
  {
    assert (parts + [""])[..|parts|] == parts;
  }

  /** The last part is empty exactly when the string is empty or ends in the
      separator. */
  lemma SplitLastEmpty(s: string, sep: char)
    ensures var parts := SplitOn(s, sep);
            parts[|parts| - 1] == [] <==> s == [] || s[|s| - 1] == sep
  {
    if s != [] && s[|s| - 1] != sep {
      var parts := SplitOn(s[..|s| - 1], sep);
      assert SplitOn(s, sep)[|SplitOn(s, sep)| - 1] == parts[|parts| - 1] + [s[|s| - 1]];
    }
  }

  lemma CapitalizeAllSnoc(parts: seq<string>, p: string)
    ensures CapitalizeAll(parts + [p]) == CapitalizeAll(parts) + [Capitalize(p)]
  {
    assert (parts + [p])[..|parts|] == parts;
  }

  /** Capitalizing a part grown by one character grows the result by that
      character, upper-cased when it opens the part. */
  lemma CapitalizeSnoc(p: string, c: char)
    ensures Capitalize(p + [c]) == Capitalize(p) + [if p == [] then Upper(c) else Lower(c)]
  {
    if p != [] {
      assert (p + [c])[1..] == p[1..] + [c];
      LowerAllSnoc(p[1..], c);
    }
  }

  lemma LowerAllSnoc(s: string, c: char)
    ensures LowerAll(s + [c]) == LowerAll(s) + [Lower(c)]
  {
  }

  /** An underscore adds a new empty part, which joins as one space. */
  lemma TitleStepSeparator(init: string)
    ensures TitleBySplit(init + ['_']) == TitleBySplit(init) + " "
  {
    var parts := SplitOn(init, '_');
    assert (init + ['_'])[..|init|] == init;
    assert SplitOn(init + ['_'], '_') == parts + [""];
    CapitalizeAllSnoc(parts, "");
    JoinWithEmptyLast(CapitalizeAll(parts), " ");
  }

  /** Growing the last part by `c` grows its capitalized join by `c`,
      upper-cased when the part was empty. */
  lemma CapitalizedJoinGrows(parts: seq<string>, c: char)
    requires parts != []
    ensures var n := |parts|;
            JoinWith(CapitalizeAll(parts[..n - 1] + [parts[n - 1] + [c]]), " ") ==
            JoinWith(CapitalizeAll(parts), " ") + [if parts[n - 1] == [] then Upper(c) else Lower(c)]
  {
    var n := |parts|;
    var last := parts[n - 1];
    var x := if last == [] then Upper(c) else Lower(c);
    CapitalizeAllGrows(parts, c);
    JoinWithLastGrows(CapitalizeAll(parts), " ", x);
  }

  lemma CapitalizeAllGrows(parts: seq<string>, c: char)
    requires parts != []
    ensures var n := |parts|;
            var caps := CapitalizeAll(parts);
            CapitalizeAll(parts[..n - 1] + [parts[n - 1] + [c]]) ==
            caps[..n - 1] + [caps[n - 1] + [if parts[n - 1] == [] then Upper(c) else Lower(c)]]
  {
    CapitalizeSnoc(parts[|parts| - 1], c);
  }

  /** Any other character grows the last part, and is upper-cased exactly
      when it opens that part. */
  lemma TitleStepOther(init: string, c: char)
    requires c != '_'
    ensures TitleBySplit(init + [c]) ==
            TitleBySplit(init) + [if init == [] || init[|init| - 1] == '_' then Upper(c) else Lower(c)]
  {
    var parts := SplitOn(init, '_');
    var n := |parts|;
    assert (init + [c])[..|init|] == init;
    assert SplitOn(init + [c], '_') == parts[..n - 1] + [parts[n - 1] + [c]];
    SplitLastEmpty(init, '_');
    CapitalizedJoinGrows(parts, c);
  }

  /** One more character adds its own title character; the earlier ones
      keep theirs. */
  lemma KeyTitleSnoc(init: string, c: char)
    ensures KeyTitle(init + [c]) == KeyTitle(init) + [TitleAt(init + [c], |init|)]
  {
    var key := init + [c];
    forall i | 0 <= i < |init|
      ensures TitleAt(key, i) == TitleAt(init, i)
    {
      assert key[i] == init[i];
      if i > 0 {
        assert key[i - 1] == init[i - 1];
      }
    }
  }

  /** The source's split-capitalize-join computes the character-by-character
      title. */
  lemma {:induction false} TitleBySplitIsKeyTitle(key: string)
    ensures TitleBySplit(key) == KeyTitle(key)
    decreases |key|
  {
    if key != [] {
      var init := key[..|key| - 1];
      var c := key[|key| - 1];
      assert init + [c] == key;
      TitleBySplitIsKeyTitle(init);
      KeyTitleSnoc(init, c);
      if c == '_' {
        TitleStepSeparator(init);
      } else {
        TitleStepOther(init, c);
      }
    }
  }

  /** One line per item of a list, in order. */
  function ItemLines(title: string, items: seq<string>): (r: seq<string>)
    ensures |r| == |items|
  {
    if items == [] then [] else ItemLines(title, items[..|items| - 1]) + [title + ": " + items[|items| - 1]]
  }

  lemma {:induction false} ItemLinesSpec(title: string, items: seq<string>)
    ensures forall k :: 0 <= k < |items| ==> ItemLines(title, items)[k] == title + ": " + items[k]
    decreases |items|
  {
    if items != [] {
      ItemLinesSpec(title, items[..|items| - 1]);
    }
  }

  /** The lines one entry contributes. */
  function EntryLines(key: string, v: Value): seq<string>
  {
    if !Truthy(v) then []
    else if v.Items? then ItemLines(KeyTitle(key), v.items)
    else [KeyTitle(key) + ": " + Shown(v)]
  }

  /** A falsy value gives no line, a list one line per item, and any other
      value one line. */
  lemma EntryLinesSpec(key: string, v: Value)
    ensures !Truthy(v) ==> EntryLines(key, v) == []
    ensures Truthy(v) && v.Items? ==>
              |EntryLines(key, v)| == |v.items|
              && forall k :: 0 <= k < |v.items| ==> EntryLines(key, v)[k] == KeyTitle(key) + ": " + v.items[k]
    ensures Truthy(v) && !v.Items? ==> EntryLines(key, v) == [KeyTitle(key) + ": " + Shown(v)]
  {
    if v.Items? {
      ItemLinesSpec(KeyTitle(key), v.items);
    }
  }

  /** No part of a split contains the separator. */
  lemma {:induction false} SplitPartsFree(s: string, sep: char)
    ensures forall k :: 0 <= k < |SplitOn(s, sep)| ==> sep !in SplitOn(s, sep)[k]
    decreases |s|
  {
    if s != [] {
      SplitPartsFree(s[..|s| - 1], sep);
    }
  }

  /** All lines, entry by entry in dictionary order. */
  function Lines(entries: seq<(string, Value)>): seq<string>
    decreases |entries|
  {
    if entries == [] then []
    else Lines(entries[..|entries| - 1]) + EntryLines(entries[|entries| - 1].0, entries[|entries| - 1].1)
  }

  /** The lines of the first `i + 1` entries extend those of the first `i`. */
  lemma LinesStep(entries: seq<(string, Value)>, i: nat)
    requires i < |entries|
    ensures Lines(entries[..i + 1]) == Lines(entries[..i]) + EntryLines(entries[i].0, entries[i].1)
  {
    var pre := entries[..i + 1];
    assert pre[..i] == entries[..i];
    assert pre[i] == entries[i];
  }

  /** One more item adds one more line. */
  lemma ItemLinesStep(title: string, items: seq<string>, j: nat)
    requires j < |items|
    ensures ItemLines(title, items[..j + 1]) == ItemLines(title, items[..j]) + [title + ": " + items[j]]
  {
    var pre := items[..j + 1];
    assert pre[..j] == items[..j];
  }

  /** `stringify_entries`, with the loops of the source. */
  method StringifyEntries(entries: seq<(string, Value)>) returns (r: string)
    ensures r == JoinWith(Lines(entries), "\n")
  {
    var lines: seq<string> := [];
    var i := 0;
    while i < |entries|
      invariant 0 <= i <= |entries|
      invariant lines == Lines(entries[..i])
    {
      var key := entries[i].0;
      var value := entries[i].1;
      LinesStep(entries, i);
      if Truthy(value) {
        var title := TitleBySplit(key);
        TitleBySplitIsKeyTitle(key);
        if value.Items? {
          var items := value.items;
          var j := 0;
          while j < |items|
            invariant 0 <= j <= |items|
            invariant lines == Lines(entries[..i]) + ItemLines(title, items[..j])
          {
            ItemLinesStep(title, items, j);
            lines := lines + [title + ": " + items[j]];
            j := j + 1;
          }
          assert items[..j] == items;
        } else {
          lines := lines + [title + ": " + Shown(value)];
        }
      }
      i := i + 1;
    }
    assert entries[..i] == entries;
    r := JoinWith(lines, "\n");
  }

  /** Entries whose values are all falsy, including no entries at all, give
      the empty string. */
  lemma {:induction false} AllFalsyEmpty(entries: seq<(string, Value)>)
    requires forall k :: 0 <= k < |entries| ==> !Truthy(entries[k].1)
    ensures Lines(entries) == []
    ensures JoinWith(Lines(entries), "\n") == ""
    decreases |entries|
  {
    if entries != [] {
      AllFalsyEmpty(entries[..|entries| - 1]);
    }
  }

  /** A falsy entry adds no line wherever it stands. */
  lemma FalsyEntrySkipped(entries: seq<(string, Value)>, key: string, v: Value)
    requires !Truthy(v)
    ensures Lines(entries + [(key, v)]) == Lines(entries)
  {
    assert (entries + [(key, v)])[..|entries|] == entries;
  }
}
