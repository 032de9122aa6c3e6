/** String helpers that mirror the Python `str` and `posixpath` operations the
    bot relies on: prefix tests, stripping, splitting at a separator, joining
    paths, and the "only spaces were inserted" relation used by the text
    formatters. Strings are sequences of Unicode scalar values. */
module Text {

  import opened Wrappers

  predicate StartsWith(s: string, p: string)
  {
    |p| <= |s| && s[..|p|] == p
  }

  predicate EndsWith(s: string, p: string)
  {
    |p| <= |s| && s[|s| - |p|..] == p
  }

  /** `sub` occurs in `s` starting at index `i`. */
  predicate OccursAt(s: string, sub: string, i: int)
  {
    0 <= i && i + |sub| <= |s| && s[i..i + |sub|] == sub
  }

  /** `sub in s` on strings. */
  predicate Contains(s: string, sub: string)
  {
    exists i | 0 <= i <= |s| :: OccursAt(s, sub, i)
  }

  /** `s.rstrip(c)` for a single character `c`. */
  function RStrip(s: string, c: char): (r: string)
    ensures |r| <= |s| && r == s[..|r|]
    ensures r == [] || r[|r| - 1] != c
    ensures forall i :: |r| <= i < |s| ==> s[i] == c
  {
    if |s| > 0 && s[|s| - 1] == c then RStrip(s[..|s| - 1], c) else s
  }

  /** The characters `str.isspace` accepts (Python's whitespace table). */
  predicate IsSpace(c: char)
  {
    var n := c as int;
    (9 <= n <= 13) || (0x1C <= n <= 0x20) || n == 0x85 || n == 0xA0 || n == 0x1680
    || (0x2000 <= n <= 0x200A) || n == 0x2028 || n == 0x2029 || n == 0x202F
    || n == 0x205F || n == 0x3000
  }

  /** `s.lstrip()` with no argument. */
  function LStripSpace(s: string): string
  {
    if |s| > 0 && IsSpace(s[0]) then LStripSpace(s[1..]) else s
  }

  /** `lstrip` removes exactly the leading run of whitespace. */
  lemma {:induction false} LStripSpaceSpec(s: string)
    ensures var r := LStripSpace(s);
      |r| <= |s| && r == s[|s| - |r|..] && (r == [] || !IsSpace(r[0]))
      && forall i :: 0 <= i < |s| - |r| ==> IsSpace(s[i])
  {
    if |s| > 0 && IsSpace(s[0]) {
      LStripSpaceSpec(s[1..]);
    }
  }

  /** One more trailing `c` does not change what `rstrip` leaves. */
  lemma RStripAppended(s: string, c: char)
    ensures RStrip(s + [c], c) == RStrip(s, c)
  {
    assert (s + [c])[..|s|] == s;
  }

  /** Trailing slashes do not change what `rstrip('/')` leaves. */
  lemma {:induction false} StripSlashes(s: string, n: nat)
    ensures RStrip(s + Slashes(n), '/') == RStrip(s, '/')
    decreases n
  {
    if n == 0 {
      assert s + Slashes(n) == s;
    } else {
      assert s + Slashes(n) == (s + Slashes(n - 1)) + ['/'];
      RStripAppended(s + Slashes(n - 1), '/');
      StripSlashes(s, n - 1);
    }
  }

  /** `n` slashes. */
  function Slashes(n: nat): (r: string)
    ensures |r| == n && forall i :: 0 <= i < n ==> r[i] == '/'
  {
    if n == 0 then "" else Slashes(n - 1) + "/"
  }

  /** Position of the first `c` in `s`. */
  function IndexOf(s: string, c: char): (r: Option<nat>)
    ensures r.None? <==> c !in s
    ensures r.Some? ==> r.value < |s| && s[r.value] == c && c !in s[..r.value]
  {
    if |s| == 0 then None
    else if s[0] == c then Some(0)
    else match IndexOf(s[1..], c)
      case None => None
      case Some(i) => assert s[1..][..i] == s[1..i + 1]; Some(i + 1)
  }

  /** `s.split(c, 1)` when it has two parts: the text before the first `c`
      and everything after it; `None` when `c` does not occur. */
  function SplitOnce(s: string, c: char): Option<(string, string)>
  {
    match IndexOf(s, c)
    case None => None
    case Some(i) => Some((s[..i], s[i + 1..]))
  }

  /** The split happens at the first `c`, and only when there is one. */
  lemma SplitOnceSpec(s: string, c: char)
    ensures SplitOnce(s, c).None? <==> c !in s
    ensures SplitOnce(s, c).Some? ==>
              s == SplitOnce(s, c).value.0 + [c] + SplitOnce(s, c).value.1 && c !in SplitOnce(s, c).value.0
  {
    if IndexOf(s, c).Some? {
      var i := IndexOf(s, c).value;
      assert s == s[..i] + [c] + s[i + 1..];
    }
  }

  /** Splitting `a + c + b` at `c` gives `a` and `b` when `a` has no `c`. */
  lemma SplitOnceAt(a: string, c: char, b: string)
    requires c !in a
    ensures SplitOnce(a + [c] + b, c) == Some((a, b))
  {
    var s := a + [c] + b;
    assert forall j :: 0 <= j < |a| ==> s[j] == a[j];
    assert s[|a|] == c;
    assert forall k :: |a| < k <= |s| ==> c in s[..k] by {
      forall k | |a| < k <= |s| ensures c in s[..k] { assert s[..k][|a|] == c; }
    }
    assert s[..|a|] == a && s[|a| + 1..] == b;
  }

  /** One step of `posixpath.join(a, b)`. */
  function JoinOne(path: string, b: string): string
  {
    if StartsWith(b, "/") then b
    else if path == "" || EndsWith(path, "/") then path + b
    else path + "/" + b
  }

  /** `posixpath.join(a, *ps)`. */
  function Join(a: string, ps: seq<string>): string
    decreases |ps|
  {
    if ps == [] then a else Join(JoinOne(a, ps[0]), ps[1..])
  }

  /** A path component that is neither empty nor starts or ends with '/'. */
  predicate Plain(p: string)
  {
    p != "" && p[0] != '/' && p[|p| - 1] != '/'
  }

  /** `a` with a separating '/' appended unless it is empty or already ends in one. */
  function Dir(a: string): string
  {
    if a == "" || EndsWith(a, "/") then a else a + "/"
  }

  /** `"/".join(ps)`. */
  function SlashJoin(ps: seq<string>): string
    requires ps != []
  {
    if |ps| == 1 then ps[0] else ps[0] + "/" + SlashJoin(ps[1..])
  }

  lemma SlashJoinCons(p: string, ps: seq<string>)
    requires ps != []
    ensures SlashJoin([p] + ps) == p + "/" + SlashJoin(ps)
  {
    assert ([p] + ps)[1..] == ps;
  }

  lemma SlashJoinFour(a: string, b: string, c: string, d: string)
    ensures SlashJoin([a, b, c, d]) == a + "/" + b + "/" + c + "/" + d
  {
    assert [a, b, c, d] == [a] + [b, c, d];
    SlashJoinCons(a, [b, c, d]);
    assert [b, c, d] == [b] + [c, d];
    SlashJoinCons(b, [c, d]);
    assert [c, d] == [c] + [d];
    SlashJoinCons(c, [d]);
  }

  lemma SlashJoinFive(a: string, b: string, c: string, d: string, e: string)
    ensures SlashJoin([a, b, c, d, e]) == a + "/" + b + "/" + c + "/" + d + "/" + e
  {
    assert [a, b, c, d, e] == [a] + [b, c, d, e];
    SlashJoinCons(a, [b, c, d, e]);
    assert [b, c, d, e] == [b] + [c, d, e];
    SlashJoinCons(b, [c, d, e]);
    assert [c, d, e] == [c] + [d, e];
    SlashJoinCons(c, [d, e]);
    assert [d, e] == [d] + [e];
    SlashJoinCons(d, [e]);
  }

  /** Joining plain components puts exactly one '/' between the pieces. */
  lemma {:induction false} JoinPlain(a: string, ps: seq<string>)
    requires ps != []
    requires forall i :: 0 <= i < |ps| ==> Plain(ps[i])
    ensures Join(a, ps) == Dir(a) + SlashJoin(ps)
    decreases |ps|
  {
    var p := ps[0];
    var next := JoinOne(a, p);
    assert !StartsWith(p, "/") by { assert Plain(ps[0]); }
    assert next == Dir(a) + p;
    if |ps| > 1 {
      assert Plain(ps[0]);
      assert next != "" && next[|next| - 1] == p[|p| - 1];
      assert !EndsWith(next, "/");
      assert Dir(next) == next + "/";
      assert forall i :: 0 <= i < |ps[1..]| ==> Plain(ps[1..][i]) by {
        forall i | 0 <= i < |ps[1..]| ensures Plain(ps[1..][i]) { assert ps[1..][i] == ps[i + 1]; }
      }
      JoinPlain(next, ps[1..]);
    }
  }

  /** `"".join(ss)`. */
  function Concat(ss: seq<string>): string
  {
    if ss == [] then "" else Concat(ss[..|ss| - 1]) + ss[|ss| - 1]
  }

  lemma ConcatAppend(ss: seq<string>, s: string)
    ensures Concat(ss + [s]) == Concat(ss) + s
  {
    assert (ss + [s])[..|ss|] == ss;
  }

  lemma {:induction false} ConcatCons(s: string, ss: seq<string>)
    ensures Concat([s] + ss) == s + Concat(ss)
    decreases |ss|
  {
    if ss == [] {
      assert [s] + ss == [] + [s];
      ConcatAppend([], s);
    } else {
      var init := ss[..|ss| - 1];
      var last := ss[|ss| - 1];
      assert ss == init + [last];
      assert [s] + ss == ([s] + init) + [last];
      ConcatAppend([s] + init, last);
      ConcatCons(s, init);
      ConcatAppend(init, last);
    }
  }

  /** `s.rindex(sub, 0, hi)` for a non-empty `sub`: the last position at which
      `sub` lies wholly inside `s[..hi]`, or `None` (a ValueError). */
  function RIndex(s: string, sub: string, hi: nat): (r: Option<nat>)
    requires sub != [] && hi <= |s|
    ensures r.Some? ==> r.value + |sub| <= hi && OccursAt(s, sub, r.value)
    ensures r.Some? ==> forall k :: r.value < k && k + |sub| <= hi ==> !OccursAt(s, sub, k)
    ensures r.None? ==> forall k :: 0 <= k && k + |sub| <= hi ==> !OccursAt(s, sub, k)
  {
    LastOccurrence(s, sub, hi - |sub|)
  }

  /** The last occurrence of `sub` starting at or before `k`. */
  function LastOccurrence(s: string, sub: string, k: int): (r: Option<nat>)
    requires k + |sub| <= |s|
    ensures r.Some? ==> r.value <= k && OccursAt(s, sub, r.value)
    ensures r.Some? ==> forall j :: r.value < j <= k ==> !OccursAt(s, sub, j)
    ensures r.None? ==> forall j :: 0 <= j <= k ==> !OccursAt(s, sub, j)
    decreases k + 1
  {
    if k < 0 then None
    else if OccursAt(s, sub, k) then Some(k)
    else LastOccurrence(s, sub, k - 1)
  }

  /** `r` is `s` with zero or more spaces inserted (the original characters
      keep their order; every extra character is ' '). */
  predicate Spaced(s: string, r: string)
    decreases |r|
  {
    if r == [] then s == []
    else if s != [] && r[0] == s[0] && Spaced(s[1..], r[1..]) then true
    else r[0] == ' ' && Spaced(s, r[1..])
  }

  lemma {:induction false} SpacedRefl(s: string)
    ensures Spaced(s, s)
    decreases |s|
  {
    if s != [] { SpacedRefl(s[1..]); }
  }

  /** Inserting one space in front of a spaced string keeps it spaced. */
  lemma SpacedPrefixSpace(s: string, r: string)
    requires Spaced(s, r)
    ensures Spaced(s, [' '] + r)
  {
    assert ([' '] + r)[1..] == r;
  }

  lemma {:induction false} SpacedAppend(s1: string, r1: string, s2: string, r2: string)
    requires Spaced(s1, r1) && Spaced(s2, r2)
    ensures Spaced(s1 + s2, r1 + r2)
    decreases |r1|
  {
    if r1 == [] {
      assert s1 == [];
      assert s1 + s2 == s2 && r1 + r2 == r2;
    } else if s1 != [] && r1[0] == s1[0] && Spaced(s1[1..], r1[1..]) {
      SpacedAppend(s1[1..], r1[1..], s2, r2);
      assert (s1 + s2)[1..] == s1[1..] + s2 && (r1 + r2)[1..] == r1[1..] + r2;
    } else {
      SpacedAppend(s1, r1[1..], s2, r2);
      assert (r1 + r2)[1..] == r1[1..] + r2;
    }
  }

  lemma {:induction false} SpacedTrans(a: string, b: string, c: string)
    requires Spaced(a, b) && Spaced(b, c)
    ensures Spaced(a, c)
    decreases |c|
  {
    if c == [] {
      assert b == [];
      assert a == [];
    } else if b != [] && c[0] == b[0] && Spaced(b[1..], c[1..]) {
      if a != [] && b[0] == a[0] && Spaced(a[1..], b[1..]) {
        SpacedTrans(a[1..], b[1..], c[1..]);
      } else {
        assert b[0] == ' ' && Spaced(a, b[1..]);
        SpacedTrans(a, b[1..], c[1..]);
      }
    } else {
      assert c[0] == ' ' && Spaced(b, c[1..]);
      SpacedTrans(a, b, c[1..]);
    }
  }

  /** The decimal form `str(n)` of a natural number. */
  function NatToString(n: nat): (r: string)
    ensures r != [] && forall i :: 0 <= i < |r| ==> '0' <= r[i] <= '9'
    decreases n
  {
    var d := [('0' as int + n % 10) as char];
    if n < 10 then d else NatToString(n / 10) + d
  }

  /** The decimal form `str(n)` of an integer. */
  function IntToString(n: int): string
  {
    if n < 0 then "-" + NatToString(-n) else NatToString(n)
  }

  predicate IsDigit(c: char)
  {
    '0' <= c <= '9'
  }

  /** The value of a non-empty run of decimal digits. */
  function DigitsValue(s: string): nat
    requires s != [] && forall i :: 0 <= i < |s| ==> IsDigit(s[i])
    decreases |s|
  {
    assert IsDigit(s[|s| - 1]);
    var d := s[|s| - 1] as int - '0' as int;
    if |s| == 1 then d else DigitsValue(s[..|s| - 1]) * 10 + d
  }

  /** `int(s)` restricted to plain decimal digits: `None` for anything else. */
  function ParseNat(s: string): (r: Option<nat>)
    ensures r.Some? <==> s != [] && forall i :: 0 <= i < |s| ==> IsDigit(s[i])
  {
    if s != [] && forall i :: 0 <= i < |s| ==> IsDigit(s[i]) then Some(DigitsValue(s)) else None
  }

  /** Parsing the decimal form of a number gives the number back. */
  lemma {:induction false} ParseNatToString(n: nat)
    ensures ParseNat(NatToString(n)) == Some(n)
    decreases n
  {
    var s := NatToString(n);
    if n >= 10 {
      ParseNatToString(n / 10);
      assert s[..|s| - 1] == NatToString(n / 10);
    }
  }
}
