/** The slash-command text helpers of src/yakusoku/modules/slash/process.py.
    `normalize_string` runs five `re.sub` passes in order; each pattern has
    the form `(X)(?=Y)` with replacement `\g<1> `, so a pass puts one space
    after every character of class X that is directly followed by a
    character of class Y. `complete_ul` appends 了 when it is missing. */
module SlashProcess {

  import Text

  predicate IsAsciiLetter(c: char)
  {
    'a' <= c <= 'z' || 'A' <= c <= 'Z'
  }

  /** `\d`: the ASCII digits and the fullwidth digits. */
  predicate IsDigit(c: char)
  {
    '0' <= c <= '9' || '０' <= c <= '９'
  }

  /** Non-ASCII characters taken as punctuation or symbols rather than word
      characters: Latin-1 punctuation, general punctuation, CJK symbols and
      punctuation, and the fullwidth punctuation forms. */
  predicate IsWideSymbol(c: char)
  {
    var n := c as int;
    0x80 <= n <= 0xBF || 0x2000 <= n <= 0x206F || 0x3000 <= n <= 0x303F
    || 0xFF01 <= n <= 0xFF0F || 0xFF1A <= n <= 0xFF20 || 0xFF3B <= n <= 0xFF40
    || 0xFF5B <= n <= 0xFF65
  }

  /** `\w`: letters and digits of any script, and the underscore. */
  predicate IsWord(c: char)
  {
    IsAsciiLetter(c) || '0' <= c <= '9' || c == '_' || (c as int >= 0x80 && !IsWideSymbol(c))
  }

  /** The character classes the two versions' patterns use. */
  datatype CharClass =
    | QuirkAlnum      // [a-zA-z0-9]: `A-z` also spans [ \ ] ^ _ and the backtick
    | QuirkLetter     // [a-zA-z]
    | WordNotAlnum    // [^\Wa-zA-Z0-9]
    | WordNotLetter   // [^\Wa-zA-Z]
    | Stop            // [,.!?:;]
    | Word            // \w, and also [\d\w]
    | WordNotDigit    // [^\W\da-zA-Z]
    | Digit           // \d
    | Symbol          // [#$%&*+/=?\\^`~]

  predicate In(c: char, cls: CharClass)
  {
    match cls
    case QuirkAlnum => 'a' <= c <= 'z' || 'A' <= c <= 'z' || '0' <= c <= '9'
    case QuirkLetter => 'a' <= c <= 'z' || 'A' <= c <= 'z'
    case WordNotAlnum => IsWord(c) && !IsAsciiLetter(c) && !('0' <= c <= '9')
    case WordNotLetter => IsWord(c) && !IsAsciiLetter(c)
    case Stop => c == ',' || c == '.' || c == '!' || c == '?' || c == ':' || c == ';'
    case Word => IsWord(c)
    case WordNotDigit => IsWord(c) && !IsDigit(c) && !IsAsciiLetter(c)
    case Digit => IsDigit(c)
    case Symbol =>
      || c == '#' || c == '$' || c == '%' || c == '&' || c == '*' || c == '+' || c == '/'
      || c == '=' || c == '?' || c == '\\' || c == '^' || c == '`' || c == '~'
  }

  /** One pattern `(X)(?=Y)`. */
  datatype Rule = Rule(before: CharClass, after: CharClass)

  predicate Matches(rule: Rule, c: char, d: char)
  {
    In(c, rule.before) && In(d, rule.after)
  }

  /** The five patterns, in the order they are applied. */
  const Rules: seq<Rule> := [
    Rule(QuirkAlnum, WordNotAlnum),
    Rule(WordNotAlnum, QuirkAlnum),
    Rule(Stop, Word),
    Rule(WordNotDigit, Digit),
    Rule(Digit, WordNotDigit)
  ]

  /** The five patterns of the older yakusoku/modules/slash/process.py. */
  const LegacyRules: seq<Rule> := [
    Rule(QuirkLetter, WordNotLetter),
    Rule(WordNotLetter, QuirkLetter),
    Rule(Stop, Word),
    Rule(Word, Symbol),
    Rule(Symbol, Word)
  ]

  /** No two neighbouring characters match the rule. */
  predicate NoPair(s: string, rule: Rule)
  {
    forall i :: 0 <= i < |s| - 1 ==> !Matches(rule, s[i], s[i + 1])
  }

  /** A space belongs to none of the classes. */
  lemma SpaceInNoClass(cls: CharClass)
    ensures !In(' ', cls)
  {
  }

  /** One `re.sub` pass: a space after each character that matches the rule
      together with the character after it. */
  function Sub(s: string, rule: Rule): (r: string)
    ensures |s| <= |r| <= 2 * |s|
    ensures s != [] ==> r[0] == s[0]
    decreases |s|
  {
    if s == [] then []
    else if |s| >= 2 && Matches(rule, s[0], s[1]) then [s[0], ' '] + Sub(s[1..], rule)
    else [s[0]] + Sub(s[1..], rule)
  }

  /** A pass only inserts spaces. */
  lemma {:induction false} SubSpaced(s: string, rule: Rule)
    ensures Text.Spaced(s, Sub(s, rule))
    decreases |s|
  {
    if s != [] {
      var t := Sub(s[1..], rule);
      SubSpaced(s[1..], rule);
      if |s| >= 2 && Matches(rule, s[0], s[1]) {
        Text.SpacedPrefixSpace(s[1..], t);
        assert ([s[0], ' '] + t)[1..] == [' '] + t;
      } else {
        assert ([s[0]] + t)[1..] == t;
      }
    }
  }

  /** After a pass no neighbours match its rule any more. */
  lemma {:induction false} SubNoPair(s: string, rule: Rule)
    ensures NoPair(Sub(s, rule), rule)
    decreases |s|
  {
    if s != [] {
      var t := Sub(s[1..], rule);
      SubNoPair(s[1..], rule);
      var r := Sub(s, rule);
      SpaceInNoClass(rule.before);
      SpaceInNoClass(rule.after);
      if |s| >= 2 && Matches(rule, s[0], s[1]) {
        assert r == [s[0], ' '] + t;
        forall i | 0 <= i < |r| - 1
          ensures !Matches(rule, r[i], r[i + 1])
        {
          if i >= 2 {
            assert r[i] == t[i - 2] && r[i + 1] == t[i - 1];
          }
        }
      } else {
        assert r == [s[0]] + t;
        forall i | 0 <= i < |r| - 1
          ensures !Matches(rule, r[i], r[i + 1])
        {
          if i >= 1 {
            assert r[i] == t[i - 1] && r[i + 1] == t[i];
          }
        }
      }
    }
  }

  /** A pass breaks pairs but never creates any: a rule that had no pair
      before still has none. */
  lemma {:induction false} SubKeepsNoPair(s: string, rule: Rule, other: Rule)
    requires NoPair(s, other)
    ensures NoPair(Sub(s, rule), other)
    decreases |s|
  {
    if s != [] {
      var t := Sub(s[1..], rule);
      assert NoPair(s[1..], other) by {
        forall i | 0 <= i < |s[1..]| - 1
          ensures !Matches(other, s[1..][i], s[1..][i + 1])
        {
          assert s[1..][i] == s[i + 1] && s[1..][i + 1] == s[i + 2];
        }
      }
      SubKeepsNoPair(s[1..], rule, other);
      var r := Sub(s, rule);
      SpaceInNoClass(other.before);
      SpaceInNoClass(other.after);
      if |s| >= 2 && Matches(rule, s[0], s[1]) {
        assert r == [s[0], ' '] + t;
        forall i | 0 <= i < |r| - 1
          ensures !Matches(other, r[i], r[i + 1])
        {
          if i >= 2 {
            assert r[i] == t[i - 2] && r[i + 1] == t[i - 1];
          }
        }
      } else {
        assert r == [s[0]] + t;
        forall i | 0 <= i < |r| - 1
          ensures !Matches(other, r[i], r[i + 1])
        {
          if i >= 1 {
            assert r[i] == t[i - 1] && r[i + 1] == t[i];
          } else if |s| >= 2 {
            assert r[1] == s[1];
            assert !Matches(other, s[0], s[1]);
          }
        }
      }
    }
  }

  /** A pass with nothing to match changes nothing. */
  lemma {:induction false} SubIdentity(s: string, rule: Rule)
    requires NoPair(s, rule)
    ensures Sub(s, rule) == s
    decreases |s|
  {
    if s != [] {
      assert NoPair(s[1..], rule) by {
        forall i | 0 <= i < |s[1..]| - 1
          ensures !Matches(rule, s[1..][i], s[1..][i + 1])
        {
          assert s[1..][i] == s[i + 1] && s[1..][i + 1] == s[i + 2];
        }
      }
      SubIdentity(s[1..], rule);
      if |s| >= 2 {
        assert !Matches(rule, s[0], s[1]);
      }
      assert s == [s[0]] + s[1..];
    }
  }

  /** The passes of `rules`, applied in order. */
  function Normalize(s: string, rules: seq<Rule>): string
    decreases |rules|
  {
    if rules == [] then s else Normalize(Sub(s, rules[0]), rules[1..])
  }

  /** `normalize_string`, one `re.sub` per pattern. */
  method NormalizeString(s: string, rules: seq<Rule>) returns (r: string)
    ensures r == Normalize(s, rules)
  {
    r := s;
    var k := 0;
    while k < |rules|
      invariant 0 <= k <= |rules|
      invariant Normalize(s, rules) == Normalize(r, rules[k..])
    {
      assert rules[k..][1..] == rules[k + 1..];
      r := Sub(r, rules[k]);
      k := k + 1;
    }
  }

  /** Normalising only inserts spaces: deleting the inserted ones gives the input. */
  lemma {:induction false} NormalizeSpaced(s: string, rules: seq<Rule>)
    ensures Text.Spaced(s, Normalize(s, rules))
    decreases |rules|
  {
    if rules == [] {
      Text.SpacedRefl(s);
    } else {
      var t := Sub(s, rules[0]);
      SubSpaced(s, rules[0]);
      NormalizeSpaced(t, rules[1..]);
      Text.SpacedTrans(s, t, Normalize(t, rules[1..]));
    }
  }

  /** Later passes keep every pair an earlier pass has broken broken. */
  lemma {:induction false} NormalizeKeepsNoPair(s: string, rules: seq<Rule>, other: Rule)
    requires NoPair(s, other)
    ensures NoPair(Normalize(s, rules), other)
    decreases |rules|
  {
    if rules != [] {
      SubKeepsNoPair(s, rules[0], other);
      NormalizeKeepsNoPair(Sub(s, rules[0]), rules[1..], other);
    }
  }

  /** After normalising, no rule finds a pair. */
  lemma {:induction false} NormalizeNoPair(s: string, rules: seq<Rule>)
    ensures forall k :: 0 <= k < |rules| ==> NoPair(Normalize(s, rules), rules[k])
    decreases |rules|
  {
    if rules != [] {
      var t := Sub(s, rules[0]);
      SubNoPair(s, rules[0]);
      NormalizeKeepsNoPair(t, rules[1..], rules[0]);
      NormalizeNoPair(t, rules[1..]);
      forall k | 1 <= k < |rules|
        ensures NoPair(Normalize(s, rules), rules[k])
      {
        assert rules[k] == rules[1..][k - 1];
      }
    }
  }

  /** Passes that find no pair change nothing. */
  lemma {:induction false} NormalizeIdentity(s: string, rules: seq<Rule>)
    requires forall k :: 0 <= k < |rules| ==> NoPair(s, rules[k])
    ensures Normalize(s, rules) == s
    decreases |rules|
  {
    if rules != [] {
      SubIdentity(s, rules[0]);
      forall k | 0 <= k < |rules[1..]|
        ensures NoPair(s, rules[1..][k])
      {
        assert rules[1..][k] == rules[k + 1];
      }
      NormalizeIdentity(s, rules[1..]);
    }
  }

  /** Normalising twice is normalising once. */
  lemma NormalizeIdempotent(s: string, rules: seq<Rule>)
    ensures Normalize(Normalize(s, rules), rules) == Normalize(s, rules)
  {
    NormalizeNoPair(s, rules);
    NormalizeIdentity(Normalize(s, rules), rules);
  }

  /** The `A-z` range of the first two patterns admits six characters that
      are not letters. */
  lemma QuirkAdmitsPunctuation()
    ensures forall c :: c in {'[', '\\', ']', '^', '_', '`'} ==> In(c, QuirkAlnum) && !IsAsciiLetter(c)
  {
  }

  /** `complete_ul`: 了 is appended exactly when it is missing. */
  function CompleteUl(s: string): (r: string)
    ensures '了' in r
    ensures '了' in s ==> r == s
    ensures '了' !in s ==> r == s + "了"
  {
    if '了' in s then s else s + "了"
  }

  lemma CompleteUlIdempotent(s: string)
    ensures CompleteUl(CompleteUl(s)) == CompleteUl(s)
  {
  }

  /** The rule finds exactly one pair, the one starting at `i`. */
  predicate OnlyPairAt(s: string, rule: Rule, i: nat)
  {
    && i < |s| - 1 && Matches(rule, s[i], s[i + 1])
    && forall j :: 0 <= j < |s| - 1 && j != i ==> !Matches(rule, s[j], s[j + 1])
  }

  /** A pass with a single pair inserts a single space, after its first character. */
  lemma {:induction false} SubOnePair(s: string, rule: Rule, i: nat)
    requires OnlyPairAt(s, rule, i)
    ensures Sub(s, rule) == s[..i + 1] + [' '] + s[i + 1..]
    decreases i
  {
    if i == 0 {
      assert NoPair(s[1..], rule) by {
        forall j | 0 <= j < |s[1..]| - 1
          ensures !Matches(rule, s[1..][j], s[1..][j + 1])
        {
          assert s[1..][j] == s[j + 1] && s[1..][j + 1] == s[j + 2];
        }
      }
      SubIdentity(s[1..], rule);
    } else {
      assert OnlyPairAt(s[1..], rule, i - 1) by {
        forall j | 0 <= j < |s[1..]| - 1 && j != i - 1
          ensures !Matches(rule, s[1..][j], s[1..][j + 1])
        {
          assert s[1..][j] == s[j + 1] && s[1..][j + 1] == s[j + 2];
        }
      }
      SubOnePair(s[1..], rule, i - 1);
      assert !Matches(rule, s[0], s[1]);
      assert s[1..][..i] == s[1..i + 1];
      assert s[..i + 1] == [s[0]] + s[1..i + 1];
      assert s[1..][i..] == s[i + 1..];
    }
  }

  /** When the passes before `k` find nothing, pass `k` finds one pair, and
      the passes after it find nothing in its output, normalising inserts
      exactly that one space. */
  lemma {:induction false} NormalizeOnePair(s: string, rules: seq<Rule>, k: nat, i: nat)
    requires k < |rules|
    requires forall j :: 0 <= j < k ==> NoPair(s, rules[j])
    requires OnlyPairAt(s, rules[k], i)
    requires forall j :: k < j < |rules| ==> NoPair(s[..i + 1] + [' '] + s[i + 1..], rules[j])
    ensures Normalize(s, rules) == s[..i + 1] + [' '] + s[i + 1..]
    decreases k
  {
    var t := s[..i + 1] + [' '] + s[i + 1..];
    if k == 0 {
      SubOnePair(s, rules[0], i);
      forall j | 0 <= j < |rules[1..]|
        ensures NoPair(t, rules[1..][j])
      {
        assert rules[1..][j] == rules[j + 1];
      }
      NormalizeIdentity(t, rules[1..]);
    } else {
      SubIdentity(s, rules[0]);
      forall j | 0 <= j < k - 1
        ensures NoPair(s, rules[1..][j])
      {
        assert rules[1..][j] == rules[j + 1];
      }
      forall j | k - 1 < j < |rules[1..]|
        ensures NoPair(t, rules[1..][j])
      {
        assert rules[1..][j] == rules[j + 1];
      }
      NormalizeOnePair(s, rules[1..], k - 1, i);
    }
  }

  /** Latin letters then Han characters: passes 0 to 2 on "foo先生", pass 0 being the one that finds a pair. */
  lemma CurrentLatinThenHanEarlyPasses()
    ensures OnlyPairAt("foo先生", Rules[0], 2)
    ensures NoPair("foo 先生", Rules[1])
    ensures NoPair("foo 先生", Rules[2])
  {
    var s := "foo先生";
    assert s[0] == 'f' && s[1] == 'o' && s[2] == 'o' && s[3] == '先' && s[4] == '生';
    var t := "foo 先生";
    assert t[0] == 'f' && t[1] == 'o' && t[2] == 'o' && t[3] == ' ' && t[4] == '先' && t[5] == '生';
    assert OnlyPairAt(s, Rules[0], 2) by {
      forall j | 0 <= j < 4 && j != 2 ensures !Matches(Rules[0], s[j], s[j + 1]) { }
    }
    assert NoPair(t, Rules[1]) by {
      forall j | 0 <= j < 5 ensures !Matches(Rules[1], t[j], t[j + 1]) { }
    }
    assert NoPair(t, Rules[2]) by {
      forall j | 0 <= j < 5 ensures !Matches(Rules[2], t[j], t[j + 1]) { }
    }
  }

  /** Latin letters then Han characters: passes 3 and 4. */
  lemma CurrentLatinThenHanLatePasses()
    ensures NoPair("foo 先生", Rules[3])
    ensures NoPair("foo 先生", Rules[4])
  {
    var t := "foo 先生";
    assert t[0] == 'f' && t[1] == 'o' && t[2] == 'o' && t[3] == ' ' && t[4] == '先' && t[5] == '生';
    assert NoPair(t, Rules[3]) by {
      forall j | 0 <= j < 5 ensures !Matches(Rules[3], t[j], t[j + 1]) { }
    }
    assert NoPair(t, Rules[4]) by {
      forall j | 0 <= j < 5 ensures !Matches(Rules[4], t[j], t[j + 1]) { }
    }
  }

  lemma CurrentLatinThenHanExample()
    ensures Normalize("foo先生", Rules) == "foo 先生"
  {
    CurrentLatinThenHanEarlyPasses();
    CurrentLatinThenHanLatePasses();
    assert "foo先生"[..3] + " " + "foo先生"[3..] == "foo 先生";
    NormalizeOnePair("foo先生", Rules, 0, 2);
  }

  /** Han characters then Latin letters: passes 0 to 2 on "你好foo", pass 1 being the one that finds a pair. */
  lemma CurrentHanThenLatinEarlyPasses()
    ensures NoPair("你好foo", Rules[0])
    ensures OnlyPairAt("你好foo", Rules[1], 1)
    ensures NoPair("你好 foo", Rules[2])
  {
    var s := "你好foo";
    assert s[0] == '你' && s[1] == '好' && s[2] == 'f' && s[3] == 'o' && s[4] == 'o';
    var t := "你好 foo";
    assert t[0] == '你' && t[1] == '好' && t[2] == ' ' && t[3] == 'f' && t[4] == 'o' && t[5] == 'o';
    assert NoPair(s, Rules[0]) by {
      forall j | 0 <= j < 4 ensures !Matches(Rules[0], s[j], s[j + 1]) { }
    }
    assert OnlyPairAt(s, Rules[1], 1) by {
      forall j | 0 <= j < 4 && j != 1 ensures !Matches(Rules[1], s[j], s[j + 1]) { }
    }
    assert NoPair(t, Rules[2]) by {
      forall j | 0 <= j < 5 ensures !Matches(Rules[2], t[j], t[j + 1]) { }
    }
  }

  /** Han characters then Latin letters: passes 3 and 4. */
  lemma CurrentHanThenLatinLatePasses()
    ensures NoPair("你好 foo", Rules[3])
    ensures NoPair("你好 foo", Rules[4])
  {
    var t := "你好 foo";
    assert t[0] == '你' && t[1] == '好' && t[2] == ' ' && t[3] == 'f' && t[4] == 'o' && t[5] == 'o';
    assert NoPair(t, Rules[3]) by {
      forall j | 0 <= j < 5 ensures !Matches(Rules[3], t[j], t[j + 1]) { }
    }
    assert NoPair(t, Rules[4]) by {
      forall j | 0 <= j < 5 ensures !Matches(Rules[4], t[j], t[j + 1]) { }
    }
  }

  lemma CurrentHanThenLatinExample()
    ensures Normalize("你好foo", Rules) == "你好 foo"
  {
    CurrentHanThenLatinEarlyPasses();
    CurrentHanThenLatinLatePasses();
    assert "你好foo"[..2] + " " + "你好foo"[2..] == "你好 foo";
    NormalizeOnePair("你好foo", Rules, 1, 1);
  }

  /** A comma directly followed by a word: passes 0 to 2 on "foo,bar", pass 2 being the one that finds a pair. */
  lemma CurrentCommaEarlyPasses()
    ensures NoPair("foo,bar", Rules[0])
    ensures NoPair("foo,bar", Rules[1])
    ensures OnlyPairAt("foo,bar", Rules[2], 3)
  {
    var s := "foo,bar";
    assert s[0] == 'f' && s[1] == 'o' && s[2] == 'o' && s[3] == ',' && s[4] == 'b' && s[5] == 'a' && s[6] == 'r';
    assert NoPair(s, Rules[0]) by {
      forall j | 0 <= j < 6 ensures !Matches(Rules[0], s[j], s[j + 1]) { }
    }
    assert NoPair(s, Rules[1]) by {
      forall j | 0 <= j < 6 ensures !Matches(Rules[1], s[j], s[j + 1]) { }
    }
    assert OnlyPairAt(s, Rules[2], 3) by {
      forall j | 0 <= j < 6 && j != 3 ensures !Matches(Rules[2], s[j], s[j + 1]) { }
    }
  }

  /** A comma directly followed by a word: passes 3 and 4. */
  lemma CurrentCommaLatePasses()
    ensures NoPair("foo, bar", Rules[3])
    ensures NoPair("foo, bar", Rules[4])
  {
    var t := "foo, bar";
    assert t[0] == 'f' && t[1] == 'o' && t[2] == 'o' && t[3] == ',' && t[4] == ' ' && t[5] == 'b' && t[6] == 'a' && t[7] == 'r';
    assert NoPair(t, Rules[3]) by {
      forall j | 0 <= j < 7 ensures !Matches(Rules[3], t[j], t[j + 1]) { }
    }
    assert NoPair(t, Rules[4]) by {
      forall j | 0 <= j < 7 ensures !Matches(Rules[4], t[j], t[j + 1]) { }
    }
  }

  lemma CurrentCommaExample()
    ensures Normalize("foo,bar", Rules) == "foo, bar"
  {
    CurrentCommaEarlyPasses();
    CurrentCommaLatePasses();
    assert "foo,bar"[..4] + " " + "foo,bar"[4..] == "foo, bar";
    NormalizeOnePair("foo,bar", Rules, 2, 3);
  }

  /** Han characters then digits, which the second pattern already splits: passes 0 to 2 on "正在0721", pass 1 being the one that finds a pair. */
  lemma CurrentHanThenDigitsEarlyPasses()
    ensures NoPair("正在0721", Rules[0])
    ensures OnlyPairAt("正在0721", Rules[1], 1)
    ensures NoPair("正在 0721", Rules[2])
  {
    var s := "正在0721";
    assert s[0] == '正' && s[1] == '在' && s[2] == '0' && s[3] == '7' && s[4] == '2' && s[5] == '1';
    var t := "正在 0721";
    assert t[0] == '正' && t[1] == '在' && t[2] == ' ' && t[3] == '0' && t[4] == '7' && t[5] == '2' && t[6] == '1';
    assert NoPair(s, Rules[0]) by {
      forall j | 0 <= j < 5 ensures !Matches(Rules[0], s[j], s[j + 1]) { }
    }
    assert OnlyPairAt(s, Rules[1], 1) by {
      forall j | 0 <= j < 5 && j != 1 ensures !Matches(Rules[1], s[j], s[j + 1]) { }
    }
    assert NoPair(t, Rules[2]) by {
      forall j | 0 <= j < 6 ensures !Matches(Rules[2], t[j], t[j + 1]) { }
    }
  }

  /** Han characters then digits, which the second pattern already splits: passes 3 and 4. */
  lemma CurrentHanThenDigitsLatePasses()
    ensures NoPair("正在 0721", Rules[3])
    ensures NoPair("正在 0721", Rules[4])
  {
    var t := "正在 0721";
    assert t[0] == '正' && t[1] == '在' && t[2] == ' ' && t[3] == '0' && t[4] == '7' && t[5] == '2' && t[6] == '1';
    assert NoPair(t, Rules[3]) by {
      forall j | 0 <= j < 6 ensures !Matches(Rules[3], t[j], t[j + 1]) { }
    }
    assert NoPair(t, Rules[4]) by {
      forall j | 0 <= j < 6 ensures !Matches(Rules[4], t[j], t[j + 1]) { }
    }
  }

  lemma CurrentHanThenDigitsExample()
    ensures Normalize("正在0721", Rules) == "正在 0721"
  {
    CurrentHanThenDigitsEarlyPasses();
    CurrentHanThenDigitsLatePasses();
    assert "正在0721"[..2] + " " + "正在0721"[2..] == "正在 0721";
    NormalizeOnePair("正在0721", Rules, 1, 1);
  }

  /** Digits then Han characters, which the first pattern already splits: passes 0 to 2 on "0721对身体好", pass 0 being the one that finds a pair. */
  lemma CurrentDigitsThenHanEarlyPasses()
    ensures OnlyPairAt("0721对身体好", Rules[0], 3)
    ensures NoPair("0721 对身体好", Rules[1])
    ensures NoPair("0721 对身体好", Rules[2])
  {
    var s := "0721对身体好";
    assert s[0] == '0' && s[1] == '7' && s[2] == '2' && s[3] == '1' && s[4] == '对' && s[5] == '身' && s[6] == '体' && s[7] == '好';
    var t := "0721 对身体好";
    assert t[0] == '0' && t[1] == '7' && t[2] == '2' && t[3] == '1' && t[4] == ' ' && t[5] == '对' && t[6] == '身' && t[7] == '体' && t[8] == '好';
    assert OnlyPairAt(s, Rules[0], 3) by {
      forall j | 0 <= j < 7 && j != 3 ensures !Matches(Rules[0], s[j], s[j + 1]) { }
    }
    assert NoPair(t, Rules[1]) by {
      forall j | 0 <= j < 8 ensures !Matches(Rules[1], t[j], t[j + 1]) { }
    }
    assert NoPair(t, Rules[2]) by {
      forall j | 0 <= j < 8 ensures !Matches(Rules[2], t[j], t[j + 1]) { }
    }
  }

  /** Digits then Han characters, which the first pattern already splits: passes 3 and 4. */
  lemma CurrentDigitsThenHanLatePasses()
    ensures NoPair("0721 对身体好", Rules[3])
    ensures NoPair("0721 对身体好", Rules[4])
  {
    var t := "0721 对身体好";
    assert t[0] == '0' && t[1] == '7' && t[2] == '2' && t[3] == '1' && t[4] == ' ' && t[5] == '对' && t[6] == '身' && t[7] == '体' && t[8] == '好';
    assert NoPair(t, Rules[3]) by {
      forall j | 0 <= j < 8 ensures !Matches(Rules[3], t[j], t[j + 1]) { }
    }
    assert NoPair(t, Rules[4]) by {
      forall j | 0 <= j < 8 ensures !Matches(Rules[4], t[j], t[j + 1]) { }
    }
  }

  lemma CurrentDigitsThenHanExample()
    ensures Normalize("0721对身体好", Rules) == "0721 对身体好"
  {
    CurrentDigitsThenHanEarlyPasses();
    CurrentDigitsThenHanLatePasses();
    assert "0721对身体好"[..4] + " " + "0721对身体好"[4..] == "0721 对身体好";
    NormalizeOnePair("0721对身体好", Rules, 0, 3);
  }

  /** Latin letters then Han characters: passes 0 to 2 on "foo先生", pass 0 being the one that finds a pair. */
  lemma LegacyLatinThenHanEarlyPasses()
    ensures OnlyPairAt("foo先生", LegacyRules[0], 2)
    ensures NoPair("foo 先生", LegacyRules[1])
    ensures NoPair("foo 先生", LegacyRules[2])
  {
    var s := "foo先生";
    assert s[0] == 'f' && s[1] == 'o' && s[2] == 'o' && s[3] == '先' && s[4] == '生';
    var t := "foo 先生";
    assert t[0] == 'f' && t[1] == 'o' && t[2] == 'o' && t[3] == ' ' && t[4] == '先' && t[5] == '生';
    assert OnlyPairAt(s, LegacyRules[0], 2) by {
      forall j | 0 <= j < 4 && j != 2 ensures !Matches(LegacyRules[0], s[j], s[j + 1]) { }
    }
    assert NoPair(t, LegacyRules[1]) by {
      forall j | 0 <= j < 5 ensures !Matches(LegacyRules[1], t[j], t[j + 1]) { }
    }
    assert NoPair(t, LegacyRules[2]) by {
      forall j | 0 <= j < 5 ensures !Matches(LegacyRules[2], t[j], t[j + 1]) { }
    }
  }

  /** Latin letters then Han characters: passes 3 and 4. */
  lemma LegacyLatinThenHanLatePasses()
    ensures NoPair("foo 先生", LegacyRules[3])
    ensures NoPair("foo 先生", LegacyRules[4])
  {
    var t := "foo 先生";
    assert t[0] == 'f' && t[1] == 'o' && t[2] == 'o' && t[3] == ' ' && t[4] == '先' && t[5] == '生';
    assert NoPair(t, LegacyRules[3]) by {
      forall j | 0 <= j < 5 ensures !Matches(LegacyRules[3], t[j], t[j + 1]) { }
    }
    assert NoPair(t, LegacyRules[4]) by {
      forall j | 0 <= j < 5 ensures !Matches(LegacyRules[4], t[j], t[j + 1]) { }
    }
  }

  lemma LegacyLatinThenHanExample()
    ensures Normalize("foo先生", LegacyRules) == "foo 先生"
  {
    LegacyLatinThenHanEarlyPasses();
    LegacyLatinThenHanLatePasses();
    assert "foo先生"[..3] + " " + "foo先生"[3..] == "foo 先生";
    NormalizeOnePair("foo先生", LegacyRules, 0, 2);
  }

  /** Han characters then Latin letters: passes 0 to 2 on "你好foo", pass 1 being the one that finds a pair. */
  lemma LegacyHanThenLatinEarlyPasses()
    ensures NoPair("你好foo", LegacyRules[0])
    ensures OnlyPairAt("你好foo", LegacyRules[1], 1)
    ensures NoPair("你好 foo", LegacyRules[2])
  {
    var s := "你好foo";
    assert s[0] == '你' && s[1] == '好' && s[2] == 'f' && s[3] == 'o' && s[4] == 'o';
    var t := "你好 foo";
    assert t[0] == '你' && t[1] == '好' && t[2] == ' ' && t[3] == 'f' && t[4] == 'o' && t[5] == 'o';
    assert NoPair(s, LegacyRules[0]) by {
      forall j | 0 <= j < 4 ensures !Matches(LegacyRules[0], s[j], s[j + 1]) { }
    }
    assert OnlyPairAt(s, LegacyRules[1], 1) by {
      forall j | 0 <= j < 4 && j != 1 ensures !Matches(LegacyRules[1], s[j], s[j + 1]) { }
    }
    assert NoPair(t, LegacyRules[2]) by {
      forall j | 0 <= j < 5 ensures !Matches(LegacyRules[2], t[j], t[j + 1]) { }
    }
  }

  /** Han characters then Latin letters: passes 3 and 4. */
  lemma LegacyHanThenLatinLatePasses()
    ensures NoPair("你好 foo", LegacyRules[3])
    ensures NoPair("你好 foo", LegacyRules[4])
  {
    var t := "你好 foo";
    assert t[0] == '你' && t[1] == '好' && t[2] == ' ' && t[3] == 'f' && t[4] == 'o' && t[5] == 'o';
    assert NoPair(t, LegacyRules[3]) by {
      forall j | 0 <= j < 5 ensures !Matches(LegacyRules[3], t[j], t[j + 1]) { }
    }
    assert NoPair(t, LegacyRules[4]) by {
      forall j | 0 <= j < 5 ensures !Matches(LegacyRules[4], t[j], t[j + 1]) { }
    }
  }

  lemma LegacyHanThenLatinExample()
    ensures Normalize("你好foo", LegacyRules) == "你好 foo"
  {
    LegacyHanThenLatinEarlyPasses();
    LegacyHanThenLatinLatePasses();
    assert "你好foo"[..2] + " " + "你好foo"[2..] == "你好 foo";
    NormalizeOnePair("你好foo", LegacyRules, 1, 1);
  }

  /** A comma directly followed by a word: passes 0 to 2 on "foo,bar", pass 2 being the one that finds a pair. */
  lemma LegacyCommaEarlyPasses()
    ensures NoPair("foo,bar", LegacyRules[0])
    ensures NoPair("foo,bar", LegacyRules[1])
    ensures OnlyPairAt("foo,bar", LegacyRules[2], 3)
  {
    var s := "foo,bar";
    assert s[0] == 'f' && s[1] == 'o' && s[2] == 'o' && s[3] == ',' && s[4] == 'b' && s[5] == 'a' && s[6] == 'r';
    assert NoPair(s, LegacyRules[0]) by {
      forall j | 0 <= j < 6 ensures !Matches(LegacyRules[0], s[j], s[j + 1]) { }
    }
    assert NoPair(s, LegacyRules[1]) by {
      forall j | 0 <= j < 6 ensures !Matches(LegacyRules[1], s[j], s[j + 1]) { }
    }
    assert OnlyPairAt(s, LegacyRules[2], 3) by {
      forall j | 0 <= j < 6 && j != 3 ensures !Matches(LegacyRules[2], s[j], s[j + 1]) { }
    }
  }

  /** A comma directly followed by a word: passes 3 and 4. */
  lemma LegacyCommaLatePasses()
    ensures NoPair("foo, bar", LegacyRules[3])
    ensures NoPair("foo, bar", LegacyRules[4])
  {
    var t := "foo, bar";
    assert t[0] == 'f' && t[1] == 'o' && t[2] == 'o' && t[3] == ',' && t[4] == ' ' && t[5] == 'b' && t[6] == 'a' && t[7] == 'r';
    assert NoPair(t, LegacyRules[3]) by {
      forall j | 0 <= j < 7 ensures !Matches(LegacyRules[3], t[j], t[j + 1]) { }
    }
    assert NoPair(t, LegacyRules[4]) by {
      forall j | 0 <= j < 7 ensures !Matches(LegacyRules[4], t[j], t[j + 1]) { }
    }
  }

  lemma LegacyCommaExample()
    ensures Normalize("foo,bar", LegacyRules) == "foo, bar"
  {
    LegacyCommaEarlyPasses();
    LegacyCommaLatePasses();
    assert "foo,bar"[..4] + " " + "foo,bar"[4..] == "foo, bar";
    NormalizeOnePair("foo,bar", LegacyRules, 2, 3);
  }

  /** A symbol directly followed by a word: passes 0 to 2 on "foo &bar", pass 4 being the one that finds a pair. */
  lemma LegacySymbolThenWordEarlyPasses()
    ensures NoPair("foo &bar", LegacyRules[0])
    ensures NoPair("foo &bar", LegacyRules[1])
    ensures NoPair("foo &bar", LegacyRules[2])
  {
    var s := "foo &bar";
    assert s[0] == 'f' && s[1] == 'o' && s[2] == 'o' && s[3] == ' ' && s[4] == '&' && s[5] == 'b' && s[6] == 'a' && s[7] == 'r';
    assert NoPair(s, LegacyRules[0]) by {
      forall j | 0 <= j < 7 ensures !Matches(LegacyRules[0], s[j], s[j + 1]) { }
    }
    assert NoPair(s, LegacyRules[1]) by {
      forall j | 0 <= j < 7 ensures !Matches(LegacyRules[1], s[j], s[j + 1]) { }
    }
    assert NoPair(s, LegacyRules[2]) by {
      forall j | 0 <= j < 7 ensures !Matches(LegacyRules[2], s[j], s[j + 1]) { }
    }
  }

  /** A symbol directly followed by a word: passes 3 and 4. */
  lemma LegacySymbolThenWordLatePasses()
    ensures NoPair("foo &bar", LegacyRules[3])
    ensures OnlyPairAt("foo &bar", LegacyRules[4], 4)
  {
    var s := "foo &bar";
    assert s[0] == 'f' && s[1] == 'o' && s[2] == 'o' && s[3] == ' ' && s[4] == '&' && s[5] == 'b' && s[6] == 'a' && s[7] == 'r';
    assert NoPair(s, LegacyRules[3]) by {
      forall j | 0 <= j < 7 ensures !Matches(LegacyRules[3], s[j], s[j + 1]) { }
    }
    assert OnlyPairAt(s, LegacyRules[4], 4) by {
      forall j | 0 <= j < 7 && j != 4 ensures !Matches(LegacyRules[4], s[j], s[j + 1]) { }
    }
  }

  lemma LegacySymbolThenWordExample()
    ensures Normalize("foo &bar", LegacyRules) == "foo & bar"
  {
    LegacySymbolThenWordEarlyPasses();
    LegacySymbolThenWordLatePasses();
    assert "foo &bar"[..5] + " " + "foo &bar"[5..] == "foo & bar";
    NormalizeOnePair("foo &bar", LegacyRules, 4, 4);
  }

  /** A leading symbol: passes 0 to 2 on "#foo", pass 4 being the one that finds a pair. */
  lemma LegacyLeadingSymbolEarlyPasses()
    ensures NoPair("#foo", LegacyRules[0])
    ensures NoPair("#foo", LegacyRules[1])
    ensures NoPair("#foo", LegacyRules[2])
  {
    var s := "#foo";
    assert s[0] == '#' && s[1] == 'f' && s[2] == 'o' && s[3] == 'o';
    assert NoPair(s, LegacyRules[0]) by {
      forall j | 0 <= j < 3 ensures !Matches(LegacyRules[0], s[j], s[j + 1]) { }
    }
    assert NoPair(s, LegacyRules[1]) by {
      forall j | 0 <= j < 3 ensures !Matches(LegacyRules[1], s[j], s[j + 1]) { }
    }
    assert NoPair(s, LegacyRules[2]) by {
      forall j | 0 <= j < 3 ensures !Matches(LegacyRules[2], s[j], s[j + 1]) { }
    }
  }

  /** A leading symbol: passes 3 and 4. */
  lemma LegacyLeadingSymbolLatePasses()
    ensures NoPair("#foo", LegacyRules[3])
    ensures OnlyPairAt("#foo", LegacyRules[4], 0)
  {
    var s := "#foo";
    assert s[0] == '#' && s[1] == 'f' && s[2] == 'o' && s[3] == 'o';
    assert NoPair(s, LegacyRules[3]) by {
      forall j | 0 <= j < 3 ensures !Matches(LegacyRules[3], s[j], s[j + 1]) { }
    }
    assert OnlyPairAt(s, LegacyRules[4], 0) by {
      forall j | 0 <= j < 3 && j != 0 ensures !Matches(LegacyRules[4], s[j], s[j + 1]) { }
    }
  }

  lemma LegacyLeadingSymbolExample()
    ensures Normalize("#foo", LegacyRules) == "# foo"
  {
    LegacyLeadingSymbolEarlyPasses();
    LegacyLeadingSymbolLatePasses();
    assert "#foo"[..1] + " " + "#foo"[1..] == "# foo";
    NormalizeOnePair("#foo", LegacyRules, 4, 0);
  }

  /** The older patterns put a space between a word character and a following
      symbol, and between a symbol and a following word character. */
  lemma LegacySymbolSpacing(c: char, d: char)
    requires IsWord(c) && In(d, Symbol)
    ensures NoPair(Normalize([c, d], LegacyRules), LegacyRules[3])
    ensures NoPair(Normalize([d, c], LegacyRules), LegacyRules[4])
    ensures Normalize([c, d], LegacyRules) != [c, d]
    ensures Normalize([d, c], LegacyRules) != [d, c]
  {
    NormalizeNoPair([c, d], LegacyRules);
    NormalizeNoPair([d, c], LegacyRules);
    assert Matches(LegacyRules[3], c, d) && Matches(LegacyRules[4], d, c);
  }
}
