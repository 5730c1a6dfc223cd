/** Strings as the scripts handle them: joining, splitting and Python's notion of white space. */
module Text {

  datatype Option<+T> = None | Some(value: T)

  /** `parts.join(separator)`. */
  function Join(parts: seq<string>, separator: string): string {
    if |parts| == 0 then ""
    else if |parts| == 1 then parts[0]
    else parts[0] + separator + Join(parts[1..], separator)
  }

  lemma {:induction false} JoinAppend(left: seq<string>, right: seq<string>, separator: string)
    requires left != [] && right != []
    ensures Join(left + right, separator) == Join(left, separator) + separator + Join(right, separator)
  {
    assert (left + right)[0] == left[0];
    assert (left + right)[1..] == left[1..] + right;
    if |left| == 1 {
      assert left[1..] + right == right;
    } else {
      JoinAppend(left[1..], right, separator);
    }
  }

  /** `s.split(c)` for a one-character separator. */
  function SplitOn(s: string, c: char): (parts: seq<string>)
    ensures parts != []
  {
    if s == "" then [""]
    else
      var rest := SplitOn(s[1..], c);
      if s[0] == c then [""] + rest else [[s[0]] + rest[0]] + rest[1..]
  }

  lemma {:induction false} JoinOfSplit(s: string, c: char)
    ensures Join(SplitOn(s, c), [c]) == s
  {
    if s != "" {
      var rest := SplitOn(s[1..], c);
      JoinOfSplit(s[1..], c);
      if s[0] == c {
        assert ([""] + rest)[1..] == rest;
      } else {
        var parts := [[s[0]] + rest[0]] + rest[1..];
        assert parts[1..] == rest[1..];
        assert |rest| > 1 ==> [s[0]] + rest[0] + [c] + Join(rest[1..], [c]) == [s[0]] + (rest[0] + [c] + Join(rest[1..], [c]));
      }
    }
  }

  lemma {:induction false} SplitOfPlain(s: string, c: char)
    requires c !in s
    ensures SplitOn(s, c) == [s]
  {
    if s != "" {
      SplitOfPlain(s[1..], c);
      assert [s[0]] + s[1..] == s;
    }
  }

  lemma {:induction false} SplitAtFirst(s: string, c: char, t: string)
    requires c !in s
    ensures SplitOn(s + [c] + t, c) == [s] + SplitOn(t, c)
  {
    var all := s + [c] + t;
    if s == "" {
      assert all[1..] == t;
    } else {
      SplitAtFirst(s[1..], c, t);
      assert all[1..] == s[1..] + [c] + t;
      assert [s[0]] + s[1..] == s;
    }
  }

  lemma {:induction false} SplitOfJoin(parts: seq<string>, c: char)
    requires parts != [] && forall i :: 0 <= i < |parts| ==> c !in parts[i]
    ensures SplitOn(Join(parts, [c]), c) == parts
  {
    if |parts| == 1 {
      SplitOfPlain(parts[0], c);
    } else {
      SplitAtFirst(parts[0], c, Join(parts[1..], [c]));
      SplitOfJoin(parts[1..], c);
    }
  }

  /** The first `n` characters, or all of them (`slice(0, n)`). */
  function Prefix(s: string, n: nat): string {
    if |s| <= n then s else s[..n]
  }

  predicate StartsWith(s: string, prefix: string) {
    prefix <= s
  }

  predicate EndsWith(s: string, suffix: string) {
    |suffix| <= |s| && s[|s| - |suffix|..] == suffix
  }

  /** A class of characters, as a regular expression or a string method uses it. */
  type CharClass = char -> bool

  ghost predicate Only(s: string, chars: CharClass) {
    forall c :: c in s ==> chars(c)
  }

  lemma OnlyBoth(a: string, b: string, chars: CharClass)
    requires Only(a, chars) && Only(b, chars)
    ensures Only(a + b, chars)
  {
  }

  /** The characters Python's `str.isspace` and the regular-expression class `\s` accept. */
  predicate PythonSpace(c: char) {
    var n := c as int;
    || 9 <= n <= 13 || 28 <= n <= 32 || n == 0x85 || n == 0xA0 || n == 0x1680
    || 0x2000 <= n <= 0x200A || n == 0x2028 || n == 0x2029 || n == 0x202F || n == 0x205F || n == 0x3000
  }

  function StripLeft(s: string, space: CharClass): (r: string)
    ensures r == "" || !space(r[0])
    ensures |r| <= |s| && r == s[|s| - |r|..]
  {
    if s == "" || !space(s[0]) then s else StripLeft(s[1..], space)
  }

  function StripRight(s: string, space: CharClass): (r: string)
    ensures r == "" || !space(r[|r| - 1])
    ensures |r| <= |s| && r == s[..|r|]
  {
    if s == "" || !space(s[|s| - 1]) then s else StripRight(s[..|s| - 1], space)
  }

  /** Python's `str.strip()`. */
  function Strip(s: string, space: CharClass): (r: string)
    ensures r == "" || (!space(r[0]) && !space(r[|r| - 1]))
  {
    StripRight(StripLeft(s, space), space)
  }

  lemma {:induction false} StripLeftOver(blank: string, s: string, space: CharClass)
    requires (forall c :: c in blank ==> space(c)) && s != "" && !space(s[0])
    ensures StripLeft(blank + s, space) == s
  {
    if blank == "" {
      assert blank + s == s;
    } else {
      assert (blank + s)[0] == blank[0] && blank[0] in blank;
      assert (blank + s)[1..] == blank[1..] + s;
      StripLeftOver(blank[1..], s, space);
    }
  }

  lemma {:induction false} AllBlank(blank: string, space: CharClass)
    requires forall c :: c in blank ==> space(c)
    ensures StripLeft(blank, space) == ""
  {
    if blank != "" {
      assert blank[0] in blank;
      AllBlank(blank[1..], space);
    }
  }

  lemma {:induction false} StripRightOver(s: string, blank: string, space: CharClass)
    requires (forall c :: c in blank ==> space(c)) && s != "" && !space(s[|s| - 1])
    ensures StripRight(s + blank, space) == s
  {
    if blank == "" {
      assert s + blank == s;
    } else {
      var n := |blank| - 1;
      assert blank[n] in blank && (s + blank)[|s + blank| - 1] == blank[n];
      assert (s + blank)[..|s + blank| - 1] == s + blank[..n];
      StripRightOver(s, blank[..n], space);
    }
  }

  /** Stripping takes away exactly the padding around a text that neither begins nor ends with any. */
  lemma StripPadded(left: string, s: string, right: string, space: CharClass)
    requires Only(left, space) && Only(right, space)
    requires s == "" || (!space(s[0]) && !space(s[|s| - 1]))
    ensures Strip(left + s + right, space) == s
  {
    if s == "" {
      OnlyBoth(left + s, right, space);
      AllBlank(left + s + right, space);
    } else {
      assert left + s + right == left + (s + right);
      StripLeftOver(left, s + right, space);
      StripRightOver(s, right, space);
    }
  }

  /** And what it takes away is padding. */
  lemma {:induction false} StripIsPadded(s: string, space: CharClass) returns (left: string, right: string)
    ensures Only(left, space) && Only(right, space)
    ensures s == left + Strip(s, space) + right
  {
    var inner := StripLeft(s, space);
    LeftIsPadding(s, space);
    RightIsPadding(inner, space);
    left, right := s[..|s| - |inner|], inner[|StripRight(inner, space)|..];
  }

  lemma {:induction false} LeftIsPadding(s: string, space: CharClass)
    ensures Only(s[..|s| - |StripLeft(s, space)|], space)
  {
    if s != "" && space(s[0]) {
      LeftIsPadding(s[1..], space);
      var k := |s| - |StripLeft(s, space)|;
      assert s[..k] == [s[0]] + s[1..][..k - 1];
    }
  }

  lemma {:induction false} RightIsPadding(s: string, space: CharClass)
    ensures Only(s[|StripRight(s, space)|..], space)
  {
    var n := |s| - 1;
    if s != "" && space(s[n]) {
      RightIsPadding(s[..n], space);
      var k := |StripRight(s, space)|;
      assert s[k..] == s[..n][k..] + [s[n]];
    }
  }

  /** The characters that are not dropped, in order. */
  function Ink(s: string, drop: CharClass): string {
    if s == "" then "" else (if drop(s[0]) then "" else [s[0]]) + Ink(s[1..], drop)
  }

  lemma {:induction false} InkAppend(a: string, b: string, drop: CharClass)
    ensures Ink(a + b, drop) == Ink(a, drop) + Ink(b, drop)
  {
    if a == "" {
      assert a + b == b;
    } else {
      assert (a + b)[1..] == a[1..] + b;
      InkAppend(a[1..], b, drop);
    }
  }

  lemma {:induction false} InkStripLeft(s: string, space: CharClass, drop: CharClass)
    requires forall c :: space(c) ==> drop(c)
    ensures Ink(StripLeft(s, space), drop) == Ink(s, drop)
  {
    if s != "" && space(s[0]) {
      InkStripLeft(s[1..], space, drop);
    }
  }

  lemma {:induction false} InkStripRight(s: string, space: CharClass, drop: CharClass)
    requires forall c :: space(c) ==> drop(c)
    ensures Ink(StripRight(s, space), drop) == Ink(s, drop)
  {
    if s != "" && space(s[|s| - 1]) {
      var n := |s| - 1;
      InkStripRight(s[..n], space, drop);
      InkAppend(s[..n], [s[n]], drop);
      assert s == s[..n] + [s[n]];
      assert Ink([s[n]], drop) == Ink("", drop);
    }
  }

  lemma InkStrip(s: string, space: CharClass, drop: CharClass)
    requires forall c :: space(c) ==> drop(c)
    ensures Ink(Strip(s, space), drop) == Ink(s, drop)
  {
    InkStripLeft(s, space, drop);
    InkStripRight(StripLeft(s, space), space, drop);
  }
}
