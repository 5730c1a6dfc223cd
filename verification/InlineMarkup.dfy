/**
  The inline markup of the operator guide: escaping, code spans and bold, written as three
  replacements and two regular-expression substitutions, each over the text the last one left.
 */
module InlineMarkup {
  import opened Text

  // ------------------------------------------------------------------------ escaping

  /** `s.replace(c, with)`. */
  function Replace(s: string, c: char, with: string): string {
    if s == "" then "" else (if s[0] == c then with else [s[0]]) + Replace(s[1..], c, with)
  }

  /** `esc`: three replacements, one after the other. */
  function Esc(s: string): string {
    Replace(Replace(Replace(s, '&', "&amp;"), '<', "&lt;"), '>', "&gt;")
  }

  function Entity(c: char): string {
    match c
    case '&' => "&amp;"
    case '<' => "&lt;"
    case '>' => "&gt;"
    case _ => [c]
  }

  /** Every character replaced by its entity at once. */
  function EscapeEach(s: string): string {
    if s == "" then "" else Entity(s[0]) + EscapeEach(s[1..])
  }

  lemma {:induction false} ReplaceAppend(a: string, b: string, c: char, with: string)
    ensures Replace(a + b, c, with) == Replace(a, c, with) + Replace(b, c, with)
  {
    if a == "" {
      assert a + b == b;
    } else {
      assert (a + b)[1..] == a[1..] + b;
      ReplaceAppend(a[1..], b, c, with);
    }
  }

  lemma {:induction false} ReplaceAbsent(s: string, c: char, with: string)
    requires c !in s
    ensures Replace(s, c, with) == s
  {
    if s != "" {
      ReplaceAbsent(s[1..], c, with);
    }
  }

  /** No replacement touches what an earlier one wrote: the ampersand goes first. */
  lemma {:induction false} EscIsEach(s: string)
    ensures Esc(s) == EscapeEach(s)
  {
    if s != "" {
      EscIsEach(s[1..]);
      var a, b := if s[0] == '&' then "&amp;" else [s[0]], Replace(s[1..], '&', "&amp;");
      ReplaceAppend(a, b, '<', "&lt;");
      ReplaceAppend(Replace(a, '<', "&lt;"), Replace(b, '<', "&lt;"), '>', "&gt;");
      OneEscaped(s[0]);
    }
  }

  lemma OneEscaped(c: char)
    ensures var a := if c == '&' then "&amp;" else [c]; Replace(Replace(a, '<', "&lt;"), '>', "&gt;") == Entity(c)
  {
    if c == '&' {
      ReplaceAbsent("&amp;", '<', "&lt;");
      ReplaceAbsent("&amp;", '>', "&gt;");
    } else if c == '<' {
      assert Replace("<", '<', "&lt;") == "&lt;" + Replace("", '<', "&lt;") == "&lt;";
      ReplaceAbsent("&lt;", '>', "&gt;");
    } else {
      ReplaceAbsent([c], '<', "&lt;");
      assert Replace([c], '>', "&gt;") == (if c == '>' then "&gt;" else [c]) + Replace("", '>', "&gt;");
    }
  }

  /** What a reader of the markup takes the first character of a text for, and what remains. */
  function ReadOne(s: string): (r: (char, string))
    requires s != ""
    ensures |r.1| < |s|
  {
    if StartsWith(s, "&amp;") then ('&', s[5..])
    else if StartsWith(s, "&lt;") then ('<', s[4..])
    else if StartsWith(s, "&gt;") then ('>', s[4..])
    else if StartsWith(s, "&nbsp;") then (' ', s[6..])
    else (s[0], s[1..])
  }

  function Unescape(s: string): string {
    if s == "" then "" else [ReadOne(s).0] + Unescape(ReadOne(s).1)
  }

  lemma ReadEntity(c: char, rest: string)
    ensures ReadOne(Entity(c) + rest) == (c, rest)
  {
    var e := Entity(c);
    var s := e + rest;
    assert s[|e|..] == rest;
    assert s[0] == e[0] && (|e| > 1 ==> s[1] == e[1]);
    assert s[..|e|] == e;
  }

  lemma {:induction false} EscHasLeftInverse(s: string)
    ensures Unescape(Esc(s)) == s
  {
    EscIsEach(s);
    if s != "" {
      EscIsEach(s[1..]);
      EscHasLeftInverse(s[1..]);
      ReadEntity(s[0], EscapeEach(s[1..]));
    }
  }

  // ------------------------------------------------ substitution, over text and over tokens

  /** The text after `k` delimiters, if it begins with them. */
  function Past(s: string, d: char, k: nat): Option<string> {
    if k == 0 then Some(s)
    else if s != "" && s[0] == d then Past(s[1..], d, k - 1)
    else None
  }

  /** The longest beginning without `d`, and the rest. */
  function Body(s: string, d: char): (r: (string, string))
    ensures |r.0| + |r.1| == |s|
  {
    if s == "" || s[0] == d then ("", s)
    else (([s[0]] + Body(s[1..], d).0), Body(s[1..], d).1)
  }

  /** A match of `d{k}([^d]+)d{k}` at the start of the text: its body, and what follows it. */
  function Match(s: string, d: char, k: nat): (r: Option<(string, string)>)
    ensures r.Some? && k > 0 ==> |r.value.1| < |s|
  {
    PastIsShorter(s, d, k);
    match Past(s, d, k)
    case None => None
    case Some(u) =>
      var (body, rest) := Body(u, d);
      PastIsShorter(rest, d, k);
      match Past(rest, d, k)
      case None => None
      case Some(w) => if body == "" then None else Some((body, w))
  }

  lemma PastIsShorter(s: string, d: char, k: nat)
    ensures Past(s, d, k).Some? ==> |Past(s, d, k).value| + k == |s|
  {
  }

  /** `re.sub(d{k}([^d]+)d{k}, open + body + close, s)`. */
  function Sub(s: string, d: char, k: nat, open: string, close: string): string
    requires k > 0
    decreases |s|
  {
    if s == "" then ""
    else
      match Match(s, d, k)
      case Some((body, rest)) => open + body + close + Sub(rest, d, k, open, close)
      case None => [s[0]] + Sub(s[1..], d, k, open, close)
  }

  datatype Tag = CodeTag | BoldTag

  /** What a marked text is made of. */
  datatype Token = Char(c: char) | Open(tag: Tag) | Close(tag: Tag)

  function Chars(s: string): seq<Token> {
    if s == "" then [] else [Char(s[0])] + Chars(s[1..])
  }

  function PastMarks(t: seq<Token>, d: char, k: nat): Option<seq<Token>> {
    if k == 0 then Some(t)
    else if t != [] && t[0] == Char(d) then PastMarks(t[1..], d, k - 1)
    else None
  }

  function MarkBody(t: seq<Token>, d: char): (r: (seq<Token>, seq<Token>))
    ensures r.0 + r.1 == t
  {
    if t == [] || t[0] == Char(d) then ([], t)
    else (([t[0]] + MarkBody(t[1..], d).0), MarkBody(t[1..], d).1)
  }

  function MatchMarks(t: seq<Token>, d: char, k: nat): (r: Option<(seq<Token>, seq<Token>)>)
    ensures r.Some? && k > 0 ==> |r.value.1| < |t|
  {
    PastMarksIsShorter(t, d, k);
    match PastMarks(t, d, k)
    case None => None
    case Some(u) =>
      var (body, rest) := MarkBody(u, d);
      PastMarksIsShorter(rest, d, k);
      match PastMarks(rest, d, k)
      case None => None
      case Some(w) => if body == [] then None else Some((body, w))
  }

  lemma PastMarksIsShorter(t: seq<Token>, d: char, k: nat)
    ensures PastMarks(t, d, k).Some? ==> |PastMarks(t, d, k).value| + k == |t|
  {
  }

  /** The substitution on tokens: a matched pair of delimiters becomes a pair of tags. */
  function Mark(t: seq<Token>, d: char, k: nat, tag: Tag): seq<Token>
    requires k > 0
    decreases |t|
  {
    if t == [] then []
    else
      match MatchMarks(t, d, k)
      case Some((body, rest)) => [Open(tag)] + body + [Close(tag)] + Mark(rest, d, k, tag)
      case None => [t[0]] + Mark(t[1..], d, k, tag)
  }

  type Show = Token -> string

  function Expand(t: seq<Token>, show: Show): string {
    if t == [] then "" else show(t[0]) + Expand(t[1..], show)
  }

  lemma {:induction false} ExpandAppend(a: seq<Token>, b: seq<Token>, show: Show)
    ensures Expand(a + b, show) == Expand(a, show) + Expand(b, show)
  {
    if a == [] {
      assert a + b == b;
    } else {
      assert (a + b)[1..] == a[1..] + b;
      ExpandAppend(a[1..], b, show);
    }
  }

  /** Only the delimiter shows as the delimiter. */
  ghost predicate Shows(show: Show, d: char) {
    show(Char(d)) == [d] && forall x :: x != Char(d) ==> show(x) != "" && d !in show(x)
  }

  lemma {:induction false} PastExpand(t: seq<Token>, d: char, k: nat, show: Show)
    requires Shows(show, d)
    ensures Past(Expand(t, show), d, k) ==
            match PastMarks(t, d, k) case None => None case Some(u) => Some(Expand(u, show))
  {
    if k > 0 && t != [] {
      var s := Expand(t, show);
      assert s[0] == show(t[0])[0];
      if t[0] == Char(d) {
        assert s[1..] == Expand(t[1..], show);
        PastExpand(t[1..], d, k - 1, show);
      } else {
        assert show(t[0])[0] in show(t[0]);
      }
    }
  }

  lemma {:induction false} BodyOver(a: string, w: string, d: char)
    requires d !in a
    ensures Body(a + w, d) == (a + Body(w, d).0, Body(w, d).1)
  {
    if a == "" {
      assert a + w == w && a + Body(w, d).0 == Body(w, d).0;
    } else {
      assert (a + w)[1..] == a[1..] + w;
      BodyOver(a[1..], w, d);
      assert [a[0]] + (a[1..] + Body(w, d).0) == a + Body(w, d).0;
    }
  }

  lemma {:induction false} BodyExpand(t: seq<Token>, d: char, show: Show)
    requires Shows(show, d)
    ensures Body(Expand(t, show), d) == (Expand(MarkBody(t, d).0, show), Expand(MarkBody(t, d).1, show))
  {
    if t != [] {
      if t[0] == Char(d) {
        assert Expand(t, show)[0] == d;
      } else {
        BodyExpand(t[1..], d, show);
        BodyOver(show(t[0]), Expand(t[1..], show), d);
        assert ([t[0]] + MarkBody(t[1..], d).0)[1..] == MarkBody(t[1..], d).0;
      }
    }
  }

  lemma MatchExpand(t: seq<Token>, d: char, k: nat, show: Show)
    requires Shows(show, d)
    ensures Match(Expand(t, show), d, k) ==
            match MatchMarks(t, d, k)
            case None => None
            case Some((body, rest)) => Some((Expand(body, show), Expand(rest, show)))
  {
    PastExpand(t, d, k, show);
    if PastMarks(t, d, k).Some? {
      var u := PastMarks(t, d, k).value;
      BodyExpand(u, d, show);
      PastExpand(MarkBody(u, d).1, d, k, show);
    }
  }

  lemma {:induction false} SubOver(a: string, w: string, d: char, k: nat, open: string, close: string)
    requires k > 0 && d !in a
    ensures Sub(a + w, d, k, open, close) == a + Sub(w, d, k, open, close)
  {
    if a == "" {
      assert a + w == w;
    } else {
      assert (a + w)[1..] == a[1..] + w && (a + w)[0] == a[0];
      SubOver(a[1..], w, d, k, open, close);
      assert Match(a + w, d, k).None?;
    }
  }

  /** Substituting in the text that tokens show is showing the marked tokens. */
  lemma {:induction false} SubExpand(t: seq<Token>, d: char, k: nat, tag: Tag, show: Show)
    requires k > 0 && Shows(show, d)
    ensures Sub(Expand(t, show), d, k, show(Open(tag)), show(Close(tag))) == Expand(Mark(t, d, k, tag), show)
    decreases |t|
  {
    if t != [] {
      MatchExpand(t, d, k, show);
      match MatchMarks(t, d, k) {
        case Some((body, rest)) =>
          SubExpand(rest, d, k, tag, show);
          ShowPair(body, Mark(rest, d, k, tag), tag, show);
        case None =>
          SubExpand(t[1..], d, k, tag, show);
          if t[0] == Char(d) {
            assert Expand(t, show)[1..] == Expand(t[1..], show);
          } else {
            SubOver(show(t[0]), Expand(t[1..], show), d, k, show(Open(tag)), show(Close(tag)));
          }
      }
    }
  }

  lemma ShowPair(body: seq<Token>, rest: seq<Token>, tag: Tag, show: Show)
    ensures Expand([Open(tag)] + body + [Close(tag)] + rest, show) ==
            show(Open(tag)) + Expand(body, show) + show(Close(tag)) + Expand(rest, show)
  {
    var t := [Open(tag)] + body + [Close(tag)] + rest;
    assert t[1..] == body + ([Close(tag)] + rest);
    ExpandAppend(body, [Close(tag)] + rest, show);
    assert ([Close(tag)] + rest)[1..] == rest;
  }

  // ------------------------------------------------------------ what a substitution does

  function Times(d: char, k: nat): string {
    if k == 0 then "" else [d] + Times(d, k - 1)
  }

  /** The text begins with `body` between two delimiters, and `rest` follows. */
  ghost predicate Delimited(s: string, d: char, k: nat, body: string, rest: string) {
    body != "" && d !in body && s == Times(d, k) + body + (Times(d, k) + rest)
  }

  lemma {:induction false} PastTimes(d: char, k: nat, u: string)
    ensures Past(Times(d, k) + u, d, k) == Some(u)
  {
    var s := Times(d, k) + u;
    if k == 0 {
      assert s == u;
    } else {
      assert s[0] == d && s[1..] == Times(d, k - 1) + u;
      PastTimes(d, k - 1, u);
    }
  }

  lemma {:induction false} PastMeans(s: string, d: char, k: nat)
    requires Past(s, d, k).Some?
    ensures s == Times(d, k) + Past(s, d, k).value
  {
    if k > 0 {
      PastMeans(s[1..], d, k - 1);
      assert s == [d] + s[1..];
    }
  }

  lemma {:induction false} BodyMeans(s: string, d: char)
    ensures Body(s, d).0 + Body(s, d).1 == s && d !in Body(s, d).0
  {
    if s != "" && s[0] != d {
      var body, rest := Body(s[1..], d).0, Body(s[1..], d).1;
      BodyMeans(s[1..], d);
      assert [s[0]] + body + rest == [s[0]] + (body + rest) == s;
    }
  }

  lemma MatchWhenDelimited(s: string, d: char, k: nat, body: string, rest: string)
    requires k > 0 && Delimited(s, d, k, body, rest)
    ensures Match(s, d, k) == Some((body, rest))
  {
    var w := Times(d, k) + rest;
    assert s == Times(d, k) + (body + w);
    PastTimes(d, k, body + w);
    assert w[0] == d;
    BodyOver(body, w, d);
    assert body + "" == body;
    PastTimes(d, k, rest);
  }

  lemma DelimitedWhenMatch(s: string, d: char, k: nat)
    requires Match(s, d, k).Some?
    ensures Delimited(s, d, k, Match(s, d, k).value.0, Match(s, d, k).value.1)
  {
    var u := Past(s, d, k).value;
    PastMeans(s, d, k);
    BodyMeans(u, d);
    PastMeans(Body(u, d).1, d, k);
    assert s == Times(d, k) + (Body(u, d).0 + Body(u, d).1);
  }

  /** Nothing between delimiters begins at position `i`. */
  ghost predicate NoneAt(s: string, d: char, k: nat, i: nat)
    requires i <= |s|
  {
    forall body, rest :: !Delimited(s[i..], d, k, body, rest)
  }

  /** The leftmost text between delimiters is replaced, and the substitution goes on behind it. */
  lemma {:induction false} SubAtFirst(s: string, d: char, k: nat, open: string, close: string, i: nat, body: string, rest: string)
    requires k > 0 && i < |s| && Delimited(s[i..], d, k, body, rest) && forall j: nat :: j < i ==> NoneAt(s, d, k, j)
    ensures Sub(s, d, k, open, close) == s[..i] + (open + body + close + Sub(rest, d, k, open, close))
  {
    if i == 0 {
      assert s[0..] == s;
      MatchWhenDelimited(s, d, k, body, rest);
    } else {
      assert s[0..] == s && NoneAt(s, d, k, 0);
      if Match(s, d, k).Some? {
        DelimitedWhenMatch(s, d, k);
      }
      assert s[1..][i - 1..] == s[i..];
      forall j: nat | j < i - 1 ensures NoneAt(s[1..], d, k, j) {
        assert s[1..][j..] == s[j + 1..] && NoneAt(s, d, k, j + 1);
      }
      SubAtFirst(s[1..], d, k, open, close, i - 1, body, rest);
      assert s[..i] == [s[0]] + s[1..][..i - 1];
    }
  }

  /** Where nothing stands between delimiters, nothing changes. */
  lemma {:induction false} SubNowhere(s: string, d: char, k: nat, open: string, close: string)
    requires k > 0 && forall j: nat :: j < |s| ==> NoneAt(s, d, k, j)
    ensures Sub(s, d, k, open, close) == s
  {
    if s != "" {
      assert s[0..] == s && NoneAt(s, d, k, 0);
      if Match(s, d, k).Some? {
        DelimitedWhenMatch(s, d, k);
      }
      forall j: nat | j < |s[1..]| ensures NoneAt(s[1..], d, k, j) {
        assert s[1..][j..] == s[j + 1..] && NoneAt(s, d, k, j + 1);
      }
      SubNowhere(s[1..], d, k, open, close);
    }
  }

  // ------------------------------------------------------------------- the inline markup

  const CODE_FONT := "font name=\"Courier\" color=\"#0f6674\""

  /** A tag in angle brackets. */
  function Bracketed(name: string): string {
    "<" + name + ">"
  }

  /** What the renderer is given. */
  function Rendered(x: Token): string {
    match x
    case Char(c) => Entity(c)
    case Open(CodeTag) => Bracketed(CODE_FONT)
    case Close(CodeTag) => Bracketed("/font")
    case Open(BoldTag) => Bracketed("b")
    case Close(BoldTag) => Bracketed("/b")
  }

  /** `inline`: escape, then code spans, then bold. */
  function Inline(text: string): string {
    var code := Sub(Esc(text), '`', 1, Rendered(Open(CodeTag)), Rendered(Close(CodeTag)));
    Sub(code, '*', 2, Rendered(Open(BoldTag)), Rendered(Close(BoldTag)))
  }

  /** The marks of a text: code spans first, then bold over the result. */
  function Marked(text: string): seq<Token> {
    Mark(Spans(text), '*', 2, BoldTag)
  }

  function Spans(text: string): seq<Token> {
    Mark(Chars(text), '`', 1, CodeTag)
  }

  lemma NotInFont(d: char)
    requires d == '`' || d == '*'
    ensures d !in Bracketed(CODE_FONT)
  {
  }

  lemma RenderedShows(d: char)
    requires d == '`' || d == '*'
    ensures Shows(Rendered, d)
  {
    NotInFont(d);
  }

  lemma {:induction false} ExpandChars(s: string)
    ensures Expand(Chars(s), Rendered) == Esc(s)
  {
    EscIsEach(s);
    if s != "" {
      EscIsEach(s[1..]);
      ExpandChars(s[1..]);
    }
  }

  /** `inline` is escaping the text character by character with its marks in place. */
  lemma InlineIsMarking(text: string)
    ensures Inline(text) == Expand(Marked(text), Rendered)
  {
    RenderedShows('`');
    RenderedShows('*');
    ExpandChars(text);
    SubExpand(Chars(text), '`', 1, CodeTag, Rendered);
    SubExpand(Spans(text), '*', 2, BoldTag, Rendered);
  }

  lemma EscAppend(a: string, b: string)
    ensures Esc(a + b) == Esc(a) + Esc(b)
  {
    var x, y := Replace(a, '&', "&amp;"), Replace(b, '&', "&amp;");
    ReplaceAppend(a, b, '&', "&amp;");
    ReplaceAppend(x, y, '<', "&lt;");
    ReplaceAppend(Replace(x, '<', "&lt;"), Replace(y, '<', "&lt;"), '>', "&gt;");
  }

  lemma EscOfSpan(before: string, mark: string, body: string, after: string)
    requires Esc(mark) == mark
    ensures Esc(before + (mark + body + (mark + after))) == Esc(before) + (mark + Esc(body) + (mark + Esc(after)))
  {
    EscAppend(before, mark + body + (mark + after));
    EscAppend(mark + body, mark + after);
    EscAppend(mark, body);
    EscAppend(mark, after);
  }

  lemma {:induction false} EscHolds(s: string, d: char)
    requires d == '`' || d == '*'
    requires d !in s
    ensures d !in Esc(s)
  {
    EscIsEach(s);
    if s != "" {
      EscIsEach(s[1..]);
      EscHolds(s[1..], d);
    }
  }

  lemma {:induction false} SubAbsent(s: string, d: char, k: nat, open: string, close: string)
    requires k > 0 && d !in s
    ensures Sub(s, d, k, open, close) == s
  {
    SubOver(s, "", d, k, open, close);
    assert s + "" == s;
  }

  /** A substitution at its first place, when nothing before it is a delimiter. */
  lemma SubBehind(before: string, d: char, k: nat, body: string, rest: string, open: string, close: string)
    requires k > 0 && d !in before && d !in body && body != ""
    ensures Sub(before + (Times(d, k) + body + (Times(d, k) + rest)), d, k, open, close)
         == before + (open + body + close + Sub(rest, d, k, open, close))
  {
    var s := Times(d, k) + body + (Times(d, k) + rest);
    SubOver(before, s, d, k, open, close);
    MatchWhenDelimited(s, d, k, body, rest);
  }

  /** The tags, spelled out. */
  lemma TagsAre()
    ensures Rendered(Open(CodeTag)) == "<" + "font name=\"Courier\" color=\"#0f6674\"" + ">"
    ensures Rendered(Close(CodeTag)) == "<" + "/font" + ">"
    ensures Rendered(Open(BoldTag)) == "<" + "b" + ">" && Rendered(Close(BoldTag)) == "<" + "/b" + ">"
  {
  }

  /** Text without delimiters is escaped and nothing else. */
  lemma PlainPrints(text: string)
    requires '`' !in text && '*' !in text
    ensures Inline(text) == Esc(text)
  {
    EscHolds(text, '`');
    EscHolds(text, '*');
    SubAbsent(Esc(text), '`', 1, Rendered(Open(CodeTag)), Rendered(Close(CodeTag)));
    SubAbsent(Esc(text), '*', 2, Rendered(Open(BoldTag)), Rendered(Close(BoldTag)));
  }

  /** A code span is printed between font tags, escaped, and what follows it is marked up on its own. */
  lemma CodePrints(before: string, code: string, after: string)
    requires '`' !in before && '`' !in code && code != "" && '*' !in before && '*' !in code && '*' !in after
    ensures Inline(before + ("`" + code + ("`" + after))) ==
            Esc(before) + (Rendered(Open(CodeTag)) + Esc(code) + Rendered(Close(CodeTag)) + Inline(after))
  {
    var open, close := Rendered(Open(CodeTag)), Rendered(Close(CodeTag));
    var rest := Sub(Esc(after), '`', 1, open, close);
    var front := Esc(before) + (open + Esc(code) + close);
    CodePass(before, code, after);
    RegroupFour(Esc(before), open, Esc(code), close, rest);
    StarFree(before, code);
    SubOver(front, rest, '*', 2, Rendered(Open(BoldTag)), Rendered(Close(BoldTag)));
    RegroupFour(Esc(before), open, Esc(code), close, Inline(after));
  }

  lemma RegroupFour(a: string, b: string, c: string, d: string, e: string)
    ensures a + (b + c + d + e) == (a + (b + c + d)) + e
  {
  }

  lemma CodePass(before: string, code: string, after: string)
    requires '`' !in before && '`' !in code && code != ""
    ensures var open, close := Rendered(Open(CodeTag)), Rendered(Close(CodeTag));
      Sub(Esc(before + ("`" + code + ("`" + after))), '`', 1, open, close)
      == Esc(before) + (open + Esc(code) + close + Sub(Esc(after), '`', 1, open, close))
  {
    EscTick();
    EscOfSpan(before, "`", code, after);
    EscHolds(before, '`');
    EscHolds(code, '`');
    EscNotEmpty(code);
    assert Times('`', 1) == "`" + Times('`', 0) == "`";
    SubBehind(Esc(before), '`', 1, Esc(code), Esc(after), Rendered(Open(CodeTag)), Rendered(Close(CodeTag)));
  }

  lemma EscTick()
    ensures Esc("`") == "`" && Esc("**") == "**"
  {
    EscIsEach("`");
    EscIsEach("**");
    assert EscapeEach("`") == Entity('`') + EscapeEach("");
    assert "**"[1..] == "*" && EscapeEach("*") == Entity('*') + EscapeEach("");
  }

  lemma EscNotEmpty(s: string)
    requires s != ""
    ensures Esc(s) != ""
  {
    EscIsEach(s);
  }

  lemma StarFree(before: string, code: string)
    requires '*' !in before && '*' !in code
    ensures '*' !in Esc(before) + (Rendered(Open(CodeTag)) + Esc(code) + Rendered(Close(CodeTag)))
  {
    EscHolds(before, '*');
    EscHolds(code, '*');
    NotInFont('*');
  }

  /** Bold text is printed between bold tags, escaped, and what follows it is marked up on its own. */
  lemma BoldPrints(before: string, bold: string, after: string)
    requires '*' !in before && '*' !in bold && bold != "" && '`' !in before && '`' !in bold && '`' !in after
    ensures Inline(before + ("**" + bold + ("**" + after))) ==
            Esc(before) + (Rendered(Open(BoldTag)) + Esc(bold) + Rendered(Close(BoldTag)) + Inline(after))
  {
    var text := before + ("**" + bold + ("**" + after));
    NoneInside(before, bold, after);
    NoCode(text);
    NoCode(after);
    BoldPass(before, bold, after);
  }

  lemma NoneInside(before: string, bold: string, after: string)
    requires '`' !in before && '`' !in bold && '`' !in after
    ensures '`' !in before + ("**" + bold + ("**" + after))
  {
    assert '`' !in "**";
    assert '`' !in "**" + bold && '`' !in "**" + after;
  }

  lemma NoCode(text: string)
    requires '`' !in text
    ensures Inline(text) == Sub(Esc(text), '*', 2, Rendered(Open(BoldTag)), Rendered(Close(BoldTag)))
  {
    EscHolds(text, '`');
    SubAbsent(Esc(text), '`', 1, Rendered(Open(CodeTag)), Rendered(Close(CodeTag)));
  }

  lemma BoldPass(before: string, bold: string, after: string)
    requires '*' !in before && '*' !in bold && bold != ""
    ensures var open, close := Rendered(Open(BoldTag)), Rendered(Close(BoldTag));
      Sub(Esc(before + ("**" + bold + ("**" + after))), '*', 2, open, close)
      == Esc(before) + (open + Esc(bold) + close + Sub(Esc(after), '*', 2, open, close))
  {
    EscTick();
    EscOfSpan(before, "**", bold, after);
    EscHolds(before, '*');
    EscHolds(bold, '*');
    EscNotEmpty(bold);
    assert Times('*', 2) == "*" + ("*" + Times('*', 0)) == "**";
    SubBehind(Esc(before), '*', 2, Esc(bold), Esc(after), Rendered(Open(BoldTag)), Rendered(Close(BoldTag)));
  }

  // ------------------------------------------------------------ nothing but delimiters is lost

  /** A mark as the delimiter it replaced. */
  function Delimiter(x: Token): string {
    match x
    case Char(c) => [c]
    case Open(CodeTag) => "`"
    case Close(CodeTag) => "`"
    case Open(BoldTag) => "**"
    case Close(BoldTag) => "**"
  }

  /** The text without its marks. */
  function Bare(x: Token): string {
    if x.Char? then [x.c] else ""
  }

  lemma {:induction false} PastRestores(t: seq<Token>, d: char, k: nat, show: Show)
    requires show(Char(d)) == [d] && PastMarks(t, d, k).Some?
    ensures Expand(t, show) == Times(d, k) + Expand(PastMarks(t, d, k).value, show)
  {
    if k > 0 {
      PastRestores(t[1..], d, k - 1, show);
    }
  }

  lemma MatchRestores(t: seq<Token>, d: char, k: nat, show: Show)
    requires show(Char(d)) == [d] && MatchMarks(t, d, k).Some?
    ensures var (body, rest) := MatchMarks(t, d, k).value;
      Expand(t, show) == Times(d, k) + Expand(body, show) + Times(d, k) + Expand(rest, show)
  {
    var u := PastMarks(t, d, k).value;
    var (body, after) := MarkBody(u, d);
    PastRestores(t, d, k, show);
    ExpandAppend(body, after, show);
    PastRestores(after, d, k, show);
  }

  /** Showing each pair of tags as its delimiters undoes the marking. */
  lemma {:induction false} MarkRestores(t: seq<Token>, d: char, k: nat, tag: Tag, show: Show)
    requires k > 0 && show(Char(d)) == [d] && show(Open(tag)) == show(Close(tag)) == Times(d, k)
    ensures Expand(Mark(t, d, k, tag), show) == Expand(t, show)
    decreases |t|
  {
    if t != [] {
      match MatchMarks(t, d, k) {
        case Some((body, rest)) =>
          MatchRestores(t, d, k, show);
          MarkRestores(rest, d, k, tag, show);
          ShowPair(body, Mark(rest, d, k, tag), tag, show);
        case None =>
          MarkRestores(t[1..], d, k, tag, show);
      }
    }
  }

  lemma {:induction false} CharsShow(s: string, show: Show)
    requires forall c :: show(Char(c)) == [c]
    ensures Expand(Chars(s), show) == s
  {
    if s != "" {
      CharsShow(s[1..], show);
    }
  }

  /** The marked text with every mark shown as its delimiter is the text: marking drops only matched delimiters. */
  lemma MarksAreDelimiters(text: string)
    ensures Expand(Marked(text), Delimiter) == text
  {
    assert Times('`', 1) == "`" + Times('`', 0) == "`";
    assert Times('*', 2) == "*" + Times('*', 1) == "**";
    MarkRestores(Spans(text), '*', 2, BoldTag, Delimiter);
    MarkRestores(Chars(text), '`', 1, CodeTag, Delimiter);
    CharsShow(text, Delimiter);
  }

  /** What follows the first `>`. */
  function AfterTag(s: string): (r: string)
    ensures |r| <= |s|
  {
    if s == "" then "" else if s[0] == '>' then s[1..] else AfterTag(s[1..])
  }

  function StripTags(s: string): string
    decreases |s|
  {
    if s == "" then ""
    else if s[0] == '<' then StripTags(AfterTag(s[1..]))
    else [s[0]] + StripTags(s[1..])
  }

  lemma {:induction false} StripOver(a: string, w: string)
    requires '<' !in a
    ensures StripTags(a + w) == a + StripTags(w)
  {
    if a == "" {
      assert a + w == w;
    } else {
      assert (a + w)[1..] == a[1..] + w;
      StripOver(a[1..], w);
    }
  }

  lemma {:induction false} AfterTagOver(name: string, w: string)
    requires '>' !in name
    ensures AfterTag(name + ">" + w) == w
  {
    if name == "" {
      assert name + ">" + w == ">" + w;
    } else {
      assert (name + ">" + w)[1..] == name[1..] + ">" + w;
      AfterTagOver(name[1..], w);
    }
  }

  lemma StripBracketed(name: string, w: string)
    requires '>' !in name
    ensures StripTags(Bracketed(name) + w) == StripTags(w)
  {
    assert (Bracketed(name) + w)[1..] == name + ">" + w;
    AfterTagOver(name, w);
  }

  /** Stripping the tags and undoing the entities leaves the characters. */
  lemma {:induction false} StripAndUnescape(t: seq<Token>)
    ensures Unescape(StripTags(Expand(t, Rendered))) == Expand(t, Bare)
  {
    if t != [] {
      var w := Expand(t[1..], Rendered);
      StripAndUnescape(t[1..]);
      match t[0] {
        case Char(c) =>
          StripOver(Entity(c), w);
          ReadEntity(c, StripTags(w));
        case Open(CodeTag) => StripBracketed(CODE_FONT, w);
        case Close(CodeTag) => StripBracketed("/font", w);
        case Open(BoldTag) => StripBracketed("b", w);
        case Close(BoldTag) => StripBracketed("/b", w);
      }
    }
  }

  /** `inline` loses exactly the matched delimiters: stripped and unescaped it is the text without them. */
  lemma InlineLosesOnlyDelimiters(text: string)
    ensures Unescape(StripTags(Inline(text))) == Expand(Marked(text), Bare)
    ensures Expand(Marked(text), Delimiter) == text
  {
    InlineIsMarking(text);
    StripAndUnescape(Marked(text));
    MarksAreDelimiters(text);
  }

  // -------------------------------------------------------------------------- nesting

  /** Every closing tag closes the tag opened last, and all are closed at the end. */
  predicate Nested(t: seq<Token>, stack: seq<Tag>) {
    if t == [] then stack == []
    else
      match t[0]
      case Char(_) => Nested(t[1..], stack)
      case Open(tag) => Nested(t[1..], [tag] + stack)
      case Close(tag) => stack != [] && stack[0] == tag && Nested(t[1..], stack[1..])
  }

  /** Whether the place after `t` is inside a code span. */
  function InsideAfter(t: seq<Token>, inside: bool): bool {
    if t == [] then inside
    else InsideAfter(t[1..], if t[0].Char? then inside else t[0].Open?)
  }

  /** Code tags that open and close by turns. */
  predicate ByTurns(t: seq<Token>, inside: bool) {
    t != [] ==>
      match t[0]
      case Char(_) => ByTurns(t[1..], inside)
      case Open(tag) => tag == CodeTag && !inside && ByTurns(t[1..], true)
      case Close(tag) => tag == CodeTag && inside && ByTurns(t[1..], false)
  }

  predicate NoTags(t: seq<Token>) {
    t != [] ==> t[0].Char? && NoTags(t[1..])
  }

  /** The two delimiters of every bold match lie outside all code spans, or inside the same one. */
  predicate BoldAligned(t: seq<Token>, inside: bool)
    decreases |t|
  {
    t != [] ==>
      match MatchMarks(t, '*', 2)
      case Some((body, rest)) =>
        (if inside then NoTags(body) else !InsideAfter(body, inside)) && BoldAligned(rest, inside)
      case None => BoldAligned(t[1..], if t[0].Char? then inside else t[0].Open?)
  }

  function Around(inside: bool): seq<Tag> {
    if inside then [CodeTag] else []
  }

  lemma {:induction false} ByTurnsAppend(a: seq<Token>, b: seq<Token>, inside: bool)
    ensures ByTurns(a + b, inside) <==> ByTurns(a, inside) && ByTurns(b, InsideAfter(a, inside))
    ensures InsideAfter(a + b, inside) == InsideAfter(b, InsideAfter(a, inside))
  {
    if a == [] {
      assert a + b == b;
    } else {
      assert (a + b)[1..] == a[1..] + b;
      ByTurnsAppend(a[1..], b, if a[0].Char? then inside else a[0].Open?);
    }
  }

  /** Code tags by turns do not disturb the tags below them. */
  lemma {:induction false} NestedThrough(body: seq<Token>, w: seq<Token>, inside: bool, stack: seq<Tag>)
    requires ByTurns(body, inside)
    ensures Nested(body + w, Around(inside) + stack) <==> Nested(w, Around(InsideAfter(body, inside)) + stack)
  {
    if body == [] {
      assert body + w == w;
    } else {
      assert (body + w)[1..] == body[1..] + w;
      NestedThrough(body[1..], w, if body[0].Char? then inside else body[0].Open?, stack);
      assert Around(true) + stack == [CodeTag] + stack;
      assert ([CodeTag] + stack)[1..] == stack;
      assert Around(false) + stack == stack;
    }
  }

  /** A bold tag opened inside a code span must be closed before the span is. */
  lemma {:induction false} NestedBlocked(body: seq<Token>, w: seq<Token>, stack: seq<Tag>)
    requires ByTurns(body, true)
    ensures Nested(body + w, [BoldTag] + stack) <==> NoTags(body) && Nested(w, [BoldTag] + stack)
  {
    if body == [] {
      assert body + w == w;
    } else {
      assert (body + w)[1..] == body[1..] + w;
      if body[0].Char? {
        NestedBlocked(body[1..], w, stack);
      }
    }
  }

  lemma {:induction false} NoTagsNoTurn(t: seq<Token>, inside: bool)
    requires NoTags(t)
    ensures InsideAfter(t, inside) == inside
  {
    if t != [] {
      NoTagsNoTurn(t[1..], inside);
    }
  }

  lemma {:induction false} DelimitersNoTurn(t: seq<Token>, d: char, k: nat, inside: bool)
    requires PastMarks(t, d, k).Some?
    ensures var u := PastMarks(t, d, k).value;
      (ByTurns(t, inside) <==> ByTurns(u, inside)) && InsideAfter(t, inside) == InsideAfter(u, inside)
  {
    if k > 0 {
      DelimitersNoTurn(t[1..], d, k - 1, inside);
    }
  }

  /** A match in tokens whose code tags alternate. */
  lemma MatchTurns(t: seq<Token>, d: char, k: nat, inside: bool)
    requires ByTurns(t, inside) && MatchMarks(t, d, k).Some?
    ensures var (body, rest) := MatchMarks(t, d, k).value;
      && ByTurns(body, inside) && ByTurns(rest, InsideAfter(body, inside))
      && InsideAfter(t, inside) == InsideAfter(rest, InsideAfter(body, inside))
  {
    var u := PastMarks(t, d, k).value;
    var (body, after) := MarkBody(u, d);
    DelimitersNoTurn(t, d, k, inside);
    ByTurnsAppend(body, after, inside);
    DelimitersNoTurn(after, d, k, InsideAfter(body, inside));
  }

  /** One bold match: its tags nest exactly when its delimiters are aligned. */
  lemma BoldPairNests(body: seq<Token>, w: seq<Token>, inside: bool)
    requires ByTurns(body, inside)
    ensures Nested([Open(BoldTag)] + body + [Close(BoldTag)] + w, Around(inside)) <==>
            (if inside then NoTags(body) else !InsideAfter(body, inside)) && Nested(w, Around(inside))
  {
    var tail := [Close(BoldTag)] + w;
    var t := [Open(BoldTag)] + body + [Close(BoldTag)] + w;
    assert t[1..] == body + tail;
    assert tail[1..] == w;
    if inside {
      NestedBlocked(body, tail, [CodeTag]);
      assert ([BoldTag] + [CodeTag])[1..] == [CodeTag];
    } else {
      NestedThrough(body, tail, false, [BoldTag]);
      assert Around(false) + [BoldTag] == [BoldTag] + [] && [BoldTag][1..] == [];
      assert (Around(true) + [BoldTag])[0] == CodeTag;
    }
  }

  lemma {:induction false} BoldNests(t: seq<Token>, inside: bool)
    requires ByTurns(t, inside) && !InsideAfter(t, inside)
    ensures Nested(Mark(t, '*', 2, BoldTag), Around(inside)) <==> BoldAligned(t, inside)
    decreases |t|
  {
    if t != [] {
      match MatchMarks(t, '*', 2) {
        case Some((body, rest)) =>
          MatchTurns(t, '*', 2, inside);
          BoldPairNests(body, Mark(rest, '*', 2, BoldTag), inside);
          if inside && NoTags(body) {
            NoTagsNoTurn(body, inside);
          }
          if InsideAfter(body, inside) == inside {
            BoldNests(rest, inside);
          }
        case None =>
          var next := if t[0].Char? then inside else t[0].Open?;
          BoldNests(t[1..], next);
          assert Mark(t, '*', 2, BoldTag)[1..] == Mark(t[1..], '*', 2, BoldTag);
          assert [CodeTag] + Around(false) == Around(true) && Around(true)[1..] == [];
      }
    }
  }

  lemma {:induction false} CharsTurn(s: string, inside: bool)
    ensures ByTurns(Chars(s), inside) && InsideAfter(Chars(s), inside) == inside && NoTags(Chars(s))
  {
    if s != "" {
      CharsTurn(s[1..], inside);
    }
  }

  lemma {:induction false} NoTagsByTurns(t: seq<Token>, inside: bool)
    requires NoTags(t)
    ensures ByTurns(t, inside)
  {
    if t != [] {
      NoTagsByTurns(t[1..], inside);
    }
  }

  lemma {:induction false} NoTagsAppend(a: seq<Token>, b: seq<Token>)
    ensures NoTags(a + b) <==> NoTags(a) && NoTags(b)
  {
    if a == [] {
      assert a + b == b;
    } else {
      assert (a + b)[1..] == a[1..] + b;
      NoTagsAppend(a[1..], b);
    }
  }

  lemma {:induction false} PastNoTags(t: seq<Token>, d: char, k: nat)
    requires NoTags(t) && PastMarks(t, d, k).Some?
    ensures NoTags(PastMarks(t, d, k).value)
  {
    if k > 0 {
      PastNoTags(t[1..], d, k - 1);
    }
  }

  /** Code spans do not overlap. */
  lemma {:induction false} SpansByTurns(t: seq<Token>)
    requires NoTags(t)
    ensures var m := Mark(t, '`', 1, CodeTag); ByTurns(m, false) && !InsideAfter(m, false)
    decreases |t|
  {
    if t != [] {
      match MatchMarks(t, '`', 1) {
        case Some((body, rest)) =>
          var u := PastMarks(t, '`', 1).value;
          PastNoTags(t, '`', 1);
          NoTagsAppend(body, MarkBody(u, '`').1);
          PastNoTags(MarkBody(u, '`').1, '`', 1);
          SpansByTurns(rest);
          OneSpan(body, Mark(rest, '`', 1, CodeTag));
        case None =>
          SpansByTurns(t[1..]);
          assert Mark(t, '`', 1, CodeTag)[1..] == Mark(t[1..], '`', 1, CodeTag);
      }
    }
  }

  lemma OneSpan(body: seq<Token>, w: seq<Token>)
    requires NoTags(body) && ByTurns(w, false)
    ensures var m := [Open(CodeTag)] + body + [Close(CodeTag)] + w;
      ByTurns(m, false) && InsideAfter(m, false) == InsideAfter(w, false)
  {
    var tail := [Close(CodeTag)] + w;
    var m := [Open(CodeTag)] + body + [Close(CodeTag)] + w;
    assert m[1..] == body + tail && tail[1..] == w;
    NoTagsByTurns(body, true);
    NoTagsNoTurn(body, true);
    ByTurnsAppend(body, tail, true);
  }

  /** The markup is well nested exactly when the delimiters of every bold match lie outside all code spans or in one. */
  lemma NestedExactly(text: string)
    ensures Nested(Marked(text), []) <==> BoldAligned(Spans(text), false)
  {
    CharsTurn(text, false);
    SpansByTurns(Chars(text));
    BoldNests(Spans(text), false);
  }

  /** No code span contains an asterisk. */
  predicate StarsOutside(t: seq<Token>, inside: bool) {
    t != [] ==>
      && !(inside && t[0] == Char('*'))
      && StarsOutside(t[1..], if t[0].Char? then inside else t[0].Open?)
  }

  lemma {:induction false} StarsAppend(a: seq<Token>, b: seq<Token>, inside: bool)
    requires StarsOutside(a + b, inside)
    ensures StarsOutside(b, InsideAfter(a, inside))
  {
    if a == [] {
      assert a + b == b;
    } else {
      assert (a + b)[1..] == a[1..] + b;
      StarsAppend(a[1..], b, if a[0].Char? then inside else a[0].Open?);
    }
  }

  lemma {:induction false} StarsPast(t: seq<Token>, k: nat, inside: bool)
    requires StarsOutside(t, inside) && PastMarks(t, '*', k).Some?
    ensures StarsOutside(PastMarks(t, '*', k).value, inside) && (k > 0 ==> !inside)
  {
    if k > 0 {
      StarsPast(t[1..], k - 1, inside);
    }
  }

  lemma {:induction false} StarFreeIsAligned(t: seq<Token>, inside: bool)
    requires StarsOutside(t, inside)
    ensures BoldAligned(t, inside)
    decreases |t|
  {
    if t != [] {
      match MatchMarks(t, '*', 2) {
        case Some((body, rest)) =>
          var u := PastMarks(t, '*', 2).value;
          StarsPast(t, 2, inside);
          StarsAppend(body, MarkBody(u, '*').1, inside);
          StarsPast(MarkBody(u, '*').1, 2, InsideAfter(body, inside));
          StarFreeIsAligned(rest, inside);
        case None =>
          StarFreeIsAligned(t[1..], if t[0].Char? then inside else t[0].Open?);
      }
    }
  }

  /** In particular, when no code span contains an asterisk. */
  lemma NestedWithoutStars(text: string)
    requires StarsOutside(Spans(text), false)
    ensures Nested(Marked(text), [])
  {
    StarFreeIsAligned(Spans(text), false);
    NestedExactly(text);
  }

  lemma {:induction false} CharsAppend(a: string, b: string)
    ensures Chars(a + b) == Chars(a) + Chars(b)
  {
    if a == "" {
      assert a + b == b;
    } else {
      assert (a + b)[1..] == a[1..] + b;
      CharsAppend(a[1..], b);
    }
  }

  lemma {:induction false} CharsHold(s: string, d: char)
    requires d !in s
    ensures Char(d) !in Chars(s)
  {
    if s != "" {
      CharsHold(s[1..], d);
    }
  }

  lemma {:induction false} BodyIsAll(body: seq<Token>, rest: seq<Token>, d: char)
    requires Char(d) !in body && rest != [] && rest[0] == Char(d)
    ensures MarkBody(body + rest, d) == (body, rest)
  {
    if body == [] {
      assert body + rest == rest;
    } else {
      assert (body + rest)[1..] == body[1..] + rest;
      BodyIsAll(body[1..], rest, d);
      assert [body[0]] + body[1..] == body;
    }
  }

  lemma CodeMatch(code: string)
    requires '`' !in code && code != ""
    ensures MatchMarks(Chars("`" + code + "`"), '`', 1) == Some((Chars(code), []))
  {
    var text, tick := "`" + code + "`", [Char('`')];
    assert text[1..] == code + "`";
    CharsAppend(code, "`");
    CharsHold(code, '`');
    assert Chars("`") == tick + Chars("") == tick;
    var t := Chars(text);
    assert t[1..] == Chars(code) + tick;
    assert PastMarks(t, '`', 1) == PastMarks(t[1..], '`', 0) == Some(t[1..]);
    BodyIsAll(Chars(code), tick, '`');
    assert PastMarks(tick, '`', 1) == PastMarks(tick[1..], '`', 0) == Some([]);
    assert Chars(code) != [];
  }

  /** A text with one code span. */
  lemma {:induction false} OneCodeSpan(before: string, code: string)
    requires '`' !in before && '`' !in code && code != ""
    ensures Spans(before + "`" + code + "`") == Chars(before) + [Open(CodeTag)] + Chars(code) + [Close(CodeTag)]
  {
    var text := before + "`" + code + "`";
    if before == "" {
      CodeMatch(code);
      assert text == "`" + code + "`";
      assert Mark([], '`', 1, CodeTag) == [];
    } else {
      assert text[1..] == before[1..] + "`" + code + "`" && text[0] == before[0];
      OneCodeSpan(before[1..], code);
    }
  }

  lemma BoldMatch(body: seq<Token>, w: seq<Token>)
    requires body != [] && Char('*') !in body
    ensures MatchMarks([Char('*'), Char('*')] + (body + ([Char('*'), Char('*')] + w)), '*', 2) == Some((body, w))
  {
    var rest := [Char('*'), Char('*')] + w;
    BodyIsAll(body, rest, '*');
    TwoStars(body + rest);
    TwoStars(w);
  }

  lemma TwoStars(t: seq<Token>)
    ensures PastMarks([Char('*'), Char('*')] + t, '*', 2) == Some(t)
  {
    var two := [Char('*'), Char('*')] + t;
    assert two[1..] == [Char('*')] + t && two[1..][1..] == t;
    assert PastMarks(t, '*', 0) == Some(t);
    assert PastMarks(two[1..], '*', 1) == PastMarks(two[1..][1..], '*', 0);
  }

  lemma RegroupText(x: string, a: string, y: string, b: string)
    ensures x + a + y + b + (x + y) == (x + a) + y + (b + x) + y
  {
  }

  lemma RegroupTokens(x: seq<Token>, a: seq<Token>, y: seq<Token>, b: seq<Token>, z: seq<Token>)
    ensures (x + a) + y + (b + x) + z == x + ((a + y + b) + (x + z))
  {
  }

  lemma CrossingSpans(a: string, b: string)
    requires '`' !in a && '`' !in b
    ensures Spans("**" + a + "`" + b + "**`") ==
            [Char('*'), Char('*')]
            + ((Chars(a) + [Open(CodeTag)] + Chars(b)) + ([Char('*'), Char('*')] + [Close(CodeTag)]))
  {
    var x, y := "**", "`";
    assert "**`" == x + y;
    RegroupText(x, a, y, b);
    OneCodeSpan(x + a, b + x);
    CharsAppend(x, a);
    CharsAppend(b, x);
    assert Chars(x) == [Char('*')] + Chars(x[1..]) == [Char('*'), Char('*')];
    RegroupTokens(Chars(x), Chars(a), [Open(CodeTag)], Chars(b), [Close(CodeTag)]);
  }

  /** A bold match that ends inside a code span opens `<b>` outside and closes it within. */
  lemma CrossingIsNotNested(a: string, b: string)
    requires a != "" && '*' !in a && '`' !in a && '*' !in b && '`' !in b
    ensures !Nested(Marked("**" + a + "`" + b + "**`"), [])
  {
    var text := "**" + a + "`" + b + "**`";
    CrossingSpans(a, b);
    CrossingBody(a, b);
    BoldMatch(Chars(a) + [Open(CodeTag)] + Chars(b), [Close(CodeTag)]);
    NestedExactly(text);
  }

  lemma CrossingBody(a: string, b: string)
    requires a != "" && '*' !in a && '*' !in b
    ensures var body := Chars(a) + [Open(CodeTag)] + Chars(b);
      body != [] && Char('*') !in body && InsideAfter(body, false)
  {
    CharsHold(a, '*');
    CharsHold(b, '*');
    CharsTurn(a, false);
    CharsTurn(b, true);
    ByTurnsAppend(Chars(a) + [Open(CodeTag)], Chars(b), false);
    ByTurnsAppend(Chars(a), [Open(CodeTag)], false);
    assert InsideAfter([Open(CodeTag)], false) == InsideAfter([], true);
  }

  // ------------------------------------------------------------------------ code blocks

  /** A line of a code block: escaped, with spaces that do not break. */
  function CodeLine(line: string): string {
    Replace(Esc(line), ' ', "&nbsp;")
  }

  /** The text of a code block. */
  function CodeText(lines: seq<string>): string
    requires lines != []
  {
    if |lines| == 1 then CodeLine(lines[0])
    else CodeLine(lines[0]) + "<br/>" + CodeText(lines[1..])
  }

  function Prepend(s: string, lines: seq<string>): (r: seq<string>)
    requires lines != []
    ensures r != []
  {
    [s + lines[0]] + lines[1..]
  }

  lemma PrependBoth(c: char, s: string, lines: seq<string>)
    requires lines != []
    ensures Prepend([c], Prepend(s, lines)) == Prepend([c] + s, lines)
    ensures Prepend("", lines) == lines
  {
    assert [c] + (s + lines[0]) == [c] + s + lines[0];
    assert "" + lines[0] == lines[0];
  }

  lemma PrependToEmpty(s: string, lines: seq<string>)
    ensures Prepend(s, [""] + lines) == [s] + lines
  {
    assert s + "" == s && ([""] + lines)[1..] == lines;
  }

  /** Reading a code block back: a tag ends the line, an entity is a character. */
  function ReadCode(s: string): (lines: seq<string>)
    ensures lines != []
    decreases |s|
  {
    if s == "" then [""]
    else if s[0] == '<' then [""] + ReadCode(AfterTag(s[1..]))
    else
      var (c, rest) := ReadOne(s);
      Prepend([c], ReadCode(rest))
  }

  function CodeEntity(c: char): string {
    if c == ' ' then "&nbsp;" else Entity(c)
  }

  function CodeEach(line: string): string {
    if line == "" then "" else CodeEntity(line[0]) + CodeEach(line[1..])
  }

  lemma {:induction false} CodeLineIsEach(line: string)
    ensures CodeLine(line) == CodeEach(line)
  {
    EscIsEach(line);
    if line != "" {
      EscIsEach(line[1..]);
      CodeLineIsEach(line[1..]);
      ReplaceAppend(Entity(line[0]), EscapeEach(line[1..]), ' ', "&nbsp;");
      if line[0] == ' ' {
        assert Replace(" ", ' ', "&nbsp;") == "&nbsp;" + Replace("", ' ', "&nbsp;") == "&nbsp;";
      } else {
        ReplaceAbsent(Entity(line[0]), ' ', "&nbsp;");
      }
    }
  }

  lemma ReadCodeEntity(c: char, rest: string)
    ensures ReadCode(CodeEntity(c) + rest) == Prepend([c], ReadCode(rest))
  {
    var s := CodeEntity(c) + rest;
    assert s[0] == CodeEntity(c)[0] != '<';
    if c == ' ' {
      assert s[..6] == "&nbsp;" && s[6..] == rest && s[1] == 'n';
    } else {
      ReadEntity(c, rest);
    }
  }

  lemma {:induction false} ReadCodeLine(line: string, rest: string)
    ensures ReadCode(CodeEach(line) + rest) == Prepend(line, ReadCode(rest))
  {
    if line == "" {
      PrependBoth(' ', "", ReadCode(rest));
      assert CodeEach(line) + rest == rest;
    } else {
      var tail := CodeEach(line[1..]) + rest;
      ReadCodeLine(line[1..], rest);
      ReadCodeEntity(line[0], tail);
      PrependBoth(line[0], line[1..], ReadCode(rest));
      assert CodeEach(line) + rest == CodeEntity(line[0]) + tail;
      assert line == [line[0]] + line[1..];
    }
  }

  lemma ReadBreak(rest: string)
    ensures ReadCode("<br/>" + rest) == [""] + ReadCode(rest)
  {
    var s := "<br/>" + rest;
    assert s[1..] == "br/" + ">" + rest;
    AfterTagOver("br/", rest);
  }

  /** The lines of a code block can be read back from its text, character for character. */
  lemma {:induction false} CodeTextIsReadable(lines: seq<string>)
    requires lines != []
    ensures ReadCode(CodeText(lines)) == lines
  {
    CodeLineIsEach(lines[0]);
    if |lines| == 1 {
      ReadCodeLine(lines[0], "");
      assert CodeEach(lines[0]) + "" == CodeEach(lines[0]);
      PrependToEmpty(lines[0], []);
      assert [""] + [] == [""] && [lines[0]] + [] == lines;
    } else {
      var rest := CodeText(lines[1..]);
      CodeTextIsReadable(lines[1..]);
      ReadBreak(rest);
      ReadCodeLine(lines[0], "<br/>" + rest);
      assert CodeText(lines) == CodeEach(lines[0]) + ("<br/>" + rest);
      PrependToEmpty(lines[0], lines[1..]);
    }
  }

  // -------------------------------------------------------------------- reading back

  function TagName(s: string): string {
    if s == "" || s[0] == '>' then "" else [s[0]] + TagName(s[1..])
  }

  /** The delimiter a tag stands for; a line break stands for none. */
  function TagReads(name: string): string {
    if name == CODE_FONT || name == "/font" then "`"
    else if name == "b" || name == "/b" then "**"
    else ""
  }

  /** What a reader of the markup makes of it: tags as their delimiters, entities as their characters. */
  function ReadBack(s: string): string
    decreases |s|
  {
    if s == "" then ""
    else if s[0] == '<' then TagReads(TagName(s[1..])) + ReadBack(AfterTag(s[1..]))
    else [ReadOne(s).0] + ReadBack(ReadOne(s).1)
  }

  lemma {:induction false} TagNameOver(name: string, w: string)
    requires '>' !in name
    ensures TagName(name + ">" + w) == name
  {
    if name == "" {
      assert name + ">" + w == ">" + w;
    } else {
      assert (name + ">" + w)[1..] == name[1..] + ">" + w;
      TagNameOver(name[1..], w);
    }
  }

  lemma ReadBackTag(name: string, w: string)
    requires '>' !in name
    ensures ReadBack(Bracketed(name) + w) == TagReads(name) + ReadBack(w)
  {
    assert (Bracketed(name) + w)[1..] == name + ">" + w;
    TagNameOver(name, w);
    AfterTagOver(name, w);
  }

  lemma ReadBackEntity(c: char, w: string)
    ensures ReadBack(CodeEntity(c) + w) == [c] + ReadBack(w)
    ensures ReadBack(Entity(c) + w) == [c] + ReadBack(w)
  {
    ReadEntity(c, w);
    assert (Entity(c) + w)[0] == Entity(c)[0] != '<';
    if c == ' ' {
      ReadSpace(w);
    }
  }

  lemma ReadSpace(w: string)
    ensures ReadBack("&nbsp;" + w) == [' '] + ReadBack(w)
  {
    var s := "&nbsp;" + w;
    assert s[..6] == "&nbsp;" && s[6..] == w && s[0] == '&' && s[1] == 'n';
    assert ReadOne(s) == (' ', w);
  }

  lemma TagsRead()
    ensures TagReads(CODE_FONT) == "`" == TagReads("/font") && TagReads("b") == "**" == TagReads("/b") && TagReads("br/") == ""
  {
    assert |CODE_FONT| > 5 && |"/font"| == 5 && |"b"| == 1 && |"/b"| == 2 && |"br/"| == 3;
  }

  lemma {:induction false} ReadBackMarks(t: seq<Token>)
    ensures ReadBack(Expand(t, Rendered)) == Expand(t, Delimiter)
  {
    if t != [] {
      var w := Expand(t[1..], Rendered);
      ReadBackMarks(t[1..]);
      TagsRead();
      match t[0] {
        case Char(c) => ReadBackEntity(c, w);
        case Open(CodeTag) => ReadBackTag(CODE_FONT, w);
        case Close(CodeTag) => ReadBackTag("/font", w);
        case Open(BoldTag) => ReadBackTag("b", w);
        case Close(BoldTag) => ReadBackTag("/b", w);
      }
    }
  }

  /** The markup determines the text: `inline` can be read back, delimiters and all. */
  lemma InlineReadsBack(text: string)
    ensures ReadBack(Inline(text)) == text
  {
    InlineIsMarking(text);
    ReadBackMarks(Marked(text));
    MarksAreDelimiters(text);
  }

  lemma Regroup(a: string, b: string, c: string)
    ensures (a + b) + c == a + (b + c)
  {
  }

  lemma ReadBackBreak(w: string)
    ensures ReadBack("<br/>" + w) == ReadBack(w)
  {
    TagsRead();
    ReadBackTag("br/", w);
    assert Bracketed("br/") == "<br/>";
  }

  lemma {:induction false} ReadBackLine(line: string, w: string)
    ensures ReadBack(CodeEach(line) + w) == line + ReadBack(w)
  {
    if line == "" {
      assert CodeEach(line) + w == w;
    } else {
      var tail := CodeEach(line[1..]) + w;
      ReadBackLine(line[1..], w);
      ReadBackEntity(line[0], tail);
      Regroup(CodeEntity(line[0]), CodeEach(line[1..]), w);
      Regroup([line[0]], line[1..], ReadBack(w));
      assert [line[0]] + line[1..] == line;
    }
  }

  function Concat(lines: seq<string>): string {
    if lines == [] then "" else lines[0] + Concat(lines[1..])
  }

  /** A code block reads back as its lines, one after the other. */
  lemma {:induction false} CodeReadsBack(lines: seq<string>)
    requires lines != []
    ensures ReadBack(CodeText(lines)) == Concat(lines)
  {
    CodeLineIsEach(lines[0]);
    if |lines| == 1 {
      ReadBackLine(lines[0], "");
      assert CodeEach(lines[0]) + "" == CodeEach(lines[0]);
      assert Concat(lines[1..]) == "" == ReadBack("");
    } else {
      var rest := CodeText(lines[1..]);
      CodeReadsBack(lines[1..]);
      ReadBackBreak(rest);
      ReadBackLine(lines[0], "<br/>" + rest);
      Regroup(CodeEach(lines[0]), "<br/>", rest);
    }
  }
}
