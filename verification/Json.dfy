/**
  JSON values and the text `JSON.stringify` gives them (without indentation).
  The text is uniquely decodable: no two values share a text, even when more text follows it.
 */
module Json {
  import opened Text

  datatype Json =
    | Null
    | Bool(flag: bool)
    | Num(number: int)
    | Str(text: string)
    | Arr(items: seq<Json>)
    | Obj(entries: seq<Entry>)

  /** One property of an object; the sequence of entries is the object's insertion order. */
  datatype Entry = Entry(key: string, value: Json)

  ghost predicate DistinctKeys(entries: seq<Entry>) {
    forall i, j :: 0 <= i < j < |entries| ==> entries[i].key != entries[j].key
  }

  /** A JavaScript object never holds one key twice. */
  ghost predicate WellFormed(v: Json) {
    match v
    case Arr(items) => forall i :: 0 <= i < |items| ==> WellFormed(items[i])
    case Obj(entries) => DistinctKeys(entries) && forall i :: 0 <= i < |entries| ==> WellFormed(entries[i].value)
    case _ => true
  }

  /** `value.key` on a parsed value; None is `undefined`. */
  function Field(v: Json, key: string): Option<Json> {
    if v.Obj? then Lookup(v.entries, key) else None
  }

  function Lookup(entries: seq<Entry>, key: string): (r: Option<Json>)
    ensures r.Some? <==> exists i :: 0 <= i < |entries| && entries[i].key == key
    ensures r.Some? ==> exists i :: 0 <= i < |entries| && entries[i] == Entry(key, r.value)
  {
    if entries == [] then None
    else if entries[0].key == key then
      assert entries[0] == Entry(key, entries[0].value);
      Some(entries[0].value)
    else
      var rest := Lookup(entries[1..], key);
      assert forall i :: 0 <= i < |entries[1..]| ==> entries[1..][i] == entries[i + 1];
      assert forall i :: 1 <= i < |entries| ==> entries[i] == entries[1..][i - 1];
      rest
  }

  /** JavaScript truthiness of a possibly missing value. */
  predicate Truthy(v: Option<Json>) {
    match v
    case None => false
    case Some(Null) => false
    case Some(Bool(flag)) => flag
    case Some(Num(n)) => n != 0
    case Some(Str(s)) => s != ""
    case Some(_) => true
  }

  /** What JavaScript takes for false: a missing value, null, false, zero and the empty string. */
  lemma TruthyExactly(v: Option<Json>)
    ensures !Truthy(v) <==> v in {None, Some(Null), Some(Bool(false)), Some(Num(0)), Some(Str(""))}
  {
  }

  // ---------------------------------------------------------------- numbers

  predicate IsDigit(c: char) {
    '0' <= c <= '9'
  }

  function Digits(n: nat): (r: string)
    ensures r != "" && forall i :: 0 <= i < |r| ==> IsDigit(r[i])
  {
    var digit := [('0' as int + n % 10) as char];
    if n < 10 then digit else Digits(n / 10) + digit
  }

  function Decimal(n: int): string {
    if n < 0 then "-" + Digits(-n) else Digits(n)
  }

  function Value(digits: string): int {
    if digits == "" then 0
    else 10 * Value(digits[..|digits| - 1]) + (digits[|digits| - 1] as int - '0' as int)
  }

  lemma {:induction false} ValueOfDigits(n: nat)
    ensures Value(Digits(n)) == n
  {
    var d := Digits(n);
    var digit := [('0' as int + n % 10) as char];
    if n >= 10 {
      ValueOfDigits(n / 10);
      assert d == Digits(n / 10) + digit;
      assert d[..|d| - 1] == Digits(n / 10);
    } else {
      assert d == digit && d[..0] == "";
      assert Value(d[..0]) == 0;
    }
  }

  lemma Regroup(a: string, b: string, c: string, d: string)
    ensures a + b + c + d == a + (b + (c + d))
    ensures a + b + c == a + (b + c)
  {
  }

  lemma Cancel(common: string, s: string, t: string)
    requires common + s == common + t
    ensures s == t
  {
    assert s == (common + s)[|common|..] == (common + t)[|common|..] == t;
  }

  /** What may follow a value inside a JSON text: nothing, or a character that cannot extend a number. */
  ghost predicate Stops(s: string) {
    s == "" || !IsDigit(s[0])
  }

  /** A run of digits that stops is at least as long as any run of digits the same text begins with. */
  lemma RunNotLonger(a: string, s: string, b: string, t: string)
    requires Stops(s) && a + s == b + t
    requires forall i :: 0 <= i < |b| ==> IsDigit(b[i])
    ensures |b| <= |a|
  {
    assert |a| < |a + s| ==> (a + s)[|a|] == s[0];
  }

  lemma DigitsUnambiguous(n: nat, s: string, m: nat, t: string)
    requires Stops(s) && Stops(t)
    requires Digits(n) + s == Digits(m) + t
    ensures n == m && s == t
  {
    var a, b := Digits(n), Digits(m);
    RunNotLonger(a, s, b, t);
    RunNotLonger(b, t, a, s);
    assert a == (a + s)[..|a|] == (b + t)[..|b|] == b;
    assert s == (a + s)[|a|..] == (b + t)[|b|..] == t;
    ValueOfDigits(n);
    ValueOfDigits(m);
  }

  // ---------------------------------------------------------------- strings

  function HexDigit(n: nat): char
    requires n < 16
  {
    if n < 10 then ('0' as int + n) as char else ('a' as int + n - 10) as char
  }

  function Escape(c: char): (r: string)
    ensures r != "" && r[0] != '"'
    ensures forall i :: 0 <= i < |r| ==> ' ' <= r[i]
  {
    if c == '"' then "\\\""
    else if c == '\\' then "\\\\"
    else if c as int == 8 then "\\b"
    else if c as int == 9 then "\\t"
    else if c as int == 10 then "\\n"
    else if c as int == 12 then "\\f"
    else if c as int == 13 then "\\r"
    else if c < ' ' then "\\u00" + [HexDigit(c as int / 16), HexDigit(c as int % 16)]
    else [c]
  }

  lemma EscapeUnambiguous(c: char, s: string, d: char, t: string)
    requires Escape(c) + s == Escape(d) + t
    ensures c == d && s == t
  {
    var a, b := Escape(c), Escape(d);
    assert (a + s)[0] == a[0] && (b + t)[0] == b[0];
    if |a| > 1 || |b| > 1 {
      assert |a| > 1 ==> (a + s)[1] == a[1];
      assert |b| > 1 ==> (b + t)[1] == b[1];
      if |a| == 6 && |b| == 6 {
        assert (a + s)[4] == a[4] && (a + s)[5] == a[5];
        assert (b + t)[4] == b[4] && (b + t)[5] == b[5];
        assert c as int == 16 * (c as int / 16) + c as int % 16;
        assert d as int == 16 * (d as int / 16) + d as int % 16;
      }
    }
    assert c == d;
    assert s == (a + s)[|a|..] == (b + t)[|b|..] == t;
  }

  function EscapeAll(s: string): (r: string)
    ensures s != "" ==> r != "" && r[0] != '"'
    ensures forall i :: 0 <= i < |r| ==> ' ' <= r[i]
  {
    if s == "" then "" else Escape(s[0]) + EscapeAll(s[1..])
  }

  function Quote(s: string): string {
    "\"" + EscapeAll(s) + "\""
  }

  /** Only the closing quote of a string looks like a quote. */
  lemma ClosingQuote(a: string, s: string)
    ensures (EscapeAll(a) + ("\"" + s))[0] == '"' <==> a == ""
  {
  }

  lemma {:induction false} EscapedUnambiguous(a: string, s: string, b: string, t: string)
    requires EscapeAll(a) + ("\"" + s) == EscapeAll(b) + ("\"" + t)
    ensures a == b && s == t
    decreases |a|
  {
    ClosingQuote(a, s);
    ClosingQuote(b, t);
    if a == "" && b == "" {
      assert EscapeAll(a) + ("\"" + s) == "\"" + s;
      assert EscapeAll(b) + ("\"" + t) == "\"" + t;
      Cancel("\"", s, t);
    } else if a == "" {
      assert false;
    } else if b == "" {
      assert false;
    } else {
      var x, y := EscapeAll(a[1..]) + ("\"" + s), EscapeAll(b[1..]) + ("\"" + t);
      Regroup(Escape(a[0]), EscapeAll(a[1..]), "\"" + s, "");
      Regroup(Escape(b[0]), EscapeAll(b[1..]), "\"" + t, "");
      EscapeUnambiguous(a[0], x, b[0], y);
      EscapedUnambiguous(a[1..], s, b[1..], t);
      assert a == [a[0]] + a[1..] && b == [b[0]] + b[1..];
    }
  }

  lemma QuoteUnambiguous(a: string, s: string, b: string, t: string)
    requires Quote(a) + s == Quote(b) + t
    ensures a == b && s == t
  {
    Regroup("\"", EscapeAll(a), "\"", s);
    Regroup("\"", EscapeAll(b), "\"", t);
    Cancel("\"", EscapeAll(a) + ("\"" + s), EscapeAll(b) + ("\"" + t));
    EscapedUnambiguous(a, s, b, t);
  }

  // ----------------------------------------------------------------- values

  function Stringify(v: Json): string
    decreases v, 1
  {
    match v
    case Null => "null"
    case Bool(flag) => if flag then "true" else "false"
    case Num(n) => Decimal(n)
    case Str(s) => Quote(s)
    case Arr(items) => "[" + Join(ItemTexts(items), ",") + "]"
    case Obj(entries) => "{" + Join(EntryTexts(entries), ",") + "}"
  }

  function ItemTexts(items: seq<Json>): (r: seq<string>)
    ensures |r| == |items|
    decreases items, 0
  {
    if items == [] then [] else [Stringify(items[0])] + ItemTexts(items[1..])
  }

  function EntryTexts(entries: seq<Entry>): (r: seq<string>)
    ensures |r| == |entries|
    decreases entries, 0
  {
    if entries == [] then []
    else [Quote(entries[0].key) + ":" + Stringify(entries[0].value)] + EntryTexts(entries[1..])
  }

  /** The first character of a text tells the kind of value; it is never a delimiter. */
  lemma FirstCharacter(v: Json)
    ensures Stringify(v) != ""
    ensures var c := Stringify(v)[0];
      match v
      case Null => c == 'n'
      case Bool(flag) => c == if flag then 't' else 'f'
      case Num(_) => c == '-' || IsDigit(c)
      case Str(_) => c == '"'
      case Arr(_) => c == '['
      case Obj(_) => c == '{'
  {
  }

  /** Texts of the remaining members of an array or object, together with the closing bracket. */
  lemma JoinStep(texts: seq<string>, close: string)
    requires texts != []
    ensures Join(texts, ",") + close
         == texts[0] + (if |texts| == 1 then close else "," + (Join(texts[1..], ",") + close))
  {
    if |texts| > 1 {
      Regroup(texts[0], ",", Join(texts[1..], ","), close);
    }
  }

  /** Members of an array or object never begin with its closing bracket. */
  lemma ItemsOpen(items: seq<Json>, close: string)
    requires close != ""
    ensures items != [] ==> (Join(ItemTexts(items), ",") + close)[0] != ']'
  {
    if items != [] {
      JoinStep(ItemTexts(items), close);
      FirstCharacter(items[0]);
    }
  }

  lemma EntriesOpen(entries: seq<Entry>, close: string)
    requires close != ""
    ensures entries != [] ==> (Join(EntryTexts(entries), ",") + close)[0] == '"'
  {
    if entries != [] {
      JoinStep(EntryTexts(entries), close);
    }
  }

  lemma {:induction false} Unambiguous(v: Json, s: string, w: Json, t: string)
    requires Stops(s) && Stops(t)
    requires Stringify(v) + s == Stringify(w) + t
    ensures v == w && s == t
    decreases v, 1
  {
    FirstCharacter(v);
    FirstCharacter(w);
    assert (Stringify(v) + s)[0] == Stringify(v)[0];
    assert (Stringify(w) + t)[0] == Stringify(w)[0];
    match (v, w) {
      case (Null, Null) => Cancel("null", s, t);
      case (Bool(a), Bool(b)) => Cancel(Stringify(v), s, t);
      case (Num(n), Num(m)) => NumbersUnambiguous(n, s, m, t);
      case (Str(a), Str(b)) => QuoteUnambiguous(a, s, b, t);
      case (Arr(xs), Arr(ys)) =>
        Regroup("[", Join(ItemTexts(xs), ","), "]", s);
        Regroup("[", Join(ItemTexts(ys), ","), "]", t);
        Cancel("[", Join(ItemTexts(xs), ",") + ("]" + s), Join(ItemTexts(ys), ",") + ("]" + t));
        ItemsUnambiguous(xs, s, ys, t);
      case (Obj(es), Obj(fs)) =>
        Regroup("{", Join(EntryTexts(es), ","), "}", s);
        Regroup("{", Join(EntryTexts(fs), ","), "}", t);
        Cancel("{", Join(EntryTexts(es), ",") + ("}" + s), Join(EntryTexts(fs), ",") + ("}" + t));
        EntriesUnambiguous(es, s, fs, t);
      case _ => assert false;
    }
  }

  lemma NumbersUnambiguous(n: int, s: string, m: int, t: string)
    requires Stops(s) && Stops(t)
    requires Decimal(n) + s == Decimal(m) + t
    ensures n == m && s == t
  {
    assert (Decimal(n) + s)[0] == Decimal(n)[0];
    assert (Decimal(m) + t)[0] == Decimal(m)[0];
    if n < 0 {
      assert m < 0;
      Regroup("-", Digits(-n), s, "");
      Regroup("-", Digits(-m), t, "");
      Cancel("-", Digits(-n) + s, Digits(-m) + t);
      DigitsUnambiguous(-n, s, -m, t);
    } else {
      DigitsUnambiguous(n, s, m, t);
    }
  }

  lemma {:induction false} ItemsUnambiguous(xs: seq<Json>, s: string, ys: seq<Json>, t: string)
    requires Join(ItemTexts(xs), ",") + ("]" + s) == Join(ItemTexts(ys), ",") + ("]" + t)
    ensures xs == ys && s == t
    decreases xs, 0
  {
    var p, q := ItemTexts(xs), ItemTexts(ys);
    ItemsOpen(xs, "]" + s);
    ItemsOpen(ys, "]" + t);
    if xs == [] && ys == [] {
      assert Join([], ",") + ("]" + s) == "]" + s;
      assert Join([], ",") + ("]" + t) == "]" + t;
      Cancel("]", s, t);
    } else if xs == [] || ys == [] {
      assert false;
    } else {
      JoinStep(p, "]" + s);
      JoinStep(q, "]" + t);
      var restX := if |p| == 1 then "]" + s else "," + (Join(p[1..], ",") + ("]" + s));
      var restY := if |q| == 1 then "]" + t else "," + (Join(q[1..], ",") + ("]" + t));
      Unambiguous(xs[0], restX, ys[0], restY);
      assert restX[0] == restY[0];
      if |p| == 1 {
        Cancel("]", s, t);
      } else {
        Cancel(",", Join(p[1..], ",") + ("]" + s), Join(q[1..], ",") + ("]" + t));
        ItemsUnambiguous(xs[1..], s, ys[1..], t);
      }
      assert xs == [xs[0]] + xs[1..] && ys == [ys[0]] + ys[1..];
    }
  }

  lemma {:induction false} EntriesUnambiguous(es: seq<Entry>, s: string, fs: seq<Entry>, t: string)
    requires Join(EntryTexts(es), ",") + ("}" + s) == Join(EntryTexts(fs), ",") + ("}" + t)
    ensures es == fs && s == t
    decreases es, 0
  {
    var p, q := EntryTexts(es), EntryTexts(fs);
    EntriesOpen(es, "}" + s);
    EntriesOpen(fs, "}" + t);
    if es == [] && fs == [] {
      assert Join([], ",") + ("}" + s) == "}" + s;
      assert Join([], ",") + ("}" + t) == "}" + t;
      Cancel("}", s, t);
    } else if es == [] || fs == [] {
      assert false;
    } else {
      JoinStep(p, "}" + s);
      JoinStep(q, "}" + t);
      var restX := if |p| == 1 then "}" + s else "," + (Join(p[1..], ",") + ("}" + s));
      var restY := if |q| == 1 then "}" + t else "," + (Join(q[1..], ",") + ("}" + t));
      var tailX, tailY := ":" + (Stringify(es[0].value) + restX), ":" + (Stringify(fs[0].value) + restY);
      Regroup(Quote(es[0].key), ":", Stringify(es[0].value), restX);
      Regroup(Quote(fs[0].key), ":", Stringify(fs[0].value), restY);
      QuoteUnambiguous(es[0].key, tailX, fs[0].key, tailY);
      Cancel(":", Stringify(es[0].value) + restX, Stringify(fs[0].value) + restY);
      Unambiguous(es[0].value, restX, fs[0].value, restY);
      assert restX[0] == restY[0];
      if |p| == 1 {
        Cancel("}", s, t);
      } else {
        Cancel(",", Join(p[1..], ",") + ("}" + s), Join(q[1..], ",") + ("}" + t));
        EntriesUnambiguous(es[1..], s, fs[1..], t);
      }
      assert es == [es[0]] + es[1..] && fs == [fs[0]] + fs[1..];
    }
  }

  /** `JSON.stringify(v) === JSON.stringify(w)` decides identity, key order included. */
  lemma StringifyInjective(v: Json, w: Json)
    ensures Stringify(v) == Stringify(w) <==> v == w
  {
    if Stringify(v) == Stringify(w) {
      assert Stringify(v) + "" == Stringify(w) + "";
      Unambiguous(v, "", w, "");
    }
  }

  ghost predicate Printable(s: string) {
    forall i :: 0 <= i < |s| ==> ' ' <= s[i]
  }

  /** A JSON text holds no control character, so it never breaks a line. */
  lemma {:induction false} StringifyPrintable(v: Json)
    ensures Printable(Stringify(v))
    decreases v, 1
  {
    match v {
      case Arr(items) => ItemsPrintable(items);
      case Obj(entries) => EntriesPrintable(entries);
      case _ =>
    }
  }

  lemma {:induction false} ItemsPrintable(items: seq<Json>)
    ensures Printable(Join(ItemTexts(items), ","))
    decreases items, 0
  {
    if items != [] {
      StringifyPrintable(items[0]);
      ItemsPrintable(items[1..]);
      assert ItemTexts(items)[1..] == ItemTexts(items[1..]);
    }
  }

  lemma {:induction false} EntriesPrintable(entries: seq<Entry>)
    ensures Printable(Join(EntryTexts(entries), ","))
    decreases entries, 0
  {
    if entries != [] {
      StringifyPrintable(entries[0].value);
      EntriesPrintable(entries[1..]);
      assert EntryTexts(entries)[1..] == EntryTexts(entries[1..]);
    }
  }
}
