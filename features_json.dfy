/** The `features` column of the packages table holds the feature list as
    JSON text. The backend writes it with `serde_json::to_string` (compact
    form, serde's escaping) and reads it back with `serde_json::from_str`,
    falling back to the empty list when the text is not a JSON array of
    strings (main.rs, `save_package` and `get_packages`). This module writes
    both directions out for the one type involved, a list of strings. */
module FeaturesJson {
  import opened Opt

  /* ---------- writing (serde_json's compact serializer) ---------- */

  /** Lower-case hexadecimal digit for `0 <= n < 16`. */
  function HexChar(n: nat): (c: char)
    requires n < 16
  {
    "0123456789abcdef"[n]
  }

  /** How one character appears inside a JSON string literal: the quote,
      the backslash and the control characters are escaped (`\b \t \n \f \r`
      by name, the others as `\u00XX`); everything else is written as is. */
  function EscapeChar(c: char): (r: string)
  {
    if c == '"' then "\\\""
    else if c == '\\' then "\\\\"
    else if c == '\U{8}' then "\\b"
    else if c == '\t' then "\\t"
    else if c == '\n' then "\\n"
    else if c == '\U{C}' then "\\f"
    else if c == '\r' then "\\r"
    else if c < ' ' then "\\u00" + [HexChar(c as int / 16), HexChar(c as int % 16)]
    else [c]
  }

  function Escape(s: string): (r: string)
  {
    if s == [] then [] else EscapeChar(s[0]) + Escape(s[1..])
  }

  function Quote(s: string): (r: string)
    ensures |r| >= 2 && r[0] == '"'
  {
    "\"" + Escape(s) + "\""
  }

  /** The comma-separated quoted items of a non-empty list. */
  function EncodeItems(xs: seq<string>): (r: string)
    requires |xs| >= 1
    ensures |r| >= 2 && r[0] == '"'
    decreases |xs|
  {
    if |xs| == 1 then Quote(xs[0]) else Quote(xs[0]) + "," + EncodeItems(xs[1..])
  }

  /** `serde_json::to_string(&features)`. */
  function Encode(xs: seq<string>): (r: string)
  {
    if xs == [] then "[]" else "[" + EncodeItems(xs) + "]"
  }

  /* ---------- reading (serde_json's parser, for a list of strings) ---------- */

  predicate IsJsonSpace(c: char) {
    c == ' ' || c == '\t' || c == '\n' || c == '\r'
  }

  function SkipSpace(s: string): (r: string)
    ensures |r| <= |s| && r == s[|s| - |r|..]
    ensures r != [] ==> !IsJsonSpace(r[0])
  {
    if s != [] && IsJsonSpace(s[0]) then SkipSpace(s[1..]) else s
  }

  function HexValue(c: char): (r: Option<nat>)
    ensures r.Some? ==> r.value < 16
  {
    if '0' <= c <= '9' then Some(c as int - '0' as int)
    else if 'a' <= c <= 'f' then Some(c as int - 'a' as int + 10)
    else if 'A' <= c <= 'F' then Some(c as int - 'A' as int + 10)
    else None
  }

  /** The value of four hexadecimal digits at the start of `s`. */
  function Hex4(s: string): (r: Option<nat>)
    ensures r.Some? ==> |s| >= 4 && r.value < 0x10000
  {
    if |s| < 4 then None
    else match (HexValue(s[0]), HexValue(s[1]), HexValue(s[2]), HexValue(s[3]))
      case (Some(a), Some(b), Some(c), Some(d)) => Some(((a * 16 + b) * 16 + c) * 16 + d)
      case _ => None
  }

  /** The character an escape stands for, `s` being what follows the
      backslash, and the text after the escape. A `\u` escape of a leading
      surrogate must be followed by a `\u` escape of a trailing one; a lone
      surrogate is an error. */
  function ParseEscape(s: string): (r: Option<(char, string)>)
    ensures r.Some? ==> |r.value.1| < |s|
  {
    if s == [] then None
    else if s[0] == '"' then Some(('"', s[1..]))
    else if s[0] == '\\' then Some(('\\', s[1..]))
    else if s[0] == '/' then Some(('/', s[1..]))
    else if s[0] == 'b' then Some(('\U{8}', s[1..]))
    else if s[0] == 'f' then Some(('\U{C}', s[1..]))
    else if s[0] == 'n' then Some(('\n', s[1..]))
    else if s[0] == 'r' then Some(('\r', s[1..]))
    else if s[0] == 't' then Some(('\t', s[1..]))
    else if s[0] == 'u' then
      match Hex4(s[1..])
      case None => None
      case Some(hi) =>
        if hi < 0xD800 || 0xE000 <= hi then Some((hi as char, s[5..]))
        else if 0xDC00 <= hi then None
        else if |s| >= 11 && s[5] == '\\' && s[6] == 'u' then
          match Hex4(s[7..])
          case Some(lo) =>
            if 0xDC00 <= lo < 0xE000 then
              Some(((0x10000 + (hi - 0xD800) * 0x400 + (lo - 0xDC00)) as char, s[11..]))
            else None
          case None => None
        else None
    else None
  }

  /** The body of a string literal, `s` starting just after the opening
      quote: its decoded characters and the text after the closing quote.
      An unescaped control character is an error. */
  function ParseChars(s: string): (r: Option<(string, string)>)
    ensures r.Some? ==> |r.value.1| < |s|
    decreases |s|
  {
    if s == [] then None
    else if s[0] == '"' then Some(([], s[1..]))
    else if s[0] == '\\' then
      match ParseEscape(s[1..])
      case None => None
      case Some((c, rest)) =>
        match ParseChars(rest)
        case None => None
        case Some((body, after)) => Some(([c] + body, after))
    else if s[0] < ' ' then None
    else
      match ParseChars(s[1..])
      case None => None
      case Some((body, after)) => Some(([s[0]] + body, after))
  }

  /** The items of an array, `s` starting at the first item: each item a
      string, items separated by commas, the list closed by `]`. */
  function ParseItems(s: string): (r: Option<(seq<string>, string)>)
    ensures r.Some? ==> |r.value.1| < |s|
    decreases |s|
  {
    if s == [] || s[0] != '"' then None
    else
      match ParseChars(s[1..])
      case None => None
      case Some((x, r)) =>
        var t := SkipSpace(r);
        if t == [] then None
        else if t[0] == ']' then Some(([x], t[1..]))
        else if t[0] == ',' then
          match ParseItems(SkipSpace(t[1..]))
          case None => None
          case Some((xs, after)) => Some(([x] + xs, after))
        else None
  }

  /** `serde_json::from_str::<Vec<String>>`: an array of strings, with
      optional white space around every token and nothing else after it. */
  function Decode(text: string): (r: Option<seq<string>>)
  {
    var t := SkipSpace(text);
    if t == [] || t[0] != '[' then None
    else
      var u := SkipSpace(t[1..]);
      if u != [] && u[0] == ']' then
        if SkipSpace(u[1..]) == [] then Some([]) else None
      else
        match ParseItems(u)
        case None => None
        case Some((xs, after)) => if SkipSpace(after) == [] then Some(xs) else None
  }

  /** `from_str(..).unwrap_or_default()`: the stored text's list, or the
      empty list when the text does not decode. */
  function FeaturesOf(text: string): (r: seq<string>)
    ensures Decode(text).None? ==> r == []
    ensures Decode(text).Some? ==> r == Decode(text).value
  {
    match Decode(text)
    case Some(xs) => xs
    case None => []
  }

  /* ---------- the round trip ---------- */

  lemma EscapeCharParses(c: char, tail: string)
    ensures ParseChars(EscapeChar(c) + tail) ==
      match ParseChars(tail)
      case None => None
      case Some((body, after)) => Some(([c] + body, after))
  {
    var e := EscapeChar(c);
    assert (e + tail)[0] == e[0];
    if c < ' ' && c != '\U{8}' && c != '\t' && c != '\n' && c != '\U{C}' && c != '\r' {
      var n := c as int;
      assert e == ['\\', 'u', '0', '0', HexChar(n / 16), HexChar(n % 16)];
      var s := (e + tail)[1..];
      assert s == ['u', '0', '0', HexChar(n / 16), HexChar(n % 16)] + tail;
      assert HexValue(HexChar(n / 16)) == Some(n / 16);
      assert HexValue(HexChar(n % 16)) == Some(n % 16);
      assert Hex4(s[1..]) == Some(n);
      assert (n as char) == c;
      assert s[5..] == tail;
    } else if c == '"' || c == '\\' || c == '\U{8}' || c == '\t' || c == '\n' || c == '\U{C}' || c == '\r' {
      assert (e + tail)[1..] == [e[1]] + tail;
      assert ([e[1]] + tail)[1..] == tail;
    } else {
      assert e == [c];
      assert (e + tail)[1..] == tail;
    }
  }

  lemma {:induction false} EscapeParses(x: string, tail: string)
    ensures ParseChars(Escape(x) + "\"" + tail) == Some((x, tail))
    decreases |x|
  {
    if x == [] {
      assert Escape(x) + "\"" + tail == "\"" + tail;
      assert ("\"" + tail)[1..] == tail;
    } else {
      EscapeParses(x[1..], tail);
      assert Escape(x) + "\"" + tail == EscapeChar(x[0]) + (Escape(x[1..]) + "\"" + tail);
      EscapeCharParses(x[0], Escape(x[1..]) + "\"" + tail);
      assert [x[0]] + x[1..] == x;
    }
  }

  lemma SkipNoSpace(s: string)
    requires s != [] && !IsJsonSpace(s[0])
    ensures SkipSpace(s) == s
  {
  }

  /** One quoted item followed by the text after it. */
  lemma QuotedParses(x: string, rest: string)
    ensures (Quote(x) + rest)[0] == '"'
    ensures ParseChars((Quote(x) + rest)[1..]) == Some((x, rest))
  {
    assert Quote(x) + rest == "\"" + (Escape(x) + "\"" + rest);
    EscapeParses(x, rest);
  }

  /** A list's last item, closed by `]`. */
  lemma ItemsSingle(x: string, tail: string)
    ensures ParseItems(Quote(x) + ("]" + tail)) == Some(([x], tail))
  {
    var rest := "]" + tail;
    var s := Quote(x) + rest;
    QuotedParses(x, rest);
    SkipNoSpace(rest);
    assert rest[1..] == tail;
  }

  /** An item followed by a comma and the remaining items. */
  lemma ItemsCons(x: string, more: string, ys: seq<string>, tail: string)
    requires more != [] && more[0] == '"'
    requires ParseItems(more) == Some((ys, tail))
    ensures ParseItems(Quote(x) + ("," + more)) == Some(([x] + ys, tail))
  {
    var rest := "," + more;
    var s := Quote(x) + rest;
    QuotedParses(x, rest);
    SkipNoSpace(rest);
    assert rest[1..] == more;
    SkipNoSpace(more);
  }

  lemma Regroup(a: string, b: string, c: string)
    ensures a + b + c == a + (b + c)
  {
  }

  lemma EncodeItemsUnfold(xs: seq<string>, tail: string)
    requires |xs| >= 1
    ensures |xs| == 1 ==> EncodeItems(xs) + "]" + tail == Quote(xs[0]) + ("]" + tail)
    ensures |xs| > 1 ==> EncodeItems(xs) + "]" + tail == Quote(xs[0]) + ("," + (EncodeItems(xs[1..]) + "]" + tail))
  {
    var q, close := Quote(xs[0]), "]";
    if |xs| == 1 {
      Regroup(q, close, tail);
    } else {
      var comma, rest := ",", EncodeItems(xs[1..]);
      assert EncodeItems(xs) == q + comma + rest;
      Regroup(q + comma + rest, close, tail);
      Regroup(q + comma, rest, close + tail);
      Regroup(q, comma, rest + (close + tail));
      Regroup(rest, close, tail);
    }
  }

  /** Encoded items start with the quote of the first one. */
  lemma EncodedStart(xs: seq<string>, tail: string)
    requires |xs| >= 1
    ensures EncodeItems(xs) + "]" + tail != [] && (EncodeItems(xs) + "]" + tail)[0] == '"'
  {
    EncodeItemsUnfold(xs, tail);
    if |xs| == 1 {
      QuotedParses(xs[0], "]" + tail);
    } else {
      QuotedParses(xs[0], "," + (EncodeItems(xs[1..]) + "]" + tail));
    }
  }

  lemma {:induction false} ItemsParse(xs: seq<string>, tail: string)
    requires |xs| >= 1
    ensures ParseItems(EncodeItems(xs) + "]" + tail) == Some((xs, tail))
    decreases |xs|
  {
    EncodeItemsUnfold(xs, tail);
    if |xs| == 1 {
      ItemsSingle(xs[0], tail);
      assert [xs[0]] == xs;
    } else {
      var more := EncodeItems(xs[1..]) + "]" + tail;
      ItemsParse(xs[1..], tail);
      EncodedStart(xs[1..], tail);
      ItemsCons(xs[0], more, xs[1..], tail);
      assert [xs[0]] + xs[1..] == xs;
    }
  }

  lemma DecodeItems(text: string, xs: seq<string>)
    requires text != [] && text[0] == '['
    requires text[1..] != [] && text[1] == '"'
    requires ParseItems(text[1..]) == Some((xs, []))
    ensures Decode(text) == Some(xs)
  {
    SkipNoSpace(text);
    SkipNoSpace(text[1..]);
  }

  /** What the backend reads back is what it wrote. */
  lemma RoundTrip(xs: seq<string>)
    ensures Decode(Encode(xs)) == Some(xs)
  {
    var e := Encode(xs);
    if xs != [] {
      var open, items, close := "[", EncodeItems(xs), "]";
      assert e == open + items + close;
      Regroup(open, items, close);
      assert e[1..] == items + close;
      assert items + close == items + close + [];
      ItemsParse(xs, []);
      DecodeItems(e, xs);
    } else {
      SkipNoSpace(e);
      assert e[1..] == "]";
      SkipNoSpace(e[1..]);
      assert "]"[1..] == [];
    }
  }

  /** The features a package is stored with are the features the package
      list later shows. */
  lemma FeaturesRoundTrip(xs: seq<string>)
    ensures FeaturesOf(Encode(xs)) == xs
  {
    RoundTrip(xs);
  }
}
