/** `JSON.stringify` applied to a list of strings, as the migration script
    uses it for `tags`, together with a decoder for the JSON text it produces
    (string escapes as in section 7 of RFC 8259). */
module Json {
  import opened Wrappers
  import opened Text

  /** Lower-case hexadecimal digit, as `JSON.stringify` writes it in `\u` escapes. */
  function HexDigit(n: nat): char
    requires n < 16
  {
    if n < 10 then ('0' as int + n) as char else ('a' as int + n - 10) as char
  }

  function HexValue(c: char): (r: Option<nat>)
    ensures r.Some? ==> r.value < 16
  {
    if '0' <= c <= '9' then Some(c as int - '0' as int)
    else if 'a' <= c <= 'f' then Some(c as int - 'a' as int + 10)
    else if 'A' <= c <= 'F' then Some(c as int - 'A' as int + 10)
    else None
  }

  /** True of the characters RFC 8259 forbids unescaped inside a string. */
  predicate IsControl(c: char) {
    (c as int) < 0x20
  }

  /** How `JSON.stringify` writes one character inside a string literal. */
  function EscapeChar(c: char): string {
    if c == '"' then "\\\""
    else if c == '\\' then "\\\\"
    else if c == '\U{0008}' then "\\b"
    else if c == '\U{000C}' then "\\f"
    else if c == '\n' then "\\n"
    else if c == '\r' then "\\r"
    else if c == '\t' then "\\t"
    else if IsControl(c) then "\\u00" + [HexDigit(c as int / 16), HexDigit(c as int % 16)]
    else [c]
  }

  function EscapeBody(s: string): string {
    if |s| == 0 then "" else EscapeChar(s[0]) + EscapeBody(s[1..])
  }

  /** `JSON.stringify(s)` for a string. */
  function Quote(s: string): string {
    "\"" + EscapeBody(s) + "\""
  }

  function QuoteAll(xs: seq<string>): (r: seq<string>)
    ensures |r| == |xs|
  {
    if |xs| == 0 then [] else [Quote(xs[0])] + QuoteAll(xs[1..])
  }

  /** `JSON.stringify(xs)` for an array of strings: no spaces, comma-separated. */
  function StringArray(xs: seq<string>): (r: string)
    ensures StartsWith(r, "[") && EndsWith(r, "]")
  {
    "[" + Join(QuoteAll(xs), ",") + "]"
  }

  // ---------------------------------------------------------------------------
  // A reference decoder for the texts above.

  function Hex4(t: string): (r: Option<nat>)
    requires |t| == 4
    ensures r.Some? ==> r.value < 0x10000
  {
    match (HexValue(t[0]), HexValue(t[1]), HexValue(t[2]), HexValue(t[3]))
    case (Some(a), Some(b), Some(c), Some(d)) => Some(a * 4096 + b * 256 + c * 16 + d)
    case _ => None
  }

  /** Decodes the character written at the front of `t` (which is not the
      closing quote); gives the character and the number of characters read. */
  function DecodeChar(t: string): (r: Option<(char, nat)>)
    requires |t| > 0
    ensures r.Some? ==> 1 <= r.value.1 <= |t|
  {
    if t[0] == '\\' then
      if |t| < 2 then None
      else if t[1] == '"' then Some(('"', 2))
      else if t[1] == '\\' then Some(('\\', 2))
      else if t[1] == '/' then Some(('/', 2))
      else if t[1] == 'b' then Some(('\U{0008}', 2))
      else if t[1] == 'f' then Some(('\U{000C}', 2))
      else if t[1] == 'n' then Some(('\n', 2))
      else if t[1] == 'r' then Some(('\r', 2))
      else if t[1] == 't' then Some(('\t', 2))
      else if t[1] == 'u' && |t| >= 6 then
        match Hex4(t[2..6])
        case Some(v) => if v < 0xD800 || 0xE000 <= v then Some((v as char, 6)) else None
        case None => None
      else None
    else if t[0] == '"' || IsControl(t[0]) then None
    else Some((t[0], 1))
  }

  /** Reads the rest of a string literal whose opening quote has been read:
      the decoded string and the number of characters read, closing quote
      included. */
  function ReadString(t: string): (r: Option<(string, nat)>)
    decreases |t|
    ensures r.Some? ==> 1 <= r.value.1 <= |t|
  {
    if |t| == 0 then None
    else if t[0] == '"' then Some(("", 1))
    else
      match DecodeChar(t)
      case None => None
      case Some((c, n)) =>
        match ReadString(t[n..])
        case None => None
        case Some((s, m)) => Some(([c] + s, n + m))
  }

  /** Reads `"…","…",…]`: one or more string literals separated by commas,
      then the closing bracket and nothing else. */
  function ParseElements(t: string): Option<seq<string>>
    decreases |t|
  {
    if |t| == 0 || t[0] != '"' then None
    else
      match ReadString(t[1..])
      case None => None
      case Some((s, n)) =>
        var rest := t[1 + n..];
        if rest == "]" then Some([s])
        else if |rest| > 0 && rest[0] == ',' then
          match ParseElements(rest[1..])
          case None => None
          case Some(more) => Some([s] + more)
        else None
  }

  function ParseStringArray(t: string): Option<seq<string>> {
    if t == "[]" then Some([])
    else if |t| > 0 && t[0] == '[' then ParseElements(t[1..])
    else None
  }

  // ---------------------------------------------------------------------------
  // Properties.

  lemma DecodeEscapeChar(c: char, more: string)
    ensures DecodeChar(EscapeChar(c) + more) == Some((c, |EscapeChar(c)|))
  {
    var t := EscapeChar(c) + more;
    if IsControl(c) && c != '\U{0008}' && c != '\U{000C}' && c != '\n' && c != '\r' && c != '\t' {
      var hi, lo := c as int / 16, c as int % 16;
      assert hi < 2;
      assert t[..6] == ['\\', 'u', '0', '0', HexDigit(hi), HexDigit(lo)];
      assert t[2..6] == ['0', '0', HexDigit(hi), HexDigit(lo)];
      assert HexValue(HexDigit(hi)) == Some(hi);
      assert HexValue(HexDigit(lo)) == Some(lo);
      assert Hex4(t[2..6]) == Some(c as int);
    }
  }

  /** The decoder reads back exactly what the encoder wrote, and stops at the
      closing quote. */
  lemma {:induction false} ReadEscaped(s: string, rest: string)
    decreases |s|
    ensures ReadString(EscapeBody(s) + "\"" + rest) == Some((s, |EscapeBody(s)| + 1))
  {
    if |s| > 0 {
      EscapeBodyCons(s, rest);
      ReadEscaped(s[1..], rest);
      ReadAfterEscape(s[0], EscapeBody(s[1..]) + "\"" + rest, s[1..], |EscapeBody(s[1..])| + 1);
    } else {
      assert EscapeBody(s) + "\"" + rest == "\"" + rest;
    }
  }

  lemma EscapeBodyCons(s: string, rest: string)
    requires |s| > 0
    ensures EscapeBody(s) + "\"" + rest == EscapeChar(s[0]) + (EscapeBody(s[1..]) + "\"" + rest)
    ensures |EscapeBody(s)| == |EscapeChar(s[0])| + |EscapeBody(s[1..])|
    ensures [s[0]] + s[1..] == s
  {
  }

  /** An escaped character in front of the rest of a literal is read first. */
  lemma ReadAfterEscape(c: char, more: string, s: string, m: nat)
    requires ReadString(more) == Some((s, m))
    ensures ReadString(EscapeChar(c) + more) == Some(([c] + s, |EscapeChar(c)| + m))
  {
    var e := EscapeChar(c);
    DecodeEscapeChar(c, more);
    assert (e + more)[0] == e[0] != '"';
    assert (e + more)[|e|..] == more;
  }

  /** One string literal followed by `after`: the literal is read and
      parsing resumes at `after`. */
  lemma ParseOneThen(x: string, after: string)
    ensures var t := Quote(x) + after;
      t[0] == '"' && ReadString(t[1..]) == Some((x, |EscapeBody(x)| + 1)) &&
      t[1 + |EscapeBody(x)| + 1..] == after
  {
    var t := Quote(x) + after;
    assert t[1..] == EscapeBody(x) + "\"" + after;
    ReadEscaped(x, after);
  }

  /** Parsing one literal and then whatever `after` holds. */
  lemma ParseElementsStep(x: string, after: string)
    ensures ParseElements(Quote(x) + after) ==
      if after == "]" then Some([x])
      else if |after| > 0 && after[0] == ',' then
        match ParseElements(after[1..])
        case None => None
        case Some(more) => Some([x] + more)
      else None
  {
    ParseOneThen(x, after);
  }

  lemma {:induction false} ParseQuoted(xs: seq<string>)
    requires |xs| >= 1
    decreases |xs|
    ensures ParseElements(Join(QuoteAll(xs), ",") + "]") == Some(xs)
  {
    if |xs| == 1 {
      ParseLast(xs);
    } else {
      QuotedListCons(xs);
      ParseQuoted(xs[1..]);
      ParseAfterComma(xs[0], Join(QuoteAll(xs[1..]), ",") + "]", xs[1..]);
      ConsHead(xs);
    }
  }

  lemma ParseLast(xs: seq<string>)
    requires |xs| == 1
    ensures ParseElements(Join(QuoteAll(xs), ",") + "]") == Some(xs)
  {
    var q := Quote(xs[0]);
    assert QuoteAll(xs) == [q];
    assert Join([q], ",") == q;
    ParseElementsStep(xs[0], "]");
    assert xs == [xs[0]];
  }

  lemma QuotedListCons(xs: seq<string>)
    requires |xs| > 1
    ensures Join(QuoteAll(xs), ",") + "]" == Quote(xs[0]) + ("," + (Join(QuoteAll(xs[1..]), ",") + "]"))
  {
    var q, rest := Quote(xs[0]), QuoteAll(xs[1..]);
    assert QuoteAll(xs) == [q] + rest;
    JoinCons(q, rest, ",");
    var j := Join(rest, ",");
    StringAssoc(q + ",", j, "]");
    StringAssoc(q, ",", j + "]");
  }

  /** A literal, a comma, and the rest of the list. */
  lemma ParseAfterComma(x: string, tail: string, more: seq<string>)
    requires ParseElements(tail) == Some(more)
    ensures ParseElements(Quote(x) + ("," + tail)) == Some([x] + more)
  {
    var after := "," + tail;
    assert after[0] == ',' && after[1..] == tail;
    ParseElementsStep(x, after);
  }

  /** Round trip: the JSON array text written for `tags` decodes to `tags`. */
  lemma StringArrayRoundTrip(xs: seq<string>)
    ensures ParseStringArray(StringArray(xs)) == Some(xs)
  {
    if |xs| == 0 {
      assert StringArray(xs) == "[]";
    } else {
      var t := StringArray(xs);
      assert t[1..] == Join(QuoteAll(xs), ",") + "]";
      ParseQuoted(xs);
    }
  }

  lemma {:induction false} EscapeBodyNoControl(s: string)
    ensures forall i :: 0 <= i < |EscapeBody(s)| ==> !IsControl(EscapeBody(s)[i])
  {
    if |s| > 0 {
      EscapeBodyNoControl(s[1..]);
      var e := EscapeChar(s[0]);
      assert forall i :: 0 <= i < |e| ==> !IsControl(e[i]);
    }
  }

  lemma {:induction false} QuoteAllNoControl(xs: seq<string>)
    ensures forall k, i :: 0 <= k < |xs| && 0 <= i < |QuoteAll(xs)[k]| ==> !IsControl(QuoteAll(xs)[k][i])
  {
    if |xs| > 0 {
      EscapeBodyNoControl(xs[0]);
      QuoteAllNoControl(xs[1..]);
      assert forall k :: 1 <= k < |xs| ==> QuoteAll(xs)[k] == QuoteAll(xs[1..])[k - 1];
    }
  }

  lemma {:induction false} JoinNoControl(qs: seq<string>)
    requires forall k, i :: 0 <= k < |qs| && 0 <= i < |qs[k]| ==> !IsControl(qs[k][i])
    ensures forall i :: 0 <= i < |Join(qs, ",")| ==> !IsControl(Join(qs, ",")[i])
  {
    if |qs| > 1 {
      JoinNoControl(qs[1..]);
      assert forall k, i :: 0 <= k < |qs[1..]| && 0 <= i < |qs[1..][k]| ==> qs[1..][k][i] == qs[k + 1][i];
    }
  }

  /** The JSON text for any tag list contains no control character, so in
      particular no line break: the `tags` line stays one line. */
  lemma StringArrayNoControl(xs: seq<string>)
    ensures forall i :: 0 <= i < |StringArray(xs)| ==> !IsControl(StringArray(xs)[i])
  {
    QuoteAllNoControl(xs);
    JoinNoControl(QuoteAll(xs));
  }
}
