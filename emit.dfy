/** `generateFrontmatter` of scripts/migrate-from-old-blog.js: the nine
    lines of the new frontmatter, and how each value can be read back. */
module Emit {
  import opened Wrappers
  import opened Text
  import Json
  import opened Frontmatter
  import opened Transform

  /** A value inside a template literal: a list is joined with commas. */
  function JsString(v: Value): string {
    match v
    case Scalar(t) => t
    case List(xs) => Join(xs, ",")
  }

  function BoolString(b: bool): string {
    if b then "true" else "false"
  }

  // ---------------------------------------------------------------------------
  // Quoting the description.

  /** `s.replace(/'/g, "\\'")`, the escaping line 238 applies: each quote
      gets a backslash in front. */
  function BackslashQuotes(s: string): (r: string)
    decreases |s|
    ensures |r| >= |s|
    ensures forall i :: 0 <= i < |r| && r[i] == '\'' ==> 0 < i && r[i - 1] == '\\'
  {
    if s == [] then "" else BackslashChar(s[0]) + BackslashQuotes(s[1..])
  }

  function BackslashChar(c: char): string {
    if c == '\'' then "\\'" else [c]
  }

  /** The escaping a single-quoted YAML scalar needs: each quote doubled. */
  function DoubleQuotes(s: string): string
    decreases |s|
  {
    if s == [] then "" else DoubledChar(s[0]) + DoubleQuotes(s[1..])
  }

  function DoubledChar(c: char): string {
    if c == '\'' then "''" else [c]
  }

  /** Reads the rest of a single-quoted YAML scalar after its opening quote,
      to the end of the line: `''` stands for one quote, a lone quote closes
      the scalar and must be the last character. */
  function ReadQuotedBody(u: string): Option<string>
    decreases |u|
  {
    if u == [] then None
    else if u[0] != '\'' then Prepend([u[0]], ReadQuotedBody(u[1..]))
    else if |u| == 1 then Some("")
    else if u[1] == '\'' then Prepend("'", ReadQuotedBody(u[2..]))
    else None
  }

  function Prepend(p: string, r: Option<string>): Option<string> {
    match r
    case Some(rest) => Some(p + rest)
    case None => None
  }

  /** The value of a single-quoted YAML scalar that fills the rest of a line. */
  function ReadSingleQuoted(t: string): Option<string> {
    if t == [] || t[0] != '\'' then None else ReadQuotedBody(t[1..])
  }

  lemma DoubleQuotesStep(s: string)
    requires s != []
    ensures DoubleQuotes(s) == DoubledChar(s[0]) + DoubleQuotes(s[1..])
  {
  }

  lemma BackslashQuotesStep(s: string)
    requires s != []
    ensures BackslashQuotes(s) == BackslashChar(s[0]) + BackslashQuotes(s[1..])
  {
  }

  lemma ReadPlain(c: char, u: string)
    requires c != '\''
    ensures ReadQuotedBody([c] + u) == Prepend([c], ReadQuotedBody(u))
  {
    assert ([c] + u)[1..] == u;
  }

  lemma ReadPair(u: string)
    ensures ReadQuotedBody("''" + u) == Prepend("'", ReadQuotedBody(u))
  {
    assert ("''" + u)[2..] == u;
  }

  lemma ReadOneStep(s: string)
    requires s != []
    ensures ReadQuotedBody(DoubleQuotes(s) + "'") ==
      Prepend([s[0]], ReadQuotedBody(DoubleQuotes(s[1..]) + "'"))
  {
    var tail := DoubleQuotes(s[1..]) + "'";
    DoubleQuotesStep(s);
    StringAssoc(DoubledChar(s[0]), DoubleQuotes(s[1..]), "'");
    if s[0] == '\'' {
      ReadPair(tail);
    } else {
      ReadPlain(s[0], tail);
    }
  }

  lemma {:induction false} ReadDoubled(s: string)
    decreases |s|
    ensures ReadQuotedBody(DoubleQuotes(s) + "'") == Some(s)
  {
    if s == [] {
      assert DoubleQuotes(s) + "'" == "'";
    } else {
      ReadDoubled(s[1..]);
      ReadOneStep(s);
      SplitHead(s);
    }
  }

  lemma SplitHead(s: string)
    requires s != []
    ensures s == [s[0]] + s[1..]
  {
  }

  /** The corrected quoting reads back as the description itself. */
  lemma QuotedRoundTrip(s: string)
    ensures ReadSingleQuoted("'" + DoubleQuotes(s) + "'") == Some(s)
  {
    var t := "'" + DoubleQuotes(s) + "'";
    assert t[1..] == DoubleQuotes(s) + "'";
    ReadDoubled(s);
  }

  lemma BackslashHead(s: string)
    requires s != []
    ensures BackslashQuotes(s)[0] != '\''
  {
    BackslashQuotesStep(s);
  }

  /** After the backslash of an escaped quote, the reader meets a quote that
      is neither doubled nor the last character. */
  lemma ReadAfterBackslash(rest: string)
    ensures ReadQuotedBody("'" + BackslashQuotes(rest) + "'") == None
  {
    var v := "'" + BackslashQuotes(rest) + "'";
    if rest == [] {
      assert v == "''";
      assert v[2..] == [];
    } else {
      BackslashHead(rest);
      assert v[1] == BackslashQuotes(rest)[0];
    }
  }

  lemma {:induction false} ReadBackslashed(s: string)
    requires '\'' in s
    decreases |s|
    ensures ReadQuotedBody(BackslashQuotes(s) + "'") == None
  {
    var tail := BackslashQuotes(s[1..]) + "'";
    BackslashQuotesStep(s);
    StringAssoc(BackslashChar(s[0]), BackslashQuotes(s[1..]), "'");
    if s[0] == '\'' {
      ReadAfterBackslash(s[1..]);
      StringAssoc("'", BackslashQuotes(s[1..]), "'");
      ReadPlain('\\', "'" + tail);
      assert BackslashChar(s[0]) + tail == ['\\'] + ("'" + tail);
    } else {
      SplitHead(s);
      assert '\'' in s[1..];
      ReadBackslashed(s[1..]);
      ReadPlain(s[0], tail);
    }
  }

  /** With the escaping as written, a description holding a quote cannot be
      read back: the line is not a single-quoted YAML scalar. */
  lemma BackslashQuotedUnreadable(s: string)
    requires '\'' in s
    ensures ReadSingleQuoted("'" + BackslashQuotes(s) + "'") == None
  {
    var t := "'" + BackslashQuotes(s) + "'";
    assert t[1..] == BackslashQuotes(s) + "'";
    ReadBackslashed(s);
  }

  // ---------------------------------------------------------------------------
  // The lines.

  /** The nine lines `generateFrontmatter` pushes, in order. */
  function FrontmatterLines(nf: NewFrontmatter): (r: seq<string>)
    ensures |r| == 9 && r[0] == "---" && r[8] == "---"
  {
    [ "---",
      "title: " + JsString(nf.title),
      "published: " + JsString(nf.published),
      "description: '" + BackslashQuotes(nf.description) + "'",
      "image: '" + JsString(nf.image) + "'",
      "tags: " + Json.StringArray(nf.tags),
      "category: '" + nf.category + "'",
      "draft: " + BoolString(nf.draft),
      "---" ]
  }

  /** `generateFrontmatter(nf)`: pushes the lines and joins them with "\n". */
  method GenerateFrontmatter(nf: NewFrontmatter) returns (text: string)
    ensures text == Join(FrontmatterLines(nf), "\n")
  {
    var lines := ["---"];
    lines := lines + ["title: " + JsString(nf.title)];
    lines := lines + ["published: " + JsString(nf.published)];
    lines := lines + ["description: '" + BackslashQuotes(nf.description) + "'"];
    lines := lines + ["image: '" + JsString(nf.image) + "'"];
    var tagsStr := Json.StringArray(nf.tags);
    lines := lines + ["tags: " + tagsStr];
    lines := lines + ["category: '" + nf.category + "'"];
    lines := lines + ["draft: " + BoolString(nf.draft)];
    lines := lines + ["---"];
    assert lines == FrontmatterLines(nf);
    text := Join(lines, "\n");
  }

  /** The lines with the description quoted as a single-quoted YAML scalar
      needs: its quotes doubled rather than backslashed. */
  function CorrectedLines(nf: NewFrontmatter): (r: seq<string>)
    ensures |r| == 9
    ensures forall i :: 0 <= i < 9 && i != 3 ==> r[i] == FrontmatterLines(nf)[i]
    ensures StartsWith(r[3], "description: ") && ReadSingleQuoted(r[3][13..]) == Some(nf.description)
  {
    var line := "description: '" + DoubleQuotes(nf.description) + "'";
    assert line[13..] == "'" + DoubleQuotes(nf.description) + "'";
    QuotedRoundTrip(nf.description);
    FrontmatterLines(nf)[3 := line]
  }

  /** Both escapings leave a string without quotes as it is. */
  lemma {:induction false} NoQuoteUnchanged(s: string)
    requires '\'' !in s
    decreases |s|
    ensures BackslashQuotes(s) == s && DoubleQuotes(s) == s
  {
    if s != [] {
      SplitHead(s);
      NoQuoteUnchanged(s[1..]);
      BackslashQuotesStep(s);
      DoubleQuotesStep(s);
    }
  }

  /** For a description without quotes the two renderings agree. */
  lemma CorrectedAgrees(nf: NewFrontmatter)
    requires '\'' !in nf.description
    ensures CorrectedLines(nf) == FrontmatterLines(nf)
  {
    NoQuoteUnchanged(nf.description);
  }

  /** No part of the record holds a line break. */
  predicate SingleLine(nf: NewFrontmatter) {
    && '\n' !in JsString(nf.title)
    && '\n' !in JsString(nf.published)
    && '\n' !in nf.description
    && '\n' !in JsString(nf.image)
    && '\n' !in nf.category
  }

  lemma {:induction false} BackslashQuotesFree(s: string, c: char)
    requires c != '\'' && c != '\\' && c !in s
    decreases |s|
    ensures c !in BackslashQuotes(s)
  {
    if s != [] {
      SplitHead(s);
      BackslashQuotesFree(s[1..], c);
      BackslashQuotesStep(s);
    }
  }

  lemma TagsLineFree(tags: seq<string>)
    ensures '\n' !in Json.StringArray(tags)
  {
    Json.StringArrayNoControl(tags);
    assert Json.IsControl('\n');
  }

  lemma FreeConcat(a: string, b: string)
    requires '\n' !in a && '\n' !in b
    ensures '\n' !in a + b
  {
  }

  lemma KeysFree()
    ensures '\n' !in "---" && '\n' !in "title: " && '\n' !in "published: "
    ensures '\n' !in "description: '" && '\n' !in "'" && '\n' !in "image: '"
    ensures '\n' !in "tags: " && '\n' !in "category: '" && '\n' !in "draft: "
    ensures '\n' !in "true" && '\n' !in "false"
  {
  }

  /** Each line is free of line breaks when the record is. */
  lemma LinesFree(nf: NewFrontmatter)
    requires SingleLine(nf)
    ensures forall i :: 0 <= i < |FrontmatterLines(nf)| ==> '\n' !in FrontmatterLines(nf)[i]
  {
    KeysFree();
    BackslashQuotesFree(nf.description, '\n');
    TagsLineFree(nf.tags);
    FreeConcat("title: ", JsString(nf.title));
    FreeConcat("published: ", JsString(nf.published));
    FreeConcat("description: '", BackslashQuotes(nf.description));
    FreeConcat("description: '" + BackslashQuotes(nf.description), "'");
    FreeConcat("image: '", JsString(nf.image));
    FreeConcat("image: '" + JsString(nf.image), "'");
    FreeConcat("tags: ", Json.StringArray(nf.tags));
    FreeConcat("category: '", nf.category);
    FreeConcat("category: '" + nf.category, "'");
    FreeConcat("draft: ", BoolString(nf.draft));
  }

  /** Splitting the emitted text at line breaks gives back the nine lines. */
  lemma FrontmatterSplits(nf: NewFrontmatter)
    requires SingleLine(nf)
    ensures Lines(Join(FrontmatterLines(nf), "\n")) == FrontmatterLines(nf)
  {
    LinesFree(nf);
    SplitJoin(FrontmatterLines(nf), '\n');
  }

  /** The tags read back as the record holds them; the description does
      exactly when it holds no quote (see BackslashQuotedUnreadable). */
  lemma FrontmatterValues(nf: NewFrontmatter)
    ensures ReadSingleQuoted(FrontmatterLines(nf)[3][13..]) == Some(nf.description)
      <==> '\'' !in nf.description
    ensures Json.ParseStringArray(FrontmatterLines(nf)[5][6..]) == Some(nf.tags)
  {
    var r := FrontmatterLines(nf);
    assert r[3][13..] == "'" + BackslashQuotes(nf.description) + "'";
    if '\'' in nf.description {
      BackslashQuotedUnreadable(nf.description);
    } else {
      NoQuoteUnchanged(nf.description);
      QuotedRoundTrip(nf.description);
    }
    assert r[5][6..] == Json.StringArray(nf.tags);
    Json.StringArrayRoundTrip(nf.tags);
  }

  /** With the corrected quoting every description reads back. */
  lemma CorrectedValues(nf: NewFrontmatter)
    ensures ReadSingleQuoted(CorrectedLines(nf)[3][13..]) == Some(nf.description)
  {
    var r := CorrectedLines(nf);
    assert r[3][13..] == "'" + DoubleQuotes(nf.description) + "'";
    QuotedRoundTrip(nf.description);
  }
}
