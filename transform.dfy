/** `transformFrontmatter` of scripts/migrate-from-old-blog.js: fills the
    seven-field record of the new blog from the old fields and the body. */
module Transform {
  import opened Wrappers
  import opened Text
  import opened Frontmatter

  /** The new frontmatter. `title`, `published` and `image` hold the old
      value as it is (a list there is written comma-joined by the template
      literal that prints it). */
  datatype NewFrontmatter = NewFrontmatter(
    title: Value,
    published: Value,
    description: string,
    image: Value,
    tags: seq<string>,
    category: string,
    draft: bool)

  /** JavaScript truthiness of a value: arrays are always truthy, strings
      when not empty. */
  predicate JsTruthy(v: Value) {
    v.List? || v.text != ""
  }

  /** `fm.key` when it is present and truthy. */
  function Lookup(fm: Fields, key: string): (r: Option<Value>)
    ensures r.Some? <==> key in fm && JsTruthy(fm[key])
    ensures r.Some? ==> r.value == fm[key]
  {
    if key in fm && JsTruthy(fm[key]) then Some(fm[key]) else None
  }

  /** `new Date().toISOString().split("T")[0]` for the given ISO timestamp. */
  function DatePart(iso: string): (r: string)
    ensures 'T' !in r
    ensures StartsWith(iso, r)
    ensures |r| == |iso| || iso[|r|] == 'T'
  {
    var parts := Split(iso, 'T');
    JoinSplit(iso, 'T');
    assert iso == parts[0] || iso == parts[0] + "T" + Join(parts[1..], "T");
    parts[0]
  }

  /** Lines 136-142: the tag list, from a list, a single string, or nothing. */
  function MigratedTags(fm: Fields): (r: seq<string>)
    ensures "tags" in fm && fm["tags"].List? ==> r == fm["tags"].items
    ensures "tags" in fm && fm["tags"].Scalar? && fm["tags"].text != "" ==> r == [fm["tags"].text]
    ensures "tags" !in fm || fm["tags"] == Scalar("") ==> r == []
  {
    match Lookup(fm, "tags")
    case None => []
    case Some(List(xs)) => xs
    case Some(Scalar(s)) => [s]
  }

  /** Lines 145-147: the first tag, or "" when there is none. */
  function CategoryOf(tags: seq<string>): (r: string)
    ensures |tags| > 0 ==> r == tags[0]
    ensures |tags| == 0 ==> r == ""
  {
    if |tags| > 0 then tags[0] else ""
  }

  // ---------------------------------------------------------------------------
  // The description (lines 101-128).

  /** Lines 108-115: a trimmed line that can become the description. */
  predicate Qualifies(t: string) {
    && t != ""
    && !StartsWith(t, "#")
    && !StartsWith(t, "*")
    && !StartsWith(t, "-")
    && !StartsWith(t, ">")
    && !StartsWith(t, "```")
    && !StartsWith(t, "!")
    && |t| > 20
  }

  predicate Eligible(line: string) {
    Qualifies(Trim(line))
  }

  /** The index of the first eligible line at or after `i`, or `|lines|`. */
  function FirstEligibleFrom(lines: seq<string>, i: nat): (r: nat)
    requires i <= |lines|
    decreases |lines| - i
    ensures i <= r <= |lines|
    ensures forall j :: i <= j < r ==> !Eligible(lines[j])
    ensures r < |lines| ==> Eligible(lines[r])
  {
    if i == |lines| || Eligible(lines[i]) then i else FirstEligibleFrom(lines, i + 1)
  }

  function FirstEligible(lines: seq<string>): nat
    ensures FirstEligible(lines) <= |lines|
  {
    FirstEligibleFrom(lines, 0)
  }

  /** At index `i` of `s`, the pattern /\[([^\]]+)\]\([^\)]+\)/: gives the
      index of the ']' closing the text and the index just past the match. */
  function LinkAt(s: string, i: nat): (r: Option<(nat, nat)>)
    requires i < |s|
    ensures r.Some? ==> i + 2 <= r.value.0 && r.value.0 + 4 <= r.value.1 <= |s|
  {
    if s[i] != '[' then None
    else
      var e := FindFrom(s, ']', i + 1);
      if e < i + 2 || e + 1 >= |s| || s[e + 1] != '(' then None
      else
        var f := FindFrom(s, ')', e + 2);
        if f < e + 3 then None else Some((e, f + 1))
  }

  /** Where the scan resumes after looking at index `i`. */
  function NextLink(s: string, i: nat): (n: nat)
    requires i < |s|
    ensures i < n <= |s|
  {
    match LinkAt(s, i)
    case None => i + 1
    case Some((_, n)) => n
  }

  /** What looking at index `i` writes: the text of the link there, or the
      character itself. */
  function PieceAt(s: string, i: nat): string
    requires i < |s|
  {
    match LinkAt(s, i)
    case None => [s[i]]
    case Some((e, _)) => s[i + 1..e]
  }

  /** The link removal from index `i` on. */
  function StripFrom(s: string, i: nat): (r: string)
    requires i <= |s|
    decreases |s| - i
    ensures |r| <= |s| - i
  {
    if i == |s| then "" else PieceAt(s, i) + StripFrom(s, NextLink(s, i))
  }

  /** `s.replace(/\[([^\]]+)\]\([^\)]+\)/g, '$1')`: every link written
      `[text](url)` becomes its text, scanning left to right without overlap. */
  function StripLinks(s: string): (r: string)
    ensures |r| <= |s|
  {
    StripFrom(s, 0)
  }

  const Marks: set<char> := {'*', '_', '`'}

  const DescriptionLimit: nat := 150

  /** Lines 123-126: links reduced to their text, `*`, `_` and backquotes
      removed, and at most 150 characters kept. */
  function Clean(line: string): (r: string)
    ensures |r| <= DescriptionLimit
    ensures forall i :: 0 <= i < |r| ==> r[i] !in Marks
    ensures StartsWith(RemoveAll(StripLinks(line), Marks), r)
    ensures |r| == DescriptionLimit || r == RemoveAll(StripLinks(line), Marks)
  {
    var s := RemoveAll(StripLinks(line), Marks);
    if |s| <= DescriptionLimit then s else s[..DescriptionLimit]
  }

  /** The description derived from `body`. */
  function DescriptionOf(body: string): string {
    var lines := Lines(body);
    var i := FirstEligible(lines);
    if i < |lines| then Clean(Trim(lines[i])) else ""
  }

  /** Lines 101-128: the indexed loop that stops at the first eligible line. */
  method DeriveDescription(body: string) returns (description: string)
    ensures description == DescriptionOf(body)
  {
    var lines := Lines(body);
    description := "";
    var i := 0;
    while i < |lines| && description == ""
      invariant i <= |lines|
      invariant description == ""
      invariant forall j :: 0 <= j < i ==> !Eligible(lines[j])
    {
      var line := Trim(lines[i]);
      if Qualifies(line) {
        description := line;
        break;
      }
      i := i + 1;
    }
    if description != "" {
      FirstEligibleIs(lines, i);
      description := Clean(description);
    } else {
      FirstEligibleIs(lines, |lines|);
    }
  }

  // ---------------------------------------------------------------------------
  // The record.

  /** The specification of `transformFrontmatter(fm, body)` on a run whose
      clock reads `nowIso`. */
  function Transformed(fm: Fields, body: string, nowIso: string): (r: NewFrontmatter)
    ensures !r.draft
    ensures |r.description| <= DescriptionLimit
    ensures r.category == CategoryOf(r.tags)
  {
    var tags := MigratedTags(fm);
    NewFrontmatter(
      title := Lookup(fm, "title").GetOr(Scalar("Untitled")),
      published := Lookup(fm, "updated").GetOr(Lookup(fm, "date").GetOr(Scalar(DatePart(nowIso)))),
      description := DescriptionOf(body),
      image := Lookup(fm, "headerImage").GetOr(Scalar("")),
      tags := tags,
      category := CategoryOf(tags),
      draft := false)
  }

  /** `transformFrontmatter(fm, body)`: defaults first, then each field
      overwritten as the source does. */
  method TransformFrontmatter(fm: Fields, body: string, nowIso: string) returns (nf: NewFrontmatter)
    ensures nf == Transformed(fm, body, nowIso)
  {
    nf := NewFrontmatter(
      title := Lookup(fm, "title").GetOr(Scalar("Untitled")),
      published := Lookup(fm, "updated").GetOr(Lookup(fm, "date").GetOr(Scalar(DatePart(nowIso)))),
      description := "",
      image := Scalar(""),
      tags := [],
      category := "",
      draft := false);
    var description := DeriveDescription(body);
    if description != "" {
      nf := nf.(description := description);
    }
    var headerImage := Lookup(fm, "headerImage");
    if headerImage.Some? {
      nf := nf.(image := headerImage.value);
    }
    var tags := Lookup(fm, "tags");
    if tags.Some? {
      if tags.value.List? {
        nf := nf.(tags := tags.value.items);
      } else {
        nf := nf.(tags := [tags.value.text]);
      }
    }
    if |nf.tags| > 0 {
      nf := nf.(category := nf.tags[0]);
    }
  }

  // ---------------------------------------------------------------------------
  // Properties.

  /** On a map the scanner produced, every stored value is truthy, so each
      fallback applies exactly when the key is absent. */
  lemma {:induction false} TransformParsed(fm: Fields, body: string, nowIso: string)
    requires FieldsOk(fm)
    ensures var r := Transformed(fm, body, nowIso);
      && r.title == (if "title" in fm then fm["title"] else Scalar("Untitled"))
      && r.published == (if "updated" in fm then fm["updated"]
                         else if "date" in fm then fm["date"]
                         else Scalar(DatePart(nowIso)))
      && r.image == (if "headerImage" in fm then fm["headerImage"] else Scalar(""))
      && r.tags == (if "tags" !in fm then []
                    else if fm["tags"].List? then fm["tags"].items
                    else [fm["tags"].text])
  {
    assert forall k :: k in fm ==> JsTruthy(fm[k]);
  }

  /** Old tags given as a list are kept exactly, and the category is their
      first element, or "" for an empty list. */
  lemma TagListKept(fm: Fields, body: string, nowIso: string, xs: seq<string>)
    requires "tags" in fm && fm["tags"] == List(xs)
    ensures Transformed(fm, body, nowIso).tags == xs
    ensures Transformed(fm, body, nowIso).category == (if |xs| > 0 then xs[0] else "")
  {
  }

  /** A body without an eligible line gives the empty description. */
  lemma NoEligibleLine(body: string)
    requires forall j :: 0 <= j < |Lines(body)| ==> !Eligible(Lines(body)[j])
    ensures DescriptionOf(body) == ""
  {
    FirstEligibleIs(Lines(body), |Lines(body)|);
  }

  /** Otherwise the description comes from the FIRST eligible line, trimmed
      and cleaned; it has at most 150 characters and none of `*`, `_`, '`'. */
  lemma DescriptionFromFirstEligible(body: string, i: nat)
    requires i < |Lines(body)| && Eligible(Lines(body)[i])
    requires forall j :: 0 <= j < i ==> !Eligible(Lines(body)[j])
    ensures DescriptionOf(body) == Clean(Trim(Lines(body)[i]))
    ensures |DescriptionOf(body)| <= DescriptionLimit
    ensures forall k :: 0 <= k < |DescriptionOf(body)| ==> DescriptionOf(body)[k] !in Marks
  {
    FirstEligibleIs(Lines(body), i);
  }

  /** The first eligible index is the only index with no eligible line
      before it and an eligible line (or the end) at it. */
  lemma FirstEligibleIs(lines: seq<string>, i: nat)
    requires i <= |lines|
    requires i < |lines| ==> Eligible(lines[i])
    requires forall j :: 0 <= j < i ==> !Eligible(lines[j])
    ensures FirstEligible(lines) == i
  {
  }

  /** Text without '[' is left alone by link removal. */
  lemma StripLinksNoBracket(s: string)
    requires '[' !in s
    ensures StripLinks(s) == s
  {
    StripFromNoBracket(s, 0);
  }

  lemma {:induction false} StripFromNoBracket(s: string, i: nat)
    requires i <= |s| && '[' !in s[i..]
    decreases |s| - i
    ensures StripFrom(s, i) == s[i..]
  {
    if i < |s| {
      assert s[i] in s[i..];
      assert s[i + 1..] == s[i..][1..];
      StripFromNoBracket(s, i + 1);
      StripFromPlain(s, i);
      SliceFrom(s, i);
    }
  }

  lemma SliceFrom(s: string, i: nat)
    requires i < |s|
    ensures s[i..] == [s[i]] + s[i + 1..]
  {
  }

  /** One step of the scan. */
  lemma StripFromStep(s: string, i: nat)
    requires i < |s|
    ensures StripFrom(s, i) == PieceAt(s, i) + StripFrom(s, NextLink(s, i))
  {
  }

  /** `[text](url)` at index `i`, with its ']' at `e` and its ')' at `f`:
      the text runs to the first ']' and is not empty, the url runs to the
      next ')' and is not empty. */
  predicate LinkShape(s: string, i: nat, e: nat, f: nat) {
    && i + 2 <= e && e + 3 <= f < |s|
    && s[i] == '[' && s[e] == ']' && s[e + 1] == '(' && s[f] == ')'
    && (forall j :: i < j < e ==> s[j] != ']')
    && (forall j :: e + 2 <= j < f ==> s[j] != ')')
  }

  lemma LinkAtIs(s: string, i: nat, e: nat, f: nat)
    requires LinkShape(s, i, e, f)
    ensures LinkAt(s, i) == Some((e, f + 1))
  {
    assert FindFrom(s, ']', i + 1) == e;
    assert FindFrom(s, ')', e + 2) == f;
  }

  /** Conversely, every link LinkAt finds has that shape. */
  lemma LinkAtShape(s: string, i: nat, e: nat, n: nat)
    requires i < |s| && LinkAt(s, i) == Some((e, n))
    ensures 1 <= n && LinkShape(s, i, e, n - 1)
  {
  }

  /** A link `[text](url)` at index `i` is reduced to its text, and the
      scan goes on after the ')'. */
  lemma {:induction false} StripFromLink(s: string, i: nat, e: nat, f: nat)
    requires LinkShape(s, i, e, f)
    ensures StripFrom(s, i) == s[i + 1..e] + StripFrom(s, f + 1)
  {
    assert LinkAt(s, i) == Some((e, f + 1)) by {
      LinkAtIs(s, i, e, f);
    }
    StripFromFound(s, i, e, f + 1);
  }

  lemma StripFromFound(s: string, i: nat, e: nat, n: nat)
    requires i < |s| && LinkAt(s, i) == Some((e, n))
    ensures StripFrom(s, i) == s[i + 1..e] + StripFrom(s, n)
  {
    StripFromStep(s, i);
  }

  lemma PlainPiece(s: string, i: nat)
    requires i < |s| && s[i] != '['
    ensures PieceAt(s, i) == [s[i]] && NextLink(s, i) == i + 1
  {
  }

  /** A character that does not open a link is kept, and the scan moves on
      by one. */
  lemma {:induction false} StripFromPlain(s: string, i: nat)
    requires i < |s| && s[i] != '['
    ensures StripFrom(s, i) == [s[i]] + StripFrom(s, i + 1)
  {
    PlainPiece(s, i);
    StripFromStep(s, i);
  }

  /** Where no link starts, the character is kept and the scan moves on by
      one. */
  lemma {:induction false} StripFromNoLink(s: string, i: nat)
    requires i < |s| && forall e: nat, f: nat :: !LinkShape(s, i, e, f)
    ensures StripFrom(s, i) == [s[i]] + StripFrom(s, i + 1)
  {
    if LinkAt(s, i).Some? {
      LinkAtShape(s, i, LinkAt(s, i).value.0, LinkAt(s, i).value.1);
      assert false;
    }
    StripFromStep(s, i);
  }

  lemma PieceNoChar(s: string, i: nat, c: char)
    requires i < |s| && c !in s
    ensures c !in PieceAt(s, i)
  {
    match LinkAt(s, i)
    case None =>
      assert s[i] in s;
    case Some((e, _)) =>
      var p := s[i + 1..e];
      assert forall k :: 0 <= k < |p| ==> p[k] == s[i + 1 + k];
  }

  /** Link removal adds no character the text did not have. */
  lemma {:induction false} StripFromNoChar(s: string, i: nat, c: char)
    requires i <= |s| && c !in s
    decreases |s| - i
    ensures c !in StripFrom(s, i)
  {
    if i < |s| {
      StripFromNoChar(s, NextLink(s, i), c);
      StripFromStep(s, i);
      PieceNoChar(s, i, c);
    }
  }

  lemma RemoveAllNoChar(s: string, drop: set<char>, c: char)
    requires c !in s
    ensures c !in RemoveAll(s, drop)
  {
    if c !in drop {
      RemoveAllCounts(s, drop, c);
    }
  }

  lemma CleanNoChar(t: string, c: char)
    requires c !in t
    ensures c !in Clean(t)
  {
    StripFromNoChar(t, 0, c);
    RemoveAllNoChar(StripLinks(t), Marks, c);
  }

  /** The description is one line. */
  lemma DescriptionOneLine(body: string)
    ensures '\n' !in DescriptionOf(body)
  {
    var lines := Lines(body);
    var i := FirstEligible(lines);
    if i < |lines| {
      TrimNoChar(lines[i], '\n');
      CleanNoChar(Trim(lines[i]), '\n');
    }
  }
}
