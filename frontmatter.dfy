/** `parseFrontmatter` of scripts/migrate-from-old-blog.js: finds the leading
    `---` block, scans it line by line into a map of scalar and list values,
    and returns the trimmed remainder as the body. The scan is the source's
    two-variable state machine (`currentKey`, `currentArray`), quirks included. */
module Frontmatter {
  import opened Wrappers
  import opened Text

  /** A frontmatter value: a scalar string or a list of strings. */
  datatype Value = Scalar(text: string) | List(items: seq<string>)

  type Fields = map<string, Value>

  /** What `parseFrontmatter` returns. */
  datatype Parsed = Parsed(fields: Fields, body: string)

  // ---------------------------------------------------------------------------
  // The block: /^---\n([\s\S]*?)\n---/

  const Opening: string := "---\n"
  const Closing: string := "\n---"

  /** Where the lazy group of the block pattern ends: the first "\n---" at or
      after index 4 of a text that starts with "---\n"; None when the pattern
      does not match. */
  function BlockEnd(content: string): (r: Option<nat>)
    ensures r.Some? ==> StartsWith(content, Opening) && 4 <= r.value && OccursAt(content, Closing, r.value)
    ensures r.Some? ==> forall k :: 4 <= k < r.value ==> !OccursAt(content, Closing, k)
    ensures r.None? ==> !StartsWith(content, Opening) || forall k :: 4 <= k ==> !OccursAt(content, Closing, k)
  {
    if !StartsWith(content, Opening) || |content| < 4 then None
    else
      var k := IndexOfFrom(content, Closing, 4);
      if k < 0 then None else Some(k)
  }

  // ---------------------------------------------------------------------------
  // The line scan (lines 42-84).

  /** The loop's state: the map built so far, `currentKey` and `currentArray`. */
  datatype ScanState = ScanState(fields: Fields, key: Option<string>, items: seq<string>)

  const Start := ScanState(map[], None, [])

  /** `currentKey` is truthy. */
  predicate Pending(st: ScanState) {
    st.key.Some? && st.key.value != ""
  }

  /** A trimmed line that is a list item: it starts with "- ". */
  predicate IsItem(t: string) {
    StartsWith(t, "- ")
  }

  /** The item text of a list line: the marker removed, then trimmed. */
  function ItemText(line: string): string {
    var t := Trim(line);
    if |t| >= 2 then Trim(t[2..]) else ""
  }

  /** A trimmed line with a colon at an index above 0 gives the trimmed text
      before and after its first colon. */
  function Entry(t: string): Option<(string, string)> {
    var ci := IndexOfChar(t, ':');
    if ci > 0 then Some((Trim(t[..ci]), Trim(t[ci + 1..]))) else None
  }

  /** Lines 57-61 and 80-82: a pending list with at least one item is stored
      under its key, and the pending state is cleared. */
  function Commit(st: ScanState): ScanState {
    if Pending(st) && |st.items| > 0 then ScanState(st.fields[st.key.value := List(st.items)], None, [])
    else st
  }

  /** One iteration of the loop at lines 47-77. */
  function Step(st: ScanState, line: string): ScanState {
    var t := Trim(line);
    if IsItem(t) && Pending(st) then st.(items := st.items + [Trim(t[2..])])
    else
      var c := Commit(st);
      match Entry(t)
      case None => c
      case Some((k, v)) =>
        if v == "" then c.(key := Some(k), items := [])
        else c.(fields := c.fields[k := Scalar(v)])
  }

  /** The state after scanning `lines` from `st`, one line at a time. */
  function Run(st: ScanState, lines: seq<string>): ScanState {
    if |lines| == 0 then st else Step(Run(st, lines[..|lines| - 1]), lines[|lines| - 1])
  }

  /** The map the scan of `lines` produces, the final pending list included. */
  function ParseLines(lines: seq<string>): Fields {
    Commit(Run(Start, lines)).fields
  }

  /** The specification of `parseFrontmatter`. */
  function ParseSpec(content: string): Parsed {
    match BlockEnd(content)
    case None => Parsed(map[], content)
    case Some(j) => Parsed(ParseLines(Lines(content[4..j])), Trim(content[j + 4..]))
  }

  /** `parseFrontmatter(content)` (lines 31-40 and 84). */
  method ParseFrontmatter(content: string) returns (r: Parsed)
    ensures r == ParseSpec(content)
  {
    var j := BlockEnd(content);
    if j.None? {
      return Parsed(map[], content);
    }
    var fields := ScanBlock(Lines(content[4..j.value]));
    r := Parsed(fields, Trim(content[j.value + 4..]));
  }

  /** The loop of lines 44-82 over the lines of the block. */
  method ScanBlock(lines: seq<string>) returns (fields: Fields)
    ensures fields == ParseLines(lines)
  {
    fields := map[];
    var key: Option<string> := None;
    var items: seq<string> := [];
    for i := 0 to |lines|
      invariant ScanState(fields, key, items) == Run(Start, lines[..i])
    {
      assert lines[..i + 1][..i] == lines[..i];
      fields, key, items := ScanLine(fields, key, items, lines[i]);
    }
    assert lines[..|lines|] == lines;
    if key.Some? && key.value != "" && |items| > 0 {
      fields := fields[key.value := List(items)];
    }
  }

  /** One pass of the loop body at lines 48-76. */
  method ScanLine(fields: Fields, key: Option<string>, items: seq<string>, line: string)
    returns (fields': Fields, key': Option<string>, items': seq<string>)
    ensures ScanState(fields', key', items') == Step(ScanState(fields, key, items), line)
  {
    fields', key', items' := fields, key, items;
    var t := Trim(line);
    if StartsWith(t, "- ") && key'.Some? && key'.value != "" {
      items' := items' + [Trim(t[2..])];
      return;
    }
    if key'.Some? && key'.value != "" && |items'| > 0 {
      fields' := fields'[key'.value := List(items')];
      items' := [];
      key' := None;
    }
    var ci := IndexOfChar(t, ':');
    if ci > 0 {
      var k := Trim(t[..ci]);
      var v := Trim(t[ci + 1..]);
      if v == "" {
        key' := Some(k);
        items' := [];
      } else {
        fields' := fields'[k := Scalar(v)];
      }
    }
  }

  // ---------------------------------------------------------------------------
  // The block and the body.

  /** Text that does not open with a `---` block closed by a later "\n---"
      gives no fields, and the body is the text unchanged. */
  lemma {:induction false} NoBlock(content: string)
    requires !StartsWith(content, Opening) || forall k :: 4 <= k ==> !OccursAt(content, Closing, k)
    ensures ParseSpec(content) == Parsed(map[], content)
  {
  }

  /** Otherwise the block ends at the FIRST "\n---" (whatever follows it, e.g.
      a fourth dash), the fields come from the lines between, and the body is
      everything after the closing dashes, trimmed. */
  lemma {:induction false} FirstClosingEndsBlock(content: string, j: nat)
    requires StartsWith(content, Opening) && 4 <= j && OccursAt(content, Closing, j)
    requires forall k :: 4 <= k < j ==> !OccursAt(content, Closing, k)
    ensures ParseSpec(content) == Parsed(ParseLines(Lines(content[4..j])), Trim(content[j + 4..]))
  {
    IndexOfFromIs(content, Closing, 4, j);
  }

  // ---------------------------------------------------------------------------
  // The line rules.

  lemma {:induction false} RunConcat(st: ScanState, a: seq<string>, b: seq<string>)
    decreases |b|
    ensures Run(st, a + b) == Run(Run(st, a), b)
  {
    if |b| == 0 {
      assert a + b == a;
    } else {
      var b' := b[..|b| - 1];
      assert (a + b)[..|a + b| - 1] == a + b';
      RunConcat(st, a, b');
    }
  }

  /** A scalar line: the trimmed text after the first colon, when not empty,
      is stored under the trimmed text before it, replacing an earlier value. */
  lemma {:induction false} ScalarLine(st: ScanState, line: string, k: string, v: string)
    requires !IsItem(Trim(line)) && Entry(Trim(line)) == Some((k, v)) && v != ""
    ensures Step(st, line).fields == Commit(st).fields[k := Scalar(v)]
    ensures Step(st, line).key == Commit(st).key && Step(st, line).items == Commit(st).items
  {
  }

  /** A `key:` line opens an empty pending list under `key`. */
  lemma {:induction false} OpenerLine(st: ScanState, line: string, k: string)
    requires !IsItem(Trim(line)) && Entry(Trim(line)) == Some((k, ""))
    ensures Step(st, line) == ScanState(Commit(st).fields, Some(k), [])
  {
  }

  lemma {:induction false} ItemsAppend(st: ScanState, items: seq<string>)
    requires Pending(st)
    requires forall i :: 0 <= i < |items| ==> IsItem(Trim(items[i]))
    ensures Run(st, items) == st.(items := st.items + seq(|items|, i requires 0 <= i < |items| => ItemText(items[i])))
  {
    if |items| > 0 {
      var front := items[..|items| - 1];
      ItemsAppend(st, front);
      var texts := seq(|items|, i requires 0 <= i < |items| => ItemText(items[i]));
      var fronts := seq(|front|, i requires 0 <= i < |front| => ItemText(front[i]));
      assert texts == fronts + [ItemText(items[|items| - 1])];
    } else {
      assert st.items + [] == st.items;
    }
  }

  /** A `key:` line followed by item lines collects the items, in order,
      marker removed and trimmed, and a list with at least one item is stored
      when the block ends. */
  lemma {:induction false} ListAtEnd(pre: seq<string>, opener: string, k: string, items: seq<string>)
    requires !IsItem(Trim(opener)) && Entry(Trim(opener)) == Some((k, "")) && k != ""
    requires |items| > 0 && forall i :: 0 <= i < |items| ==> IsItem(Trim(items[i]))
    ensures k in ParseLines(pre + [opener] + items)
    ensures ParseLines(pre + [opener] + items)[k] ==
      List(seq(|items|, i requires 0 <= i < |items| => ItemText(items[i])))
  {
    var s0 := Run(Start, pre + [opener]);
    assert (pre + [opener])[..|pre|] == pre;
    OpenerLine(Run(Start, pre), opener, k);
    RunConcat(Start, pre + [opener], items);
    ItemsAppend(s0, items);
  }

  /** The pending list is stored as soon as a line that is not an item is
      reached (a blank line, another key, anything), unless that very line
      stores a scalar under the same key. */
  lemma {:induction false} ListEndsAtLine(st: ScanState, line: string)
    requires Pending(st) && |st.items| > 0 && !IsItem(Trim(line))
    requires Entry(Trim(line)).None? || Entry(Trim(line)).value.0 != st.key.value || Entry(Trim(line)).value.1 == ""
    ensures st.key.value in Step(st, line).fields
    ensures Step(st, line).fields[st.key.value] == List(st.items)
  {
  }

  /** A `key:` line that collects no item is never stored: adding it at the
      end of a block changes nothing. */
  lemma {:induction false} EmptyListDropped(pre: seq<string>, opener: string, k: string)
    requires !IsItem(Trim(opener)) && Entry(Trim(opener)) == Some((k, ""))
    ensures ParseLines(pre + [opener]) == ParseLines(pre)
  {
    assert (pre + [opener])[..|pre|] == pre;
  }

  /** The source's quirk: a pending EMPTY list survives a scalar line (its
      key is not cleared, since nothing is committed), so a later item line
      still joins the list of the old key. */
  lemma {:induction false} EmptyListSurvivesScalar(st: ScanState, opener: string, k: string, scalar: string, a: string, v: string, item: string)
    requires !IsItem(Trim(opener)) && Entry(Trim(opener)) == Some((k, "")) && k != ""
    requires !IsItem(Trim(scalar)) && Entry(Trim(scalar)) == Some((a, v)) && v != ""
    requires IsItem(Trim(item))
    ensures var s := Run(st, [opener, scalar, item]);
      s.key == Some(k) && s.items == [ItemText(item)] && a in s.fields && s.fields[a] == Scalar(v)
  {
    var s1 := Step(st, opener);
    OpenerLine(st, opener, k);
    assert s1 == ScanState(Commit(st).fields, Some(k), []);
    var s2 := Step(s1, scalar);
    ScalarLine(s1, scalar, a, v);
    assert s2 == ScanState(s1.fields[a := Scalar(v)], Some(k), []);
    var s3 := Step(s2, item);
    assert s3 == s2.(items := [ItemText(item)]);
    RunThree(st, opener, scalar, item);
  }

  lemma RunThree(st: ScanState, l0: string, l1: string, l2: string)
    ensures Run(st, [l0, l1, l2]) == Step(Step(Step(st, l0), l1), l2)
  {
    assert [l0][..0] == [];
    assert Run(st, [l0]) == Step(st, l0);
    assert [l0, l1][..1] == [l0];
    assert Run(st, [l0, l1]) == Step(Step(st, l0), l1);
    assert [l0, l1, l2][..2] == [l0, l1];
  }

  /** Last write wins: a block whose last line is a scalar line for `k` maps
      `k` to that scalar, whatever came before. */
  lemma {:induction false} LastScalarWins(pre: seq<string>, line: string, k: string, v: string)
    requires !IsItem(Trim(line)) && Entry(Trim(line)) == Some((k, v)) && v != ""
    ensures ParseLines(pre + [line])[k] == Scalar(v)
  {
    assert (pre + [line])[..|pre|] == pre;
    var st := Run(Start, pre);
    ScalarLine(st, line, k, v);
    StartInvariant(pre);
  }

  // ---------------------------------------------------------------------------
  // What every scan produces.

  predicate NoNewline(s: string) {
    '\n' !in s
  }

  /** The values the scan can store: non-empty scalars and non-empty lists,
      none holding a line break. */
  predicate ValueOk(v: Value) {
    match v
    case Scalar(s) => s != "" && NoNewline(s)
    case List(xs) => |xs| > 0 && forall i :: 0 <= i < |xs| ==> NoNewline(xs[i])
  }

  predicate FieldsOk(fields: Fields) {
    forall k :: k in fields ==> k != "" && NoNewline(k) && ValueOk(fields[k])
  }

  predicate StateOk(st: ScanState) {
    && FieldsOk(st.fields)
    && (st.key.Some? ==> st.key.value != "" && NoNewline(st.key.value))
    && (st.key.None? ==> st.items == [])
    && (forall i :: 0 <= i < |st.items| ==> NoNewline(st.items[i]))
  }

  lemma {:induction false} TrimKeepsNoNewline(s: string)
    requires NoNewline(s)
    ensures NoNewline(Trim(s))
  {
    TrimNoChar(s, '\n');
  }

  lemma {:induction false} InfixNoNewline(s: string, a: nat, b: nat)
    requires a <= b <= |s| && NoNewline(s)
    ensures NoNewline(s[a..b])
  {
    assert forall i :: 0 <= i < b - a ==> s[a..b][i] == s[a + i];
  }

  /** A key found by `Entry` in a trimmed line is never empty. */
  lemma {:induction false} EntryKeyNonEmpty(line: string)
    requires Entry(Trim(line)).Some?
    ensures Entry(Trim(line)).value.0 != ""
  {
    var t := Trim(line);
    var ci := IndexOfChar(t, ':');
    var head := t[..ci];
    TrimEdges(line);
    assert head[0] == t[0] && !IsJsSpace(head[0]);
    TrimKeeps(head, 0);
  }

  lemma {:induction false} StepOk(st: ScanState, line: string)
    requires StateOk(st) && NoNewline(line)
    ensures StateOk(Step(st, line))
  {
    var t := Trim(line);
    TrimKeepsNoNewline(line);
    if IsItem(t) && Pending(st) {
      InfixNoNewline(t, 2, |t|);
      TrimKeepsNoNewline(t[2..]);
    } else {
      EntryOk(line);
      CommitOk(st);
    }
  }

  lemma {:induction false} CommitOk(st: ScanState)
    requires StateOk(st)
    ensures StateOk(Commit(st))
  {
  }

  /** What `Entry` gives for a line without line break: a non-empty key and
      a value, neither holding a line break. */
  lemma {:induction false} EntryOk(line: string)
    requires NoNewline(line)
    ensures Entry(Trim(line)).Some? ==>
      var (k, v) := Entry(Trim(line)).value; k != "" && NoNewline(k) && NoNewline(v)
  {
    var t := Trim(line);
    var ci := IndexOfChar(t, ':');
    if ci > 0 {
      TrimKeepsNoNewline(line);
      EntryKeyNonEmpty(line);
      InfixNoNewline(t, 0, ci);
      InfixNoNewline(t, ci + 1, |t|);
      TrimKeepsNoNewline(t[..ci]);
      TrimKeepsNoNewline(t[ci + 1..]);
    }
  }

  lemma {:induction false} RunOk(st: ScanState, lines: seq<string>)
    requires StateOk(st)
    requires forall i :: 0 <= i < |lines| ==> NoNewline(lines[i])
    ensures StateOk(Run(st, lines))
  {
    if |lines| > 0 {
      RunOk(st, lines[..|lines| - 1]);
      StepOk(Run(st, lines[..|lines| - 1]), lines[|lines| - 1]);
    }
  }

  lemma {:induction false} StartInvariant(lines: seq<string>)
    ensures Run(Start, lines).key.None? ==> Run(Start, lines).items == []
  {
    if |lines| > 0 {
      StartInvariant(lines[..|lines| - 1]);
    }
  }

  /** Every map a block scan produces has non-empty keys, non-empty scalar
      values and non-empty lists, and no line break anywhere: an empty list
      is never stored. */
  lemma {:induction false} ParseLinesOk(lines: seq<string>)
    requires forall i :: 0 <= i < |lines| ==> NoNewline(lines[i])
    ensures FieldsOk(ParseLines(lines))
  {
    RunOk(Start, lines);
  }

  /** The same for `parseFrontmatter` on any text. */
  lemma {:induction false} ParseSpecOk(content: string)
    ensures FieldsOk(ParseSpec(content).fields)
  {
    match BlockEnd(content)
    case None =>
    case Some(j) =>
      ParseLinesOk(Lines(content[4..j]));
  }
}
