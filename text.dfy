/** The JavaScript string built-ins the scripts rely on (`trim`, `startsWith`,
    `endsWith`, `includes`, `indexOf`, `split`, `join`, a first-occurrence
    `replace` and a character-class `replace(/[..]/g, '')`), on `seq<char>`. */
module Text {

  /** The characters `String.prototype.trim` removes: ECMAScript WhiteSpace
      (tab, vertical tab, form feed, space, no-break space, byte order mark
      and the Unicode space separators) and the LineTerminators. */
  predicate IsJsSpace(c: char) {
    || c == '\t' || c == '\n' || c == '\U{000B}' || c == '\U{000C}' || c == '\r'
    || c == ' ' || c == '\U{00A0}' || c == '\U{1680}'
    || ('\U{2000}' <= c <= '\U{200A}')
    || c == '\U{2028}' || c == '\U{2029}' || c == '\U{202F}' || c == '\U{205F}'
    || c == '\U{3000}' || c == '\U{FEFF}'
  }

  /** `s.trim()`: white space removed from both ends. */
  function Trim(s: string): (r: string)
    decreases |s|
    ensures |r| <= |s|
  {
    if |s| > 0 && IsJsSpace(s[0]) then Trim(s[1..])
    else if |s| > 0 && IsJsSpace(s[|s| - 1]) then Trim(s[..|s| - 1])
    else s
  }

  /** What `Trim` keeps starts and ends with a character that is not white space. */
  lemma {:induction false} TrimEdges(s: string)
    decreases |s|
    ensures Trim(s) == [] || (!IsJsSpace(Trim(s)[0]) && !IsJsSpace(Trim(s)[|Trim(s)| - 1]))
  {
    if |s| > 0 && IsJsSpace(s[0]) {
      TrimEdges(s[1..]);
    } else if |s| > 0 && IsJsSpace(s[|s| - 1]) {
      TrimEdges(s[..|s| - 1]);
    }
  }

  /** `Trim` removes white space only, and only at the two ends. */
  lemma {:induction false} TrimSpec(s: string)
    decreases |s|
    ensures exists a: nat :: TrimmedAt(s, a)
  {
    if |s| > 0 && IsJsSpace(s[0]) {
      TrimSpec(s[1..]);
      var a: nat :| TrimmedAt(s[1..], a);
      TrimFront(s, a);
    } else if |s| > 0 && IsJsSpace(s[|s| - 1]) {
      var h := s[..|s| - 1];
      TrimSpec(h);
      var a: nat :| TrimmedAt(h, a);
      TrimBack(s, a);
    } else {
      assert TrimmedAt(s, 0) by { assert s[0..|s|] == s; }
    }
  }

  lemma TrimFront(s: string, a: nat)
    requires |s| > 0 && IsJsSpace(s[0]) && TrimmedAt(s[1..], a)
    ensures TrimmedAt(s, a + 1)
  {
    var t := s[1..];
    var r := Trim(t);
    assert Trim(s) == r;
    assert a + |r| <= |t| && r == t[a..a + |r|];
    assert t[a..a + |r|] == s[a + 1..a + 1 + |r|];
    assert forall i :: 1 <= i < |s| ==> s[i] == s[1..][i - 1];
  }

  lemma TrimBack(s: string, a: nat)
    requires |s| > 0 && !IsJsSpace(s[0]) && IsJsSpace(s[|s| - 1]) && TrimmedAt(s[..|s| - 1], a)
    ensures TrimmedAt(s, a)
  {
    var h := s[..|s| - 1];
    var r := Trim(s);
    assert r == Trim(h);
    assert h[a..a + |r|] == s[a..a + |r|];
    assert forall i :: 0 <= i < |h| ==> s[i] == h[i];
  }

  /** `Trim(s)` is the infix of `s` at `a`, with only white space around it. */
  ghost predicate TrimmedAt(s: string, a: nat) {
    && a + |Trim(s)| <= |s|
    && Trim(s) == s[a..a + |Trim(s)|]
    && (forall i :: 0 <= i < a ==> IsJsSpace(s[i]))
    && (forall i :: a + |Trim(s)| <= i < |s| ==> IsJsSpace(s[i]))
  }

  /** A character outside the white-space class survives trimming. */
  lemma TrimKeeps(s: string, i: nat)
    requires i < |s| && !IsJsSpace(s[i])
    ensures Trim(s) != []
  {
    TrimSpec(s);
    var a: nat :| TrimmedAt(s, a);
  }

  /** Trimming introduces no character. */
  lemma TrimNoChar(s: string, c: char)
    requires c !in s
    ensures c !in Trim(s)
  {
    TrimSpec(s);
    var a: nat :| TrimmedAt(s, a);
    assert forall i :: 0 <= i < |Trim(s)| ==> Trim(s)[i] == s[a + i];
  }

  predicate StartsWith(s: string, p: string) {
    |p| <= |s| && s[..|p|] == p
  }

  predicate EndsWith(s: string, p: string) {
    |p| <= |s| && s[|s| - |p|..] == p
  }

  /** `s.indexOf(c)` for a single character: -1 when absent. */
  function IndexOfChar(s: string, c: char): (r: int)
    ensures -1 <= r < |s|
    ensures r == -1 <==> c !in s
    ensures r >= 0 ==> s[r] == c && c !in s[..r]
  {
    if |s| == 0 then -1
    else if s[0] == c then 0
    else
      var k := IndexOfChar(s[1..], c);
      if k < 0 then -1
      else
        assert s[..k + 1] == [s[0]] + s[1..][..k];
        k + 1
  }

  /** The first index at or after `k` holding `c`, or -1. */
  function FindFrom(s: string, c: char, k: nat): (r: int)
    requires k <= |s|
    decreases |s| - k
    ensures r == -1 || (k <= r < |s| && s[r] == c)
    ensures r == -1 ==> forall j :: k <= j < |s| ==> s[j] != c
    ensures r >= 0 ==> forall j :: k <= j < r ==> s[j] != c
  {
    if k == |s| then -1 else if s[k] == c then k else FindFrom(s, c, k + 1)
  }

  /** `p` occurs in `s` starting at index `k`. */
  predicate OccursAt(s: string, p: string, k: int) {
    0 <= k && k + |p| <= |s| && s[k..k + |p|] == p
  }

  /** The search from `from` finds `j` when `j` is the first occurrence at or after `from`. */
  lemma IndexOfFromIs(s: string, p: string, from: nat, j: nat)
    requires from <= j && OccursAt(s, p, j)
    requires forall k :: from <= k < j ==> !OccursAt(s, p, k)
    ensures IndexOfFrom(s, p, from) == j
  {
  }

  lemma IndexOfCharAt(s: string, c: char, k: nat)
    requires k < |s| && s[k] == c && c !in s[..k]
    ensures IndexOfChar(s, c) == k
  {
  }

  /** `s.indexOf(p, from)`: the first occurrence of `p` at or after `from`. */
  function IndexOfFrom(s: string, p: string, from: nat): (r: int)
    decreases |s| - from
    ensures r == -1 || (from <= r && OccursAt(s, p, r))
    ensures r == -1 ==> forall k :: from <= k ==> !OccursAt(s, p, k)
    ensures r >= 0 ==> forall k :: from <= k < r ==> !OccursAt(s, p, k)
  {
    if from + |p| > |s| then -1
    else if OccursAt(s, p, from) then from
    else IndexOfFrom(s, p, from + 1)
  }

  /** `s.indexOf(p)`. */
  function IndexOf(s: string, p: string): int {
    IndexOfFrom(s, p, 0)
  }

  /** `s.includes(p)`. */
  predicate Contains(s: string, p: string) {
    IndexOf(s, p) >= 0
  }

  lemma ContainsIff(s: string, p: string)
    ensures Contains(s, p) <==> exists k :: OccursAt(s, p, k)
  {
  }

  /** `s.replace(p, rep)` with a string pattern, taking `rep` literally:
      only the first occurrence of `p` is replaced. */
  function ReplaceFirst(s: string, p: string, rep: string): (r: string)
    ensures (forall k :: !OccursAt(s, p, k)) ==> r == s
    ensures forall k :: OccursAt(s, p, k) && (forall j :: 0 <= j < k ==> !OccursAt(s, p, j)) ==>
              r == s[..k] + rep + s[k + |p|..]
  {
    var k := IndexOf(s, p);
    if k < 0 then s else s[..k] + rep + s[k + |p|..]
  }

  /** `s.split(sep)` for a one-character separator: always at least one
      piece, and no piece contains the separator. */
  function Split(s: string, sep: char): (r: seq<string>)
    decreases |s|
    ensures |r| >= 1
    ensures forall i :: 0 <= i < |r| ==> sep !in r[i]
  {
    var k := IndexOfChar(s, sep);
    if k < 0 then [s] else [s[..k]] + Split(s[k + 1..], sep)
  }

  /** `s.split("\n")`. */
  function Lines(s: string): seq<string> {
    Split(s, '\n')
  }

  /** `parts.join(sep)`; an empty list joins to the empty string. */
  function Join(parts: seq<string>, sep: string): string {
    if |parts| == 0 then ""
    else if |parts| == 1 then parts[0]
    else parts[0] + sep + Join(parts[1..], sep)
  }

  /** Joining the pieces of a split with the separator gives back the text. */
  lemma {:induction false} JoinSplit(s: string, sep: char)
    decreases |s|
    ensures Join(Split(s, sep), [sep]) == s
  {
    var k := IndexOfChar(s, sep);
    if k >= 0 {
      var rest := s[k + 1..];
      var tail := Split(rest, sep);
      assert Split(s, sep) == [s[..k]] + tail;
      JoinSplit(rest, sep);
      JoinCons(s[..k], tail, [sep]);
      SliceAround(s, k);
    }
  }

  lemma SliceAround(s: string, k: nat)
    requires k < |s|
    ensures s == s[..k] + [s[k]] + s[k + 1..]
  {
    assert s[..k + 1] == s[..k] + [s[k]];
  }

  /** Splitting at a separator placed between `x` and `y` splits each side
      on its own. */
  lemma {:induction false} SplitConcat(x: string, y: string, sep: char)
    decreases |x|
    ensures Split(x + [sep] + y, sep) == Split(x, sep) + Split(y, sep)
  {
    var s := x + [sep] + y;
    var k := IndexOfChar(x, sep);
    if k < 0 {
      SeparatorAfter(x, y, sep);
      SplitStep(s, sep, |x|);
    } else {
      SeparatorWithin(x, y, sep, k);
      SplitStep(s, sep, k);
      SplitStep(x, sep, k);
      SplitConcat(x[k + 1..], y, sep);
      ConcatAssoc([x[..k]], Split(x[k + 1..], sep), Split(y, sep));
    }
  }

  /** An empty line between `x` and `y`: the lines of each side with one
      empty line between them. */
  lemma BlankLineBetween(x: string, y: string)
    ensures Lines(x + "\n\n" + y) == Lines(x) + [""] + Lines(y)
  {
    assert x + "\n\n" + y == x + ['\n'] + ("" + ['\n'] + y);
    SplitConcat(x, "" + ['\n'] + y, '\n');
    SplitConcat("", y, '\n');
    assert Split("", '\n') == [""];
    ConcatAssoc(Lines(x), [""], Lines(y));
  }

  lemma NoSeparator(s: string, sep: char)
    requires sep !in s
    ensures Split(s, sep) == [s]
  {
  }

  /** Each line followed by a line break. */
  function Terminated(lines: seq<string>): string
    decreases |lines|
  {
    if lines == [] then "" else lines[0] + "\n" + Terminated(lines[1..])
  }

  /** Some lines, each followed by a break, end in a break. */
  lemma {:induction false} TerminatedEnds(lines: seq<string>)
    requires lines != []
    decreases |lines|
    ensures var t := Terminated(lines); |t| > 0 && t[|t| - 1] == '\n'
  {
    var rest := Terminated(lines[1..]);
    assert Terminated(lines) == lines[0] + "\n" + rest;
    if lines[1..] != [] {
      TerminatedEnds(lines[1..]);
    }
  }

  /** Lines without breaks of their own, each followed by a break, split
      back into themselves and the empty text after the last break. */
  lemma {:induction false} LinesTerminated(lines: seq<string>)
    requires forall i :: 0 <= i < |lines| ==> '\n' !in lines[i]
    decreases |lines|
    ensures Lines(Terminated(lines)) == lines + [""]
  {
    if lines == [] {
      assert Split("", '\n') == [""];
    } else {
      var rest := Terminated(lines[1..]);
      assert Terminated(lines) == lines[0] + ['\n'] + rest;
      LinesTerminated(lines[1..]);
      SplitConcat(lines[0], rest, '\n');
      NoSeparator(lines[0], '\n');
      ConcatAssoc([lines[0]], lines[1..], [""]);
      ConsHead(lines);
    }
  }

  lemma SplitStep(s: string, sep: char, k: nat)
    requires k < |s| && IndexOfChar(s, sep) == k
    ensures Split(s, sep) == [s[..k]] + Split(s[k + 1..], sep)
  {
  }

  lemma SeparatorAfter(x: string, y: string, sep: char)
    requires IndexOfChar(x, sep) < 0
    ensures IndexOfChar(x + [sep] + y, sep) == |x|
    ensures (x + [sep] + y)[..|x|] == x && (x + [sep] + y)[|x| + 1..] == y
    ensures Split(x, sep) == [x]
  {
    var s := x + [sep] + y;
    assert s[..|x|] == x;
    IndexOfCharAt(s, sep, |x|);
    assert s[|x| + 1..] == y;
  }

  lemma SeparatorWithin(x: string, y: string, sep: char, k: nat)
    requires 0 <= k && IndexOfChar(x, sep) == k
    ensures IndexOfChar(x + [sep] + y, sep) == k
    ensures (x + [sep] + y)[..k] == x[..k]
    ensures (x + [sep] + y)[k + 1..] == x[k + 1..] + [sep] + y
  {
    var s := x + [sep] + y;
    assert s[..k] == x[..k];
    IndexOfCharAt(s, sep, k);
    assert s[k + 1..] == x[k + 1..] + [sep] + y;
  }

  lemma ConsHead(xs: seq<string>)
    requires |xs| > 0
    ensures xs == [xs[0]] + xs[1..]
  {
  }

  lemma StringAssoc(a: string, b: string, c: string)
    ensures (a + b) + c == a + (b + c)
  {
  }

  lemma ConcatAssoc(a: seq<string>, b: seq<string>, c: seq<string>)
    ensures a + (b + c) == (a + b) + c
  {
  }

  lemma JoinCons(x: string, parts: seq<string>, sep: string)
    requires |parts| >= 1
    ensures Join([x] + parts, sep) == x + sep + Join(parts, sep)
  {
    assert ([x] + parts)[1..] == parts;
  }

  /** Splitting a join of separator-free pieces gives back the pieces. */
  lemma {:induction false} SplitJoin(parts: seq<string>, sep: char)
    requires |parts| >= 1
    requires forall i :: 0 <= i < |parts| ==> sep !in parts[i]
    ensures Split(Join(parts, [sep]), sep) == parts
  {
    if |parts| > 1 {
      var tail := Join(parts[1..], [sep]);
      var s := parts[0] + [sep] + tail;
      assert s[|parts[0]|] == sep;
      assert s[..|parts[0]|] == parts[0];
      IndexOfCharAt(s, sep, |parts[0]|);
      assert s[|parts[0]| + 1..] == tail;
      SplitJoin(parts[1..], sep);
      assert Split(s, sep) == [parts[0]] + parts[1..];
    }
  }

  lemma {:induction false} JoinConcat(a: seq<string>, b: seq<string>, sep: string)
    requires |a| >= 1 && |b| >= 1
    ensures Join(a + b, sep) == Join(a, sep) + sep + Join(b, sep)
  {
    if |a| > 1 {
      JoinConcat(a[1..], b, sep);
      assert (a + b)[1..] == a[1..] + b;
    } else {
      assert (a + b)[1..] == b;
    }
  }

  lemma {:induction false} JoinFree(parts: seq<string>, sep: char, c: char)
    requires c != sep
    requires forall i :: 0 <= i < |parts| ==> c !in parts[i]
    ensures c !in Join(parts, [sep])
  {
    if |parts| > 1 {
      JoinFree(parts[1..], sep, c);
    }
  }

  /** `s.replace(/[...]/g, '')`: every character of `drop` removed. */
  function RemoveAll(s: string, drop: set<char>): (r: string)
    ensures |r| <= |s|
    ensures forall i :: 0 <= i < |r| ==> r[i] !in drop
  {
    if |s| == 0 then "" else (if s[0] in drop then "" else [s[0]]) + RemoveAll(s[1..], drop)
  }

  /** Removal works character by character and keeps the order of the
      characters it keeps. */
  lemma {:induction false} RemoveAllConcat(a: string, b: string, drop: set<char>)
    ensures RemoveAll(a + b, drop) == RemoveAll(a, drop) + RemoveAll(b, drop)
  {
    if |a| > 0 {
      assert (a + b)[1..] == a[1..] + b;
      RemoveAllConcat(a[1..], b, drop);
    } else {
      assert a + b == b;
    }
  }

  /** Text with no character of `drop` is left unchanged. */
  lemma {:induction false} RemoveAllNothing(s: string, drop: set<char>)
    requires forall i :: 0 <= i < |s| ==> s[i] !in drop
    ensures RemoveAll(s, drop) == s
  {
    if |s| > 0 {
      RemoveAllNothing(s[1..], drop);
    }
  }

  /** A character outside `drop` occurs in the result exactly as often as in `s`. */
  lemma {:induction false} RemoveAllCounts(s: string, drop: set<char>, c: char)
    requires c !in drop
    ensures multiset(RemoveAll(s, drop))[c] == multiset(s)[c]
  {
    if |s| > 0 {
      RemoveAllCounts(s[1..], drop, c);
      assert s == [s[0]] + s[1..];
    }
  }
}
