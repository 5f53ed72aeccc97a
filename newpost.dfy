/** scripts/new-post.js: scaffolds `src/content/posts/<seed>/index.md` for
    a title given on the command line. The clock, the UUID and the
    "directory exists" test are inputs; the effects (directory creation,
    the write, the exit code) are the outcome. */
module NewPost {
  import opened Wrappers
  import opened Text

  // ---------------------------------------------------------------------------
  // getDate: decimal numbers and zero padding.

  function Digit(n: nat): char
    requires n < 10
  {
    ('0' as int + n) as char
  }

  predicate IsDigit(c: char) {
    '0' <= c <= '9'
  }

  function DigitValue(c: char): nat
    requires IsDigit(c)
  {
    c as int - '0' as int
  }

  /** `String(n)` for a natural number: its decimal digits, most
      significant first, without leading zeros. */
  function Decimal(n: nat): (r: string)
    decreases n
    ensures |r| >= 1
    ensures forall i :: 0 <= i < |r| ==> IsDigit(r[i])
    ensures r[0] == '0' ==> n == 0
  {
    if n < 10 then [Digit(n)] else Decimal(n / 10) + [Digit(n % 10)]
  }

  /** `String(n)` for any integer. */
  function IntString(n: int): string {
    if n < 0 then "-" + Decimal(-n) else Decimal(n)
  }

  /** The number a string of decimal digits denotes. */
  function Value(s: string): nat
    requires forall i :: 0 <= i < |s| ==> IsDigit(s[i])
    decreases |s|
  {
    if s == [] then 0 else Value(s[..|s| - 1]) * 10 + DigitValue(s[|s| - 1])
  }

  predicate AllDigits(s: string) {
    forall i :: 0 <= i < |s| ==> IsDigit(s[i])
  }

  /** Reading the decimal string back gives the number. */
  lemma {:induction false} DecimalValue(n: nat)
    decreases n
    ensures Value(Decimal(n)) == n
  {
    if n >= 10 {
      DecimalValue(n / 10);
      var r := Decimal(n);
      assert r[..|r| - 1] == Decimal(n / 10);
    }
  }

  /** `s.padStart(2, "0")`. */
  function Pad2(s: string): (r: string)
    ensures |r| == if |s| < 2 then 2 else |s|
    ensures r[|r| - |s|..] == s
    ensures forall i :: 0 <= i < |r| - |s| ==> r[i] == '0'
  {
    if |s| == 0 then "00" else if |s| == 1 then "0" + s else s
  }

  /** A month or a day, padded: two digits with the number's value. */
  lemma TwoDigits(n: nat)
    requires n < 100
    ensures Pad2(Decimal(n)) == [Digit(n / 10), Digit(n % 10)]
  {
    if n < 10 {
      assert Decimal(n) == [Digit(n)];
      assert Digit(n / 10) == '0';
    } else {
      assert Decimal(n / 10) == [Digit(n / 10)];
      assert Decimal(n) == [Digit(n / 10)] + [Digit(n % 10)];
    }
  }

  /** Lines 7-14: `year-MM-DD`, with `month0` as `getMonth()` (0-11) and
      `day` as `getDate()` (1-31). */
  function DateString(year: int, month0: nat, day: nat): (r: string)
    requires month0 < 12 && 1 <= day <= 31
    ensures |r| >= 7 && r[..|r| - 6] == IntString(year)
    ensures r[|r| - 6] == '-' && r[|r| - 3] == '-'
    ensures r[|r| - 5..|r| - 3] == [Digit((month0 + 1) / 10), Digit((month0 + 1) % 10)]
    ensures r[|r| - 2..] == [Digit(day / 10), Digit(day % 10)]
  {
    var y := IntString(year);
    var m := Pad2(Decimal(month0 + 1));
    var d := Pad2(Decimal(day));
    TwoDigits(month0 + 1);
    TwoDigits(day);
    DateLayout(y, m, d);
    y + ("-" + m + "-" + d)
  }

  /** Where the parts of `year-mm-dd` sit. */
  lemma DateLayout(y: string, m: string, d: string)
    requires |y| >= 1 && |m| == 2 && |d| == 2
    ensures var r := y + ("-" + m + "-" + d);
      && |r| >= 7 && r[..|r| - 6] == y && r[|r| - 6] == '-' && r[|r| - 3] == '-'
      && r[|r| - 5..|r| - 3] == m && r[|r| - 2..] == d
  {
    var t := "-" + m + "-" + d;
    assert |t| == 6;
    assert (y + t)[..|y|] == y;
  }

  /** An integer as `String` writes it, if `s` is one. */
  function ReadInt(s: string): Option<int> {
    if |s| > 0 && s[0] == '-' then
      (if |s| > 1 && AllDigits(s[1..]) then Some(0 - Value(s[1..])) else None)
    else if |s| > 0 && AllDigits(s) then Some(Value(s))
    else None
  }

  /** Reads `-MM-DD` after the year: `-`, two digits, `-`, two digits. */
  function ReadMonthDay(t: string): Option<(nat, nat)> {
    if |t| == 6 && t[0] == '-' && t[3] == '-' && AllDigits(t[1..3]) && AllDigits(t[4..]) then
      Some((Value(t[1..3]), Value(t[4..])))
    else None
  }

  /** Reads `Y-MM-DD` back into year, month (1-12) and day. */
  function ReadDate(s: string): Option<(int, nat, nat)> {
    if |s| < 6 then None
    else match (ReadInt(s[..|s| - 6]), ReadMonthDay(s[|s| - 6..]))
      case (Some(y), Some((m, d))) => Some((y, m, d))
      case _ => None
  }

  lemma IntStringRead(n: int)
    ensures ReadInt(IntString(n)) == Some(n)
  {
    if n < 0 {
      NegativeRead(-n);
    } else {
      DecimalValue(n);
    }
  }

  lemma NegativeRead(m: nat)
    ensures ReadInt("-" + Decimal(m)) == Some(0 - m)
  {
    var d := Decimal(m);
    DecimalValue(m);
    assert ("-" + d)[1..] == d;
  }

  lemma MonthDayRead(m: nat, d: nat)
    requires m < 100 && d < 100
    ensures ReadMonthDay("-" + Pad2(Decimal(m)) + "-" + Pad2(Decimal(d))) == Some((m, d))
  {
    var mm, dd := Pad2(Decimal(m)), Pad2(Decimal(d));
    TwoDigits(m);
    TwoDigits(d);
    TwoDigitValue(m);
    TwoDigitValue(d);
    var t := "-" + mm + "-" + dd;
    Slices4("-", mm, "-", dd);
    assert t[1..3] == mm && t[4..] == dd;
    assert |t| == 6 && t[0] == '-' && t[3] == '-';
    assert AllDigits(t[1..3]) && AllDigits(t[4..]);
    assert Value(t[1..3]) == m && Value(t[4..]) == d;
  }

  lemma TwoDigitValue(n: nat)
    requires n < 100
    ensures AllDigits([Digit(n / 10), Digit(n % 10)])
    ensures Value([Digit(n / 10), Digit(n % 10)]) == n
  {
    var a, b := Digit(n / 10), Digit(n % 10);
    assert [a, b][..1] == [a];
    assert [a][..0] == [];
    assert Value([a]) == DigitValue(a) == n / 10;
    assert DigitValue(b) == n % 10;
  }

  lemma Slices4(a: string, b: string, c: string, d: string)
    ensures var t := a + b + c + d;
      && t[..|a|] == a
      && t[|a|..|a| + |b|] == b
      && t[|a| + |b|..|a| + |b| + |c|] == c
      && t[|a| + |b| + |c|..] == d
      && (|c| > 0 ==> t[|a| + |b|] == c[0])
  {
  }

  lemma SplitAt(a: string, b: string)
    ensures (a + b)[..|a|] == a && (a + b)[|a|..] == b
  {
  }

  /** The date reads back: the year as written, the month as
      `getMonth() + 1`, and the day. */
  lemma DateRoundTrip(year: int, month0: nat, day: nat)
    requires month0 < 12 && 1 <= day <= 31
    ensures ReadDate(DateString(year, month0, day)) == Some((year, month0 + 1, day))
  {
    var tail := "-" + Pad2(Decimal(month0 + 1)) + "-" + Pad2(Decimal(day));
    TwoDigits(month0 + 1);
    TwoDigits(day);
    SplitAt(IntString(year), tail);
    IntStringRead(year);
    MonthDayRead(month0 + 1, day);
  }

  // ---------------------------------------------------------------------------
  // The seed.

  predicate IsHex(c: char) {
    '0' <= c <= '9' || 'a' <= c <= 'f'
  }

  predicate AllHex(s: string) {
    forall i :: 0 <= i < |s| ==> IsHex(s[i])
  }

  /** The text form of `crypto.randomUUID()`: groups of 8, 4, 4, 4 and 12
      lower-case hex digits separated by `-`. */
  predicate IsUuid(u: string) {
    && |u| == 36
    && u[8] == '-' && u[13] == '-' && u[18] == '-' && u[23] == '-'
    && AllHex(u[..8]) && AllHex(u[9..13]) && AllHex(u[14..18]) && AllHex(u[19..23]) && AllHex(u[24..])
  }

  /** Line 27: `replace(/-/g, '')`. */
  function Seed(uuid: string): (r: string)
    ensures '-' !in r
  {
    RemoveAll(uuid, {'-'})
  }

  /** Every other character survives, as often as before. */
  lemma SeedKeeps(uuid: string, c: char)
    requires c != '-'
    ensures multiset(Seed(uuid))[c] == multiset(uuid)[c]
  {
    RemoveAllCounts(uuid, {'-'}, c);
  }

  lemma NoDash(s: string)
    requires AllHex(s)
    ensures RemoveAll(s, {'-'}) == s
  {
    RemoveAllNothing(s, {'-'});
  }

  lemma DropDash(a: string, b: string)
    ensures RemoveAll(a + "-" + b, {'-'}) == RemoveAll(a, {'-'}) + RemoveAll(b, {'-'})
  {
    var x := a + "-";
    RemoveAllConcat(x, b, {'-'});
    RemoveAllConcat(a, "-", {'-'});
    DashGone();
    assert RemoveAll(x, {'-'}) == RemoveAll(a, {'-'});
  }

  lemma DashGone()
    ensures RemoveAll("-", {'-'}) == ""
  {
  }

  /** For a UUID the seed is its five hex groups, run together, in order. */
  lemma UuidSeed(u: string)
    requires IsUuid(u)
    ensures Seed(u) == u[..8] + (u[9..13] + (u[14..18] + (u[19..23] + u[24..])))
    ensures |Seed(u)| == 32 && AllHex(Seed(u))
  {
    var g0, g1, g2, g3, g4 := u[..8], u[9..13], u[14..18], u[19..23], u[24..];
    UuidGroups(u);
    DropDash(g0, g1 + "-" + (g2 + "-" + (g3 + "-" + g4)));
    DropDash(g1, g2 + "-" + (g3 + "-" + g4));
    DropDash(g2, g3 + "-" + g4);
    DropDash(g3, g4);
    NoDash(g0);
    NoDash(g1);
    NoDash(g2);
    NoDash(g3);
    NoDash(g4);
    HexConcat(g3, g4);
    HexConcat(g2, g3 + g4);
    HexConcat(g1, g2 + (g3 + g4));
    HexConcat(g0, g1 + (g2 + (g3 + g4)));
  }

  lemma HexConcat(a: string, b: string)
    requires AllHex(a) && AllHex(b)
    ensures AllHex(a + b)
  {
    assert forall i :: 0 <= i < |b| ==> (a + b)[|a| + i] == b[i];
  }

  lemma UuidGroups(u: string)
    requires IsUuid(u)
    ensures u == u[..8] + "-" + (u[9..13] + "-" + (u[14..18] + "-" + (u[19..23] + "-" + u[24..])))
  {
    Cut(u, 23);
    Cut(u[..23], 18);
    Cut(u[..18], 13);
    Cut(u[..13], 8);
  }

  /** `s` cut at a `-` at index `k`. */
  lemma Cut(s: string, k: nat)
    requires k < |s| && s[k] == '-'
    ensures s == s[..k] + "-" + s[k + 1..]
  {
    SliceAround(s, k);
  }

  // ---------------------------------------------------------------------------
  // The script.

  const TargetDir: string := "src/content/posts"

  /** What a run does. */
  datatype Outcome =
    | MissingTitle                        // lines 18-22
    | DirectoryExists(dir: string)        // lines 34-37
    | Created(dir: string, file: string, content: string)

  function ExitCode(o: Outcome): int {
    if o.Created? then 0 else 1
  }

  /** Line 43. */
  function ImageUrl(seed: string): (r: string)
    ensures |r| == |seed| + 37
    ensures StartsWith(r, "https://picsum.photos/seed/") && EndsWith(r, "/1920/1080")
    ensures r[27..|r| - 10] == seed
  {
    var r := "https://picsum.photos/seed/" + seed + "/1920/1080";
    assert |r| == 37 + |seed|;
    assert r[..27] == "https://picsum.photos/seed/";
    assert r[|r| - 10..] == "/1920/1080";
    r
  }

  /** Lines 45-54: the template, whose every line (the last `---`
      included) ends in a line break. */
  function Content(title: string, date: string, imageUrl: string): (r: string)
    ensures StartsWith(r, "---\ntitle: " + title + "\n")
    ensures |r| > 0 && r[|r| - 1] == '\n'
  {
    TemplateStart(title, date, imageUrl);
    TerminatedEnds(ContentLines(title, date, imageUrl));
    Terminated(ContentLines(title, date, imageUrl))
  }

  lemma TemplateStart(title: string, date: string, imageUrl: string)
    ensures StartsWith(Terminated(ContentLines(title, date, imageUrl)), "---\ntitle: " + title + "\n")
  {
    var lines := ContentLines(title, date, imageUrl);
    var rest := Terminated(lines[2..]);
    var head := "---\ntitle: " + title + "\n";
    assert Terminated(lines[1..]) == lines[1] + "\n" + rest;
    assert Terminated(lines) == "---" + "\n" + (lines[1] + "\n" + rest);
    assert "---" + "\n" + (lines[1] + "\n" + rest) == head + rest by {
      StringAssoc("---" + "\n", lines[1] + "\n", rest);
      assert "---" + "\n" + (lines[1] + "\n") == head;
    }
    assert (head + rest)[..|head|] == head;
  }

  /** The lines the new file is made of. */
  function ContentLines(title: string, date: string, imageUrl: string): seq<string> {
    ["---", "title: " + title, "published: " + date, "description: ''", "image: '" + imageUrl + "'",
     "tags: []", "category: ''", "draft: false", "---"]
  }

  /** The whole script, for the arguments after `node script`, the UUID
      drawn, the `existsSync` oracle and today's date. */
  function Run(args: seq<string>, uuid: string, present: string -> bool,
               year: int, month0: nat, day: nat): (o: Outcome)
    requires IsUuid(uuid) && month0 < 12 && 1 <= day <= 31
    ensures o.MissingTitle? <==> args == []
    ensures o.DirectoryExists? <==> args != [] && present(TargetDir + "/" + Seed(uuid))
    ensures ExitCode(o) == 0 <==> o.Created?
    ensures o.Created? ==>
      && o.dir == TargetDir + "/" + Seed(uuid)
      && o.file == o.dir + "/index.md"
      && o.content == Content(args[0], DateString(year, month0, day), ImageUrl(Seed(uuid)))
  {
    if args == [] then MissingTitle
    else
      var seed := Seed(uuid);
      var postDir := TargetDir + "/" + seed;
      if present(postDir) then DirectoryExists(postDir)
      else Created(postDir, postDir + "/index.md",
                   Content(args[0], DateString(year, month0, day), ImageUrl(seed)))
  }

  /** The file is exactly the nine lines in order and nothing after the
      last line break, whenever the title holds no line break of its own. */
  lemma ContentExact(title: string, date: string, imageUrl: string)
    requires '\n' !in title && '\n' !in date && '\n' !in imageUrl
    ensures Lines(Content(title, date, imageUrl)) == ContentLines(title, date, imageUrl) + [""]
  {
    LinesTerminated(ContentLines(title, date, imageUrl));
  }
}
