/** `migratePost` and `main` of scripts/migrate-from-old-blog.js: one post
    read, converted and written into its own directory, and the batch over
    every Markdown file of the old blog. */
module Migrate {
  import opened Wrappers
  import opened Text
  import JsPath
  import opened Frontmatter
  import opened Transform
  import opened Images
  import opened Emit

  /** What `migratePost` returns on success. */
  datatype Migrated = Migrated(fileName: string, postId: string)

  /** Line 266: the file name without its `.md` suffix. */
  function PostId(fileName: string): (r: string)
    ensures '/' !in fileName && EndsWith(fileName, ".md") ==> fileName == r + ".md"
  {
    if '/' !in fileName && EndsWith(fileName, ".md") then
      JsPath.BasenameExtOfName(fileName, ".md");
      assert fileName == fileName[..|fileName| - 3] + ".md";
      JsPath.BasenameExt(fileName, ".md")
    else
      JsPath.BasenameExt(fileName, ".md")
  }

  function PostDir(layout: Layout, fileName: string): string {
    JsPath.Join(layout.newPosts, PostId(fileName))
  }

  /** Lines 273-279: the body with its local images copied and relinked. */
  function RelinkedBody(env: Env, layout: Layout, postDir: string, body: string): string {
    var images := LocalImages(body);
    if |images| > 0 then Rewrite(env, layout, postDir, body, images) else body
  }

  /** Line 282: the frontmatter, a blank line, then the body. */
  function NewContent(nf: NewFrontmatter, body: string): string {
    Join(FrontmatterLines(nf), "\n") + "\n\n" + body
  }

  /** The file written for a post whose old file holds `content`. */
  function PostContent(env: Env, layout: Layout, fileName: string, content: string): string {
    var parsed := ParseSpec(content);
    var nf := Transformed(parsed.fields, parsed.body, env.clock(fileName));
    NewContent(nf, RelinkedBody(env, layout, PostDir(layout, fileName), parsed.body))
  }

  function OldFile(layout: Layout, fileName: string): string {
    JsPath.Join(layout.oldPosts, fileName)
  }

  /** `migratePost(fileName)`: the error message of the first call that
      throws, or the migrated post. */
  function MigrationOf(env: Env, layout: Layout, fileName: string): (r: Result<Migrated>)
    ensures r.Ok? ==> r.value == Migrated(fileName, PostId(fileName))
  {
    match env.readFile(OldFile(layout, fileName))
    case Err(m) => Err(m)
    case Ok(content) =>
      var postDir := PostDir(layout, fileName);
      var made := if env.present(postDir) then Done else env.makeDir(postDir);
      if made.Threw? then Err(made.message)
      else
        var written := env.writeFile(JsPath.Join(postDir, "index.md"), PostContent(env, layout, fileName, content));
        if written.Threw? then Err(written.message) else Ok(Migrated(fileName, PostId(fileName)))
  }

  /** A post migrates exactly when its old file is read, its directory
      exists or is made, and its new `index.md` is written with the
      converted content; a file that cannot be read fails with the
      message of that error. */
  lemma MigrationOutcome(env: Env, layout: Layout, fileName: string)
    ensures var read := env.readFile(OldFile(layout, fileName));
      var postDir := PostDir(layout, fileName);
      && (MigrationOf(env, layout, fileName).Ok? <==>
            && read.Ok?
            && (env.present(postDir) || env.makeDir(postDir).Done?)
            && env.writeFile(JsPath.Join(postDir, "index.md"),
                             PostContent(env, layout, fileName, read.value)).Done?)
      && (read.Err? ==> MigrationOf(env, layout, fileName) == Err(read.message))
  {
  }

  /** `migratePost(fileName)`, stage by stage. */
  method MigratePost(env: Env, layout: Layout, fileName: string) returns (r: Result<Migrated>)
    ensures r == MigrationOf(env, layout, fileName)
  {
    var oldFilePath := OldFile(layout, fileName);
    var read := env.readFile(oldFilePath);
    if read.Err? {
      return Err(read.message);
    }
    var content := read.value;
    var body, newFrontmatter := Convert(content, env.clock(fileName));
    var postId := PostId(fileName);
    var postDirPath := JsPath.Join(layout.newPosts, postId);
    if !env.present(postDirPath) {
      var made := env.makeDir(postDirPath);
      if made.Threw? {
        return Err(made.message);
      }
    }
    var updatedBody := Relink(env, layout, postDirPath, body);
    var frontmatter := GenerateFrontmatter(newFrontmatter);
    var newContent := frontmatter + "\n\n" + updatedBody;
    var written := env.writeFile(JsPath.Join(postDirPath, "index.md"), newContent);
    if written.Threw? {
      return Err(written.message);
    }
    r := Ok(Migrated(fileName, postId));
  }

  /** Lines 259-263: the old frontmatter parsed and converted. */
  method Convert(content: string, nowIso: string) returns (body: string, nf: NewFrontmatter)
    ensures body == ParseSpec(content).body
    ensures nf == Transformed(ParseSpec(content).fields, body, nowIso)
  {
    var parsed := ParseFrontmatter(content);
    body := parsed.body;
    nf := TransformFrontmatter(parsed.fields, parsed.body, nowIso);
  }

  /** Lines 273-280: the local images found, copied and relinked. */
  method Relink(env: Env, layout: Layout, postDir: string, body: string) returns (updated: string)
    ensures updated == RelinkedBody(env, layout, postDir, body)
  {
    var localImages := FindLocalImages(body);
    updated := body;
    if |localImages| > 0 {
      updated := UpdateImagePaths(env, layout, body, localImages, postDir);
    }
  }

  // ---------------------------------------------------------------------------
  // The written file.

  lemma ValueOneLine(v: Value)
    requires ValueOk(v)
    ensures '\n' !in JsString(v)
  {
    if v.List? {
      JoinFree(v.items, ',', '\n');
    }
  }

  lemma LookupOneLine(fields: Fields, key: string, fallback: Value)
    requires FieldsOk(fields) && '\n' !in JsString(fallback)
    ensures '\n' !in JsString(Lookup(fields, key).GetOr(fallback))
  {
    if key in fields {
      ValueOneLine(fields[key]);
    }
  }

  lemma DatePartOneLine(iso: string)
    requires '\n' !in iso
    ensures '\n' !in DatePart(iso)
  {
    var d := DatePart(iso);
    assert d == iso[..|d|];
    assert forall k :: 0 <= k < |d| ==> d[k] == iso[k];
  }

  lemma CategoryOneLine(fields: Fields)
    requires FieldsOk(fields)
    ensures '\n' !in CategoryOf(MigratedTags(fields))
  {
    var tags := MigratedTags(fields);
    if |tags| > 0 && "tags" in fields {
      var v := fields["tags"];
      if v.List? {
        assert tags[0] == v.items[0];
      }
    }
  }

  /** On fields the scanner produced and a clock reading without a line
      break, no field of the new record holds one. */
  lemma TransformedOneLine(fields: Fields, body: string, nowIso: string)
    requires FieldsOk(fields) && '\n' !in nowIso
    ensures SingleLine(Transformed(fields, body, nowIso))
  {
    var published := Lookup(fields, "date").GetOr(Scalar(DatePart(nowIso)));
    DatePartOneLine(nowIso);
    LookupOneLine(fields, "date", Scalar(DatePart(nowIso)));
    LookupOneLine(fields, "updated", published);
    LookupOneLine(fields, "title", Scalar("Untitled"));
    assert '\n' !in "Untitled";
    LookupOneLine(fields, "headerImage", Scalar(""));
    DescriptionOneLine(body);
    CategoryOneLine(fields);
  }

  /** Line by line, the text `generateFrontmatter(nf) + "\n\n" + body`
      is the nine frontmatter lines, one empty line, then the lines of
      the body. */
  lemma NewContentLines(nf: NewFrontmatter, body: string)
    requires SingleLine(nf)
    ensures Lines(NewContent(nf, body)) == FrontmatterLines(nf) + [""] + Lines(body)
  {
    FrontmatterSplits(nf);
    BlankLineBetween(Join(FrontmatterLines(nf), "\n"), body);
  }

  /** The same for the file written for a post, whose record comes from
      the scanned frontmatter and a clock reading without a line break. */
  lemma PostContentLines(env: Env, layout: Layout, fileName: string, content: string)
    requires '\n' !in env.clock(fileName)
    ensures var parsed := ParseSpec(content);
      var nf := Transformed(parsed.fields, parsed.body, env.clock(fileName));
      var body := RelinkedBody(env, layout, PostDir(layout, fileName), parsed.body);
      Lines(PostContent(env, layout, fileName, content)) == FrontmatterLines(nf) + [""] + Lines(body)
  {
    var parsed := ParseSpec(content);
    var nf := Transformed(parsed.fields, parsed.body, env.clock(fileName));
    ParseSpecOk(content);
    TransformedOneLine(parsed.fields, parsed.body, env.clock(fileName));
    NewContentLines(nf, RelinkedBody(env, layout, PostDir(layout, fileName), parsed.body));
  }

  // ---------------------------------------------------------------------------
  // The batch.

  datatype Failure = Failure(fileName: string, error: string)

  datatype Report = Report(success: seq<Migrated>, failed: seq<Failure>)

  /** Line 303: the directory entries that end in `.md`, in order. */
  function MarkdownFiles(entries: seq<string>): (r: seq<string>)
    ensures forall i :: 0 <= i < |r| ==> r[i] in entries && EndsWith(r[i], ".md")
    ensures forall f :: f in entries && EndsWith(f, ".md") ==> f in r
  {
    if entries == [] then []
    else (if EndsWith(entries[0], ".md") then [entries[0]] else []) + MarkdownFiles(entries[1..])
  }

  /** The filter keeps the order of the listing: filtering a listing in two
      parts is filtering each part. */
  lemma {:induction false} MarkdownFilesConcat(a: seq<string>, b: seq<string>)
    decreases |a|
    ensures MarkdownFiles(a + b) == MarkdownFiles(a) + MarkdownFiles(b)
  {
    if a != [] {
      assert (a + b)[0] == a[0] && (a + b)[1..] == a[1..] + b;
      MarkdownFilesConcat(a[1..], b);
      ConcatAssoc((if EndsWith(a[0], ".md") then [a[0]] else []), MarkdownFiles(a[1..]), MarkdownFiles(b));
    } else {
      assert a + b == b;
    }
  }

  /** Hence a listing extended by one entry: the entry is kept at the end
      exactly when it ends in `.md`. */
  lemma MarkdownFilesSnoc(entries: seq<string>, x: string)
    ensures MarkdownFiles(entries + [x]) ==
      MarkdownFiles(entries) + (if EndsWith(x, ".md") then [x] else [])
  {
    MarkdownFilesConcat(entries, [x]);
    assert MarkdownFiles([x]) == (if EndsWith(x, ".md") then [x] else []) + MarkdownFiles([]);
  }

  /** One file and the outcome of migrating it. */
  type Attempt = (string, Result<Migrated>)

  /** A successful outcome names the file it came from. */
  predicate Named(attempts: seq<Attempt>) {
    forall i :: 0 <= i < |attempts| && attempts[i].1.Ok? ==> attempts[i].1.value.fileName == attempts[i].0
  }

  /** The outcome of migrating each file. */
  function Attempts(env: Env, layout: Layout, files: seq<string>): (r: seq<Attempt>)
    ensures Named(r)
  {
    seq(|files|, i requires 0 <= i < |files| => (files[i], MigrationOf(env, layout, files[i])))
  }

  /** One round of the loop of `main`: the outcome goes to one of the lists. */
  function Record(report: Report, attempt: Attempt): Report {
    match attempt.1
    case Ok(m) => report.(success := report.success + [m])
    case Err(e) => report.(failed := report.failed + [Failure(attempt.0, e)])
  }

  /** The lists after the loop has run over `attempts`. */
  function Tally(attempts: seq<Attempt>): Report
    decreases |attempts|
  {
    if attempts == [] then Report([], [])
    else Record(Tally(attempts[..|attempts| - 1]), attempts[|attempts| - 1])
  }

  /** The report of `main` over `files`. */
  function Batch(env: Env, layout: Layout, files: seq<string>): Report {
    Tally(Attempts(env, layout, files))
  }

  /** Lines 307-322: each file migrated inside its own try/catch. */
  method RunBatch(env: Env, layout: Layout, files: seq<string>) returns (results: Report)
    ensures results == Batch(env, layout, files)
  {
    ghost var attempts := Attempts(env, layout, files);
    results := Report([], []);
    for i := 0 to |files|
      invariant results == Tally(attempts[..i])
    {
      var fileName := files[i];
      assert attempts[..i + 1][..i] == attempts[..i];
      var result := MigratePost(env, layout, fileName);
      if result.Ok? {
        results := results.(success := results.success + [result.value]);
      } else {
        results := results.(failed := results.failed + [Failure(fileName, result.message)]);
      }
    }
    assert attempts[..|files|] == attempts;
  }

  /** The files of `attempts` whose outcome is a success (`ok`) or a
      failure (`!ok`), in order. */
  function Picked(attempts: seq<Attempt>, ok: bool): seq<string>
    decreases |attempts|
  {
    if attempts == [] then []
    else
      var last := attempts[|attempts| - 1];
      Picked(attempts[..|attempts| - 1], ok) + (if last.1.Ok? == ok then [last.0] else [])
  }

  /** The file each entry of a list names, in order. */
  function Names<T>(xs: seq<T>, name: T -> string): (r: seq<string>)
    ensures |r| == |xs|
    ensures forall i :: 0 <= i < |xs| ==> r[i] == name(xs[i])
  {
    if xs == [] then [] else Names(xs[..|xs| - 1], name) + [name(xs[|xs| - 1])]
  }

  function SuccessName(m: Migrated): string {
    m.fileName
  }

  function FailureName(f: Failure): string {
    f.fileName
  }

  /** Every attempt lands in exactly one list, both lists keep the order
      of the attempts, and each entry is the outcome of its own file. */
  lemma TallyPartition(attempts: seq<Attempt>)
    requires Named(attempts)
    ensures var r := Tally(attempts);
      && |r.success| + |r.failed| == |attempts|
      && Names(r.success, SuccessName) == Picked(attempts, true)
      && Names(r.failed, FailureName) == Picked(attempts, false)
      && (forall i :: 0 <= i < |r.success| ==> (r.success[i].fileName, Ok(r.success[i])) in attempts)
      && (forall i :: 0 <= i < |r.failed| ==> (r.failed[i].fileName, Err(r.failed[i].error)) in attempts)
  {
    TallyNames(attempts);
    TallyMembers(attempts);
  }

  /** The lists hold the names of the successful and the failed attempts, in order. */
  lemma {:induction false} TallyNames(attempts: seq<Attempt>)
    requires Named(attempts)
    decreases |attempts|
    ensures var r := Tally(attempts);
      && |r.success| + |r.failed| == |attempts|
      && Names(r.success, SuccessName) == Picked(attempts, true)
      && Names(r.failed, FailureName) == Picked(attempts, false)
  {
    if attempts != [] {
      var init := attempts[..|attempts| - 1];
      var last := attempts[|attempts| - 1];
      assert Named(init);
      TallyNames(init);
      var r0 := Tally(init);
      if last.1.Ok? {
        assert Names(r0.success + [last.1.value], SuccessName) == Names(r0.success, SuccessName) + [last.0];
      } else {
        assert Names(r0.failed + [Failure(last.0, last.1.message)], FailureName) == Names(r0.failed, FailureName) + [last.0];
      }
    }
  }

  /** Each entry of either list is the outcome of one of the attempts. */
  lemma {:induction false} TallyMembers(attempts: seq<Attempt>)
    requires Named(attempts)
    decreases |attempts|
    ensures var r := Tally(attempts);
      && (forall i :: 0 <= i < |r.success| ==> (r.success[i].fileName, Ok(r.success[i])) in attempts)
      && (forall i :: 0 <= i < |r.failed| ==> (r.failed[i].fileName, Err(r.failed[i].error)) in attempts)
  {
    if attempts != [] {
      var init := attempts[..|attempts| - 1];
      var last := attempts[|attempts| - 1];
      assert Named(init);
      TallyMembers(init);
      assert forall i :: 0 <= i < |Tally(init).success| ==> (Tally(init).success[i].fileName, Ok(Tally(init).success[i])) in init;
      assert forall i :: 0 <= i < |Tally(init).failed| ==> (Tally(init).failed[i].fileName, Err(Tally(init).failed[i].error)) in init;
      assert forall a :: a in init ==> a in attempts;
      assert last in attempts;
    }
  }

  /** An outcome does not depend on the attempts before it: the lists over
      `a + b` are the lists over `a` followed by the lists over `b`. */
  lemma {:induction false} TallyConcat(a: seq<Attempt>, b: seq<Attempt>)
    decreases |b|
    ensures Tally(a + b) == Report(Tally(a).success + Tally(b).success, Tally(a).failed + Tally(b).failed)
  {
    if b == [] {
      assert a + b == a;
    } else {
      var b0 := b[..|b| - 1];
      assert (a + b)[..|a + b| - 1] == a + b0;
      TallyConcat(a, b0);
    }
  }

  /** What `main` reports: every file in exactly one list, in the order of
      `files`; each success carries the file's post id, and each failure
      the message of what threw while migrating it. */
  lemma BatchOutcomes(env: Env, layout: Layout, files: seq<string>)
    ensures var r := Batch(env, layout, files);
      var attempts := Attempts(env, layout, files);
      && |r.success| + |r.failed| == |files|
      && Names(r.success, SuccessName) == Picked(attempts, true)
      && Names(r.failed, FailureName) == Picked(attempts, false)
      && (forall i :: 0 <= i < |r.success| ==>
            r.success[i].postId == PostId(r.success[i].fileName) &&
            MigrationOf(env, layout, r.success[i].fileName).Ok?)
      && (forall i :: 0 <= i < |r.failed| ==>
            MigrationOf(env, layout, r.failed[i].fileName) == Err(r.failed[i].error))
  {
    TallyPartition(Attempts(env, layout, files));
    AttemptsSound(env, layout, files);
  }

  lemma AttemptsSound(env: Env, layout: Layout, files: seq<string>)
    ensures forall a :: a in Attempts(env, layout, files) ==> MigrationOf(env, layout, a.0) == a.1
  {
  }

  // ---------------------------------------------------------------------------
  // The whole run.

  datatype RunOutcome =
    | Aborted(exitCode: int)        // validatePaths called process.exit(1)
    | Crashed(message: string)      // readdirSync threw out of main
    | Completed(report: Report)

  /** `main()`: the two directories are checked first; a missing one ends
      the run before anything is read or written. */
  function RunSpec(env: Env, layout: Layout): (r: RunOutcome)
    ensures r.Aborted? <==> !env.present(layout.oldPosts) || !env.present(layout.newPosts)
    ensures r.Aborted? ==> r.exitCode == 1
    ensures r.Completed? ==> env.readDir(layout.oldPosts).Ok?
    ensures r.Completed? ==>
      r.report == Batch(env, layout, MarkdownFiles(env.readDir(layout.oldPosts).value))
  {
    if !env.present(layout.oldPosts) || !env.present(layout.newPosts) then Aborted(1)
    else
      match env.readDir(layout.oldPosts)
      case Err(m) => Crashed(m)
      case Ok(entries) => Completed(Batch(env, layout, MarkdownFiles(entries)))
  }

  method RunMigration(env: Env, layout: Layout) returns (outcome: RunOutcome)
    ensures outcome == RunSpec(env, layout)
  {
    if !env.present(layout.oldPosts) {
      return Aborted(1);
    }
    if !env.present(layout.newPosts) {
      return Aborted(1);
    }
    var listed := env.readDir(layout.oldPosts);
    if listed.Err? {
      return Crashed(listed.message);
    }
    var files := MarkdownFiles(listed.value);
    var results := RunBatch(env, layout, files);
    outcome := Completed(results);
  }
}
