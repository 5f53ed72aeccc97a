# Blog migration and post scaffolding, modelled in Dafny

This project models the two maintenance scripts of an Astro blog:

- `scripts/migrate-from-old-blog.js` moves posts from an older
  blog into the new blog. For every `.md` file in the old posts directory it does the following:
  - parses the leading `---` frontmatter block with a small line scanner;
  - fills the new seven-field frontmatter record (title, published,
    description, image, tags, category, draft);
  - finds the local `![alt](path)` images, copies each one into the new post
    directory and points the body at the copies;
  - writes `index.md` with the regenerated frontmatter.

  A failure on one file is recorded, and the remaining files are still processed.
- `scripts/new-post.js` scaffolds `src/content/posts/<seed>/index.md` for a title.
  The seed is a UUID with its dashes removed. The file holds a fixed frontmatter template.

The filesystem, the clock and the UUID generator are parameters:
- `Images.Env` is a record of oracle functions: `present`, `readDir`, `readFile`,
  `makeDir`, `copyFile`, `writeFile` and `clock`.
- An oracle that can throw returns a `Result` or a `Status` carrying the error message.
- The directories of both blogs are `Images.Layout`.

Modules, in dependency order:

- `Wrappers`: `Option`, `Result`, `Status`.
- `Text`: the JavaScript string built-ins the scripts use, on `seq<char>`.
- `JsPath`: POSIX `path.basename` and `path.join`.
- `Json`: `JSON.stringify` of an array of strings, with a decoder that reads it back.
- `Frontmatter`: `parseFrontmatter`.
- `Transform`: `transformFrontmatter`.
- `Images`: `findLocalImages`, `copyImage` and `updateImagePaths`.
- `Emit`: `generateFrontmatter`.
- `Migrate`: `migratePost`, the batch loop of `main` and `validatePaths`.
- `NewPost`: the whole of `new-post.js`.

Where the script changes variables step by step, the model is a method: the scanning loop, the regular-expression `exec` loop, the rewrite loop, the `break` loop for the
description, the line pushes and the batch loop. Each method is proved equal to a
specification function. The properties are lemmas about those functions.

The model follows the code where it departs from what it evidently means:

- `new-post.js` builds its paths with `path.join("./src/content/posts/", seed)`,
  which normalises the leading `./` away, so the directory is `src/content/posts/<seed>`.
- `generateFrontmatter` escapes each quote of the description as `\'` (line 238).
  The emitted lines keep that escaping. The doubled-quote escaping a single-quoted
  YAML scalar needs is a separate function, `Emit.CorrectedLines` (see "## Findings").

## Model

| member | source | states |
|---|---|---|
| Frontmatter.BlockEnd | scripts/migrate-from-old-blog.js:32-35 | the block pattern matches only text that starts with `---\n`, and it ends at the first `\n---` at or after index 4 (no earlier one exists); no match when there is none |
| Frontmatter.ParseFrontmatter | scripts/migrate-from-old-blog.js:31-40 | the method returns `ParseSpec(content)`: no block gives an empty map and the text as body; otherwise the block lines are scanned and the rest after the match is trimmed |
| Frontmatter.ScanBlock | scripts/migrate-from-old-blog.js:42-84 | the loop over the block lines yields `ParseLines(lines)`, the scan's map with the final pending list stored; invariant: the three loop variables equal the scan state after the lines seen so far |
| Frontmatter.ScanLine | scripts/migrate-from-old-blog.js:47-77 | one pass of the loop body, with its `continue`, is exactly one `Step` of the scan state |
| Frontmatter.NoBlock | scripts/migrate-from-old-blog.js:32-37 | text without a leading `---\n` or without a later `\n---` gives no fields and the whole text as body |
| Frontmatter.FirstClosingEndsBlock | scripts/migrate-from-old-blog.js:32-40 | when `j` is the first `\n---` after the opening, the fields come from the lines strictly between and the body is everything after `j + 4`, trimmed, whatever follows the dashes |
| Frontmatter.RunConcat | scripts/migrate-from-old-blog.js:47-77 | scanning `a + b` is scanning `b` from the state reached after `a` |
| Frontmatter.ScalarLine | scripts/migrate-from-old-blog.js:63-75 | a `key: value` line with a non-empty value stores the trimmed value under the trimmed key, after any pending list is committed, and leaves the pending state alone |
| Frontmatter.OpenerLine | scripts/migrate-from-old-blog.js:57-72 | a `key:` line commits any pending list and opens an empty list under the new key |
| Frontmatter.ItemsAppend | scripts/migrate-from-old-blog.js:51-54 | while a key is pending, `- item` lines append their trimmed texts to the pending list, in order |
| Frontmatter.ListAtEnd | scripts/migrate-from-old-blog.js:51-82 | a `key:` line followed by one or more items at the end of the block stores exactly that list of item texts under the key |
| Frontmatter.ListEndsAtLine | scripts/migrate-from-old-blog.js:57-61 | a non-item line after a non-empty pending list stores that list under its key, unless the line is a non-empty scalar for that same key |
| Frontmatter.EmptyListDropped | scripts/migrate-from-old-blog.js:69-82 | a `key:` line that is the last line of the block, so that its list collects no items, is not stored: the map equals the one without that line |
| Frontmatter.EmptyListSurvivesScalar | scripts/migrate-from-old-blog.js:51-75 | an empty pending list is not cleared by a scalar line (the guard wants length > 0), so a later `- x` still attaches to the old key |
| Frontmatter.LastScalarWins | scripts/migrate-from-old-blog.js:64-75 | when the last line of the block is a non-empty scalar line for a key, the key maps to that scalar, whatever came before |
| Frontmatter.StartInvariant | scripts/migrate-from-old-blog.js:44-72 | with no key pending, the pending list is empty |
| Frontmatter.ParseSpecOk | scripts/migrate-from-old-blog.js:31-84 | every stored key is non-empty and no key, scalar or list item contains a line break |
| Transform.Lookup | scripts/migrate-from-old-blog.js:90-91 | `fm.key \|\| …` takes the stored value exactly when the key is present and truthy (a list always, a string when not empty) |
| Transform.DatePart | scripts/migrate-from-old-blog.js:91 | `split("T")[0]` is the prefix of the ISO text up to its first `T`: it holds no `T`, and it is the whole text or is followed by a `T` |
| Transform.MigratedTags | scripts/migrate-from-old-blog.js:136-142 | a list is kept as is, a non-empty string becomes a one-element list, no or empty tags give `[]` |
| Transform.CategoryOf | scripts/migrate-from-old-blog.js:145-147 | the first tag, or "" when there are none |
| Transform.FirstEligibleFrom | scripts/migrate-from-old-blog.js:104-119 | the index of the first line whose trimmed text qualifies, every line before it does not qualify, or the end when none does |
| Transform.Clean | scripts/migrate-from-old-blog.js:123-126 | at most 150 characters, none of them `*`, `_` or backquote, and a prefix of the link-stripped, mark-free text (all of it when it fits) |
| Transform.StripLinksNoBracket | scripts/migrate-from-old-blog.js:123-124 | text without `[` has no link to strip and is unchanged |
| Transform.StripFromLink | scripts/migrate-from-old-blog.js:123-124 | a `[text](url)` at the scan position writes `text` and the scan resumes after the `)` |
| Transform.StripFromPlain | scripts/migrate-from-old-blog.js:123-124 | a character other than `[` is copied and the scan moves on by one |
| Transform.LinkAtShape | scripts/migrate-from-old-blog.js:123-124 | every link the scan finds has the `[text](url)` shape of Transform.StripFromLink, with a non-empty text up to the first `]` and a non-empty url up to the next `)` |
| Transform.StripFromNoLink | scripts/migrate-from-old-blog.js:123-124 | at a position where no `[text](url)` starts, the character is copied and the scan moves on by one |
| Transform.DeriveDescription | scripts/migrate-from-old-blog.js:101-128 | the indexed loop with `break` returns `DescriptionOf(body)` |
| Transform.NoEligibleLine | scripts/migrate-from-old-blog.js:101-128 | when no body line qualifies the description is "" |
| Transform.DescriptionFromFirstEligible | scripts/migrate-from-old-blog.js:101-128 | otherwise it is the cleaned first qualifying line, at most 150 characters long and free of `*`, `_` and backquotes |
| Transform.Transformed | scripts/migrate-from-old-blog.js:89-149 | `draft` is false, the description is at most 150 characters long and `category` is the first tag or "" |
| Transform.TransformFrontmatter | scripts/migrate-from-old-blog.js:88-150 | the defaults-then-overwrites method returns `Transformed(fm, body, now)` |
| Transform.TransformParsed | scripts/migrate-from-old-blog.js:89-142 | on scanned fields: title is the old title or "Untitled"; published is `updated`, else `date`, else today; image is `headerImage` or ""; tags is the list, the wrapped scalar or `[]` |
| Transform.TagListKept | scripts/migrate-from-old-blog.js:136-147 | an old tag list is kept unchanged and its first element becomes the category |
| Transform.DescriptionOneLine | scripts/migrate-from-old-blog.js:101-128 | a description never holds a line break |
| Images.ImageAt | scripts/migrate-from-old-blog.js:157 | a match of `/!\[([^\]]*)\]\(([^)]+)\)/` at an index spans at least `![](x)` and stays inside the text |
| Images.TokenAtShape | scripts/migrate-from-old-blog.js:165-169 | a recorded token is exactly `![` alt `](` path `)` |
| Images.ScanFromLocal | scripts/migrate-from-old-blog.js:160-170 | a local token at the scan position is recorded with its alt and path and the scan resumes after it |
| Images.ScanFromRemote | scripts/migrate-from-old-blog.js:164 | an `http://` or `https://` token is skipped over, not recorded |
| Images.ImageAtShape | scripts/migrate-from-old-blog.js:157 | every token the scan finds has the `![alt](path)` shape of Images.ScanFromLocal, with the alt up to the first `]` and a non-empty path up to the next `)` |
| Images.ScanFromNoToken | scripts/migrate-from-old-blog.js:157-171 | at a position where no `![alt](path)` starts, nothing is recorded and the scan moves on by one |
| Images.NoTokenNoImages | scripts/migrate-from-old-blog.js:153-174 | a body without any `![` yields no images |
| Images.LocalImagesShape | scripts/migrate-from-old-blog.js:153-174 | every record is a well-formed local token that occurs in the body; the matches are in order of occurrence and do not overlap |
| Images.FindLocalImages | scripts/migrate-from-old-blog.js:153-174 | the `exec` loop returns `LocalImages(body)` |
| Images.ExecStep | scripts/migrate-from-old-blog.js:160-171 | one position of the forward search that `exec` makes: the local token starting there, if any, is added, and the search goes on after it or at the next position |
| Images.SourcePath | scripts/migrate-from-old-blog.js:181-201 | the pooled resources copy if it exists; a `../resources/` path has no other candidate; any other path falls back to `OLD_POSTS_DIR/path` if that exists; otherwise none |
| Images.CopyImage | scripts/migrate-from-old-blog.js:177-214 | the base name of the path exactly when a source exists and the copy into the post directory does not throw; none otherwise |
| Images.UpdateImagePaths | scripts/migrate-from-old-blog.js:217-230 | the loop returns `Rewrite(body, images)`, each image tried in order on the body as rewritten so far |
| Images.RewriteSnoc | scripts/migrate-from-old-blog.js:220-227 | trying one more image rewrites the result of the earlier ones |
| Images.RewriteOneFailed | scripts/migrate-from-old-blog.js:221-222 | an image whose copy fails leaves the body unchanged |
| Images.RewriteOneCopied | scripts/migrate-from-old-blog.js:222-225 | a copied image with a non-empty base name (the `if (newFileName)` test) replaces only the first occurrence of its token by `![alt](./<basename>)` |
| Images.RewriteNoneCopied | scripts/migrate-from-old-blog.js:217-230 | when no copy succeeds, including when the list is empty, the body is unchanged |
| Emit.FrontmatterLines | scripts/migrate-from-old-blog.js:234-247 | nine lines, `---` first and last; what the description and tags lines hold is stated by Emit.FrontmatterValues |
| Emit.BackslashQuotes | scripts/migrate-from-old-blog.js:238 | `replace(/'/g, "\\'")`: the text is not shortened, and every quote in the result has a backslash right before it |
| Emit.CorrectedLines | scripts/migrate-from-old-blog.js:234-247 | the corrected rendering: the eight other lines as written, and a description line that reads back, as a single-quoted YAML scalar, to the description |
| Emit.CorrectedAgrees | scripts/migrate-from-old-blog.js:238 | for a description without a quote the corrected lines are the lines as written |
| Emit.GenerateFrontmatter | scripts/migrate-from-old-blog.js:233-250 | the pushes give the nine lines, joined with `\n` |
| Emit.FrontmatterSplits | scripts/migrate-from-old-blog.js:249 | when no value holds a line break, splitting the output at `\n` gives back exactly the nine lines |
| Emit.FrontmatterValues | scripts/migrate-from-old-blog.js:238-243 | the description line as written reads back, as a single-quoted YAML scalar, to the description exactly when the description holds no quote; the tags line reads back, as a JSON array, to the tags |
| Emit.CorrectedValues | scripts/migrate-from-old-blog.js:238 | the description line of the corrected lines reads back to the description, whatever it holds |
| Emit.QuotedRoundTrip | scripts/migrate-from-old-blog.js:238 | the corrected escaping, each quote doubled, reads back to the original text |
| Emit.BackslashQuotedUnreadable | scripts/migrate-from-old-blog.js:238 | the escaping as written (`\'`) makes a description holding a quote unreadable as a single-quoted scalar |
| Json.DecodeEscapeChar | scripts/migrate-from-old-blog.js:242 | each escaped character decodes back to itself, consuming exactly its escape |
| Json.ReadEscaped | scripts/migrate-from-old-blog.js:242 | an escaped string body followed by a closing quote reads back to the string |
| Json.ParseQuoted | scripts/migrate-from-old-blog.js:242 | a non-empty comma-joined list of quoted strings followed by `]` reads back to the list |
| Json.StringArray | scripts/migrate-from-old-blog.js:242 | `JSON.stringify` of a string array is a bracketed text; Json.StringArrayRoundTrip is its decoder's round trip |
| Json.StringArrayRoundTrip | scripts/migrate-from-old-blog.js:242 | `JSON.stringify` of every string array parses back to the same array |
| Json.StringArrayNoControl | scripts/migrate-from-old-blog.js:242 | the JSON text holds no control character, so the tags line is one line |
| JsPath.Basename | scripts/migrate-from-old-blog.js:179 | the text after the last `/` once the trailing slashes are dropped: it holds no `/`, ends where the trailing slashes begin, and starts at the beginning of the path or just after a `/` |
| JsPath.BasenameOfName | scripts/migrate-from-old-blog.js:179 | a name without `/` is its own base name |
| JsPath.BasenameExtOfName | scripts/migrate-from-old-blog.js:266 | a directory entry ending in `.md` loses exactly that suffix |
| Text.ReplaceFirst | scripts/migrate-from-old-blog.js:225 | only the first occurrence of the pattern is replaced; text without it is unchanged |
| Text.JoinSplit | scripts/migrate-from-old-blog.js:43 | joining the pieces of a split with the separator gives back the text |
| Text.SplitJoin | scripts/migrate-from-old-blog.js:249 | splitting pieces without the separator, once joined, gives back the pieces |
| Migrate.PostId | scripts/migrate-from-old-blog.js:266 | `path.basename(fileName, ".md")`: a directory entry ending in `.md` is its post id followed by `.md` |
| Migrate.MigrationOf | scripts/migrate-from-old-blog.js:253-292 | a successful migration records the file name and its post id (the name without `.md`) |
| Migrate.MigrationOutcome | scripts/migrate-from-old-blog.js:256-287 | a post migrates exactly when its file is read, its directory exists or is made, and `index.md` is written with the converted content; an unreadable file fails with that error |
| Migrate.MigratePost | scripts/migrate-from-old-blog.js:253-292 | the stages in the source's order give `MigrationOf`, the first throwing call's message |
| Migrate.Convert | scripts/migrate-from-old-blog.js:259-263 | the parsed body and the record built from the parsed fields |
| Migrate.Relink | scripts/migrate-from-old-blog.js:273-280 | the body with its images relinked, unchanged when there are none |
| Migrate.NewContentLines | scripts/migrate-from-old-blog.js:283 | line by line the file is the nine frontmatter lines, one empty line, then the lines of the body |
| Migrate.PostContentLines | scripts/migrate-from-old-blog.js:256-283 | the same for the file written for a post, whenever the clock reading holds no line break |
| Migrate.TransformedOneLine | scripts/migrate-from-old-blog.js:88-150 | on scanned fields, no field of the new record holds a line break |
| Migrate.MarkdownFiles | scripts/migrate-from-old-blog.js:303 | exactly the directory entries ending in `.md` |
| Migrate.MarkdownFilesConcat | scripts/migrate-from-old-blog.js:303 | the filter keeps the listing's order: filtering `a + b` is filtering `a`, then `b` |
| Migrate.MarkdownFilesSnoc | scripts/migrate-from-old-blog.js:303 | one more entry is appended at the end of the result exactly when it ends in `.md` |
| Migrate.RunBatch | scripts/migrate-from-old-blog.js:307-322 | the try/catch loop returns `Batch(files)`; invariant: the lists equal the tally of the files seen so far |
| Migrate.TallyPartition | scripts/migrate-from-old-blog.js:313-322 | every file lands in exactly one list; both lists keep the files' order; each entry is the outcome of its own file |
| Migrate.TallyConcat | scripts/migrate-from-old-blog.js:313-322 | a failure does not affect later files: the lists over `a + b` are those over `a` followed by those over `b` |
| Migrate.BatchOutcomes | scripts/migrate-from-old-blog.js:303-322 | every file in exactly one list, in order; each success carries the file's post id; each failure carries the message of what threw |
| Migrate.RunSpec | scripts/migrate-from-old-blog.js:18-28 | the run aborts with exit code 1 exactly when a directory is missing; a completed run reports the batch over the listed `.md` files |
| Migrate.RunMigration | scripts/migrate-from-old-blog.js:295-322 | `main()` computes `RunSpec` |
| NewPost.Decimal | scripts/new-post.js:10-11 | `String(n)`: only digits, at least one, no leading zero |
| NewPost.DecimalValue | scripts/new-post.js:10-11 | the digits denote `n` |
| NewPost.Pad2 | scripts/new-post.js:10-11 | `padStart(2, "0")`: length at least 2, the text at the end, zeros before it |
| NewPost.TwoDigits | scripts/new-post.js:10-11 | a padded number below 100 is two digits that denote it |
| NewPost.IntStringRead | scripts/new-post.js:9-13 | the year as written reads back to the year, negative years included |
| NewPost.MonthDayRead | scripts/new-post.js:10-13 | `-MM-DD` reads back to month and day |
| NewPost.DateString | scripts/new-post.js:7-14 | `getDate()`: the year as `String` writes it, a `-`, the month (0-based plus one) as two digits, a `-`, the day as two digits |
| NewPost.DateRoundTrip | scripts/new-post.js:7-14 | `getDate()` reads back to the year, `getMonth() + 1` and the day |
| NewPost.Seed | scripts/new-post.js:27 | no `-` is left |
| NewPost.SeedKeeps | scripts/new-post.js:27 | every other character survives as often as before |
| NewPost.UuidSeed | scripts/new-post.js:27 | the seed of a UUID is its five hex groups run together in order: 32 hex digits |
| NewPost.Run | scripts/new-post.js:16-56 | no argument exactly when the outcome is the usage error; an existing directory exactly when it is refused; exit code 0 exactly on creation; and then the directory, the file and the template content |
| NewPost.ImageUrl | scripts/new-post.js:43 | the picsum URL: the fixed `https://picsum.photos/seed/` prefix, the seed, then `/1920/1080` |
| NewPost.Content | scripts/new-post.js:45-54 | the template starts with `---` and the title line, and ends in a line break |
| NewPost.ContentExact | scripts/new-post.js:45-54 | the file is exactly the nine template lines, each ending in a line break, and nothing after |

## Left out

- File system: every call into `fs` is an oracle of `Images.Env`. The `present` oracle is fixed for the whole run, so a directory made or a file copied earlier in the run does not change what later `existsSync` calls see.
- Console output (the banners, the progress lines, the final statistics of lines 324-338) is left out. The counts it prints are the lengths of the report lists.
- `process.exit(1)` in `validatePaths` is the `Aborted(1)` outcome. A `readdirSync` that throws out of `main` is `Crashed`.
- The clock: `new Date().toISOString()` is `env.clock(fileName)`, read once for each post. In the new-post script the date is the inputs `year`, `month0` and `day`.
- NewPost.Run: takes the UUID in the form `crypto.randomUUID()` returns (`IsUuid`), the month as 0-11 and the day as 1-31. These are the value ranges of the inputs, not checks made by the script.
- New-post effects: `mkdirSync` and `writeFileSync` are assumed to succeed. A throw from either, which would end the script with a stack trace, is not modelled.
- `path.resolve` and `__dirname` are not modelled. The directories of both blogs come in as `Images.Layout`.
- `path.join` is concatenation with one `/`, without normalising `..`, `.` or doubled slashes. The new-post path is written in its normalised form.
- `path.basename` splits on `/` only. The Windows `..\resources\` test is kept as a literal substring test.
- Text.ReplaceFirst: takes the replacement literally. `$&`, `$1` and the other `$` patterns that `String.prototype.replace` would expand in an alt text or file name are not modelled.
- Transform.Clean: counts `seq<char>` elements, where `slice(0, 150)` counts UTF-16 code units. A character outside the Basic Multilingual Plane counts once here and twice in JavaScript.
- Transform.Qualifies: the `line.length > 20` test of line 115 counts `seq<char>` elements, not UTF-16 code units. A line of 11 characters outside the Basic Multilingual Plane has length 22 in JavaScript and qualifies there, but not here, so the model then picks a later line or "".
- `JSON.stringify`: only the escaping of `"`, `\` and control characters is modelled. A Dafny `char` cannot be a lone surrogate, so the escaping of lone surrogates cannot arise.
- Special object keys: assigning a frontmatter key such as `__proto__` or `constructor` on a plain JavaScript object is not modelled. Every key is an ordinary map entry.
- Emit.FrontmatterValues: reads back only the description and the tags. `title`, `image` and `category` are written unescaped, as the source does, so they are not read back. The description reads back only when it holds no quote, because of the escaping in "## Findings".

## Findings

| source | as written | input that shows it | evidently intended | confidence | as-written member | corrected member |
|---|---|---|---|---|---|---|
| scripts/migrate-from-old-blog.js:238 | each `'` in the description is escaped as `\'` inside a single-quoted YAML scalar | a body whose first paragraph is `It's a long enough opening sentence.` gives `description: 'It\'s a long enough opening sentence.'`. In YAML the quote after the backslash closes the scalar, so the line does not parse | each `'` doubled as `''`, the escape a single-quoted YAML scalar has | likely; not executed | Emit.BackslashQuotedUnreadable | Emit.CorrectedValues |
