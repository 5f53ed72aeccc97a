/** `findLocalImages`, `copyImage` and `updateImagePaths` of
    scripts/migrate-from-old-blog.js: the local images a post refers to,
    where each one is copied from, and the body rewritten to point at the
    copies. */
module Images {
  import opened Wrappers
  import opened Text
  import JsPath

  /** One `![alt](path)` token: the whole token, its alt text and its path. */
  datatype ImageRef = ImageRef(original: string, alt: string, path: string)

  /** A token found at index `at` of the body. */
  datatype Found = Found(at: nat, image: ImageRef)

  predicate IsRemote(path: string) {
    StartsWith(path, "http://") || StartsWith(path, "https://")
  }

  /** What every recorded image is: a complete token whose alt text has no
      ']', whose path is not empty, has no ')' and is not http(s). */
  predicate WellFormed(r: ImageRef) {
    && r.original == "![" + r.alt + "](" + r.path + ")"
    && ']' !in r.alt
    && r.path != "" && ')' !in r.path
    && !IsRemote(r.path)
  }

  /** At index `i`, the pattern /!\[([^\]]*)\]\(([^)]+)\)/: gives the index
      of the ']' closing the alt text and the index just past the match. */
  function ImageAt(s: string, i: nat): (r: Option<(nat, nat)>)
    requires i < |s|
    ensures r.Some? ==> i + 2 <= r.value.0 && r.value.0 + 4 <= r.value.1 <= |s|
  {
    if s[i] != '!' || i + 1 >= |s| || s[i + 1] != '[' then None
    else
      var e := FindFrom(s, ']', i + 2);
      if e < 0 || e + 1 >= |s| || s[e + 1] != '(' then None
      else
        var f := FindFrom(s, ')', e + 2);
        if f < e + 3 then None else Some((e, f + 1))
  }

  /** The token of a match at `i`, closing at `e` and ending before `n`. */
  function TokenAt(s: string, i: nat, e: nat, n: nat): ImageRef
    requires i + 2 <= e && e + 4 <= n <= |s|
  {
    ImageRef(s[i..n], s[i + 2..e], s[e + 2..n - 1])
  }

  lemma TokenAtShape(s: string, i: nat, e: nat, n: nat)
    requires i + 2 <= e && e + 4 <= n <= |s|
    requires s[i] == '!' && s[i + 1] == '[' && s[e] == ']' && s[e + 1] == '(' && s[n - 1] == ')'
    ensures var r := TokenAt(s, i, e, n); r.original == "![" + r.alt + "](" + r.path + ")"
  {
    assert s[i..i + 2] == "![" && s[e..e + 2] == "](" && s[n - 1..n] == ")";
    calc {
      s[i..n];
      s[i..i + 2] + s[i + 2..n];
      s[i..i + 2] + (s[i + 2..e] + s[e..n]);
      s[i..i + 2] + (s[i + 2..e] + (s[e..e + 2] + s[e + 2..n]));
      s[i..i + 2] + (s[i + 2..e] + (s[e..e + 2] + (s[e + 2..n - 1] + s[n - 1..n])));
    }
  }

  /** Where the search resumes after looking at index `i`. */
  function NextFrom(s: string, i: nat): (n: nat)
    requires i < |s|
    ensures i < n <= |s|
  {
    match ImageAt(s, i)
    case None => i + 1
    case Some((_, n)) => n
  }

  /** What looking at index `i` records: the local token there, if any. */
  function FoundAt(s: string, i: nat): seq<Found>
    requires i < |s|
  {
    match ImageAt(s, i)
    case None => []
    case Some((e, n)) =>
      var t := TokenAt(s, i, e, n);
      if IsRemote(t.path) then [] else [Found(i, t)]
  }

  /** The regular expression's `exec` loop from index `i`: the local images
      in order of occurrence, with where each one starts. */
  function ScanFrom(s: string, i: nat): seq<Found>
    requires i <= |s|
    decreases |s| - i
  {
    if i == |s| then [] else FoundAt(s, i) + ScanFrom(s, NextFrom(s, i))
  }

  function Images(fs: seq<Found>): (r: seq<ImageRef>)
    ensures |r| == |fs|
    ensures forall j :: 0 <= j < |fs| ==> r[j] == fs[j].image
  {
    if fs == [] then [] else [fs[0].image] + Images(fs[1..])
  }

  /** `findLocalImages(body)`. */
  function LocalImages(body: string): seq<ImageRef> {
    Images(ScanFrom(body, 0))
  }

  /** The tokens of `fs`, all at or after `lo`, occur in `s` where they are
      said to, are well formed, and each ends before the next starts. */
  ghost predicate InOrder(s: string, fs: seq<Found>, lo: nat) {
    && (forall j :: 0 <= j < |fs| ==> lo <= fs[j].at && OccursAt(s, fs[j].image.original, fs[j].at))
    && (forall j :: 0 <= j < |fs| ==> WellFormed(fs[j].image))
    && (forall j :: 0 <= j && j + 1 < |fs| ==> fs[j].at + |fs[j].image.original| <= fs[j + 1].at)
  }

  /** One step of the scan. */
  lemma ScanFromStep(s: string, i: nat)
    requires i < |s|
    ensures ScanFrom(s, i) == FoundAt(s, i) + ScanFrom(s, NextFrom(s, i))
  {
  }

  lemma FoundAtNone(s: string, i: nat)
    requires i < |s| && ImageAt(s, i).None?
    ensures FoundAt(s, i) == [] && NextFrom(s, i) == i + 1
  {
  }

  lemma FoundAtSome(s: string, i: nat, e: nat, n: nat)
    requires i < |s| && ImageAt(s, i) == Some((e, n))
    ensures FoundAt(s, i) ==
      (if IsRemote(TokenAt(s, i, e, n).path) then [] else [Found(i, TokenAt(s, i, e, n))])
    ensures NextFrom(s, i) == n
  {
  }

  /** What one step records is in order and ends where the scan resumes. */
  lemma FoundAtShape(s: string, i: nat)
    requires i < |s|
    ensures InOrder(s, FoundAt(s, i), i)
    ensures forall j :: 0 <= j < |FoundAt(s, i)| ==>
      FoundAt(s, i)[j].at + |FoundAt(s, i)[j].image.original| <= NextFrom(s, i)
  {
    match ImageAt(s, i)
    case None =>
    case Some((e, n)) =>
      var t := TokenAt(s, i, e, n);
      TokenAtShape(s, i, e, n);
      TokenAtFree(s, i, e, n);
  }

  lemma TokenAtFree(s: string, i: nat, e: nat, n: nat)
    requires i < |s| && ImageAt(s, i) == Some((e, n))
    ensures ']' !in TokenAt(s, i, e, n).alt && ')' !in TokenAt(s, i, e, n).path
  {
    var t := TokenAt(s, i, e, n);
    assert FindFrom(s, ']', i + 2) == e;
    forall k | 0 <= k < |t.alt| ensures t.alt[k] != ']' {
      assert t.alt[k] == s[i + 2 + k];
    }
    forall k | 0 <= k < |t.path| ensures t.path[k] != ')' {
      assert t.path[k] == s[e + 2 + k];
    }
  }

  lemma InOrderConcat(s: string, a: seq<Found>, b: seq<Found>, lo: nat, mid: nat)
    requires |a| <= 1 && InOrder(s, a, lo) && InOrder(s, b, mid)
    requires forall j :: 0 <= j < |a| ==> a[j].at + |a[j].image.original| <= mid
    requires lo <= mid
    ensures InOrder(s, a + b, lo)
  {
  }

  /** Each found token starts at or after `i`, occurs where it is said to,
      is well formed, and ends before the next one starts. */
  lemma {:induction false} ScanFromShape(s: string, i: nat)
    requires i <= |s|
    decreases |s| - i
    ensures InOrder(s, ScanFrom(s, i), i)
  {
    if i < |s| {
      ScanFromShape(s, NextFrom(s, i));
      FoundAtShape(s, i);
      ScanFromStep(s, i);
      InOrderConcat(s, FoundAt(s, i), ScanFrom(s, NextFrom(s, i)), i, NextFrom(s, i));
    }
  }

  lemma {:induction false} ImagesConcat(a: seq<Found>, b: seq<Found>)
    ensures Images(a + b) == Images(a) + Images(b)
  {
    if a != [] {
      assert (a + b)[1..] == a[1..] + b;
      ImagesConcat(a[1..], b);
    }
  }

  /** The `exec` loop of `findLocalImages`: each match is recorded unless
      its path is http(s), and the search goes on after the match. */
  method FindLocalImages(body: string) returns (images: seq<ImageRef>)
    ensures images == LocalImages(body)
  {
    images := [];
    ghost var found: seq<Found> := [];
    var i := 0;
    while i < |body|
      invariant i <= |body|
      invariant ScanFrom(body, 0) == found + ScanFrom(body, i)
      invariant images == Images(found)
      decreases |body| - i
    {
      ScanLoopStep(body, i, found);
      var add, next := ExecStep(body, i);
      images := images + add;
      found := found + FoundAt(body, i);
      i := next;
    }
  }

  /** One `exec` at index `i`: the local token found there, if any, and the
      index the search resumes from. */
  method ExecStep(body: string, i: nat) returns (add: seq<ImageRef>, next: nat)
    requires i < |body|
    ensures add == Images(FoundAt(body, i)) && next == NextFrom(body, i)
  {
    var m := ImageAt(body, i);
    if m.None? {
      FoundNothing(body, i);
      return [], i + 1;
    }
    var (e, n) := m.value;
    var t := TokenAt(body, i, e, n);
    FoundToken(body, i, e, n);
    add := if IsRemote(t.path) then [] else [t];
    next := n;
  }

  /** The loop invariant survives one step of the scan. */
  lemma ScanLoopStep(body: string, i: nat, found: seq<Found>)
    requires i < |body| && ScanFrom(body, 0) == found + ScanFrom(body, i)
    ensures ScanFrom(body, 0) == (found + FoundAt(body, i)) + ScanFrom(body, NextFrom(body, i))
    ensures Images(found + FoundAt(body, i)) == Images(found) + Images(FoundAt(body, i))
  {
    ScanFromStep(body, i);
    AppendAssoc(found, FoundAt(body, i), ScanFrom(body, NextFrom(body, i)));
    ImagesConcat(found, FoundAt(body, i));
  }

  /** A step that finds no token records nothing and moves on by one. */
  lemma FoundNothing(body: string, i: nat)
    requires i < |body| && ImageAt(body, i).None?
    ensures Images(FoundAt(body, i)) == [] && NextFrom(body, i) == i + 1
  {
  }

  /** A step that finds a token records it unless it is remote, and
      resumes after it. */
  lemma FoundToken(body: string, i: nat, e: nat, n: nat)
    requires i < |body| && ImageAt(body, i) == Some((e, n))
    ensures NextFrom(body, i) == n
    ensures Images(FoundAt(body, i)) ==
      if IsRemote(TokenAt(body, i, e, n).path) then [] else [TokenAt(body, i, e, n)]
  {
    FoundAtSome(body, i, e, n);
  }

  lemma EmptyAppend(a: seq<Found>)
    ensures [] + a == a
  {
  }

  lemma AppendAssoc(a: seq<Found>, b: seq<Found>, c: seq<Found>)
    ensures a + (b + c) == (a + b) + c
  {
  }

  /** Every found image is a well-formed local token that occurs in the
      body, and the tokens come in order without overlapping. */
  lemma LocalImagesShape(body: string)
    ensures forall j :: 0 <= j < |LocalImages(body)| ==> WellFormed(LocalImages(body)[j])
    ensures forall j :: 0 <= j < |LocalImages(body)| ==> Contains(body, LocalImages(body)[j].original)
    ensures var fs := ScanFrom(body, 0);
      && (forall j :: 0 <= j < |fs| ==> OccursAt(body, fs[j].image.original, fs[j].at))
      && (forall j :: 0 <= j && j + 1 < |fs| ==> fs[j].at + |fs[j].image.original| <= fs[j + 1].at)
  {
    var fs := ScanFrom(body, 0);
    ScanFromShape(body, 0);
    forall j | 0 <= j < |fs|
      ensures Contains(body, LocalImages(body)[j].original)
    {
      ContainsIff(body, fs[j].image.original);
    }
  }

  /** A body in which "![" never occurs has no images. */
  lemma {:induction false} NoTokenNoImages(body: string, i: nat)
    requires i <= |body|
    requires forall k :: i <= k && k + 1 < |body| ==> !(body[k] == '!' && body[k + 1] == '[')
    decreases |body| - i
    ensures ScanFrom(body, i) == []
  {
    if i < |body| {
      assert ImageAt(body, i).None?;
      NoTokenNoImages(body, i + 1);
      ScanFromStep(body, i);
    }
  }

  /** `s` holds a token at index `i` whose alt text ends at the first ']'
      (index `e`) and whose path ends at the next ')' (index `f`). */
  predicate TokenShape(s: string, i: nat, e: nat, f: nat) {
    && i + 2 <= e && e + 3 <= f < |s|
    && s[i] == '!' && s[i + 1] == '[' && s[e] == ']' && s[e + 1] == '(' && s[f] == ')'
    && (forall j :: i + 2 <= j < e ==> s[j] != ']')
    && (forall j :: e + 2 <= j < f ==> s[j] != ')')
  }

  lemma ImageAtIs(s: string, i: nat, e: nat, f: nat)
    requires TokenShape(s, i, e, f)
    ensures ImageAt(s, i) == Some((e, f + 1))
    ensures TokenAt(s, i, e, f + 1) == ImageRef(s[i..f + 1], s[i + 2..e], s[e + 2..f])
  {
    assert FindFrom(s, ']', i + 2) == e;
    assert FindFrom(s, ')', e + 2) == f;
  }

  /** Conversely, every token ImageAt finds has that shape. */
  lemma ImageAtShape(s: string, i: nat, e: nat, n: nat)
    requires i < |s| && ImageAt(s, i) == Some((e, n))
    ensures 1 <= n && TokenShape(s, i, e, n - 1)
  {
  }

  /** Where no token starts, nothing is recorded and the scan moves on by
      one. */
  lemma {:induction false} ScanFromNoToken(s: string, i: nat)
    requires i < |s| && forall e: nat, f: nat :: !TokenShape(s, i, e, f)
    ensures ScanFrom(s, i) == ScanFrom(s, i + 1)
  {
    if ImageAt(s, i).Some? {
      ImageAtShape(s, i, ImageAt(s, i).value.0, ImageAt(s, i).value.1);
      assert false;
    }
    FoundAtNone(s, i);
    ScanFromStep(s, i);
  }

  /** A local token at index `i` is recorded first, and the scan resumes
      after it. */
  lemma {:induction false} ScanFromLocal(s: string, i: nat, e: nat, f: nat)
    requires TokenShape(s, i, e, f) && !IsRemote(s[e + 2..f])
    ensures ScanFrom(s, i) == [Found(i, TokenAt(s, i, e, f + 1))] + ScanFrom(s, f + 1)
  {
    ImageAtIs(s, i, e, f);
    ScanFromFound(s, i, e, f + 1);
  }

  lemma ScanFromFound(s: string, i: nat, e: nat, n: nat)
    requires i < |s| && ImageAt(s, i) == Some((e, n)) && !IsRemote(TokenAt(s, i, e, n).path)
    ensures ScanFrom(s, i) == [Found(i, TokenAt(s, i, e, n))] + ScanFrom(s, n)
  {
    ScanFromStep(s, i);
  }

  lemma ScanFromSkipped(s: string, i: nat, e: nat, n: nat)
    requires i < |s| && ImageAt(s, i) == Some((e, n)) && IsRemote(TokenAt(s, i, e, n).path)
    ensures ScanFrom(s, i) == ScanFrom(s, n)
  {
    ScanFromStep(s, i);
    EmptyAppend(ScanFrom(s, n));
  }

  /** A token whose path is http(s) is skipped whole. */
  lemma {:induction false} ScanFromRemote(s: string, i: nat, e: nat, f: nat)
    requires TokenShape(s, i, e, f) && IsRemote(s[e + 2..f])
    ensures ScanFrom(s, i) == ScanFrom(s, f + 1)
  {
    ImageAtIs(s, i, e, f);
    ScanFromSkipped(s, i, e, f + 1);
  }

  // ---------------------------------------------------------------------------
  // Copying.

  /** The directories of the two blogs. */
  datatype Layout = Layout(oldPosts: string, oldResources: string, newPosts: string)

  /** The world as the migration sees it: whether a path exists, what a
      directory lists, the outcome of each effect, and the ISO time the
      clock reads while a given post file is transformed. */
  datatype Env = Env(
    present: string -> bool,
    readDir: string -> Result<seq<string>>,
    readFile: string -> Result<string>,
    makeDir: string -> Status,
    copyFile: (string, string) -> Status,
    writeFile: (string, string) -> Status,
    clock: string -> string)

  predicate FromResources(imagePath: string) {
    Contains(imagePath, "../resources/") || Contains(imagePath, "..\\resources\\")
  }

  /** Lines 181-201: where the image is copied from, or None when neither
      candidate exists. */
  function SourcePath(env: Env, layout: Layout, imagePath: string): (r: Option<string>)
    ensures var pooled := JsPath.Join(layout.oldResources, JsPath.Basename(imagePath));
      var beside := JsPath.Join(layout.oldPosts, imagePath);
      && (env.present(pooled) ==> r == Some(pooled))
      && (!env.present(pooled) && FromResources(imagePath) ==> r == None)
      && (!env.present(pooled) && !FromResources(imagePath) ==>
            r == (if env.present(beside) then Some(beside) else None))
  {
    var fileName := JsPath.Basename(imagePath);
    var sourcePath :=
      if FromResources(imagePath) then JsPath.Join(layout.oldResources, fileName)
      else
        var pooled := JsPath.Join(layout.oldResources, fileName);
        if !env.present(pooled) then JsPath.Join(layout.oldPosts, imagePath) else pooled;
    if !env.present(sourcePath) then None else Some(sourcePath)
  }

  /** `copyImage(imagePath, postDir)`: the file name of the copy, or None
      (the source was not found or the copy threw). */
  function CopyImage(env: Env, layout: Layout, imagePath: string, postDir: string): (r: Option<string>)
    ensures r.Some? ==> r.value == JsPath.Basename(imagePath)
    ensures r.Some? <==>
      && SourcePath(env, layout, imagePath).Some?
      && env.copyFile(SourcePath(env, layout, imagePath).value,
                      JsPath.Join(postDir, JsPath.Basename(imagePath))).Done?
  {
    match SourcePath(env, layout, imagePath)
    case None => None
    case Some(src) =>
      var fileName := JsPath.Basename(imagePath);
      match env.copyFile(src, JsPath.Join(postDir, fileName))
      case Done => Some(fileName)
      case Threw(_) => None
  }

  /** The token that points at the copy. */
  function Relinked(image: ImageRef, fileName: string): string {
    "![" + image.alt + "](./" + fileName + ")"
  }

  /** One round of the loop of `updateImagePaths`. */
  function RewriteOne(env: Env, layout: Layout, postDir: string, body: string, image: ImageRef): string {
    match CopyImage(env, layout, image.path, postDir)
    case Some(fileName) =>
      if fileName != "" then ReplaceFirst(body, image.original, Relinked(image, fileName)) else body
    case None => body
  }

  /** The body after every image has been tried, in order. */
  function Rewrite(env: Env, layout: Layout, postDir: string, body: string, images: seq<ImageRef>): string
    decreases |images|
  {
    if images == [] then body
    else Rewrite(env, layout, postDir, RewriteOne(env, layout, postDir, body, images[0]), images[1..])
  }

  lemma {:induction false} RewriteSnoc(env: Env, layout: Layout, postDir: string, body: string,
                                       images: seq<ImageRef>, image: ImageRef)
    decreases |images|
    ensures Rewrite(env, layout, postDir, body, images + [image]) ==
      RewriteOne(env, layout, postDir, Rewrite(env, layout, postDir, body, images), image)
  {
    if images == [] {
      assert images + [image] == [image];
    } else {
      assert (images + [image])[1..] == images[1..] + [image];
      RewriteSnoc(env, layout, postDir, RewriteOne(env, layout, postDir, body, images[0]), images[1..], image);
    }
  }

  /** `updateImagePaths(body, images, postDir)`: the loop that copies each
      image and rewrites the body. */
  method UpdateImagePaths(env: Env, layout: Layout, body: string, images: seq<ImageRef>, postDir: string)
    returns (updated: string)
    ensures updated == Rewrite(env, layout, postDir, body, images)
  {
    updated := body;
    for i := 0 to |images|
      invariant updated == Rewrite(env, layout, postDir, body, images[..i])
    {
      RewriteUpTo(env, layout, postDir, body, images, i);
      RewriteOneIs(env, layout, postDir, updated, images[i]);
      var newFileName := CopyImage(env, layout, images[i].path, postDir);
      if newFileName.Some? && newFileName.value != "" {
        updated := ReplaceFirst(updated, images[i].original, Relinked(images[i], newFileName.value));
      }
    }
    assert images[..|images|] == images;
  }

  lemma RewriteUpTo(env: Env, layout: Layout, postDir: string, body: string, images: seq<ImageRef>, i: nat)
    requires i < |images|
    ensures Rewrite(env, layout, postDir, body, images[..i + 1]) ==
      RewriteOne(env, layout, postDir, Rewrite(env, layout, postDir, body, images[..i]), images[i])
  {
    assert images[..i + 1] == images[..i] + [images[i]];
    RewriteSnoc(env, layout, postDir, body, images[..i], images[i]);
  }

  lemma RewriteOneIs(env: Env, layout: Layout, postDir: string, body: string, image: ImageRef)
    ensures var c := CopyImage(env, layout, image.path, postDir);
      RewriteOne(env, layout, postDir, body, image) ==
        if c.Some? && c.value != "" then ReplaceFirst(body, image.original, Relinked(image, c.value)) else body
  {
  }

  /** An image that cannot be copied leaves the body as it is. */
  lemma RewriteOneFailed(env: Env, layout: Layout, postDir: string, body: string, image: ImageRef)
    requires CopyImage(env, layout, image.path, postDir).None?
    ensures RewriteOne(env, layout, postDir, body, image) == body
  {
  }

  /** A copied image has the first occurrence of its token, and only that
      one, replaced by `![alt](./<file name>)`. */
  lemma RewriteOneCopied(env: Env, layout: Layout, postDir: string, body: string, image: ImageRef, k: nat)
    requires CopyImage(env, layout, image.path, postDir).Some?
    requires JsPath.Basename(image.path) != ""
    requires OccursAt(body, image.original, k)
    requires forall j :: 0 <= j < k ==> !OccursAt(body, image.original, j)
    ensures RewriteOne(env, layout, postDir, body, image) ==
      body[..k] + Relinked(image, JsPath.Basename(image.path)) + body[k + |image.original|..]
  {
  }

  /** When no image can be copied, the body comes back unchanged; in
      particular an empty list changes nothing. */
  lemma {:induction false} RewriteNoneCopied(env: Env, layout: Layout, postDir: string, body: string,
                                             images: seq<ImageRef>)
    requires forall j :: 0 <= j < |images| ==> CopyImage(env, layout, images[j].path, postDir).None?
    decreases |images|
    ensures Rewrite(env, layout, postDir, body, images) == body
  {
    if images != [] {
      RewriteNoneCopied(env, layout, postDir, body, images[1..]);
    }
  }
}
