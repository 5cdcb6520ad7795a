/**
 * The whole build (`main` and `copyAssets` in scripts/build-posts.ts). The
 * output directory is a map from file name to text; the build writes one page
 * per post in sorted order, then `index.html`, then copies every non-Markdown
 * entry of the posts directory, each write replacing what was there.
 */
module BlogBuild {
  import opened Wrappers
  import opened Text
  import opened BlogModel
  import opened PostOrder
  import opened BlogPosts
  import opened BlogPages

  /** One file written into the output directory. */
  datatype Write = Write(path: string, text: string)

  const INDEX_FILE := "index.html"
  const PAGE_EXTENSION := ".html"

  /** The output directory after the writes `ws`, in order. */
  function ApplyWrites(out: map<string, string>, ws: seq<Write>): map<string, string> {
    if ws == [] then out
    else
      var last := ws[|ws| - 1];
      ApplyWrites(out, ws[..|ws| - 1])[last.path := last.text]
  }

  /** The text of the last write to `path`, if any. */
  function LastWrite(ws: seq<Write>, path: string): Option<string> {
    if ws == [] then None
    else if ws[|ws| - 1].path == path then Some(ws[|ws| - 1].text)
    else LastWrite(ws[..|ws| - 1], path)
  }

  /** A file of the output holds its last write, or is untouched when nothing wrote it. */
  lemma {:induction false} ApplyWritesLookup(out: map<string, string>, ws: seq<Write>, path: string)
    ensures path in ApplyWrites(out, ws) <==> path in out || LastWrite(ws, path).Some?
    ensures path in ApplyWrites(out, ws) ==>
      ApplyWrites(out, ws)[path] == (if LastWrite(ws, path).Some? then LastWrite(ws, path).value else out[path])
  {
    if ws != [] {
      ApplyWritesLookup(out, ws[..|ws| - 1], path);
    }
  }

  lemma {:induction false} LastWriteAt(ws: seq<Write>, i: nat)
    requires i < |ws|
    requires forall j :: i < j < |ws| ==> ws[j].path != ws[i].path
    ensures LastWrite(ws, ws[i].path) == Some(ws[i].text)
  {
    if i < |ws| - 1 {
      LastWriteAt(ws[..|ws| - 1], i);
    }
  }

  lemma {:induction false} LastWriteNone(ws: seq<Write>, path: string)
    requires forall j :: 0 <= j < |ws| ==> ws[j].path != path
    ensures LastWrite(ws, path) == None
  {
    if ws != [] {
      LastWriteNone(ws[..|ws| - 1], path);
    }
  }

  /** Applying the same writes a second time changes nothing. */
  lemma ApplyWritesTwice(out: map<string, string>, ws: seq<Write>)
    ensures ApplyWrites(ApplyWrites(out, ws), ws) == ApplyWrites(out, ws)
  {
    var once := ApplyWrites(out, ws);
    var twice := ApplyWrites(once, ws);
    forall path
      ensures path in twice <==> path in once
      ensures path in twice ==> twice[path] == once[path]
    {
      ApplyWritesLookup(out, ws, path);
      ApplyWritesLookup(once, ws, path);
    }
  }

  /** `buildPost` for a fixed template: the text of a post's page. */
  function PageOf(template: string, formatDate: string -> string): Post -> string {
    p => PostPage(p, template, formatDate)
  }

  /** One write per post, of `page(post)` to `<slug>.html`, in order. */
  function PostWrites(posts: seq<Post>, page: Post -> string): (ws: seq<Write>)
    ensures |ws| == |posts|
    ensures forall i :: 0 <= i < |posts| ==> ws[i] == Write(posts[i].slug + PAGE_EXTENSION, page(posts[i]))
  {
    seq(|posts|, i requires 0 <= i < |posts| => Write(posts[i].slug + PAGE_EXTENSION, page(posts[i])))
  }

  /** The page of each post, in the order `main` writes them. */
  function PageWrites(posts: seq<Post>, template: string, formatDate: string -> string): (ws: seq<Write>)
    ensures |ws| == |posts|
    ensures forall i :: 0 <= i < |posts| ==>
      ws[i] == Write(posts[i].slug + PAGE_EXTENSION, PostPage(posts[i], template, formatDate))
  {
    PostWrites(posts, PageOf(template, formatDate))
  }

  /** The copies `copyAssets` makes: every non-Markdown entry, under its own name. */
  function AssetWrites(dir: Option<seq<DirEntry>>): (ws: seq<Write>)
    ensures dir.None? ==> ws == []
    ensures dir.Some? ==> |ws| == |AssetFiles(dir.value)|
    ensures dir.Some? ==> forall i :: 0 <= i < |ws| ==>
      ws[i] == Write(AssetFiles(dir.value)[i].name, AssetFiles(dir.value)[i].text)
  {
    match dir
    case None => []
    case Some(listing) =>
      var assets := AssetFiles(listing);
      seq(|assets|, i requires 0 <= i < |assets| => Write(assets[i].name, assets[i].text))
  }

  /** The pages of a build: one per post, then the index. */
  function PageFiles(posts: seq<Post>, template: string, formatDate: string -> string): seq<Write> {
    PageWrites(posts, template, formatDate) + [Write(INDEX_FILE, IndexPage(posts, template, formatDate))]
  }

  /** All writes of a build, in order: post pages, the index, the assets. */
  function BuildWrites(posts: seq<Post>, template: string, dir: Option<seq<DirEntry>>, env: Env): seq<Write> {
    PageFiles(posts, template, env.formatDate) + AssetWrites(dir)
  }

  /** The output directory after `main`, or why it aborted (before any write). */
  function BuildOf(template: Option<string>, dir: Option<seq<DirEntry>>, existing: map<string, string>, env: Env)
    : Result<map<string, string>, BuildError>
  {
    match template
    case None => Err(TemplateUnreadable)
    case Some(t) =>
      match ReadPostsOf(dir, env)
      case Err(e) => Err(e)
      case Ok(posts) => Ok(ApplyWrites(existing, BuildWrites(posts, t, dir, env)))
  }

  lemma ApplyWritesAppend(out: map<string, string>, ws: seq<Write>, w: Write)
    ensures ApplyWrites(out, ws + [w]) == ApplyWrites(out, ws)[w.path := w.text]
  {
    assert (ws + [w])[..|ws|] == ws;
  }

  lemma {:induction false} ApplyWritesConcat(out: map<string, string>, a: seq<Write>, b: seq<Write>)
    ensures ApplyWrites(out, a + b) == ApplyWrites(ApplyWrites(out, a), b)
  {
    if b == [] {
      assert a + b == a;
    } else {
      ApplyWritesConcat(out, a, b[..|b| - 1]);
      assert (a + b)[..|a + b| - 1] == a + b[..|b| - 1];
    }
  }

  /** `copyAssets`: copies every non-Markdown entry of the posts directory, if there is one. */
  method CopyAssets(dir: Option<seq<DirEntry>>, out: map<string, string>) returns (result: map<string, string>)
    ensures result == ApplyWrites(out, AssetWrites(dir))
  {
    result := out;
    if dir.None? {
      return;
    }
    var files := AssetFiles(dir.value);
    ghost var ws := AssetWrites(dir);
    for i := 0 to |files|
      invariant result == ApplyWrites(out, ws[..i])
    {
      ApplyWritesAppend(out, ws[..i], ws[i]);
      assert ws[..i + 1] == ws[..i] + [ws[i]];
      result := result[files[i].name := files[i].text];
    }
    assert ws[..|files|] == ws;
  }

  /** The loop of `main` that calls `buildPost` for each post, in order; `page` is the page text `buildPost` writes. */
  method WritePages(posts: seq<Post>, page: Post -> string, out: map<string, string>)
    returns (result: map<string, string>)
    ensures result == ApplyWrites(out, PostWrites(posts, page))
  {
    ghost var pages := PostWrites(posts, page);
    result := out;
    for i := 0 to |posts|
      invariant result == ApplyWrites(out, pages[..i])
    {
      ApplyWritesAppend(out, pages[..i], pages[i]);
      assert pages[..i + 1] == pages[..i] + [pages[i]];
      result := result[posts[i].slug + PAGE_EXTENSION := page(posts[i])];
    }
    assert pages[..|posts|] == pages;
  }

  /** `main`: reads the posts, writes their pages and the index, then copies the assets. */
  method Build(template: Option<string>, dir: Option<seq<DirEntry>>, existing: map<string, string>, env: Env)
    returns (r: Result<map<string, string>, BuildError>)
    ensures r == BuildOf(template, dir, existing, env)
  {
    if template.None? {
      return Err(TemplateUnreadable);
    }
    var t := template.value;
    var read := ReadPosts(dir, env);
    if read.Err? {
      return Err(read.error);
    }
    var posts := read.value;
    ghost var pages := PageWrites(posts, t, env.formatDate);
    var out := WritePages(posts, PageOf(t, env.formatDate), existing);
    var index := Write(INDEX_FILE, IndexPage(posts, t, env.formatDate));
    ApplyWritesAppend(existing, pages, index);
    out := out[INDEX_FILE := index.text];
    out := CopyAssets(dir, out);
    ApplyWritesConcat(existing, pages + [index], AssetWrites(dir));
    return Ok(out);
  }

  /** Running the build again on its own output, with the same inputs, gives the same output. */
  lemma BuildIdempotent(template: Option<string>, dir: Option<seq<DirEntry>>, existing: map<string, string>,
                        env: Env, out: map<string, string>)
    requires BuildOf(template, dir, existing, env) == Ok(out)
    ensures BuildOf(template, dir, out, env) == Ok(out)
  {
    var posts := ReadPostsOf(dir, env).value;
    ApplyWritesTwice(existing, BuildWrites(posts, template.value, dir, env));
  }

  /** Without a posts directory the build still succeeds and writes only the index, with the fallback line. */
  lemma BuildWithoutPostsDir(template: string, existing: map<string, string>, env: Env)
    ensures BuildOf(Some(template), None, existing, env)
         == Ok(existing[INDEX_FILE := IndexPage([], template, env.formatDate)])
    ensures Contains(IndexContent([], env.formatDate), "<li>No posts yet.</li>")
  {
    var ws := BuildWrites([], template, None, env);
    assert ws == [Write(INDEX_FILE, IndexPage([], template, env.formatDate))];
    ApplyWritesAppend(existing, [], ws[0]);
    assert [] + [ws[0]] == ws;
    PostsListCases([], env.formatDate);
    ContainsMiddle("\n    <h1>Notes</h1>\n    <ul class=\"posts-list\">\n      ", NO_POSTS, "\n    </ul>\n  ");
  }

  /** A malformed front matter in any Markdown source aborts the whole build. */
  lemma BuildAbortsOnBadFrontMatter(template: Option<string>, listing: seq<DirEntry>,
                                     existing: map<string, string>, env: Env, e: DirEntry)
    requires e in listing && IsPostFile(e.name) && env.parse(e.text).Err?
    ensures BuildOf(template, Some(listing), existing, env).Err?
  {
    var files := PostFiles(listing);
    ParsePostsOk(files, env);
    assert e in files;
  }

  /** Entries with distinct names. */
  predicate DistinctNames(es: seq<DirEntry>) {
    forall i, j :: 0 <= i < j < |es| ==> es[i].name != es[j].name
  }

  /** Posts with distinct slugs. */
  predicate DistinctSlugs(ps: seq<Post>) {
    forall i, j :: 0 <= i < j < |ps| ==> ps[i].slug != ps[j].slug
  }

  lemma {:induction false} PostFilesDistinct(listing: seq<DirEntry>)
    requires DistinctNames(listing)
    ensures DistinctNames(PostFiles(listing))
  {
    if listing != [] {
      var rest := PostFiles(listing[1..]);
      PostFilesDistinct(listing[1..]);
      forall j | 0 <= j < |rest|
        ensures rest[j].name != listing[0].name
      {
        var k :| 0 <= k < |listing[1..]| && listing[1..][k] == rest[j];
        assert listing[k + 1] == rest[j];
      }
    }
  }

  lemma {:induction false} InsertDistinct(p: Post, ps: seq<Post>, dateKey: string -> int)
    requires DistinctSlugs(ps)
    requires forall q :: q in ps ==> q.slug != p.slug
    ensures DistinctSlugs(Insert(p, ps, dateKey))
    ensures forall q :: q in Insert(p, ps, dateKey) ==> q == p || q in ps
  {
    if ps != [] && dateKey(ps[0].date) > dateKey(p.date) {
      InsertDistinct(p, ps[1..], dateKey);
      var rest := Insert(p, ps[1..], dateKey);
      assert forall q :: q in rest ==> q.slug != ps[0].slug;
    }
  }

  lemma {:induction false} SortDistinct(ps: seq<Post>, dateKey: string -> int)
    requires DistinctSlugs(ps)
    ensures DistinctSlugs(SortNewestFirst(ps, dateKey))
  {
    if ps != [] {
      var rest := SortNewestFirst(ps[1..], dateKey);
      SortDistinct(ps[1..], dateKey);
      SortedMembers(ps[1..], dateKey);
      InsertDistinct(ps[0], rest, dateKey);
    }
  }

  lemma HtmlNameInjective(a: string, b: string)
    requires a + PAGE_EXTENSION == b + PAGE_EXTENSION
    ensures a == b
  {
    assert a == (a + PAGE_EXTENSION)[..|a|];
    assert b == (b + PAGE_EXTENSION)[..|b|];
  }

  /** Posts read from a directory with distinct names have distinct slugs, each naming a source of the listing. */
  lemma ReadPostsDistinct(listing: seq<DirEntry>, env: Env, posts: seq<Post>)
    requires DistinctNames(listing)
    requires ReadPostsOf(Some(listing), env) == Ok(posts)
    ensures DistinctSlugs(posts)
    ensures forall p :: p in posts ==> exists e :: e in listing && p.slug + POST_EXTENSION == e.name
  {
    var files := PostFiles(listing);
    PostFilesDistinct(listing);
    ParsePostsOk(files, env);
    var parsed := ParsePosts(files, env).value;
    assert DistinctSlugs(parsed) by {
      forall i, j | 0 <= i < j < |parsed|
        ensures parsed[i].slug != parsed[j].slug
      {
        assert parsed[i].slug + POST_EXTENSION == files[i].name;
        assert parsed[j].slug + POST_EXTENSION == files[j].name;
      }
    }
    SortDistinct(parsed, env.dateKey);
    ReadPostsFromSources(listing, env, posts);
  }

  /**
   * In a directory whose entries have distinct names and no `index.md`, the
   * build writes `|posts| + 1` pages to pairwise different files: one per post
   * and the index.
   */
  lemma PagesDistinct(listing: seq<DirEntry>, template: string, env: Env, posts: seq<Post>)
    requires DistinctNames(listing)
    requires forall e :: e in listing ==> e.name != "index.md"
    requires ReadPostsOf(Some(listing), env) == Ok(posts)
    ensures |PageFiles(posts, template, env.formatDate)| == |posts| + 1
    ensures forall i, j :: 0 <= i < j < |posts| + 1 ==>
      PageFiles(posts, template, env.formatDate)[i].path != PageFiles(posts, template, env.formatDate)[j].path
  {
    ReadPostsDistinct(listing, env, posts);
    SlugsNotIndex(listing, posts);
    PageFilesPaths(posts, template, env.formatDate);
    PathsDistinct(posts, PageFiles(posts, template, env.formatDate));
  }

  /** Without an `index.md` in the listing, no post is called `index`. */
  lemma SlugsNotIndex(listing: seq<DirEntry>, posts: seq<Post>)
    requires forall e :: e in listing ==> e.name != "index.md"
    requires forall p :: p in posts ==> exists e :: e in listing && p.slug + POST_EXTENSION == e.name
    ensures forall p :: p in posts ==> p.slug != "index"
  {
    forall p | p in posts
      ensures p.slug != "index"
    {
      var e :| e in listing && p.slug + POST_EXTENSION == e.name;
      assert e.name != "index" + POST_EXTENSION;
    }
  }

  /** Where the pages of a build go: `<slug>.html` per post, then `index.html`. */
  lemma PageFilesPaths(posts: seq<Post>, template: string, formatDate: string -> string)
    ensures |PageFiles(posts, template, formatDate)| == |posts| + 1
    ensures forall i :: 0 <= i < |posts| ==> PageFiles(posts, template, formatDate)[i].path == posts[i].slug + PAGE_EXTENSION
    ensures PageFiles(posts, template, formatDate)[|posts|].path == INDEX_FILE
  {
    var pages := PageWrites(posts, template, formatDate);
    var ws := pages + [Write(INDEX_FILE, IndexPage(posts, template, formatDate))];
    forall i | 0 <= i < |posts|
      ensures ws[i].path == posts[i].slug + PAGE_EXTENSION
    {
      assert ws[i] == pages[i];
    }
  }

  lemma PathsDistinct(posts: seq<Post>, ws: seq<Write>)
    requires DistinctSlugs(posts)
    requires forall p :: p in posts ==> p.slug != "index"
    requires |ws| == |posts| + 1
    requires forall i :: 0 <= i < |posts| ==> ws[i].path == posts[i].slug + PAGE_EXTENSION
    requires ws[|posts|].path == INDEX_FILE
    ensures forall i, j :: 0 <= i < j < |ws| ==> ws[i].path != ws[j].path
  {
    forall i, j | 0 <= i < j < |ws|
      ensures ws[i].path != ws[j].path
    {
      var slug := posts[i].slug;
      if j < |posts| {
        if slug + PAGE_EXTENSION == posts[j].slug + PAGE_EXTENSION {
          HtmlNameInjective(slug, posts[j].slug);
        }
      } else {
        assert posts[i] in posts;
        if slug + PAGE_EXTENSION == "index" + PAGE_EXTENSION {
          HtmlNameInjective(slug, "index");
        }
      }
    }
  }

  lemma {:induction false} LastWriteConcat(a: seq<Write>, b: seq<Write>, path: string)
    ensures LastWrite(a + b, path) == if LastWrite(b, path).Some? then LastWrite(b, path) else LastWrite(a, path)
  {
    if b == [] {
      assert a + b == a;
    } else {
      LastWriteConcat(a, b[..|b| - 1], path);
      assert (a + b)[..|a + b| - 1] == a + b[..|b| - 1];
      assert (a + b)[|a + b| - 1] == b[|b| - 1];
    }
  }

  lemma {:induction false} AssetFilesDistinct(listing: seq<DirEntry>)
    requires DistinctNames(listing)
    ensures DistinctNames(AssetFiles(listing))
  {
    if listing != [] {
      var rest := AssetFiles(listing[1..]);
      AssetFilesDistinct(listing[1..]);
      forall j | 0 <= j < |rest|
        ensures rest[j].name != listing[0].name
      {
        var k :| 0 <= k < |listing[1..]| && listing[1..][k] == rest[j];
        assert listing[k + 1] == rest[j];
      }
    }
  }

  /** A copied asset ends up with its own text, whatever pages were written before it. */
  lemma AssetCopied(pages: seq<Write>, listing: seq<DirEntry>, e: DirEntry)
    requires DistinctNames(listing)
    requires e in listing && !IsPostFile(e.name)
    ensures LastWrite(pages + AssetWrites(Some(listing)), e.name) == Some(e.text)
  {
    var assets := AssetWrites(Some(listing));
    var files := AssetFiles(listing);
    AssetFilesDistinct(listing);
    var k :| 0 <= k < |files| && files[k] == e;
    LastWriteAt(assets, k);
    LastWriteConcat(pages, assets, e.name);
  }

  /** A file no asset is copied to keeps its last page write, if any. */
  lemma NotAnAsset(pages: seq<Write>, listing: seq<DirEntry>, path: string)
    requires forall e :: e in listing ==> e.name != path
    ensures LastWrite(pages + AssetWrites(Some(listing)), path) == LastWrite(pages, path)
  {
    var assets := AssetWrites(Some(listing));
    forall j | 0 <= j < |assets|
      ensures assets[j].path != path
    {
      assert AssetFiles(listing)[j] in AssetFiles(listing);
    }
    LastWriteNone(assets, path);
    LastWriteConcat(pages, assets, path);
  }

  lemma BuildOfWrites(template: string, listing: seq<DirEntry>, existing: map<string, string>, env: Env,
                      posts: seq<Post>, out: map<string, string>)
    requires ReadPostsOf(Some(listing), env) == Ok(posts)
    requires BuildOf(Some(template), Some(listing), existing, env) == Ok(out)
    ensures out == ApplyWrites(existing, PageFiles(posts, template, env.formatDate) + AssetWrites(Some(listing)))
  {
  }

  /** After a build every asset holds its own text, even where a page of the same name was written. */
  lemma BuildCopiesAssets(template: string, listing: seq<DirEntry>, existing: map<string, string>, env: Env,
                          posts: seq<Post>, out: map<string, string>, e: DirEntry)
    requires DistinctNames(listing)
    requires ReadPostsOf(Some(listing), env) == Ok(posts)
    requires BuildOf(Some(template), Some(listing), existing, env) == Ok(out)
    requires e in listing && !IsPostFile(e.name)
    ensures e.name in out && out[e.name] == e.text
  {
    var pages := PageFiles(posts, template, env.formatDate);
    BuildOfWrites(template, listing, existing, env, posts, out);
    AssetCopied(pages, listing, e);
    ApplyWritesLookup(existing, pages + AssetWrites(Some(listing)), e.name);
  }

  /** No page written after post `i`'s goes to its file, when slugs are distinct and `i` is not `index`. */
  lemma LaterPagesElsewhere(posts: seq<Post>, ws: seq<Write>, i: nat)
    requires DistinctSlugs(posts)
    requires i < |posts| && posts[i].slug != "index"
    requires |ws| == |posts| + 1
    requires forall j :: 0 <= j < |posts| ==> ws[j].path == posts[j].slug + PAGE_EXTENSION
    requires ws[|posts|].path == INDEX_FILE
    ensures forall j :: i < j < |ws| ==> ws[j].path != ws[i].path
  {
    var slug := posts[i].slug;
    forall j | i < j < |ws|
      ensures ws[j].path != slug + PAGE_EXTENSION
    {
      var other := if j < |posts| then posts[j].slug else "index";
      assert ws[j].path == other + PAGE_EXTENSION;
      if other + PAGE_EXTENSION == slug + PAGE_EXTENSION {
        HtmlNameInjective(other, slug);
      }
    }
  }

  /** After a build each post's page holds its page text, unless an asset of that name replaced it. */
  lemma BuildWritesPostPage(template: string, listing: seq<DirEntry>, existing: map<string, string>, env: Env,
                            posts: seq<Post>, out: map<string, string>, i: nat)
    requires DistinctNames(listing)
    requires ReadPostsOf(Some(listing), env) == Ok(posts)
    requires BuildOf(Some(template), Some(listing), existing, env) == Ok(out)
    requires i < |posts| && posts[i].slug != "index"
    requires forall e :: e in listing ==> e.name != posts[i].slug + PAGE_EXTENSION
    ensures posts[i].slug + PAGE_EXTENSION in out
    ensures out[posts[i].slug + PAGE_EXTENSION] == PostPage(posts[i], template, env.formatDate)
  {
    var pages := PageFiles(posts, template, env.formatDate);
    BuildOfWrites(template, listing, existing, env, posts, out);
    ReadPostsDistinct(listing, env, posts);
    PageFilesPaths(posts, template, env.formatDate);
    LaterPagesElsewhere(posts, pages, i);
    assert pages[i] == Write(posts[i].slug + PAGE_EXTENSION, PostPage(posts[i], template, env.formatDate));
    LastWriteAt(pages, i);
    NotAnAsset(pages, listing, pages[i].path);
    ApplyWritesLookup(existing, pages + AssetWrites(Some(listing)), pages[i].path);
  }

  /** After a build `index.html` holds the index page, unless an asset of that name replaced it. */
  lemma BuildWritesIndex(template: string, listing: seq<DirEntry>, existing: map<string, string>, env: Env,
                         posts: seq<Post>, out: map<string, string>)
    requires ReadPostsOf(Some(listing), env) == Ok(posts)
    requires BuildOf(Some(template), Some(listing), existing, env) == Ok(out)
    requires forall e :: e in listing ==> e.name != INDEX_FILE
    ensures INDEX_FILE in out && out[INDEX_FILE] == IndexPage(posts, template, env.formatDate)
  {
    var pages := PageFiles(posts, template, env.formatDate);
    BuildOfWrites(template, listing, existing, env, posts, out);
    assert pages[|posts|] == Write(INDEX_FILE, IndexPage(posts, template, env.formatDate));
    LastWriteAt(pages, |posts|);
    NotAnAsset(pages, listing, INDEX_FILE);
    ApplyWritesLookup(existing, pages + AssetWrites(Some(listing)), INDEX_FILE);
  }

  /** A file the build neither renders nor copies keeps its previous text. */
  lemma BuildKeepsOtherFiles(template: string, listing: seq<DirEntry>, existing: map<string, string>, env: Env,
                             posts: seq<Post>, out: map<string, string>, path: string)
    requires ReadPostsOf(Some(listing), env) == Ok(posts)
    requires BuildOf(Some(template), Some(listing), existing, env) == Ok(out)
    requires path in existing && path != INDEX_FILE
    requires forall e :: e in listing ==> e.name != path
    requires forall p :: p in posts ==> path != p.slug + PAGE_EXTENSION
    ensures path in out && out[path] == existing[path]
  {
    var pages := PageFiles(posts, template, env.formatDate);
    BuildOfWrites(template, listing, existing, env, posts, out);
    PageFilesPaths(posts, template, env.formatDate);
    forall j | 0 <= j < |pages|
      ensures pages[j].path != path
    {
      if j < |posts| {
        assert posts[j] in posts;
      }
    }
    LastWriteNone(pages, path);
    NotAnAsset(pages, listing, path);
    ApplyWritesLookup(existing, pages + AssetWrites(Some(listing)), path);
  }
}
