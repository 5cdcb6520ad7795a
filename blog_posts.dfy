/**
 * Post discovery and parsing (`readPosts` in scripts/build-posts.ts): the
 * listing of the posts directory is split into Markdown sources and assets,
 * each source is parsed into a post whose slug is its file name without
 * `.md`, and the posts are sorted newest first.
 */
module BlogPosts {
  import opened Wrappers
  import opened Text
  import opened BlogModel
  import opened PostOrder

  /** `f.endsWith(".md")` */
  predicate IsPostFile(name: string) {
    EndsWith(name, POST_EXTENSION)
  }

  /** `basename(name, ".md")` for a directory entry name that ends in `.md`. */
  function Slug(name: string): (slug: string)
    requires IsPostFile(name)
    ensures slug + POST_EXTENSION == name
  {
    name[..|name| - |POST_EXTENSION|]
  }

  /** The slug of `s + ".md"` is `s`. */
  lemma SlugOfSource(s: string)
    ensures IsPostFile(s + POST_EXTENSION) && Slug(s + POST_EXTENSION) == s
  {
    assert (s + POST_EXTENSION)[|s|..] == POST_EXTENSION;
  }

  /** Different source names give different slugs, so no two posts share an output file. */
  lemma SlugInjective(a: string, b: string)
    requires IsPostFile(a) && IsPostFile(b) && a != b
    ensures Slug(a) != Slug(b)
  {
  }

  /** The Markdown sources of a listing, in listing order. */
  function PostFiles(listing: seq<DirEntry>): (r: seq<DirEntry>)
    ensures forall e :: e in r <==> e in listing && IsPostFile(e.name)
  {
    if listing == [] then []
    else (if IsPostFile(listing[0].name) then [listing[0]] else []) + PostFiles(listing[1..])
  }

  /** Filtering keeps listing order: the sources of a joined listing are those of each part, in turn. */
  lemma {:induction false} PostFilesAppend(a: seq<DirEntry>, b: seq<DirEntry>)
    ensures PostFiles(a + b) == PostFiles(a) + PostFiles(b)
  {
    if a != [] {
      PostFilesAppend(a[1..], b);
      assert (a + b)[0] == a[0];
      assert (a + b)[1..] == a[1..] + b;
    } else {
      assert a + b == b;
    }
  }

  /** The other entries of a listing, in listing order: the assets `copyAssets` copies. */
  function AssetFiles(listing: seq<DirEntry>): (r: seq<DirEntry>)
    ensures forall e :: e in r <==> e in listing && !IsPostFile(e.name)
  {
    if listing == [] then []
    else (if IsPostFile(listing[0].name) then [] else [listing[0]]) + AssetFiles(listing[1..])
  }

  /** Every entry of the listing is either a post source or an asset, never both, and none is lost or repeated. */
  lemma {:induction false} ListingPartition(listing: seq<DirEntry>)
    ensures multiset(PostFiles(listing)) + multiset(AssetFiles(listing)) == multiset(listing)
    ensures forall e :: e in PostFiles(listing) ==> e !in AssetFiles(listing)
  {
    if listing != [] {
      ListingPartition(listing[1..]);
      assert listing == [listing[0]] + listing[1..];
    }
  }

  /** The post built from a source whose front matter parsed. */
  function PostOf(e: DirEntry, env: Env): (p: Post)
    requires IsPostFile(e.name) && env.parse(e.text).Ok?
    ensures p.slug + POST_EXTENSION == e.name
    ensures p.description == "" <==> env.parse(e.text).value.attributes.description in {None, Some("")}
  {
    var doc := env.parse(e.text).value;
    Post(Slug(e.name), doc.attributes.title, doc.attributes.date,
         doc.attributes.description.GetOr(""), env.render(doc.body))
  }

  /** Puts `ps` in front of a parse result; an error stays an error. */
  function Prefixed(ps: seq<Post>, r: Result<seq<Post>, BuildError>): Result<seq<Post>, BuildError> {
    match r
    case Ok(qs) => Ok(ps + qs)
    case Err(e) => Err(e)
  }

  /** Parses the sources in order; the first malformed front matter aborts. */
  function ParsePosts(files: seq<DirEntry>, env: Env): Result<seq<Post>, BuildError>
    requires forall e :: e in files ==> IsPostFile(e.name)
  {
    if files == [] then Ok([])
    else match env.parse(files[0].text)
      case Err(reason) => Err(BadFrontMatter(files[0].name, reason))
      case Ok(_) => Prefixed([PostOf(files[0], env)], ParsePosts(files[1..], env))
  }

  /** Parsing succeeds iff every source parses, and then gives one post per source, in order. */
  lemma {:induction false} ParsePostsOk(files: seq<DirEntry>, env: Env)
    requires forall e :: e in files ==> IsPostFile(e.name)
    ensures ParsePosts(files, env).Ok? <==> forall i :: 0 <= i < |files| ==> env.parse(files[i].text).Ok?
    ensures ParsePosts(files, env).Ok? ==>
      |ParsePosts(files, env).value| == |files| &&
      forall i :: 0 <= i < |files| ==> ParsePosts(files, env).value[i] == PostOf(files[i], env)
  {
    if files != [] {
      ParsePostsOk(files[1..], env);
      assert forall i :: 1 <= i < |files| ==> files[i] == files[1..][i - 1];
    }
  }

  /** A failed parse names the first source whose front matter is malformed. */
  lemma {:induction false} ParsePostsErr(files: seq<DirEntry>, env: Env, i: nat)
    requires forall e :: e in files ==> IsPostFile(e.name)
    requires i < |files| && env.parse(files[i].text).Err?
    requires forall j :: 0 <= j < i ==> env.parse(files[j].text).Ok?
    ensures ParsePosts(files, env) == Err(BadFrontMatter(files[i].name, env.parse(files[i].text).error))
  {
    if i > 0 {
      ParsePostsErr(files[1..], env, i - 1);
    }
  }

  /** The posts of a build: none without a posts directory, else the parsed sources newest first. */
  function ReadPostsOf(dir: Option<seq<DirEntry>>, env: Env): Result<seq<Post>, BuildError> {
    match dir
    case None => Ok([])
    case Some(listing) =>
      match ParsePosts(PostFiles(listing), env)
      case Err(e) => Err(e)
      case Ok(ps) => Ok(SortNewestFirst(ps, env.dateKey))
  }

  lemma ParsePostsStep(files: seq<DirEntry>, env: Env, i: nat)
    requires forall e :: e in files ==> IsPostFile(e.name)
    requires i < |files|
    ensures env.parse(files[i].text).Err? ==>
      ParsePosts(files[i..], env) == Err(BadFrontMatter(files[i].name, env.parse(files[i].text).error))
    ensures env.parse(files[i].text).Ok? ==>
      ParsePosts(files[i..], env) == Prefixed([PostOf(files[i], env)], ParsePosts(files[i + 1..], env))
  {
    assert files[i..][0] == files[i] && files[i..][1..] == files[i + 1..];
  }

  lemma PrefixedAppend(ps: seq<Post>, p: Post, r: Result<seq<Post>, BuildError>)
    ensures Prefixed(ps, Prefixed([p], r)) == Prefixed(ps + [p], r)
  {
    if r.Ok? {
      assert ps + ([p] + r.value) == (ps + [p]) + r.value;
    }
  }

  /** `readPosts`: collects the parsed sources one by one, then sorts them. */
  method ReadPosts(dir: Option<seq<DirEntry>>, env: Env) returns (r: Result<seq<Post>, BuildError>)
    ensures r == ReadPostsOf(dir, env)
  {
    if dir.None? {
      return Ok([]);
    }
    var files := PostFiles(dir.value);
    var posts: seq<Post> := [];
    assert files[0..] == files;
    if ParsePosts(files, env).Ok? {
      assert [] + ParsePosts(files, env).value == ParsePosts(files, env).value;
    }
    for i := 0 to |files|
      invariant ParsePosts(files, env) == Prefixed(posts, ParsePosts(files[i..], env))
    {
      var file := files[i];
      ParsePostsStep(files, env, i);
      var parsed := env.parse(file.text);
      if parsed.Err? {
        assert ParsePosts(files, env) == Err(BadFrontMatter(file.name, parsed.error));
        return Err(BadFrontMatter(file.name, parsed.error));
      }
      var post := PostOf(file, env);
      PrefixedAppend(posts, post, ParsePosts(files[i + 1..], env));
      posts := posts + [post];
    }
    assert files[|files|..] == [] && posts + [] == posts;
    assert ParsePosts(files, env) == Ok(posts);
    posts := SortNewestFirst(posts, env.dateKey);
    return Ok(posts);
  }

  /** The posts of a successful parse are exactly the posts of its sources. */
  lemma ParsedMembers(files: seq<DirEntry>, env: Env, parsed: seq<Post>)
    requires forall e :: e in files ==> IsPostFile(e.name)
    requires ParsePosts(files, env) == Ok(parsed)
    ensures forall e :: e in files ==> env.parse(e.text).Ok?
    ensures forall p :: p in parsed <==> exists e :: e in files && env.parse(e.text).Ok? && p == PostOf(e, env)
  {
    ParsePostsOk(files, env);
    forall p
      ensures p in parsed <==> exists e :: e in files && env.parse(e.text).Ok? && p == PostOf(e, env)
    {
      if p in parsed {
        var i :| 0 <= i < |parsed| && parsed[i] == p;
        assert files[i] in files;
      }
      if exists e :: e in files && env.parse(e.text).Ok? && p == PostOf(e, env) {
        var e :| e in files && env.parse(e.text).Ok? && p == PostOf(e, env);
        var i :| 0 <= i < |files| && files[i] == e;
        assert parsed[i] == p;
      }
    }
  }

  /**
   * A successful read gives one post per Markdown source, newest first; its
   * posts are exactly those built from the `.md` entries of the listing, and
   * posts with the same date keep the order of their sources in the listing.
   */
  lemma ReadPostsFromSources(listing: seq<DirEntry>, env: Env, ps: seq<Post>)
    requires ReadPostsOf(Some(listing), env) == Ok(ps)
    ensures |ps| == |PostFiles(listing)|
    ensures NewestFirst(ps, env.dateKey)
    ensures ParsePosts(PostFiles(listing), env).Ok?
    ensures forall k :: WithKey(ps, env.dateKey, k) == WithKey(ParsePosts(PostFiles(listing), env).value, env.dateKey, k)
    ensures forall p :: p in ps <==>
      exists e :: e in listing && IsPostFile(e.name) && env.parse(e.text).Ok? && p == PostOf(e, env)
  {
    var files := PostFiles(listing);
    ParsePostsOk(files, env);
    var parsed := ParsePosts(files, env).value;
    assert ps == SortNewestFirst(parsed, env.dateKey);
    SortedMembers(parsed, env.dateKey);
    ParsedMembers(files, env, parsed);
    assert |ps| == |multiset(ps)| == |multiset(parsed)| == |parsed|;
  }
}
