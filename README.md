# Personal website: blog build and terminal card, in Dafny

This project models the two pieces of logic in a personal website.

- **The blog build** (`scripts/build-posts.ts`).
  - It lists the `posts` directory. Every `.md` file becomes a post and every other file is copied as an asset.
  - Each post's front matter is parsed and its Markdown body rendered. Its slug is the file name without `.md`. A missing description defaults to `""`.
  - Posts are sorted newest first. The sort is stable, so posts with the same date keep their listing order.
  - Each post page and the index page are rendered into one HTML template. Each placeholder (`{{TITLE}}`, `{{META_DESCRIPTION}}`, `{{BACK_LINK}}`, `{{BACK_TEXT}}`, `{{CONTENT}}`) is replaced at its first occurrence only.
  - `<slug>.html` and `index.html` are written into `blog/`, then the assets are copied.
- **The terminal responder** (`worker/src/index.ts`).
  - A request for `/` whose lower-cased `user-agent` contains one of seven client signatures gets a plain-text profile card.
  - The card is a centred ASCII portrait followed by an information block. The block uses SGR colour sequences and OSC 8 hyperlinks (sections 8.3.117 and 8.3.89 of ECMA-48).
  - Every other request is forwarded to the origin unchanged.

Modules:

| module | file | what it holds |
|---|---|---|
| `Wrappers` | wrappers.dfy | `Option` and `Result` |
| `Text` | text.dfy | the JavaScript string operations the source uses: `endsWith`, `includes`, `replace` with a string pattern, `repeat`, `toLowerCase`, `split`, `join`, and `map(...).join("")` |
| `BlogModel` | blog_model.dfy | directory entries, front matter, posts, build errors, and `Env` |
| `BlogPosts` | blog_posts.dfy | `readPosts`: listing partition, slugs, parsing loop |
| `PostOrder` | post_order.dfy | the newest-first stable sort |
| `BlogPages` | blog_pages.dfy | `buildPost` and `buildIndex` page text |
| `BlogBuild` | blog_build.dfy | `main` and `copyAssets` over an output directory (a map from file name to text) |
| `Ansi` | ansi.dfy | SGR and OSC 8 escapes, and the text a terminal displays (`Visible`) |
| `ProfileCard` | profile_card.dfy | `pad`, `centerPad`, the centred portrait, `INFO` and `TERMINAL_OUTPUT` |
| `Responder` | responder.dfy | `isTerminalClient` and the routing in `fetch` |

`Env` holds the library calls as uninterpreted functions:
- `front-matter`: an `Err` result stands for the exception it throws.
- `marked`.
- `formatDate`.
- The date sort key.

The file system becomes values:
- The posts directory is `Option<seq<DirEntry>>`, with `None` when it is missing.
- The template is `Option<string>`, with `None` when it cannot be read.
- The output directory is a `map<string, string>` that the build's writes update in order.

## Model

| member | source | states |
|---|---|---|
| BlogPosts.Slug | scripts/build-posts.ts:52 | the slug followed by `.md` is the file name |
| BlogPosts.SlugOfSource | scripts/build-posts.ts:46-52 | a file is a post when its name ends in `.md`, and its slug is the name with that suffix removed |
| BlogPosts.SlugInjective | scripts/build-posts.ts:52 | distinct post file names give distinct slugs |
| BlogPosts.PostFiles | scripts/build-posts.ts:46 | an entry is selected exactly when it is in the listing and its name ends in `.md` |
| BlogPosts.PostFilesAppend | scripts/build-posts.ts:46 | the filter keeps listing order: the sources of a joined listing are those of each part, in turn |
| BlogPosts.AssetFiles | scripts/build-posts.ts:98 | an entry is selected exactly when it is in the listing and its name does not end in `.md` |
| BlogPosts.ListingPartition | scripts/build-posts.ts:46-98 | posts and assets together are the listing as a multiset, and no entry is in both |
| BlogPosts.PostOf | scripts/build-posts.ts:52-60 | the post's slug plus `.md` is its file name; its description is `""` exactly when the front matter has none or an empty one |
| BlogPosts.ParsePosts | scripts/build-posts.ts:49-61 | the parsing loop as a function; its contract is stated by `ParsePostsOk` and `ParsePostsErr` |
| BlogPosts.ParsePostsOk | scripts/build-posts.ts:49-61 | reading succeeds iff every source's front matter parses, and then post i is built from source i |
| BlogPosts.ParsePostsErr | scripts/build-posts.ts:50-51 | the first source whose front matter fails to parse aborts the reading with that file's error |
| BlogPosts.ReadPostsOf | scripts/build-posts.ts:40-67 | what `readPosts` returns; its contract is stated by `ReadPostsFromSources`, and `ReadPosts` is proved equal to it |
| BlogPosts.ReadPosts | scripts/build-posts.ts:40-67 | the loop that pushes one post per source, then sorts, computes `ReadPostsOf` |
| BlogPosts.ParsedMembers | scripts/build-posts.ts:49-61 | after a successful read, a post is in the list iff it is built from one of the sources |
| BlogPosts.ReadPostsFromSources | scripts/build-posts.ts:40-67 | a successful read yields one post per `.md` file, newest first, each built from a `.md` entry of the listing and no other; posts with the same date keep the order of their sources in the listing |
| PostOrder.InsertMultiset | scripts/build-posts.ts:64 | insertion adds exactly the inserted post |
| PostOrder.InsertSorted | scripts/build-posts.ts:64 | inserting into a newest-first list keeps it newest first and adds exactly that post |
| PostOrder.InsertWithKey | scripts/build-posts.ts:64 | insertion keeps the relative order of posts that share a date key |
| PostOrder.SortNewestFirst | scripts/build-posts.ts:63-64 | the result is newest first, a permutation of the input, and keeps the input order of posts with equal dates (stable) |
| PostOrder.StableSortUnique | scripts/build-posts.ts:64 | two newest-first lists that agree on the order within each date are equal, so any stable sort gives this result |
| PostOrder.SortedMembers | scripts/build-posts.ts:64 | sorting neither adds nor drops a post |
| BlogPages.Render | scripts/build-posts.ts:82-87 | the chain of five `replace` calls; its contract is stated by `RenderLayout`, and each step by `Text.ReplaceFirstAt` |
| BlogPages.RenderLayout | scripts/build-posts.ts:82-87 | on a template that holds each placeholder once, in substitution order, with no `{{` in the text in front of each placeholder (values substituted so far included), each placeholder is replaced by its value and the rest of the template is kept |
| BlogPages.PostPage | scripts/build-posts.ts:69-87 | the text `buildPost` writes; its contract is stated by `PostPageLayout` |
| BlogPages.PostPageLayout | scripts/build-posts.ts:69-88 | a post page holds the title, the description (or the title when it is empty), `/blog/`, `Notes` and the article in the template's places, when the page text in front of the article holds no `{{` |
| BlogPages.ListItemsEmpty | scripts/build-posts.ts:107-116 | the joined listing is empty exactly when there are no posts |
| BlogPages.ListItemsAt | scripts/build-posts.ts:107-116 | entry i of the listing is post i's entry, after the entries of the posts before it |
| BlogPages.ListItemLinks | scripts/build-posts.ts:109-114 | each entry links `/blog/<slug>.html` with the post's title |
| BlogPages.PostsListCases | scripts/build-posts.ts:118-122 | with no posts the list is exactly `<li>No posts yet.</li>`, otherwise it is the joined entries |
| BlogPages.IndexPage | scripts/build-posts.ts:106-130 | the text `buildIndex` writes; its contract is stated by `IndexPageLayout` and `PostsListCases` |
| BlogPages.IndexPageLayout | scripts/build-posts.ts:106-131 | the index page holds `Notes`, the site description, `/`, `Home` and the listing in the template's places, when no template text in front of `{{CONTENT}}` holds `{{` |
| BlogBuild.ApplyWritesLookup | scripts/build-posts.ts:89-101 | a file of the output holds the last text written to it, or its previous text when nothing wrote it |
| BlogBuild.ApplyWritesTwice | scripts/build-posts.ts:89-101 | writing the same files again changes nothing |
| BlogBuild.PostWrites | scripts/build-posts.ts:89 | the `<slug>.html` writes of the post loop, for a given page text; its contract is stated by `WritePages`, `PageFilesPaths` and `PagesDistinct` |
| BlogBuild.PageWrites | scripts/build-posts.ts:148-151 | the `buildPost` writes of `main`; its contract is stated by `PageFilesPaths`, `PagesDistinct` and `BuildWritesPostPage` |
| BlogBuild.AssetWrites | scripts/build-posts.ts:93-104 | the copies `copyAssets` makes; its contract is stated by `CopyAssets`, `BuildCopiesAssets` and `ListingPartition` |
| BlogBuild.WritePages | scripts/build-posts.ts:148-151 | the loop calling `buildPost` for each post gives the output after the page writes, in order |
| BlogBuild.CopyAssets | scripts/build-posts.ts:93-104 | the copy loop gives the output after the asset writes |
| BlogBuild.BuildOf | scripts/build-posts.ts:136-160 | the output directory after `main`, or its error; its contract is stated by `BuildOfWrites` and the `Build*` lemmas, and `Build` is proved equal to it |
| BlogBuild.Build | scripts/build-posts.ts:136-160 | the build fails when the template is unreadable or a front matter is bad; otherwise it writes the pages, the index and the assets in that order |
| BlogBuild.BuildIdempotent | scripts/build-posts.ts:136-160 | running the build again on its own output gives the same output |
| BlogBuild.BuildWithoutPostsDir | scripts/build-posts.ts:41-44 | without a posts directory the build succeeds, copies nothing, and writes only the index with the `No posts yet.` entry |
| BlogBuild.BuildAbortsOnBadFrontMatter | scripts/build-posts.ts:49-51 | one malformed front matter aborts the whole build |
| BlogBuild.PostFilesDistinct | scripts/build-posts.ts:46 | post files of a listing with distinct names have distinct names |
| BlogBuild.AssetFilesDistinct | scripts/build-posts.ts:98 | assets of a listing with distinct names have distinct names |
| BlogBuild.SortDistinct | scripts/build-posts.ts:64 | sorting keeps slugs distinct |
| BlogBuild.ReadPostsDistinct | scripts/build-posts.ts:46-64 | posts read from a listing with distinct names have distinct slugs, each naming a listed file |
| BlogBuild.SlugsNotIndex | scripts/build-posts.ts:52 | without an `index.md` in the listing no post has the slug `index`, so no post page is written to `index.html` |
| BlogBuild.PageFilesPaths | scripts/build-posts.ts:89-132 | the pages go to `<slug>.html` for each post in order, then to `index.html` |
| BlogBuild.PagesDistinct | scripts/build-posts.ts:149-154 | the build writes post count + 1 pages to pairwise distinct paths, given distinct names and no `index.md` |
| BlogBuild.BuildOfWrites | scripts/build-posts.ts:136-160 | a successful build applies the page writes and then the asset writes to the existing output |
| BlogBuild.BuildCopiesAssets | scripts/build-posts.ts:156-157 | after a build every asset holds its own text, even where a page of that name was written earlier |
| BlogBuild.BuildWritesPostPage | scripts/build-posts.ts:148-151 | after a build, `<slug>.html` holds the post's page when the post is not `index` and no asset has that name |
| BlogBuild.BuildWritesIndex | scripts/build-posts.ts:153-154 | after a build, `index.html` holds the index page unless an asset has that name |
| BlogBuild.BuildKeepsOtherFiles | scripts/build-posts.ts:136-160 | a file that is neither rendered nor copied keeps its previous text |
| Text.ReplaceFirst | scripts/build-posts.ts:82-87 | `replace` with a string pattern; its contract is stated by `ReplaceFirstAt` and `ReplaceFirstAbsent` |
| Text.ReplaceFirstAt | scripts/build-posts.ts:82-87 | replacing acts at the first occurrence and keeps the text on both sides |
| Text.ReplaceFirstAbsent | scripts/build-posts.ts:82-87 | a placeholder that does not occur leaves the text unchanged |
| Text.ReplaceFirstAfter | scripts/build-posts.ts:82-87 | a pattern opening with `{{` and then another character, behind text without `{{`, is replaced right there and the rest is kept |
| Text.ConcatMapAt | scripts/build-posts.ts:107-116 | in `xs.map(f).join("")` the text of element i sits between the texts of the elements before and after it |
| Text.Repeat | worker/src/index.ts:56 | `c.repeat(n)` is n copies of c |
| Text.Lower | worker/src/index.ts:14 | same length, each ASCII capital replaced by its lower-case letter |
| Text.LowerIdempotent | worker/src/index.ts:14 | lower-casing twice is lower-casing once |
| Text.Split | worker/src/index.ts:43 | at least one piece, and no piece holds the separator |
| Text.JoinSplit | worker/src/index.ts:42-47 | joining the pieces of a split gives back the text |
| Text.SplitJoin | worker/src/index.ts:42-47 | splitting a join of separator-free lines gives back the lines |
| Ansi.SkipControlSequenceAfter | worker/src/index.ts:18-22 | a control sequence ends at its final byte |
| Ansi.SkipCommandStringAfter | worker/src/index.ts:24-26 | an OSC string ends at its BEL |
| Ansi.VisiblePlain | worker/src/index.ts:50-61 | text without ESC is displayed as it is |
| Ansi.VisibleSgr | worker/src/index.ts:18-22 | an SGR sequence takes no room on screen |
| Ansi.VisibleCommandString | worker/src/index.ts:24-26 | an OSC string ended by BEL takes no room on screen |
| Ansi.VisibleLink | worker/src/index.ts:24-26 | of a hyperlink followed by more text, the terminal shows the link text and then that text |
| Ansi.Link | worker/src/index.ts:25-26 | the OSC 8 hyperlink; its contract is stated by `LinkShowsText` and `VisibleLink` |
| Ansi.LinkShowsText | worker/src/index.ts:24-26 | `link(url, text)` displays exactly `text` |
| ProfileCard.Pad | worker/src/index.ts:28 | `pad(n)` is exactly n spaces |
| ProfileCard.CenterPad | worker/src/index.ts:38-40 | the padding is `MARGIN + floor((49 - w) / 2)` long, holds no ESC and no newline |
| ProfileCard.CenterPadCentres | worker/src/index.ts:33-40 | for 0 ≤ w ≤ 49 the padding plus w fits in `MARGIN + 49`, and left and right slack differ by at most one |
| ProfileCard.PortraitOffsetCentres | worker/src/index.ts:33-36 | `PORTRAIT_OFFSET` is 12, and the portrait indent of 15 is `centerPad(25)` |
| ProfileCard.PadPortraitLines | worker/src/index.ts:44-46 | the per-line indent of the `map`; its contract is stated by `CenteredPortraitLines` and `CenteredPortraitRoundTrip` |
| ProfileCard.CenteredPortrait | worker/src/index.ts:42-47 | the centred portrait; its contract is stated by `CenteredPortraitLines` and `CenteredPortraitRoundTrip` |
| ProfileCard.CenteredPortraitLines | worker/src/index.ts:42-47 | the centred portrait has the portrait's line count; a non-empty line gets 15 spaces in front and an empty one stays empty |
| ProfileCard.UnpadPortraitLines | worker/src/index.ts:44-46 | the inverse of the per-line indent; its contract is stated by `CenteredPortraitRoundTrip` |
| ProfileCard.CenteredPortraitRoundTrip | worker/src/index.ts:42-47 | dropping the indent from the centred portrait's lines gives back the portrait |
| ProfileCard.InfoLines | worker/src/index.ts:49-63 | the lines of `INFO`; its contract is stated by `InfoWidths` and `InfoRowsCentred` |
| ProfileCard.VisibleStyled | worker/src/index.ts:50-56 | text between two SGR sequences displays as itself |
| ProfileCard.VisibleContact | worker/src/index.ts:58-61 | a contact row displays its caption, the gap and the link text |
| ProfileCard.NameLineVisible | worker/src/index.ts:50 | the name line displays as `Maarten Van Steenkiste` |
| ProfileCard.TaglineLineVisible | worker/src/index.ts:52 | the tagline line displays as the tagline without escapes |
| ProfileCard.RoleLineVisible | worker/src/index.ts:54 | the role line displays `Software Engineer at Craftzing` |
| ProfileCard.RuleLineVisible | worker/src/index.ts:56 | the rule line displays 41 box-drawing characters |
| ProfileCard.GitHubLineVisible | worker/src/index.ts:58 | the GitHub row displays `GitHub`, five spaces, `github.com/m44rten1` |
| ProfileCard.EmailLineVisible | worker/src/index.ts:59 | the email row displays `Email`, six spaces, the address |
| ProfileCard.LinkedInLineVisible | worker/src/index.ts:60 | the LinkedIn row displays `LinkedIn`, three spaces, the profile path |
| ProfileCard.NotesLineVisible | worker/src/index.ts:61 | the notes row displays `Notes`, six spaces, `m44rten.com/blog/` |
| ProfileCard.InfoWidths | worker/src/index.ts:30-60 | the widths 22, 39, 30 and 41 passed to `centerPad` are the visible widths of their lines; no row is wider than 49; the LinkedIn row is exactly 49 |
| ProfileCard.InfoRowsCentred | worker/src/index.ts:49-56 | each centred row, with its padding, displays within `MARGIN + 49` columns, evenly centred |
| ProfileCard.TerminalOutput | worker/src/index.ts:65 | `centeredPortrait + INFO`; its contract is stated by `TerminalOutputNamesOwner`, with `InfoLines` and `InfoWidths` about `INFO` |
| ProfileCard.TerminalOutputNamesOwner | worker/src/index.ts:49-65 | the card (`centeredPortrait + INFO`) contains `Maarten Van Steenkiste` |
| Responder.AnyIncluded | worker/src/index.ts:15 | true exactly when the user-agent contains one of the signatures |
| Responder.IsTerminalClient | worker/src/index.ts:3-16 | true exactly when the lower-cased user-agent (`""` when absent) contains `curl`, `wget`, `httpie`, `fetch/`, `lwp-request`, `python-requests` or `go-http-client` |
| Responder.Respond | worker/src/index.ts:67-80 | the card, as `text/plain; charset=utf-8`, exactly when the path is `/` and the client is a terminal; otherwise the request is forwarded unchanged |
| Responder.ClassificationIgnoresCase | worker/src/index.ts:14 | a user-agent and its lower-cased form are classified alike |
| Responder.NoUserAgentForwarded | worker/src/index.ts:14-15 | without a user-agent no client is a terminal, and every request is forwarded |
| Responder.CurlGetsCard | worker/src/index.ts:71-74 | `curl/8.0` asking for `/` gets the card, which names the owner |
| Responder.MozillaNotTerminal | worker/src/index.ts:3-15 | `mozilla/5.0` contains none of the seven signatures |
| Responder.BrowserForwarded | worker/src/index.ts:71-78 | `Mozilla/5.0` asking for `/` is forwarded |

## Left out

- Front-matter parsing, Markdown rendering (`marked`), `formatDate` and `new Date(...).getTime()` are foreign library code. They are the uninterpreted functions of `BlogModel.Env`.
- PostOrder.SortNewestFirst: date keys are integers. A date that does not parse gives `NaN` in the source, which makes the comparator inconsistent. That case is not modelled.
- PostOrder.SortNewestFirst: `Array.prototype.sort` sorts the array in place. The model is a function on sequences. `StableSortUnique` shows that every stable newest-first sort gives its result.
- Text.ReplaceFirst: the replacement is literal. The special `$` patterns of `String.prototype.replace` (`$&`, `$$`, …) are not modelled, so values are assumed to hold no `$`.
- BlogPages.RenderLayout: stated only for templates that hold each placeholder once, in substitution order, and only when the text in front of each placeholder, values substituted so far included, holds no `{{`. Without that condition a value or the template could hold a copy of a later placeholder, which `replace` would fill there instead; `Text.ReplaceFirstAt` still gives `Render`'s result step by step in that case.
- BlogPages.PostPageLayout: the same condition, on the page text in front of the article: a title or description holding `{{` can make the source fill a later placeholder inside it, so the layout is not promised then.
- BlogPages.IndexPageLayout: the same condition, on the template text in front of `{{CONTENT}}`; the index's own values hold no `{`, so only the template can break it.
- Text.Lower: only ASCII letters are lower-cased. The signatures are ASCII, but `toLowerCase` also folds non-ASCII capitals.
- Ansi.Visible: only OSC strings ended by BEL are recognised, not those ended by ST. The card uses only BEL. Character width is one column per code point.
- ProfileCard.CenterPad: requires a non-negative pad length. In the source, `" ".repeat` of a negative count throws a RangeError, and every call passes a width of at most 49.
- File-system effects are values here: `existsSync`, `mkdirSync`, `readFileSync`, `writeFileSync` and `copyFileSync`. Read and write failures other than an unreadable template are not modelled. A directory inside `posts` is treated like any other non-Markdown file.
- `console.log` messages are not modelled.
- A front matter without a title yields `undefined`, which the source prints into the page as the text `undefined`. A missing date reaches the page only through `formatDate`, which prints `Invalid Date` for it, and its sort key is `NaN`, which the PostOrder.SortNewestFirst line covers. The model's attributes are always strings. The source does not validate these fields, and neither does the model.
- Worker networking is not modelled: `fetch(request)` to the origin, `Request`, `Response`, `URL` parsing and async handling. A request is its path and optional user-agent. A forwarded request is the request handed on unchanged.
- The portrait file `maarten.txt` is not part of this model. It is a parameter of the card.
- `vite.config.ts` is bundler configuration and is not part of this model.
