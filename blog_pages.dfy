/**
 * Page text of the blog build (`buildPost` and `buildIndex` in
 * scripts/build-posts.ts): a fixed scaffold per page, substituted into the
 * shared template by replacing the first occurrence of each placeholder, in
 * the order TITLE, META_DESCRIPTION, BACK_LINK, BACK_TEXT, CONTENT.
 */
module BlogPages {
  import opened Text
  import opened BlogModel

  const TITLE_TOKEN := "{{TITLE}}"
  const META_DESCRIPTION_TOKEN := "{{META_DESCRIPTION}}"
  const BACK_LINK_TOKEN := "{{BACK_LINK}}"
  const BACK_TEXT_TOKEN := "{{BACK_TEXT}}"
  const CONTENT_TOKEN := "{{CONTENT}}"

  const NO_POSTS := "<li>No posts yet.</li>"
  const INDEX_TITLE := "Notes"
  const INDEX_DESCRIPTION := "Notes by Maarten Van Steenkiste"

  /** The chain of `template.replace(...)` calls shared by both page kinds. */
  function Render(template: string, title: string, meta: string, backLink: string,
                  backText: string, content: string): string
  {
    var t1 := ReplaceFirst(template, TITLE_TOKEN, title);
    var t2 := ReplaceFirst(t1, META_DESCRIPTION_TOKEN, meta);
    var t3 := ReplaceFirst(t2, BACK_LINK_TOKEN, backLink);
    var t4 := ReplaceFirst(t3, BACK_TEXT_TOKEN, backText);
    ReplaceFirst(t4, CONTENT_TOKEN, content)
  }

  /** A template whose five placeholders appear once each, in substitution order, separated by `parts`. */
  function Layout(parts: seq<string>): string
    requires |parts| == 6
  {
    parts[0] + TITLE_TOKEN + (parts[1] + META_DESCRIPTION_TOKEN + (parts[2] + BACK_LINK_TOKEN
      + (parts[3] + BACK_TEXT_TOKEN + (parts[4] + CONTENT_TOKEN + parts[5]))))
  }

  /**
   * The text in front of `{{CONTENT}}` once the first four placeholders of
   * such a template are filled; it holds the text in front of each earlier
   * placeholder as a prefix.
   */
  function Front(parts: seq<string>, title: string, meta: string, backLink: string, backText: string): string
    requires |parts| == 6
  {
    parts[0] + title + parts[1] + meta + parts[2] + backLink + parts[3] + backText + parts[4]
  }

  /**
   * On such a template, when the text in front of each placeholder (template
   * text and values substituted before it) holds no `{{`, so that no
   * placeholder can occur before its own position, each placeholder is
   * replaced by its value and the template text around them is kept verbatim.
   */
  lemma RenderLayout(parts: seq<string>, title: string, meta: string, backLink: string,
                     backText: string, content: string)
    requires |parts| == 6
    requires !Contains(Front(parts, title, meta, backLink, backText), "{{")
    ensures Render(Layout(parts), title, meta, backLink, backText, content)
         == parts[0] + title + parts[1] + meta + parts[2] + backLink + parts[3] + backText
            + parts[4] + content + parts[5]
  {
    var p0, p1, p2, p3, p4, p5 := parts[0], parts[1], parts[2], parts[3], parts[4], parts[5];
    FrontPrefixes(p0, title, p1, meta, p2, backLink, p3, backText, p4);
    var d1 := p0 + title + p1;
    var d2 := d1 + meta + p2;
    var d3 := d2 + backLink + p3;
    var d4 := d3 + backText + p4;
    var rest4 := p4 + CONTENT_TOKEN + p5;
    var rest3 := p3 + BACK_TEXT_TOKEN + rest4;
    var rest2 := p2 + BACK_LINK_TOKEN + rest3;
    ReplaceNext(p0, TITLE_TOKEN, title, p1, META_DESCRIPTION_TOKEN, rest2);
    ReplaceNext(d1, META_DESCRIPTION_TOKEN, meta, p2, BACK_LINK_TOKEN, rest3);
    ReplaceNext(d2, BACK_LINK_TOKEN, backLink, p3, BACK_TEXT_TOKEN, rest4);
    ReplaceNext(d3, BACK_TEXT_TOKEN, backText, p4, CONTENT_TOKEN, p5);
    assert CONTENT_TOKEN[..2] == "{{";
    ReplaceFirstAfter(d4, CONTENT_TOKEN, p5, content);
  }

  /** Every prefix of the text in front of `{{CONTENT}}` that ends before a placeholder holds no `{{` either. */
  lemma FrontPrefixes(p0: string, title: string, p1: string, meta: string, p2: string,
                      backLink: string, p3: string, backText: string, p4: string)
    requires !Contains(p0 + title + p1 + meta + p2 + backLink + p3 + backText + p4, "{{")
    ensures !Contains(p0, "{{") && !Contains(p0 + title + p1, "{{")
    ensures !Contains(p0 + title + p1 + meta + p2, "{{")
    ensures !Contains(p0 + title + p1 + meta + p2 + backLink + p3, "{{")
  {
    var d1 := p0 + title + p1;
    var d2 := d1 + meta + p2;
    var d3 := d2 + backLink + p3;
    assert d3 + backText + p4 == d3 + (backText + p4);
    AbsentFromPrefix(d3, backText + p4, "{{");
    assert d3 == d2 + (backLink + p3);
    AbsentFromPrefix(d2, backLink + p3, "{{");
    assert d2 == d1 + (meta + p2);
    AbsentFromPrefix(d1, meta + p2, "{{");
    assert d1 == p0 + (title + p1);
    AbsentFromPrefix(p0, title + p1, "{{");
  }

  /** `post.description || post.title` */
  function MetaDescription(p: Post): string {
    if p.description == "" then p.title else p.description
  }

  /** The article scaffold of a post page. */
  function Article(p: Post, formatDate: string -> string): string {
    "\n    <article>\n      <header>\n        <h1>" + p.title + "</h1>\n        <p class=\"date\">"
      + formatDate(p.date) + "</p>\n      </header>\n      <div class=\"content\">\n        "
      + p.content + "\n      </div>\n    </article>\n  "
  }

  /** `buildPost`: the page text written to `<slug>.html`. */
  function PostPage(p: Post, template: string, formatDate: string -> string): string {
    Render(template, p.title, MetaDescription(p), "/blog/", "Notes", Article(p, formatDate))
  }

  /**
   * A post page fills the title, the description (the title when the
   * description is empty), the `/blog/` back link labelled `Notes`, and the
   * article into the template, and keeps the template text around them, when
   * the page text in front of the article holds no `{{`.
   */
  lemma PostPageLayout(parts: seq<string>, p: Post, formatDate: string -> string)
    requires |parts| == 6
    requires !Contains(Front(parts, p.title, MetaDescription(p), "/blog/", "Notes"), "{{")
    ensures PostPage(p, Layout(parts), formatDate)
         == parts[0] + p.title + parts[1] + (if p.description == "" then p.title else p.description)
            + parts[2] + "/blog/" + parts[3] + "Notes" + parts[4] + Article(p, formatDate) + parts[5]
  {
    RenderLayout(parts, p.title, MetaDescription(p), "/blog/", "Notes", Article(p, formatDate));
  }

  /** The link of an index entry: the post's page under `/blog/`, labelled with its title. */
  function ItemLink(p: Post): string {
    "<a href=\"/blog/" + p.slug + ".html\">" + p.title + "</a>"
  }

  /** One entry of the index listing. */
  function ListItem(p: Post, formatDate: string -> string): string {
    "\n      <li>\n        " + ItemLink(p) + ("\n        <span class=\"date\">" + formatDate(p.date) + "</span>\n      </li>\n    ")
  }

  /** `posts.map(...).join("")` */
  function ListItems(posts: seq<Post>, formatDate: string -> string): string {
    ConcatMap(posts, p => ListItem(p, formatDate))
  }

  /** The joined entries are empty exactly when there are no posts. */
  lemma ListItemsEmpty(posts: seq<Post>, formatDate: string -> string)
    ensures ListItems(posts, formatDate) == "" <==> posts == []
  {
    if posts != [] {
      assert |ListItem(posts[0], formatDate)| > 0;
    }
  }

  /** Entry `i` of the listing is the entry of `posts[i]`, after those of the posts before it. */
  lemma {:induction false} ListItemsAt(posts: seq<Post>, formatDate: string -> string, i: nat)
    requires i < |posts|
    ensures ListItems(posts, formatDate)
         == ListItems(posts[..i], formatDate) + ListItem(posts[i], formatDate) + ListItems(posts[i + 1..], formatDate)
  {
    ConcatMapAt(posts, p => ListItem(p, formatDate), i);
  }

  /** Each entry links the post's page under `/blog/` with its title. */
  lemma ListItemLinks(p: Post, formatDate: string -> string)
    ensures Contains(ListItem(p, formatDate), "<a href=\"/blog/" + p.slug + ".html\">" + p.title + "</a>")
  {
    ContainsMiddle("\n      <li>\n        ", ItemLink(p),
      "\n        <span class=\"date\">" + formatDate(p.date) + "</span>\n      </li>\n    ");
  }

  /** `postsList || "<li>No posts yet.</li>"` */
  function PostsList(posts: seq<Post>, formatDate: string -> string): string {
    var items := ListItems(posts, formatDate);
    if items == "" then NO_POSTS else items
  }

  /** The fallback line appears exactly when there are no posts; otherwise the listing is the entries. */
  lemma PostsListCases(posts: seq<Post>, formatDate: string -> string)
    ensures posts == [] ==> PostsList(posts, formatDate) == "<li>No posts yet.</li>"
    ensures posts != [] ==> PostsList(posts, formatDate) == ListItems(posts, formatDate)
  {
    ListItemsEmpty(posts, formatDate);
  }

  /** The content of the index page. */
  function IndexContent(posts: seq<Post>, formatDate: string -> string): string {
    "\n    <h1>Notes</h1>\n    <ul class=\"posts-list\">\n      " + PostsList(posts, formatDate) + "\n    </ul>\n  "
  }

  /** `buildIndex`: the page text written to `index.html`. */
  function IndexPage(posts: seq<Post>, template: string, formatDate: string -> string): string {
    Render(template, INDEX_TITLE, INDEX_DESCRIPTION, "/", "Home", IndexContent(posts, formatDate))
  }

  /**
   * The index page fills `Notes`, the site description, the `/` back link
   * labelled `Home`, and the listing, when the template text in front of
   * `{{CONTENT}}` holds no `{{`.
   */
  lemma IndexPageLayout(parts: seq<string>, posts: seq<Post>, formatDate: string -> string)
    requires |parts| == 6
    requires forall k :: 0 <= k < 5 ==> !Contains(parts[k], "{{")
    ensures IndexPage(posts, Layout(parts), formatDate)
         == parts[0] + "Notes" + parts[1] + "Notes by Maarten Van Steenkiste" + parts[2] + "/" + parts[3]
            + "Home" + parts[4] + IndexContent(posts, formatDate) + parts[5]
  {
    assert !Contains(Front(parts, INDEX_TITLE, INDEX_DESCRIPTION, "/", "Home"), "{{") by {
      IndexFrontPairs(parts);
    }
    RenderLayout(parts, INDEX_TITLE, INDEX_DESCRIPTION, "/", "Home", IndexContent(posts, formatDate));
  }

  /** The index's values hold no `{`, so a `{{` in front of its content could only come from the template. */
  lemma IndexFrontPairs(parts: seq<string>)
    requires |parts| == 6
    requires forall k :: 0 <= k < 5 ==> !Contains(parts[k], "{{")
    ensures !Contains(Front(parts, INDEX_TITLE, INDEX_DESCRIPTION, "/", "Home"), "{{")
  {
    assert INDEX_DESCRIPTION == "Notes by " + "Maarten Van Steenkiste";
    LacksConcat("Notes by ", "Maarten Van Steenkiste", '{');
    LacksPair(INDEX_TITLE, '{');
    LacksPair(INDEX_DESCRIPTION, '{');
    LacksPair("/", '{');
    LacksPair("Home", '{');
    var a1 := parts[0] + INDEX_TITLE;
    PairAbsentConcat(parts[0], INDEX_TITLE, '{');
    PairAbsentConcat(a1, parts[1], '{');
    var a2 := a1 + parts[1] + INDEX_DESCRIPTION;
    PairAbsentConcat(a1 + parts[1], INDEX_DESCRIPTION, '{');
    PairAbsentConcat(a2, parts[2], '{');
    var a3 := a2 + parts[2] + "/";
    PairAbsentConcat(a2 + parts[2], "/", '{');
    PairAbsentConcat(a3, parts[3], '{');
    var a4 := a3 + parts[3] + "Home";
    PairAbsentConcat(a3 + parts[3], "Home", '{');
    PairAbsentConcat(a4, parts[4], '{');
  }
}
