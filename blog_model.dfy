/**
 * The entities of the blog build (scripts/build-posts.ts): directory entries,
 * parsed front matter, posts, and the foreign collaborators the build calls
 * (front-matter parsing, Markdown rendering, date formatting and the date
 * sort key), which are passed in as functions and not interpreted.
 */
module BlogModel {
  import opened Wrappers

  /** One entry of the posts directory listing, with the file's text. */
  datatype DirEntry = DirEntry(name: string, text: string)

  /** The front-matter attributes of a post source. */
  datatype Attributes = Attributes(title: string, date: string, description: Option<string>)

  /** What the front-matter parser returns: the attributes and the Markdown body. */
  datatype Document = Document(attributes: Attributes, body: string)

  /** A render-ready post; `content` is the rendered HTML fragment. */
  datatype Post = Post(slug: string, title: string, date: string, description: string, content: string)

  /**
   * The library calls of the build:
   * `parse` is front-matter (an `Err` is the exception it throws on a malformed block),
   * `render` is the Markdown renderer, `formatDate` the en-US long date formatter,
   * `dateKey` the time value of `new Date(date)` used by the sort.
   */
  datatype Env = Env(
    parse: string -> Result<Document, string>,
    render: string -> string,
    formatDate: string -> string,
    dateKey: string -> int)

  /** Why a build aborts before writing any page. */
  datatype BuildError = TemplateUnreadable | BadFrontMatter(file: string, reason: string)

  const POST_EXTENSION := ".md"
}
