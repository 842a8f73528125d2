/** Records shared by the content controller model: content classes, containers,
    posts and the payloads they carry. */
module CmsTypes {

  datatype Option<+T> = None | Some(value: T)

  newtype byte = x: int | 0 <= x < 256

  /** A page number or page size: the pagination library counts from 1. */
  type Positive = n: int | n >= 1 witness 1

  /** The format a request asks for: "any format", or one named format such as
      "html", "xml", "atom" or the symbol of an attachment's mime type. */
  datatype Requested = AnyFormat | Format(name: string)

  /** A registered mime type: its symbol ("png") and its full name ("image/png"). */
  datatype MimeType = MimeType(symbol: string, name: string)

  /** One content record: the class it was created as (the `type` column of a
      single-table-inheritance table), its optional mime type, its raw bytes,
      its declared file name and its declared content type. */
  datatype Content = Content(
    kind: string,
    mime: Option<MimeType>,
    data: seq<byte>,
    filename: string,
    contentType: string)

  /** What the content controller knows about its resource class. `name` is
      `to_s`, `baseName` the name Rails stores in a polymorphic reference,
      `collection` the symbol containers list, `tableized` and `underscored`
      the inflected names, `hasTypeColumn` whether its table has a `type`
      column, and `perPage`, `disposition` its content options. */
  datatype ContentClass = ContentClass(
    name: string,
    baseName: string,
    collection: string,
    tableized: string,
    underscored: string,
    hasTypeColumn: bool,
    perPage: Positive,
    disposition: Option<string>)

  /** A polymorphic reference to a container (a blog, a gallery, a profile). */
  datatype ContainerRef = ContainerRef(kind: string, id: nat)

  /** A container: `contents` is its `:contents` container option (absent when
      the option is not set), `updatedAt` its own timestamp. */
  datatype Container = Container(
    ref: ContainerRef,
    name: string,
    contents: Option<seq<string>>,
    updatedAt: int)

  /** A post binds one content record to its author and optional container. */
  datatype Post = Post(
    author: nat,
    container: Option<ContainerRef>,
    contentId: nat,
    contentType: string,
    publicRead: bool,
    updatedAt: int,
    categoryIds: seq<nat>)
}
