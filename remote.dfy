/**
  Records of the source site's REST API, as the migration reads them. They
  are immutable inputs: nothing in the migration changes them.
 */
module Remote {
  import opened Meta

  /** A category or a tag (tags have parent 0). */
  datatype RemoteTerm = RemoteTerm(id: int, name: string, slug: string, parent: int)

  /** A media item: `title.rendered` and `caption.rendered` are kept as plain strings. */
  datatype RemoteMedia = RemoteMedia(id: int, sourceUrl: string, title: string, caption: string, mimeType: string)

  /** One key of a record's `meta` object. */
  datatype MetaPair = MetaPair(key: string, value: Value)

  /** The post type the record names in its `type` field. */
  datatype PostType = Attachment | Post | Page

  datatype RemotePost = RemotePost(
    id: int, title: string, content: string, excerpt: string, status: string,
    kind: PostType, slug: string, author: int,
    categories: seq<int>, tags: seq<int>, featuredMedia: int, meta: seq<MetaPair>)

  datatype RemotePage = RemotePage(
    id: int, title: string, content: string, excerpt: string, status: string,
    author: int, parent: int, meta: seq<MetaPair>)

  /** The parent field the orchestrator splits categories by. */
  function TermParent(c: RemoteTerm): int { c.parent }

  /** The parent field the orchestrator splits pages by. */
  function PageParent(p: RemotePage): int { p.parent }
}
