/**
  The migrators of ContentMigration as methods on the destination store:
  each issues the same lookups and WordPress calls, in the same order, as
  src/ContentMigration.php, and leaves the store in the state the matching
  function of MigrationSpec describes.
 */
module ContentMigration {
  import opened Wrappers
  import opened Meta
  import opened Remote
  import opened LocalStore
  import opened Rewrite
  import MigrationSpec

  /** createCategory: skip an existing slug, else insert the term under its mapped parent and record its remote id. */
  method CreateCategory(store: Store, c: RemoteTerm, p: Platform)
    requires store.Valid()
    modifies store
    ensures store.Valid() && store.State() == MigrationSpec.CreateCategory(old(store.State()), c, p)
  {
    var parent := if c.parent != 0 then Lookup(store.termMeta, CategoryKey, Num(c.parent)) else None;
    if !store.State().HasTermWithSlug(Category, c.slug) {
      var id := store.InsertTerm(Term(Category, c.name, c.slug, parent), p);
      if id.Some? {
        store.UpdateTermMeta(id.value, CategoryKey, Num(c.id));
      }
    }
  }

  /** createTag: insert the post_tag term and record its remote id, with no existence check. */
  method CreateTag(store: Store, t: RemoteTerm, p: Platform)
    requires store.Valid()
    modifies store
    ensures store.Valid() && store.State() == MigrationSpec.CreateTag(old(store.State()), t, p)
  {
    var id := store.InsertTerm(Term(PostTag, t.name, t.slug, None), p);
    if id.Some? {
      store.UpdateTermMeta(id.value, TagKey, Num(t.id));
    }
  }

  /**
    createMedia: skip media already imported under its source URL and media
    whose download fails; else insert the attachment and write its file and
    its generated metadata (only when the sideload stored a file, and the
    metadata only when it is not empty: a failed sideload does not stop the
    import), then its remote id and its alt text.
   */
  method CreateMedia(store: Store, m: RemoteMedia, p: Platform)
    requires store.Valid()
    modifies store
    ensures store.Valid() && store.State() == MigrationSpec.CreateMedia(old(store.State()), m, p)
  {
    if store.State().HasAttachmentWithSource(m.sourceUrl) {
      return;
    }
    var upload := p.download(m.sourceUrl);
    if upload.DownloadFailed? {
      return;
    }
    var id := store.InsertPost(MigrationSpec.Attachment(m, p), p);
    if id.Some? {
      if upload.Stored? {
        store.UpdatePostMeta(id.value, AttachedFileKey, Text(upload.file));
        if upload.metadata.Some? {
          store.UpdatePostMeta(id.value, AttachmentMetadataKey, Text(upload.metadata.value));
        }
      }
      store.UpdatePostMeta(id.value, MediaKey, Num(m.id));
      store.UpdatePostMeta(id.value, AltTextKey, Text(p.sanitize(m.caption)));
    }
  }

  /** The post_category loop: each remote category's mapped term, or null, in order. */
  method ResolvePostCategories(store: Store, ids: seq<int>) returns (categories: seq<Option<nat>>)
    ensures categories == MigrationSpec.ResolveCategories(store.termMeta, ids)
  {
    categories := [];
    var i := 0;
    while i < |ids|
      invariant 0 <= i <= |ids|
      invariant categories == MigrationSpec.ResolveCategories(store.termMeta, ids[..i])
    {
      assert ids[..i + 1][..i] == ids[..i];
      categories := categories + [Lookup(store.termMeta, CategoryKey, Num(ids[i]))];
      i := i + 1;
    }
    assert ids[..i] == ids;
  }

  /** The tags_input loop: the names of the remote tags whose mapping is not empty, in order. */
  method ResolvePostTags(store: Store, ids: seq<int>) returns (tags: seq<string>)
    ensures tags == MigrationSpec.ResolveTags(store.State(), ids)
  {
    ghost var db := store.State();
    tags := [];
    var j := 0;
    while j < |ids|
      invariant 0 <= j <= |ids|
      invariant tags == MigrationSpec.ResolveTags(db, ids[..j])
    {
      ghost var seen := ids[..j + 1];
      assert seen[..j] == ids[..j] && seen[j] == ids[j];
      ghost var name := MigrationSpec.TagName(db, ids[j]);
      assert MigrationSpec.ResolveTags(db, seen) == tags + (if name.Some? then [name.value] else []);
      var tagId := Lookup(store.termMeta, TagKey, Num(ids[j]));
      if MigrationSpec.NonEmpty(tagId) && tagId.value in store.terms {
        tags := tags + [store.terms[tagId.value].name];
      }
      j := j + 1;
    }
    assert ids[..j] == ids;
  }

  /**
    createPost: rewrite the content, resolve the categories and tags one
    remote id at a time, insert the post, then set its featured image.
   */
  method CreatePost(store: Store, post: RemotePost, p: Platform)
    requires store.Valid()
    modifies store
    ensures store.Valid() && store.State() == MigrationSpec.CreatePost(old(store.State()), post, p)
  {
    var imageMedia := Lookup(store.postMeta, MediaKey, Num(post.featuredMedia));
    var url := if MigrationSpec.NonEmpty(imageMedia) then Some(p.attachmentUrl(imageMedia.value)) else None;
    var content := UnwrapImageLinks(RewriteImageSources(post.content, url));

    var categories := ResolvePostCategories(store, post.categories);
    var tags := ResolvePostTags(store, post.tags);

    var media := Lookup(store.postMeta, MediaKey, Num(post.featuredMedia));
    var local := LocalPost(post.kind, post.title, content, p.stripTags(post.excerpt), post.status, post.slug,
                           post.author, "", None, categories, tags, post.meta);
    var id := store.InsertPost(local, p);
    if id.Some? && MigrationSpec.NonEmpty(media) {
      store.SetPostThumbnail(id.value, media.value);
    }
  }

  /**
    createPage: strip bracket spans from the content, resolve the parent
    through the page mapping, insert the page, then record the remote parent
    (when there is one) and the remote id.
   */
  method CreatePage(store: Store, page: RemotePage, p: Platform)
    requires store.Valid()
    modifies store
    ensures store.Valid() && store.State() == MigrationSpec.CreatePage(old(store.State()), page, p)
  {
    var content := StripBrackets(page.content);
    var parentId := Lookup(store.postMeta, PageKey, Num(page.parent));
    var local := LocalPost(PostType.Page, page.title, content, page.excerpt, page.status, "", page.author, "",
                           parentId, [], [], page.meta);
    var id := store.InsertPost(local, p);
    if id.Some? {
      if page.parent != 0 {
        store.UpdatePostMeta(id.value, PageParentKey, Num(page.parent));
      }
      store.UpdatePostMeta(id.value, PageKey, Num(page.id));
    }
  }
}
