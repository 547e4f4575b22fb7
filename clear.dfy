/**
  The purgers of ClearContent as methods on the destination store: each
  deletes the listed records one at a time, then deletes mapping rows key by
  key, and returns its status string or the message of the storage failure.
 */
module ClearContent {
  import opened Wrappers
  import opened Meta
  import opened Remote
  import opened LocalStore
  import ClearSpec

  /**
    The `foreach` over a term listing: wp_delete_term on each id, in whatever
    order the listing gives; every listed term goes except the default category.
   */
  method DeleteTerms(store: Store, ids: set<nat>, tax: Taxonomy, p: Platform)
    requires store.Valid()
    modifies store
    ensures store.Valid() && store.State() == old(store.State()).RemoveTerms(Deletable(ids, tax, p))
  {
    ghost var start := store.State();
    RemoveNothing(start);
    var left := ids;
    assert Deletable(ids - left, tax, p) == {};
    while left != {}
      invariant store.Valid()
      invariant left <= ids
      invariant store.State() == start.RemoveTerms(Deletable(ids - left, tax, p))
      decreases left
    {
      var id :| id in left;
      ghost var before := store.State();
      store.DeleteTerm(id, tax, p);
      DeleteTermsStep(start, before, store.State(), ids, left, id, tax, p);
      left := left - {id};
    }
    assert ids - left == ids;
  }

  /** One more wp_delete_term: the ids handled so far grow by one. */
  lemma DeleteTermsStep(start: Db, before: Db, after: Db, ids: set<nat>, left: set<nat>, id: nat, tax: Taxonomy, p: Platform)
    requires id in left && left <= ids
    requires before == start.RemoveTerms(Deletable(ids - left, tax, p))
    requires after == before.RemoveTerms(Deletable({id}, tax, p))
    ensures after == start.RemoveTerms(Deletable(ids - (left - {id}), tax, p))
  {
    RemoveTermsTwice(start, Deletable(ids - left, tax, p), Deletable({id}, tax, p));
    assert (ids - left) + {id} == ids - (left - {id});
    assert Deletable(ids - left, tax, p) + Deletable({id}, tax, p) == Deletable(ids - (left - {id}), tax, p);
  }

  /** The `foreach` over an attachment listing: wp_delete_attachment with force on each id. */
  method DeleteAttachments(store: Store, ids: set<nat>)
    requires store.Valid()
    modifies store
    ensures store.Valid() && store.State() == old(store.State()).RemoveAttachments(ids)
  {
    ghost var start := store.State();
    RemoveNothing(start);
    var left := ids;
    assert ids - left == {};
    while left != {}
      invariant store.Valid()
      invariant left <= ids
      invariant store.State() == start.RemoveAttachments(ids - left)
      decreases left
    {
      var id :| id in left;
      RemoveAttachmentsTwice(start, ids - left, {id});
      store.DeleteAttachment(id);
      assert (ids - left) + {id} == ids - (left - {id});
      left := left - {id};
    }
    assert ids - left == ids;
  }

  /** The `foreach` over a post or page listing: wp_delete_post with force on each id. */
  method DeletePosts(store: Store, ids: set<nat>)
    requires store.Valid()
    modifies store
    ensures store.Valid() && store.State() == old(store.State()).RemovePosts(ids)
  {
    ghost var start := store.State();
    RemoveNothing(start);
    var left := ids;
    assert ids - left == {};
    while left != {}
      invariant store.Valid()
      invariant left <= ids
      invariant store.State() == start.RemovePosts(ids - left)
      decreases left
    {
      var id :| id in left;
      RemovePostsTwice(start, ids - left, {id});
      store.DeletePost(id);
      assert (ids - left) + {id} == ids - (left - {id});
      left := left - {id};
    }
    assert ids - left == ids;
  }

  /** clearImportedMeta: one keyed delete per mapping key of the type; any other type deletes nothing. */
  method ClearImportedMeta(store: Store, t: string)
    requires store.Valid()
    modifies store
    ensures store.Valid() && store.State() == ClearSpec.ClearImportedMeta(old(store.State()), t)
  {
    if t == "category" {
      store.DeleteTermMeta(CategoryKey);
    } else if t == "tag" {
      store.DeleteTermMeta(TagKey);
    } else if t == "featured_media" {
      store.DeletePostMeta(FeaturedMediaKey);
    } else if t == "post" {
      store.DeletePostMeta(PostKey);
    } else if t == "page" {
      DropKeysTwice(store.postMeta, {PageKey}, {PageParentKey});
      assert {PageKey} + {PageParentKey} == {PageKey, PageParentKey};
      store.DeletePostMeta(PageKey);
      store.DeletePostMeta(PageParentKey);
    }
  }

  /** clearTaxonomies: all categories, then all tags, then the category and tag mappings. */
  method ClearTaxonomies(store: Store, p: Platform) returns (message: string)
    requires store.Valid()
    modifies store
    ensures store.Valid() && (store.State(), message) == ClearSpec.ClearTaxonomies(old(store.State()), p)
  {
    var fault := p.purgeFault(Taxonomies);
    if fault.Some? {
      return fault.value;
    }
    DeleteTerms(store, store.State().TermIds(Category), Category, p);
    DeleteTerms(store, store.State().TermIds(PostTag), PostTag, p);
    ClearImportedMeta(store, "category");
    ClearImportedMeta(store, "tag");
    message := "Taxonomies cleared";
  }

  /** clearMedia: all listed attachments, then the file and metadata rows, then the featured_media mapping. */
  method ClearMedia(store: Store, p: Platform) returns (message: string)
    requires store.Valid()
    modifies store
    ensures store.Valid() && (store.State(), message) == ClearSpec.ClearMedia(old(store.State()), p)
  {
    var fault := p.purgeFault(MediaFiles);
    if fault.Some? {
      return fault.value;
    }
    DeleteAttachments(store, store.State().PostIds(Attachment, p));
    store.DeletePostMeta(AttachedFileKey);
    store.DeletePostMeta(AttachmentMetadataKey);
    ClearImportedMeta(store, "featured_media");
    message := "Media cleared";
  }

  /** clearPosts: all listed posts, then the post mapping. */
  method ClearPosts(store: Store, p: Platform) returns (message: string)
    requires store.Valid()
    modifies store
    ensures store.Valid() && (store.State(), message) == ClearSpec.ClearPosts(old(store.State()), p)
  {
    var fault := p.purgeFault(Posts);
    if fault.Some? {
      return fault.value;
    }
    DeletePosts(store, store.State().PostIds(Post, p));
    ClearImportedMeta(store, "post");
    message := "Posts cleared";
  }

  /** clearPages: all listed pages, then the page and page-parent mappings. */
  method ClearPages(store: Store, p: Platform) returns (message: string)
    requires store.Valid()
    modifies store
    ensures store.Valid() && (store.State(), message) == ClearSpec.ClearPages(old(store.State()), p)
  {
    var fault := p.purgeFault(Pages);
    if fault.Some? {
      return fault.value;
    }
    DeletePosts(store, store.State().PostIds(Page, p));
    ClearImportedMeta(store, "page");
    message := "Pages cleared";
  }
}
