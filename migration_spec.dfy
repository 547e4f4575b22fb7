/**
  What each migrator of ContentMigration does to the installation, as a
  function from the state before the call to the state after it, and the
  properties of those functions: idempotence of createCategory, the missing
  existence check of createTag, the skip rules of createMedia, the
  relationship resolution of createPost and createPage.
 */
module MigrationSpec {
  import opened Wrappers
  import opened Meta
  import opened Remote
  import opened LocalStore
  import opened Rewrite

  /** PHP's `!empty($id)` on a looked-up id: neither null nor 0. */
  predicate NonEmpty(o: Option<nat>) {
    o.Some? && o.value != 0
  }

  /** In a valid store every looked-up id is a positive id, so `!empty` is "found". */
  lemma NonEmptyIsFound(rows: seq<MetaRow>, ids: map<nat, LocalPost>, key: string, value: Value)
    requires forall i :: 0 <= i < |rows| ==> rows[i].owner in ids
    requires forall id :: id in ids ==> 0 < id
    ensures NonEmpty(Lookup(rows, key, value)) <==> Lookup(rows, key, value).Some?
  {
  }

  // ---------------------------------------------------------------------------
  // createCategory   (src/ContentMigration.php:156-182)
  // ---------------------------------------------------------------------------

  /** The term createCategory asks for: its parent is the mapped term of the remote parent, or none. */
  function CategoryTerm(db: Db, c: RemoteTerm): Term {
    Term(Category, c.name, c.slug, if c.parent != 0 then Lookup(db.termMeta, CategoryKey, Num(c.parent)) else None)
  }

  /**
    The parent createCategory asks for: none for a root, else the term of the
    first wp_api_prev_category_id row holding the remote parent, and none
    when no row holds it.
   */
  lemma CategoryParent(db: Db, c: RemoteTerm)
    ensures var t := CategoryTerm(db, c);
      && (t.parent.Some? <==>
            c.parent != 0 && exists i :: 0 <= i < |db.termMeta| && Matches(db.termMeta[i], CategoryKey, Num(c.parent)))
      && (t.parent.Some? ==>
            exists i: nat :: FirstMatchAt(db.termMeta, CategoryKey, Num(c.parent), i) && db.termMeta[i].owner == t.parent.value)
  {
  }

  function CreateCategory(db: Db, c: RemoteTerm, p: Platform): (r: Db)
    ensures db.HasTermWithSlug(Category, c.slug) ==> r == db
    ensures r.posts == db.posts && r.postMeta == db.postMeta
    ensures r == db || (r.HasTermWithSlug(Category, c.slug) && r.nextId == db.nextId + 1)
  {
    var t := CategoryTerm(db, c);
    if db.HasTermWithSlug(Category, c.slug) || !p.acceptsTerm(db, t) then db
    else
      var r := db.AddTerm(t).SetTermMeta(db.nextId, CategoryKey, Num(c.id));
      assert r.terms[db.nextId] == t;
      r
  }

  /**
    When createCategory creates, it adds exactly one category term, under a
    fresh id, whose parent is the mapped parent, and exactly one mapping row
    from that id to the remote id; otherwise nothing changes.
   */
  lemma CategoryEffect(db: Db, c: RemoteTerm, p: Platform)
    requires db.Valid()
    ensures var r := CreateCategory(db, c, p);
      && r.Valid()
      && (if !db.HasTermWithSlug(Category, c.slug) && p.acceptsTerm(db, CategoryTerm(db, c)) then
            && db.nextId !in db.terms
            && r.terms == db.terms[db.nextId := CategoryTerm(db, c)]
            && r.termMeta == db.termMeta + [MetaRow(db.nextId, CategoryKey, Num(c.id))]
            && r.nextId == db.nextId + 1
          else r == db)
  {
    var t := CategoryTerm(db, c);
    if !db.HasTermWithSlug(Category, c.slug) && p.acceptsTerm(db, t) {
      AddTermValid(db, t);
      SetMetaValid(db.AddTerm(t), db.nextId, CategoryKey, Num(c.id));
    }
  }

  /** Calling createCategory twice with the same record is calling it once. */
  lemma CategoryIdempotent(db: Db, c: RemoteTerm, p: Platform)
    requires db.Valid()
    ensures CreateCategory(CreateCategory(db, c, p), c, p) == CreateCategory(db, c, p)
  {
    var r := CreateCategory(db, c, p);
    if r != db {
      assert r.HasTermWithSlug(Category, c.slug);
    }
  }

  /** After a creation, the mapping of a remote id that had none resolves to the new term. */
  lemma CategoryMapped(db: Db, c: RemoteTerm, p: Platform)
    requires db.Valid() && !db.HasTermWithSlug(Category, c.slug) && p.acceptsTerm(db, CategoryTerm(db, c))
    requires Lookup(db.termMeta, CategoryKey, Num(c.id)).None?
    ensures Lookup(CreateCategory(db, c, p).termMeta, CategoryKey, Num(c.id)) == Some(db.nextId)
  {
    CategoryEffect(db, c, p);
    PutThenLookup(db.termMeta, db.nextId, CategoryKey, Num(c.id));
  }

  // ---------------------------------------------------------------------------
  // createTag   (src/ContentMigration.php:187-201)
  // ---------------------------------------------------------------------------

  function TagTerm(t: RemoteTerm): Term {
    Term(PostTag, t.name, t.slug, None)
  }

  function CreateTag(db: Db, t: RemoteTerm, p: Platform): (r: Db)
    ensures r.posts == db.posts && r.postMeta == db.postMeta
    ensures r == db || r.nextId == db.nextId + 1
  {
    if p.acceptsTerm(db, TagTerm(t)) then db.AddTerm(TagTerm(t)).SetTermMeta(db.nextId, TagKey, Num(t.id)) else db
  }

  /** Every accepted insert adds one post_tag term and one mapping row to the remote id; a refused one nothing. */
  lemma TagEffect(db: Db, t: RemoteTerm, p: Platform)
    requires db.Valid()
    ensures var r := CreateTag(db, t, p);
      && r.Valid()
      && (if p.acceptsTerm(db, TagTerm(t)) then
            && db.nextId !in db.terms
            && r.terms == db.terms[db.nextId := TagTerm(t)]
            && r.termMeta == db.termMeta + [MetaRow(db.nextId, TagKey, Num(t.id))]
          else r == db)
  {
    if p.acceptsTerm(db, TagTerm(t)) {
      AddTermValid(db, TagTerm(t));
      SetMetaValid(db.AddTerm(TagTerm(t)), db.nextId, TagKey, Num(t.id));
    }
  }

  /**
    createTag has no existence check: when the platform accepts both inserts,
    migrating the same tag twice leaves two terms where there was none.
   */
  lemma TagNotIdempotent(db: Db, t: RemoteTerm, p: Platform)
    requires db.Valid() && AcceptsAllTerms(p)
    ensures var r := CreateTag(CreateTag(db, t, p), t, p);
      |r.terms| == |db.terms| + 2 && r.terms[db.nextId] == r.terms[db.nextId + 1] == TagTerm(t)
  {
    assert p.acceptsTerm(db, TagTerm(t));
    TagEffect(db, t, p);
    var r1 := CreateTag(db, t, p);
    assert p.acceptsTerm(r1, TagTerm(t));
    TagEffect(r1, t, p);
    assert r1.nextId == db.nextId + 1;
  }

  // ---------------------------------------------------------------------------
  // createMedia   (src/ContentMigration.php:206-279)
  // ---------------------------------------------------------------------------

  /** The attachment createMedia inserts. */
  function Attachment(m: RemoteMedia, p: Platform): LocalPost {
    LocalPost(PostType.Attachment, m.title, p.sanitize(m.caption), p.sanitize(m.caption), "inherit", "", 0,
              m.mimeType, None, [], [], [])
  }

  /**
    The rows createMedia and the attachment calls write for a new attachment,
    in order. wp_insert_attachment records the file only when it has one, and
    wp_update_attachment_metadata writes a row only for non-empty metadata.
   */
  function MediaRows(id: nat, m: RemoteMedia, up: Upload, p: Platform): (r: seq<MetaRow>)
    ensures |r| == |StoredRows(id, up)| + 2
    ensures up.Stored? ==> r[0] == MetaRow(id, AttachedFileKey, Text(up.file))
    ensures up.Stored? && up.metadata.Some? ==> r[1] == MetaRow(id, AttachmentMetadataKey, Text(up.metadata.value))
    ensures !up.Stored? ==> forall i :: 0 <= i < |r| ==> r[i].key != AttachedFileKey
    ensures !(up.Stored? && up.metadata.Some?) ==> forall i :: 0 <= i < |r| ==> r[i].key != AttachmentMetadataKey
    ensures r[|r| - 2] == MetaRow(id, MediaKey, Num(m.id))
    ensures r[|r| - 1] == MetaRow(id, AltTextKey, Text(p.sanitize(m.caption)))
    ensures forall i :: 0 <= i < |r| ==> r[i].owner == id && r[i].key != SourceUrlKey
  {
    StoredRows(id, up) + [MetaRow(id, MediaKey, Num(m.id)), MetaRow(id, AltTextKey, Text(p.sanitize(m.caption)))]
  }

  /** The _wp_attached_file and _wp_attachment_metadata rows of a stored file; none after a failed sideload. */
  function StoredRows(id: nat, up: Upload): seq<MetaRow> {
    if !up.Stored? then []
    else [MetaRow(id, AttachedFileKey, Text(up.file))]
         + (if up.metadata.Some? then [MetaRow(id, AttachmentMetadataKey, Text(up.metadata.value))] else [])
  }

  function CreateMedia(db: Db, m: RemoteMedia, p: Platform): (r: Db)
    ensures db.HasAttachmentWithSource(m.sourceUrl) ==> r == db
    ensures p.download(m.sourceUrl).DownloadFailed? ==> r == db
    ensures r.terms == db.terms && r.termMeta == db.termMeta
  {
    var up, a := p.download(m.sourceUrl), Attachment(m, p);
    if db.HasAttachmentWithSource(m.sourceUrl) || up.DownloadFailed? || !p.acceptsPost(db, a) then db
    else
      var id := db.nextId;
      WriteStored(db.AddPost(a), id, up)
        .SetPostMeta(id, MediaKey, Num(m.id))
        .SetPostMeta(id, AltTextKey, Text(p.sanitize(m.caption)))
  }

  /**
    wp_insert_attachment's _wp_attached_file write, then
    wp_update_attachment_metadata's write, each only when there is something
    to write.
   */
  function WriteStored(d: Db, id: nat, up: Upload): Db {
    var withFile := if up.Stored? then d.SetPostMeta(id, AttachedFileKey, Text(up.file)) else d;
    if up.Stored? && up.metadata.Some? then withFile.SetPostMeta(id, AttachmentMetadataKey, Text(up.metadata.value))
    else withFile
  }

  /** update_post_meta on an existing post with no row under the key appends one row and keeps the store valid. */
  lemma AppendPostMeta(db: Db, id: nat, key: string, value: Value)
    requires db.Valid() && id in db.posts && Unset(db.postMeta, id, key)
    ensures db.SetPostMeta(id, key, value) == db.(postMeta := db.postMeta + [MetaRow(id, key, value)])
    ensures db.SetPostMeta(id, key, value).Valid()
  {
    SetMetaValid(db, id, key, value);
  }

  /** A row under another owner or key keeps a key unset. */
  lemma UnsetAppend(rows: seq<MetaRow>, row: MetaRow, owner: nat, key: string)
    requires Unset(rows, owner, key) && (row.owner != owner || row.key != key)
    ensures Unset(rows + [row], owner, key)
  {
    assert forall i :: 0 <= i < |rows| ==> (rows + [row])[i] == rows[i];
  }

  /**
    When no attachment has the source URL, the download succeeds and the
    insert is accepted, createMedia adds one attachment and appends its rows:
    the file and metadata rows the stored file gives, then the mapping and
    alt-text rows, which a failed sideload does not prevent. Otherwise
    nothing changes.
   */
  lemma MediaEffect(db: Db, m: RemoteMedia, p: Platform)
    requires db.Valid()
    ensures var r := CreateMedia(db, m, p);
      && r.Valid()
      && (if !db.HasAttachmentWithSource(m.sourceUrl) && !p.download(m.sourceUrl).DownloadFailed?
             && p.acceptsPost(db, Attachment(m, p)) then
            && db.nextId !in db.posts
            && r.posts == db.posts[db.nextId := Attachment(m, p)]
            && r.postMeta == db.postMeta + MediaRows(db.nextId, m, p.download(m.sourceUrl), p)
          else r == db)
  {
    var up := p.download(m.sourceUrl);
    var a := Attachment(m, p);
    if !db.HasAttachmentWithSource(m.sourceUrl) && !up.DownloadFailed? && p.acceptsPost(db, a) {
      var id := db.nextId;
      var d0 := db.AddPost(a);
      AddPostValid(db, a);
      assert id in d0.posts;
      var stored := StoredRows(id, up);
      StoredEffect(d0, id, up);
      var d1 := WriteStored(d0, id, up);
      MappingEffect(d1, id, m, p);
      var last := [MetaRow(id, MediaKey, Num(m.id)), MetaRow(id, AltTextKey, Text(p.sanitize(m.caption)))];
      assert CreateMedia(db, m, p) == d1.SetPostMeta(id, MediaKey, last[0].value).SetPostMeta(id, AltTextKey, last[1].value);
      assert MediaRows(id, m, up, p) == stored + last;
      AppendAssociates(db.postMeta, stored, last);
    }
  }

  /**
    A failed sideload does not stop the import: the attachment is inserted,
    and its only rows are the mapping and alt-text rows, with no file and no
    metadata row.
   */
  lemma MediaAfterFailedSideload(db: Db, m: RemoteMedia, p: Platform)
    requires db.Valid() && !db.HasAttachmentWithSource(m.sourceUrl)
    requires p.download(m.sourceUrl).SideloadFailed? && p.acceptsPost(db, Attachment(m, p))
    ensures var r := CreateMedia(db, m, p);
      && r.posts == db.posts[db.nextId := Attachment(m, p)]
      && r.postMeta == db.postMeta + [MetaRow(db.nextId, MediaKey, Num(m.id)),
                                      MetaRow(db.nextId, AltTextKey, Text(p.sanitize(m.caption)))]
  {
    MediaEffect(db, m, p);
  }

  /** Appending two blocks one after the other appends their concatenation. */
  lemma AppendAssociates(s: seq<MetaRow>, a: seq<MetaRow>, b: seq<MetaRow>)
    ensures s + a + b == s + (a + b)
  {
  }

  /** The mapping and alt-text writes on an attachment without those rows append exactly the two rows. */
  lemma MappingEffect(d1: Db, id: nat, m: RemoteMedia, p: Platform)
    requires d1.Valid() && id in d1.posts && Unset(d1.postMeta, id, MediaKey) && Unset(d1.postMeta, id, AltTextKey)
    ensures var r := d1.SetPostMeta(id, MediaKey, Num(m.id)).SetPostMeta(id, AltTextKey, Text(p.sanitize(m.caption)));
      && r.Valid() && r.posts == d1.posts
      && r.postMeta == d1.postMeta + [MetaRow(id, MediaKey, Num(m.id)), MetaRow(id, AltTextKey, Text(p.sanitize(m.caption)))]
  {
    var r2 := MetaRow(id, MediaKey, Num(m.id));
    var r3 := MetaRow(id, AltTextKey, Text(p.sanitize(m.caption)));
    AppendPostMeta(d1, id, MediaKey, r2.value);
    UnsetAppend(d1.postMeta, r2, id, AltTextKey);
    AppendPostMeta(d1.SetPostMeta(id, MediaKey, r2.value), id, AltTextKey, r3.value);
    assert [r2, r3] == [r2] + [r3];
  }

  /**
    The file and metadata writes on a fresh attachment append exactly its
    stored rows and leave the mapping and alt-text keys unset.
   */
  lemma StoredEffect(d0: Db, id: nat, up: Upload)
    requires d0.Valid() && id in d0.posts
    requires Unset(d0.postMeta, id, AttachedFileKey) && Unset(d0.postMeta, id, AttachmentMetadataKey)
    requires Unset(d0.postMeta, id, MediaKey) && Unset(d0.postMeta, id, AltTextKey)
    ensures var d1 := WriteStored(d0, id, up);
      && d1.Valid() && d1.posts == d0.posts && d1.postMeta == d0.postMeta + StoredRows(id, up)
      && Unset(d1.postMeta, id, MediaKey) && Unset(d1.postMeta, id, AltTextKey)
  {
    if up.Stored? {
      var f := MetaRow(id, AttachedFileKey, Text(up.file));
      AppendPostMeta(d0, id, AttachedFileKey, f.value);
      UnsetAppend(d0.postMeta, f, id, AttachmentMetadataKey);
      UnsetAppend(d0.postMeta, f, id, MediaKey);
      UnsetAppend(d0.postMeta, f, id, AltTextKey);
      var d1 := d0.SetPostMeta(id, AttachedFileKey, f.value);
      if up.metadata.Some? {
        var md := MetaRow(id, AttachmentMetadataKey, Text(up.metadata.value));
        AppendPostMeta(d1, id, AttachmentMetadataKey, md.value);
        UnsetAppend(d1.postMeta, md, id, MediaKey);
        UnsetAppend(d1.postMeta, md, id, AltTextKey);
        assert [f, md] == [f] + [md];
      }
    }
  }

  /**
    createMedia never writes a source_url row, so the skip check cannot see
    media it imported itself: after an import, the same record imports again.
   */
  lemma MediaNotDeduplicated(db: Db, m: RemoteMedia, p: Platform)
    requires db.Valid() && !db.HasAttachmentWithSource(m.sourceUrl)
    ensures !CreateMedia(db, m, p).HasAttachmentWithSource(m.sourceUrl)
  {
    MediaEffect(db, m, p);
    var r := CreateMedia(db, m, p);
    if r != db {
      var rows := MediaRows(db.nextId, m, p.download(m.sourceUrl), p);
      NoKeyAppended(db.postMeta, rows, SourceUrlKey);
      forall i | 0 <= i < |r.postMeta| && Matches(r.postMeta[i], SourceUrlKey, Text(m.sourceUrl)) && r.postMeta[i].owner in r.posts
        ensures r.posts[r.postMeta[i].owner].postType != PostType.Attachment
      {
        assert r.postMeta[i] == db.postMeta[i];
        assert r.postMeta[i].owner in db.posts;
      }
    }
  }


  /** Rows appended without a key leave every row under that key among the old ones. */
  lemma NoKeyAppended(rows: seq<MetaRow>, added: seq<MetaRow>, key: string)
    requires forall i :: 0 <= i < |added| ==> added[i].key != key
    ensures forall i :: 0 <= i < |rows + added| && (rows + added)[i].key == key ==>
              i < |rows| && (rows + added)[i] == rows[i]
  {
  }

  // ---------------------------------------------------------------------------
  // createPost   (src/ContentMigration.php:284-376)
  // ---------------------------------------------------------------------------

  /** The post_category argument: one entry per remote category, in order, the mapped term or null. */
  function ResolveCategories(rows: seq<MetaRow>, ids: seq<int>): (r: seq<Option<nat>>)
    ensures |r| == |ids|
    ensures forall i :: 0 <= i < |ids| ==> r[i] == Lookup(rows, CategoryKey, Num(ids[i]))
  {
    if ids == [] then []
    else
      var init := ids[..|ids| - 1];
      assert forall i :: 0 <= i < |init| ==> init[i] == ids[i];
      ResolveCategories(rows, init) + [Lookup(rows, CategoryKey, Num(ids[|ids| - 1]))]
  }

  /** The name createPost attaches for one remote tag: that of its mapped term, if the mapping is not empty. */
  function TagName(db: Db, id: int): Option<string> {
    var t := Lookup(db.termMeta, TagKey, Num(id));
    if NonEmpty(t) && t.value in db.terms then Some(db.terms[t.value].name) else None
  }

  /** The tags_input argument: the names of the mapped remote tags, in order; the others are dropped. */
  function ResolveTags(db: Db, ids: seq<int>): (r: seq<string>)
    ensures |r| <= |ids|
  {
    if ids == [] then []
    else
      var last := TagName(db, ids[|ids| - 1]);
      ResolveTags(db, ids[..|ids| - 1]) + (if last.Some? then [last.value] else [])
  }

  /** Every attached name is the name of a mapped remote tag of the post. */
  lemma {:induction false} ResolveTagsFromMapped(db: Db, ids: seq<int>)
    ensures forall x :: x in ResolveTags(db, ids) ==> exists i :: 0 <= i < |ids| && TagName(db, ids[i]) == Some(x)
  {
    if ids != [] {
      var init := ids[..|ids| - 1];
      ResolveTagsFromMapped(db, init);
      forall x | x in ResolveTags(db, ids) ensures exists i :: 0 <= i < |ids| && TagName(db, ids[i]) == Some(x) {
        if x in ResolveTags(db, init) {
          var i :| 0 <= i < |init| && TagName(db, init[i]) == Some(x);
          assert init[i] == ids[i];
        } else {
          assert TagName(db, ids[|ids| - 1]) == Some(x);
        }
      }
    }
  }

  /** When every remote tag is mapped, each gives its name, in order; when none is, no name is attached. */
  lemma ResolveTagsAllOrNone(db: Db, ids: seq<int>)
    ensures (forall i :: 0 <= i < |ids| ==> TagName(db, ids[i]).Some?) ==>
              |ResolveTags(db, ids)| == |ids| &&
              forall i :: 0 <= i < |ids| ==> TagName(db, ids[i]) == Some(ResolveTags(db, ids)[i])
    ensures (forall i :: 0 <= i < |ids| ==> TagName(db, ids[i]).None?) ==> ResolveTags(db, ids) == []
  {
    if forall i :: 0 <= i < |ids| ==> TagName(db, ids[i]).Some? {
      ResolveTagsAllMapped(db, ids);
    }
    if forall i :: 0 <= i < |ids| ==> TagName(db, ids[i]).None? {
      ResolveTagsNoneMapped(db, ids);
    }
  }

  /** When every remote tag is mapped, the names line up one for one with the ids. */
  lemma {:induction false} ResolveTagsAllMapped(db: Db, ids: seq<int>)
    requires forall i :: 0 <= i < |ids| ==> TagName(db, ids[i]).Some?
    ensures |ResolveTags(db, ids)| == |ids|
    ensures forall i :: 0 <= i < |ids| ==> TagName(db, ids[i]) == Some(ResolveTags(db, ids)[i])
  {
    if ids != [] {
      var init, last := ids[..|ids| - 1], ids[|ids| - 1];
      assert forall i :: 0 <= i < |init| ==> init[i] == ids[i];
      ResolveTagsAllMapped(db, init);
      var before := ResolveTags(db, init);
      assert TagName(db, last).Some?;
      assert ResolveTags(db, ids) == before + [TagName(db, last).value];
    }
  }

  /** When no remote tag is mapped, no name is attached. */
  lemma {:induction false} ResolveTagsNoneMapped(db: Db, ids: seq<int>)
    requires forall i :: 0 <= i < |ids| ==> TagName(db, ids[i]).None?
    ensures ResolveTags(db, ids) == []
  {
    if ids != [] {
      var init := ids[..|ids| - 1];
      assert forall i :: 0 <= i < |init| ==> init[i] == ids[i];
      ResolveTagsNoneMapped(db, init);
      assert TagName(db, ids[|ids| - 1]).None?;
    }
  }

  /** The tag list is resolved piece by piece: the names of a concatenation are the concatenated names. */
  lemma {:induction false} ResolveTagsAppend(db: Db, a: seq<int>, b: seq<int>)
    ensures ResolveTags(db, a + b) == ResolveTags(db, a) + ResolveTags(db, b)
    decreases |b|
  {
    if b == [] {
      assert a + b == a;
    } else {
      var b' := b[..|b| - 1];
      assert (a + b)[..|a + b| - 1] == a + b';
      assert (a + b)[|a + b| - 1] == b[|b| - 1];
      ResolveTagsAppend(db, a, b');
    }
  }

  /** The featured media's local attachment, as the `prev_featured_media_id` query gives it. */
  function FeaturedMedia(db: Db, post: RemotePost): Option<nat> {
    Lookup(db.postMeta, MediaKey, Num(post.featuredMedia))
  }

  /** The post content after the image-URL rewrite and the unwrap of linked images. */
  function PostContent(db: Db, post: RemotePost, p: Platform): string {
    var media := FeaturedMedia(db, post);
    var url := if NonEmpty(media) then Some(p.attachmentUrl(media.value)) else None;
    UnwrapImageLinks(RewriteImageSources(post.content, url))
  }

  /** The record createPost passes to wp_insert_post. */
  function PostRecord(db: Db, post: RemotePost, p: Platform): LocalPost {
    LocalPost(post.kind, post.title, PostContent(db, post, p), p.stripTags(post.excerpt), post.status,
              post.slug, post.author, "", None, ResolveCategories(db.termMeta, post.categories),
              ResolveTags(db, post.tags), post.meta)
  }

  /** The _thumbnail_id row set_post_thumbnail writes for a new post: one exactly when the featured media is mapped. */
  function ThumbnailRows(id: nat, media: Option<nat>): (r: seq<MetaRow>)
    ensures media.None? <==> r == []
    ensures media.Some? ==> r == [MetaRow(id, ThumbnailKey, Num(media.value))]
  {
    if media.Some? then [MetaRow(id, ThumbnailKey, Num(media.value))] else []
  }

  function CreatePost(db: Db, post: RemotePost, p: Platform): (r: Db)
    ensures r.terms == db.terms && r.termMeta == db.termMeta
    ensures r == db || r.nextId == db.nextId + 1
  {
    var local := PostRecord(db, post, p);
    if !p.acceptsPost(db, local) then db
    else
      var media := FeaturedMedia(db, post);
      var d := db.AddPost(local);
      if NonEmpty(media) then d.SetThumbnail(db.nextId, media.value) else d
  }

  /**
    An accepted post is stored under a fresh id, and it gets a _thumbnail_id
    row exactly when its featured media is mapped: then naming the mapped
    attachment. No other meta row changes.
   */
  lemma PostEffect(db: Db, post: RemotePost, p: Platform)
    requires db.Valid()
    ensures var r := CreatePost(db, post, p);
      && r.Valid()
      && (if p.acceptsPost(db, PostRecord(db, post, p)) then
            && db.nextId !in db.posts
            && r.posts == db.posts[db.nextId := PostRecord(db, post, p)]
            && r.postMeta == db.postMeta + ThumbnailRows(db.nextId, FeaturedMedia(db, post))
          else r == db)
  {
    var local := PostRecord(db, post, p);
    if p.acceptsPost(db, local) {
      AddPostValid(db, local);
      var media, d := FeaturedMedia(db, post), db.AddPost(local);
      NonEmptyIsFound(db.postMeta, db.posts, MediaKey, Num(post.featuredMedia));
      if media.Some? {
        var i :| 0 <= i < |db.postMeta| && FirstMatchAt(db.postMeta, MediaKey, Num(post.featuredMedia), i)
                 && db.postMeta[i].owner == media.value;
        assert media.value in d.posts;
        AppendPostMeta(d, db.nextId, ThumbnailKey, Num(media.value));
      }
    }
  }

  /** Without a mapping for the featured media, every image keeps its src: only linked images are unwrapped. */
  lemma PostContentUnmapped(db: Db, post: RemotePost, p: Platform)
    requires FeaturedMedia(db, post).None?
    ensures PostContent(db, post, p) == UnwrapImageLinks(post.content)
    ensures PostRecord(db, post, p).content == UnwrapImageLinks(post.content)
  {
    RewriteUnmapped(post.content, 0);
  }

  // ---------------------------------------------------------------------------
  // createPage   (src/ContentMigration.php:381-430)
  // ---------------------------------------------------------------------------

  /** The record createPage passes to wp_insert_post; its parent is the mapped remote parent page. */
  function PageRecord(db: Db, page: RemotePage): (r: LocalPost)
    ensures r.postType == PostType.Page && NoBracketSpan(r.content)
    ensures r.parent.Some? <==> exists i :: 0 <= i < |db.postMeta| && Matches(db.postMeta[i], PageKey, Num(page.parent))
    ensures r.parent.Some? ==>
      exists i: nat :: FirstMatchAt(db.postMeta, PageKey, Num(page.parent), i) && db.postMeta[i].owner == r.parent.value
  {
    StripBracketsSound(page.content);
    LocalPost(PostType.Page, page.title, StripBrackets(page.content), page.excerpt, page.status, "", page.author,
              "", Lookup(db.postMeta, PageKey, Num(page.parent)), [], [], page.meta)
  }

  /** The rows createPage writes for the new page, in order. */
  function PageRows(id: nat, page: RemotePage): (r: seq<MetaRow>)
    ensures |r| == (if page.parent != 0 then 2 else 1)
    ensures r[|r| - 1] == MetaRow(id, PageKey, Num(page.id))
    ensures page.parent != 0 ==> r[0] == MetaRow(id, PageParentKey, Num(page.parent))
    ensures forall row :: row in r ==> row.owner == id && (row.key == PageKey || row.key == PageParentKey)
  {
    (if page.parent != 0 then [MetaRow(id, PageParentKey, Num(page.parent))] else [])
      + [MetaRow(id, PageKey, Num(page.id))]
  }

  function CreatePage(db: Db, page: RemotePage, p: Platform): (r: Db)
    ensures r.terms == db.terms && r.termMeta == db.termMeta
    ensures r == db || r.nextId == db.nextId + 1
  {
    var local := PageRecord(db, page);
    if !p.acceptsPost(db, local) then db
    else
      var id := db.nextId;
      var d := db.AddPost(local);
      var d' := if page.parent != 0 then d.SetPostMeta(id, PageParentKey, Num(page.parent)) else d;
      d'.SetPostMeta(id, PageKey, Num(page.id))
  }

  /**
    An accepted page is stored under a fresh id with bracket spans stripped
    from its content and its parent resolved through the page mapping; its
    own mapping row is always written, the parent row only for a non-zero parent.
   */
  lemma PageEffect(db: Db, page: RemotePage, p: Platform)
    requires db.Valid()
    ensures var r := CreatePage(db, page, p);
      && r.Valid()
      && (if p.acceptsPost(db, PageRecord(db, page)) then
            && db.nextId !in db.posts
            && r.posts == db.posts[db.nextId := PageRecord(db, page)]
            && r.postMeta == db.postMeta + PageRows(db.nextId, page)
          else r == db)
    ensures NoBracketSpan(PageRecord(db, page).content)
  {
    StripBracketsSound(page.content);
    var local := PageRecord(db, page);
    if p.acceptsPost(db, local) {
      var id := db.nextId;
      AddPostValid(db, local);
      var d := db.AddPost(local);
      var rows := PageRows(id, page);
      var own := MetaRow(id, PageKey, Num(page.id));
      assert id in d.posts;
      if page.parent != 0 {
        AppendPostMeta(d, id, PageParentKey, Num(page.parent));
        var d' := d.SetPostMeta(id, PageParentKey, Num(page.parent));
        UnsetAppend(d.postMeta, rows[0], id, PageKey);
        AppendPostMeta(d', id, PageKey, Num(page.id));
        AppendTwoRows(db.postMeta, rows);
      } else {
        AppendPostMeta(d, id, PageKey, Num(page.id));
        assert rows == [own];
      }
    }
  }

  /** Appending two rows one at a time appends the two of them. */
  lemma AppendTwoRows(s: seq<MetaRow>, rows: seq<MetaRow>)
    requires |rows| == 2
    ensures s + [rows[0]] + [rows[1]] == s + rows
  {
    assert rows == [rows[0], rows[1]];
  }
}
