/**
  The destination installation, reduced to what the migration reads and
  writes: terms, term meta, posts (attachments, posts, pages), post meta and
  the counter that hands out fresh ids. `Db` is its value; `Store` is the
  object whose fields the WordPress primitives update in place.
 */
module LocalStore {
  import opened Wrappers
  import opened Meta
  import opened Remote

  datatype Taxonomy = Category | PostTag

  /** A local term; its id is its key in Db.terms. */
  datatype Term = Term(taxonomy: Taxonomy, name: string, slug: string, parent: Option<nat>)

  /**
    A local post, attachment or page as the migration asks wp_insert_post or
    wp_insert_attachment to store it; fields the call does not pass are empty.
    `categories` and `tags` are the post_category and tags_input arguments;
    `meta` is meta_input. The featured image is a _thumbnail_id meta row.
   */
  datatype LocalPost = LocalPost(
    postType: PostType, title: string, content: string, excerpt: string, status: string,
    slug: string, author: int, mimeType: string, parent: Option<nat>,
    categories: seq<Option<nat>>, tags: seq<string>, meta: seq<MetaPair>)

  datatype Db = Db(terms: map<nat, Term>, termMeta: seq<MetaRow>, posts: map<nat, LocalPost>,
                   postMeta: seq<MetaRow>, nextId: nat)
  {
    /**
      What the database guarantees: ids are positive and below the counter,
      and every meta row belongs to an existing object (deletes cascade).
     */
    ghost predicate Valid() {
      && 0 < nextId
      && (forall id :: id in terms ==> 0 < id < nextId)
      && (forall id :: id in posts ==> 0 < id < nextId)
      && (forall i :: 0 <= i < |termMeta| ==> termMeta[i].owner in terms)
      && (forall i :: 0 <= i < |postMeta| ==> postMeta[i].owner in posts)
    }

    /** wp_insert_term: the term is stored under the next free id. */
    function AddTerm(t: Term): Db {
      this.(terms := terms[nextId := t], nextId := nextId + 1)
    }

    /** update_term_meta */
    function SetTermMeta(owner: nat, key: string, value: Value): Db {
      this.(termMeta := Upsert(termMeta, owner, key, value))
    }

    /** wp_delete_term, with the term's meta. */
    function RemoveTerms(ids: set<nat>): Db {
      this.(terms := terms - ids, termMeta := DropOwners(termMeta, ids))
    }

    /** `termmeta where meta_key in keys delete` */
    function DropTermMeta(keys: set<string>): Db {
      this.(termMeta := DropKeys(termMeta, keys))
    }

    /** wp_insert_post / wp_insert_attachment: the post is stored under the next free id. */
    function AddPost(p: LocalPost): Db {
      this.(posts := posts[nextId := p], nextId := nextId + 1)
    }

    /** update_post_meta */
    function SetPostMeta(owner: nat, key: string, value: Value): Db {
      this.(postMeta := Upsert(postMeta, owner, key, value))
    }

    /** set_post_thumbnail: when both the post and the attachment exist, the post's _thumbnail_id row names it. */
    function SetThumbnail(id: nat, media: nat): Db {
      if id in posts && media in posts then SetPostMeta(id, ThumbnailKey, Num(media)) else this
    }

    /** wp_delete_post with force, with the post's meta. */
    function RemovePosts(ids: set<nat>): Db {
      this.(posts := posts - ids, postMeta := DropOwners(postMeta, ids))
    }

    /** wp_delete_attachment with force: its meta goes, and so does every _thumbnail_id row naming it. */
    function RemoveAttachments(ids: set<nat>): Db {
      this.(posts := posts - ids, postMeta := DropAttachmentRows(postMeta, ids))
    }

    /** `postmeta where meta_key in keys delete` */
    function DropPostMeta(keys: set<string>): Db {
      this.(postMeta := DropKeys(postMeta, keys))
    }

    /** get_term_by('slug', slug, taxonomy) finds a term. */
    predicate HasTermWithSlug(tax: Taxonomy, slug: string) {
      exists id :: id in terms && terms[id].taxonomy == tax && terms[id].slug == slug
    }

    /** get_posts(attachment, meta_key source_url, meta_value url) finds an attachment. */
    predicate HasAttachmentWithSource(url: string) {
      exists i :: 0 <= i < |postMeta| && Matches(postMeta[i], SourceUrlKey, Text(url)) &&
        postMeta[i].owner in posts && posts[postMeta[i].owner].postType == Attachment
    }

    /** The ids get_terms(taxonomy, hide_empty false) lists. */
    function TermIds(tax: Taxonomy): set<nat> {
      set id | id in terms && terms[id].taxonomy == tax
    }

    /** The ids get_posts(post_type, numberposts -1, post_status null) lists. */
    function PostIds(kind: PostType, p: Platform): set<nat> {
      set id | id in posts && posts[id].postType == kind && p.listed(kind, posts[id].status)
    }
  }

  /**
    The ids of a listing that wp_delete_term really deletes: it refuses the
    installation's default category (the default_category option).
   */
  function Deletable(ids: set<nat>, tax: Taxonomy, p: Platform): set<nat> {
    if tax == Category then ids - {p.defaultCategory} else ids
  }

  /**
    What fetching a media file gives. DownloadFailed: download_url returned
    an error. SideloadFailed: wp_handle_sideload stored no file, so
    wp_generate_attachment_metadata finds nothing and gives empty metadata.
    Stored: the file's path, and the generated metadata, None when it is empty.
   */
  datatype Upload = DownloadFailed | SideloadFailed | Stored(file: string, metadata: Option<string>)

  /** The purgers, as the keys of the purge faults. */
  datatype Purger = Taxonomies | MediaFiles | Posts | Pages

  /**
    The platform behaviour the migration relies on but cannot see, as
    parameters: whether wp_insert_term and wp_insert_post accept a record,
    the download-and-sideload of a media URL, sanitize_text_field,
    strip_tags, wp_get_attachment_url, which statuses get_posts returns when
    post_status is null, the default_category option, and the message a
    purger's storage calls raise.
   */
  datatype Platform = Platform(
    acceptsTerm: (Db, Term) -> bool,
    acceptsPost: (Db, LocalPost) -> bool,
    download: string -> Upload,
    sanitize: string -> string,
    stripTags: string -> string,
    attachmentUrl: nat -> string,
    listed: (PostType, string) -> bool,
    defaultCategory: nat,
    purgeFault: Purger -> Option<string>)

  /** Every term insertion is accepted. */
  ghost predicate AcceptsAllTerms(p: Platform) {
    forall d, t :: p.acceptsTerm(d, t)
  }

  lemma AddTermValid(db: Db, t: Term)
    requires db.Valid()
    ensures db.AddTerm(t).Valid() && db.nextId !in db.terms
    ensures forall key :: Unset(db.termMeta, db.nextId, key)
  {
  }

  lemma AddPostValid(db: Db, post: LocalPost)
    requires db.Valid()
    ensures db.AddPost(post).Valid() && db.nextId !in db.posts
    ensures forall key :: Unset(db.postMeta, db.nextId, key)
  {
  }

  /** Writing meta of an existing object keeps the store valid. */
  lemma SetMetaValid(db: Db, owner: nat, key: string, value: Value)
    requires db.Valid()
    ensures owner in db.terms ==> db.SetTermMeta(owner, key, value).Valid()
    ensures owner in db.posts ==> db.SetPostMeta(owner, key, value).Valid()
  {
    var t := Upsert(db.termMeta, owner, key, value);
    UpsertRows(db.termMeta, owner, key, value);
    UpsertRows(db.postMeta, owner, key, value);
    if owner in db.terms {
      forall i | 0 <= i < |t| ensures t[i].owner in db.terms {
        assert t[i] in t;
        if t[i].owner != owner { assert t[i] in db.termMeta; }
      }
    }
    var q := Upsert(db.postMeta, owner, key, value);
    if owner in db.posts {
      forall i | 0 <= i < |q| ensures q[i].owner in db.posts {
        assert q[i] in q;
        if q[i].owner != owner { assert q[i] in db.postMeta; }
      }
    }
  }

  /** Deletions keep the store valid. */
  lemma RemoveValid(db: Db, ids: set<nat>, keys: set<string>)
    requires db.Valid()
    ensures db.RemoveTerms(ids).Valid() && db.RemovePosts(ids).Valid()
    ensures db.DropTermMeta(keys).Valid() && db.DropPostMeta(keys).Valid()
  {
    var a := DropOwners(db.termMeta, ids);
    forall i | 0 <= i < |a| ensures a[i].owner in db.terms - ids { assert a[i] in a; }
    var b := DropOwners(db.postMeta, ids);
    forall i | 0 <= i < |b| ensures b[i].owner in db.posts - ids { assert b[i] in b; }
    var c := DropKeys(db.termMeta, keys);
    forall i | 0 <= i < |c| ensures c[i].owner in db.terms { assert c[i] in c; }
    var d := DropKeys(db.postMeta, keys);
    forall i | 0 <= i < |d| ensures d[i].owner in db.posts { assert d[i] in d; }
  }

  /** Deleting attachments keeps the store valid. */
  lemma RemoveAttachmentsValid(db: Db, ids: set<nat>)
    requires db.Valid()
    ensures db.RemoveAttachments(ids).Valid()
  {
    var e := DropAttachmentRows(db.postMeta, ids);
    forall i | 0 <= i < |e| ensures e[i].owner in db.posts - ids { assert e[i] in e; }
  }

  /** Deleting terms one batch after another is deleting their union, in any order. */
  lemma RemoveTermsTwice(db: Db, a: set<nat>, b: set<nat>)
    ensures db.RemoveTerms(a).RemoveTerms(b) == db.RemoveTerms(a + b)
  {
    DropOwnersTwice(db.termMeta, a, b);
    assert db.terms - a - b == db.terms - (a + b);
  }

  /** Deleting posts one batch after another is deleting their union, in any order. */
  lemma RemovePostsTwice(db: Db, a: set<nat>, b: set<nat>)
    ensures db.RemovePosts(a).RemovePosts(b) == db.RemovePosts(a + b)
  {
    DropOwnersTwice(db.postMeta, a, b);
    assert db.posts - a - b == db.posts - (a + b);
  }

  /** Deleting attachments one batch after another is deleting their union, in any order. */
  lemma RemoveAttachmentsTwice(db: Db, a: set<nat>, b: set<nat>)
    ensures db.RemoveAttachments(a).RemoveAttachments(b) == db.RemoveAttachments(a + b)
  {
    DropAttachmentRowsTwice(db.postMeta, a, b);
    assert db.posts - a - b == db.posts - (a + b);
  }

  /** Deleting nothing changes nothing. */
  lemma RemoveNothing(db: Db)
    ensures db.RemoveTerms({}) == db && db.RemovePosts({}) == db && db.RemoveAttachments({}) == db
  {
    DropNoOwners(db.termMeta);
    DropNoOwners(db.postMeta);
    DropNoAttachments(db.postMeta);
    assert db.terms - {} == db.terms;
    assert db.posts - {} == db.posts;
  }

  /**
    The installation's database, updated in place by the WordPress calls the
    migration makes. State() is its value.
   */
  class Store {
    var terms: map<nat, Term>
    var termMeta: seq<MetaRow>
    var posts: map<nat, LocalPost>
    var postMeta: seq<MetaRow>
    var nextId: nat

    function State(): Db
      reads this
    {
      Db(terms, termMeta, posts, postMeta, nextId)
    }

    ghost predicate Valid()
      reads this
    {
      State().Valid()
    }

    /** An installation holding the given contents. */
    constructor (initial: Db)
      requires initial.Valid()
      ensures Valid() && State() == initial
    {
      terms, termMeta, posts, postMeta, nextId :=
        initial.terms, initial.termMeta, initial.posts, initial.postMeta, initial.nextId;
    }

    /** wp_insert_term: the new term's id, or None when the platform refuses it. */
    method InsertTerm(t: Term, p: Platform) returns (id: Option<nat>)
      requires Valid()
      modifies this
      ensures Valid()
      ensures id == if p.acceptsTerm(old(State()), t) then Some(old(nextId)) else None
      ensures State() == if id.Some? then old(State()).AddTerm(t) else old(State())
    {
      if p.acceptsTerm(State(), t) {
        AddTermValid(State(), t);
        id := Some(nextId);
        terms := terms[nextId := t];
        nextId := nextId + 1;
      } else {
        id := None;
      }
    }

    /** update_term_meta */
    method UpdateTermMeta(owner: nat, key: string, value: Value)
      requires Valid() && owner in terms
      modifies this
      ensures Valid() && State() == old(State()).SetTermMeta(owner, key, value)
    {
      SetMetaValid(State(), owner, key, value);
      termMeta := Upsert(termMeta, owner, key, value);
    }

    /** wp_delete_term: the term and its meta rows go, unless it is the default category, which is kept. */
    method DeleteTerm(id: nat, tax: Taxonomy, p: Platform)
      requires Valid()
      modifies this
      ensures Valid() && State() == old(State()).RemoveTerms(Deletable({id}, tax, p))
    {
      if tax == Category && id == p.defaultCategory {
        assert Deletable({id}, tax, p) == {};
        RemoveNothing(State());
        return;
      }
      assert Deletable({id}, tax, p) == {id};
      RemoveValid(State(), {id}, {});
      terms := terms - {id};
      termMeta := DropOwners(termMeta, {id});
    }

    /** `termmeta where meta_key = key delete` */
    method DeleteTermMeta(key: string)
      requires Valid()
      modifies this
      ensures Valid() && State() == old(State()).DropTermMeta({key})
    {
      RemoveValid(State(), {}, {key});
      termMeta := DropKeys(termMeta, {key});
    }

    /** wp_insert_post / wp_insert_attachment: the new post's id, or None when the platform refuses it. */
    method InsertPost(post: LocalPost, p: Platform) returns (id: Option<nat>)
      requires Valid()
      modifies this
      ensures Valid()
      ensures id == if p.acceptsPost(old(State()), post) then Some(old(nextId)) else None
      ensures State() == if id.Some? then old(State()).AddPost(post) else old(State())
    {
      if p.acceptsPost(State(), post) {
        AddPostValid(State(), post);
        id := Some(nextId);
        posts := posts[nextId := post];
        nextId := nextId + 1;
      } else {
        id := None;
      }
    }

    /** update_post_meta */
    method UpdatePostMeta(owner: nat, key: string, value: Value)
      requires Valid() && owner in posts
      modifies this
      ensures Valid() && State() == old(State()).SetPostMeta(owner, key, value)
    {
      SetMetaValid(State(), owner, key, value);
      postMeta := Upsert(postMeta, owner, key, value);
    }

    /** set_post_thumbnail: update_post_meta of _thumbnail_id, when the post and the attachment exist. */
    method SetPostThumbnail(id: nat, media: nat)
      requires Valid()
      modifies this
      ensures Valid() && State() == old(State()).SetThumbnail(id, media)
    {
      if id in posts && media in posts {
        SetMetaValid(State(), id, ThumbnailKey, Num(media));
        postMeta := Upsert(postMeta, id, ThumbnailKey, Num(media));
      }
    }

    /** wp_delete_attachment with force: the attachment, its meta rows and the _thumbnail_id rows naming it go. */
    method DeleteAttachment(id: nat)
      requires Valid()
      modifies this
      ensures Valid() && State() == old(State()).RemoveAttachments({id})
    {
      RemoveAttachmentsValid(State(), {id});
      posts := posts - {id};
      postMeta := DropAttachmentRows(postMeta, {id});
    }

    /** wp_delete_post with force: the post and its meta rows go. */
    method DeletePost(id: nat)
      requires Valid()
      modifies this
      ensures Valid() && State() == old(State()).RemovePosts({id})
    {
      RemoveValid(State(), {id}, {});
      posts := posts - {id};
      postMeta := DropOwners(postMeta, {id});
    }

    /** `postmeta where meta_key = key delete` */
    method DeletePostMeta(key: string)
      requires Valid()
      modifies this
      ensures Valid() && State() == old(State()).DropPostMeta({key})
    {
      RemoveValid(State(), {}, {key});
      postMeta := DropKeys(postMeta, {key});
    }
  }
}
