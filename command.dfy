/**
  The migrate:content command: the 1-based page loops that hand every
  fetched record to the migrators, the roots-then-children split for
  categories and pages, clearImportedMeta over every type, and the order in
  which handle runs the purgers and the loops. Each method leaves the store
  in the state the matching function of CommandSpec describes.
 */
module ContentMigrationCommand {
  import opened Remote
  import opened LocalStore
  import ContentMigration
  import ClearContent
  import ClearSpec
  import CommandSpec

  // ---------------------------------------------------------------------------
  // The `foreach` over one group of records
  // ---------------------------------------------------------------------------

  method CreateCategories(store: Store, cs: seq<RemoteTerm>, p: Platform)
    requires store.Valid()
    modifies store
    ensures store.Valid() && store.State() == CommandSpec.Apply(old(store.State()), cs, CommandSpec.CategoryStep(p))
  {
    ghost var start := store.State();
    var i := 0;
    while i < |cs|
      invariant 0 <= i <= |cs|
      invariant store.Valid() && store.State() == CommandSpec.Apply(start, cs[..i], CommandSpec.CategoryStep(p))
    {
      CommandSpec.ApplyPrefixStep(start, cs, i, CommandSpec.CategoryStep(p));
      ContentMigration.CreateCategory(store, cs[i], p);
      i := i + 1;
    }
    assert cs[..i] == cs;
  }

  method CreateTags(store: Store, ts: seq<RemoteTerm>, p: Platform)
    requires store.Valid()
    modifies store
    ensures store.Valid() && store.State() == CommandSpec.Apply(old(store.State()), ts, CommandSpec.TagStep(p))
  {
    ghost var start := store.State();
    var i := 0;
    while i < |ts|
      invariant 0 <= i <= |ts|
      invariant store.Valid() && store.State() == CommandSpec.Apply(start, ts[..i], CommandSpec.TagStep(p))
    {
      CommandSpec.ApplyPrefixStep(start, ts, i, CommandSpec.TagStep(p));
      ContentMigration.CreateTag(store, ts[i], p);
      i := i + 1;
    }
    assert ts[..i] == ts;
  }

  method CreateMediaItems(store: Store, ms: seq<RemoteMedia>, p: Platform)
    requires store.Valid()
    modifies store
    ensures store.Valid() && store.State() == CommandSpec.Apply(old(store.State()), ms, CommandSpec.MediaStep(p))
  {
    ghost var start := store.State();
    var i := 0;
    while i < |ms|
      invariant 0 <= i <= |ms|
      invariant store.Valid() && store.State() == CommandSpec.Apply(start, ms[..i], CommandSpec.MediaStep(p))
    {
      CommandSpec.ApplyPrefixStep(start, ms, i, CommandSpec.MediaStep(p));
      ContentMigration.CreateMedia(store, ms[i], p);
      i := i + 1;
    }
    assert ms[..i] == ms;
  }

  method CreatePosts(store: Store, ps: seq<RemotePost>, p: Platform)
    requires store.Valid()
    modifies store
    ensures store.Valid() && store.State() == CommandSpec.Apply(old(store.State()), ps, CommandSpec.PostStep(p))
  {
    ghost var start := store.State();
    var i := 0;
    while i < |ps|
      invariant 0 <= i <= |ps|
      invariant store.Valid() && store.State() == CommandSpec.Apply(start, ps[..i], CommandSpec.PostStep(p))
    {
      CommandSpec.ApplyPrefixStep(start, ps, i, CommandSpec.PostStep(p));
      ContentMigration.CreatePost(store, ps[i], p);
      i := i + 1;
    }
    assert ps[..i] == ps;
  }

  method CreatePages(store: Store, ps: seq<RemotePage>, p: Platform)
    requires store.Valid()
    modifies store
    ensures store.Valid() && store.State() == CommandSpec.Apply(old(store.State()), ps, CommandSpec.PageStep(p))
  {
    ghost var start := store.State();
    var i := 0;
    while i < |ps|
      invariant 0 <= i <= |ps|
      invariant store.Valid() && store.State() == CommandSpec.Apply(start, ps[..i], CommandSpec.PageStep(p))
    {
      CommandSpec.ApplyPrefixStep(start, ps, i, CommandSpec.PageStep(p));
      ContentMigration.CreatePage(store, ps[i], p);
      i := i + 1;
    }
    assert ps[..i] == ps;
  }

  // ---------------------------------------------------------------------------
  // The page loops   (src/Console/ContentMigrationCommand.php:244-502)
  // ---------------------------------------------------------------------------

  /** One pass of the categories loop: the roots of page k, then its children, after the pages before it. */
  method MigrateCategoriesPage(store: Store, pages: seq<seq<RemoteTerm>>, k: nat, p: Platform, ghost start: Db)
    requires k >= 1 && store.Valid()
    requires store.State() == CommandSpec.Apply(start, CommandSpec.RunOrder(pages, k - 1, TermParent), CommandSpec.CategoryStep(p))
    modifies store
    ensures store.Valid()
    ensures store.State() == CommandSpec.Apply(start, CommandSpec.RunOrder(pages, k, TermParent), CommandSpec.CategoryStep(p))
  {
    var categories := CommandSpec.PageAt(pages, k);
    CommandSpec.RunOrderNext(start, pages, k, TermParent, CommandSpec.CategoryStep(p));
    CreateCategories(store, CommandSpec.Roots(categories, TermParent), p);
    CreateCategories(store, CommandSpec.Children(categories, TermParent), p);
  }

  /** migrateCategories: for each page 1..total, create its root categories, then its child categories. */
  method MigrateCategories(store: Store, l: CommandSpec.Listing<RemoteTerm>, p: Platform) returns (requested: seq<nat>)
    requires store.Valid()
    modifies store
    ensures store.Valid() && store.State() == CommandSpec.MigrateCategories(old(store.State()), l, p)
    ensures CommandSpec.CountsUp(requested, l.totalPages)
  {
    ghost var start := store.State();
    requested := [];
    var page := 1;
    while page <= l.totalPages
      invariant 1 <= page <= l.totalPages + 1
      invariant CommandSpec.CountsUp(requested, page - 1)
      invariant store.Valid()
      invariant store.State() ==
        CommandSpec.Apply(start, CommandSpec.RunOrder(l.pages, page - 1, TermParent), CommandSpec.CategoryStep(p))
    {
      CommandSpec.CountsUpNext(requested, page);
      requested := requested + [page];
      MigrateCategoriesPage(store, l.pages, page, p, start);
      page := page + 1;
    }
  }

  /** One pass of the tags loop: the tags of page k, after those of the pages before it. */
  method MigrateTagsPage(store: Store, pages: seq<seq<RemoteTerm>>, k: nat, p: Platform, ghost start: Db)
    requires k >= 1 && store.Valid()
    requires store.State() == CommandSpec.Apply(start, CommandSpec.Fetched(pages, k - 1), CommandSpec.TagStep(p))
    modifies store
    ensures store.Valid() && store.State() == CommandSpec.Apply(start, CommandSpec.Fetched(pages, k), CommandSpec.TagStep(p))
  {
    var tags := CommandSpec.PageAt(pages, k);
    CommandSpec.FetchedNext(start, pages, k, CommandSpec.TagStep(p));
    CreateTags(store, tags, p);
  }

  /** migrateTags: for each page 1..total, create every tag on it. */
  method MigrateTags(store: Store, l: CommandSpec.Listing<RemoteTerm>, p: Platform) returns (requested: seq<nat>)
    requires store.Valid()
    modifies store
    ensures store.Valid() && store.State() == CommandSpec.MigrateTags(old(store.State()), l, p)
    ensures CommandSpec.CountsUp(requested, l.totalPages)
  {
    ghost var start := store.State();
    requested := [];
    var page := 1;
    while page <= l.totalPages
      invariant 1 <= page <= l.totalPages + 1
      invariant CommandSpec.CountsUp(requested, page - 1)
      invariant store.Valid()
      invariant store.State() == CommandSpec.Apply(start, CommandSpec.Fetched(l.pages, page - 1), CommandSpec.TagStep(p))
    {
      CommandSpec.CountsUpNext(requested, page);
      requested := requested + [page];
      MigrateTagsPage(store, l.pages, page, p, start);
      page := page + 1;
    }
  }

  /** One pass of the media loop: the media items of page k, after those of the pages before it. */
  method MigrateMediaPage(store: Store, pages: seq<seq<RemoteMedia>>, k: nat, p: Platform, ghost start: Db)
    requires k >= 1 && store.Valid()
    requires store.State() == CommandSpec.Apply(start, CommandSpec.Fetched(pages, k - 1), CommandSpec.MediaStep(p))
    modifies store
    ensures store.Valid() && store.State() == CommandSpec.Apply(start, CommandSpec.Fetched(pages, k), CommandSpec.MediaStep(p))
  {
    var media := CommandSpec.PageAt(pages, k);
    CommandSpec.FetchedNext(start, pages, k, CommandSpec.MediaStep(p));
    CreateMediaItems(store, media, p);
  }

  /** migrateMedia: for each page 1..total, create every media item on it. */
  method MigrateMedia(store: Store, l: CommandSpec.Listing<RemoteMedia>, p: Platform) returns (requested: seq<nat>)
    requires store.Valid()
    modifies store
    ensures store.Valid() && store.State() == CommandSpec.MigrateMedia(old(store.State()), l, p)
    ensures CommandSpec.CountsUp(requested, l.totalPages)
  {
    ghost var start := store.State();
    requested := [];
    var page := 1;
    while page <= l.totalPages
      invariant 1 <= page <= l.totalPages + 1
      invariant CommandSpec.CountsUp(requested, page - 1)
      invariant store.Valid()
      invariant store.State() == CommandSpec.Apply(start, CommandSpec.Fetched(l.pages, page - 1), CommandSpec.MediaStep(p))
    {
      CommandSpec.CountsUpNext(requested, page);
      requested := requested + [page];
      MigrateMediaPage(store, l.pages, page, p, start);
      page := page + 1;
    }
  }

  /** migratePosts: for each page 1..total, create every post on it. */
  method MigratePosts(store: Store, l: CommandSpec.Listing<RemotePost>, p: Platform) returns (requested: seq<nat>)
    requires store.Valid()
    modifies store
    ensures store.Valid() && store.State() == CommandSpec.MigratePosts(old(store.State()), l, p)
    ensures CommandSpec.CountsUp(requested, l.totalPages)
  {
    ghost var start := store.State();
    requested := [];
    var page := 1;
    while page <= l.totalPages
      invariant 1 <= page <= l.totalPages + 1
      invariant CommandSpec.CountsUp(requested, page - 1)
      invariant store.Valid()
      invariant store.State() == CommandSpec.Apply(start, CommandSpec.Fetched(l.pages, page - 1), CommandSpec.PostStep(p))
    {
      CommandSpec.CountsUpNext(requested, page);
      requested := requested + [page];
      MigratePostsPage(store, l.pages, page, p, start);
      page := page + 1;
    }
  }

  /** One pass of the posts loop: the posts of page k, after those of the pages before it. */
  method MigratePostsPage(store: Store, pages: seq<seq<RemotePost>>, k: nat, p: Platform, ghost start: Db)
    requires k >= 1 && store.Valid()
    requires store.State() == CommandSpec.Apply(start, CommandSpec.Fetched(pages, k - 1), CommandSpec.PostStep(p))
    modifies store
    ensures store.Valid() && store.State() == CommandSpec.Apply(start, CommandSpec.Fetched(pages, k), CommandSpec.PostStep(p))
  {
    var posts := CommandSpec.PageAt(pages, k);
    CommandSpec.FetchedNext(start, pages, k, CommandSpec.PostStep(p));
    CreatePosts(store, posts, p);
  }

  /** One pass of the pages loop: the root pages of page k, then its child pages, after the pages before it. */
  method MigratePagesPage(store: Store, pages: seq<seq<RemotePage>>, k: nat, p: Platform, ghost start: Db)
    requires k >= 1 && store.Valid()
    requires store.State() == CommandSpec.Apply(start, CommandSpec.RunOrder(pages, k - 1, PageParent), CommandSpec.PageStep(p))
    modifies store
    ensures store.Valid()
    ensures store.State() == CommandSpec.Apply(start, CommandSpec.RunOrder(pages, k, PageParent), CommandSpec.PageStep(p))
  {
    var records := CommandSpec.PageAt(pages, k);
    CommandSpec.RunOrderNext(start, pages, k, PageParent, CommandSpec.PageStep(p));
    CreatePages(store, CommandSpec.Roots(records, PageParent), p);
    CreatePages(store, CommandSpec.Children(records, PageParent), p);
  }

  /** migratePages: for each page 1..total, create its root pages, then its child pages. */
  method MigratePages(store: Store, l: CommandSpec.Listing<RemotePage>, p: Platform) returns (requested: seq<nat>)
    requires store.Valid()
    modifies store
    ensures store.Valid() && store.State() == CommandSpec.MigratePages(old(store.State()), l, p)
    ensures CommandSpec.CountsUp(requested, l.totalPages)
  {
    ghost var start := store.State();
    requested := [];
    var page := 1;
    while page <= l.totalPages
      invariant 1 <= page <= l.totalPages + 1
      invariant CommandSpec.CountsUp(requested, page - 1)
      invariant store.Valid()
      invariant store.State() ==
        CommandSpec.Apply(start, CommandSpec.RunOrder(l.pages, page - 1, PageParent), CommandSpec.PageStep(p))
    {
      CommandSpec.CountsUpNext(requested, page);
      requested := requested + [page];
      MigratePagesPage(store, l.pages, page, p, start);
      page := page + 1;
    }
  }

  // ---------------------------------------------------------------------------
  // clearImportedMeta and handle   (src/Console/ContentMigrationCommand.php:30-141)
  // ---------------------------------------------------------------------------

  /** clearImportedMeta: the ClearContent switch for category, tag, featured_media, post and page, in that order. */
  method ClearImportedMeta(store: Store)
    requires store.Valid()
    modifies store
    ensures store.Valid() && store.State() == CommandSpec.ClearImportedMetaAll(old(store.State()))
  {
    ghost var start := store.State();
    var types := ClearSpec.ImportedTypes;
    var i := 0;
    while i < |types|
      invariant 0 <= i <= |types|
      invariant store.Valid() && store.State() == CommandSpec.Apply(start, types[..i], CommandSpec.ClearStep)
    {
      CommandSpec.ApplyPrefixStep(start, types, i, CommandSpec.ClearStep);
      ClearContent.ClearImportedMeta(store, types[i]);
      i := i + 1;
    }
    assert types[..i] == types;
  }

  /** The --clear-all branch once confirmed: taxonomies, media, posts, pages. */
  method ClearAll(store: Store, p: Platform) returns (messages: seq<string>)
    requires store.Valid()
    modifies store
    ensures store.Valid() && (store.State(), messages) == CommandSpec.ClearAll(old(store.State()), p)
  {
    var taxonomies := ClearContent.ClearTaxonomies(store, p);
    var media := ClearContent.ClearMedia(store, p);
    var posts := ClearContent.ClearPosts(store, p);
    var pages := ClearContent.ClearPages(store, p);
    messages := [taxonomies, media, posts, pages];
  }

  /** The branch without --clear-all: each purger whose prompt is confirmed, in the same order. */
  method ClearSelected(store: Store, a: CommandSpec.Answers, p: Platform) returns (messages: seq<string>)
    requires store.Valid()
    modifies store
    ensures store.Valid() && (store.State(), messages) == CommandSpec.ClearSelected(old(store.State()), a, p)
  {
    var taxonomies := ClearIf(store, a.clearTaxonomies, Taxonomies, p);
    var media := ClearIf(store, a.clearMedia, MediaFiles, p);
    var posts := ClearIf(store, a.clearPosts, Posts, p);
    var pages := ClearIf(store, a.clearPages, Pages, p);
    messages := taxonomies + media + posts + pages;
  }

  /** One `confirmClear(...) ? clearX() : null`: the purger runs only when its prompt is confirmed. */
  method ClearIf(store: Store, confirmed: bool, which: Purger, p: Platform) returns (messages: seq<string>)
    requires store.Valid()
    modifies store
    ensures store.Valid() && (store.State(), messages) == CommandSpec.ClearIf(old(store.State()), confirmed, which, p)
  {
    messages := [];
    if confirmed {
      var message := Purge(store, which, p);
      messages := [message];
    }
  }

  /** Runs the purger a prompt names. */
  method Purge(store: Store, which: Purger, p: Platform) returns (message: string)
    requires store.Valid()
    modifies store
    ensures store.Valid() && (store.State(), message) == CommandSpec.Purge(old(store.State()), which, p)
  {
    match which
    case Taxonomies => message := ClearContent.ClearTaxonomies(store, p);
    case MediaFiles => message := ClearContent.ClearMedia(store, p);
    case Posts => message := ClearContent.ClearPosts(store, p);
    case Pages => message := ClearContent.ClearPages(store, p);
  }

  /** The --migrate-all branch: the five loops, then clearImportedMeta. */
  method MigrateAll(store: Store, site: CommandSpec.Site, p: Platform)
    requires store.Valid()
    modifies store
    ensures store.Valid() && store.State() == CommandSpec.MigrateAll(old(store.State()), site, p)
  {
    var _ := MigrateCategories(store, site.categories, p);
    var _ := MigrateTags(store, site.tags, p);
    var _ := MigrateMedia(store, site.media, p);
    var _ := MigratePosts(store, site.posts, p);
    var _ := MigratePages(store, site.pages, p);
    ClearImportedMeta(store);
  }

  /** The branch without --migrate-all: each loop whose prompt is confirmed, in the same order. */
  method MigrateSelected(store: Store, site: CommandSpec.Site, a: CommandSpec.Answers, p: Platform)
    requires store.Valid()
    modifies store
    ensures store.Valid() && store.State() == CommandSpec.MigrateSelected(old(store.State()), site, a, p)
  {
    if a.migrateCategories {
      var _ := MigrateCategories(store, site.categories, p);
    }
    if a.migrateTags {
      var _ := MigrateTags(store, site.tags, p);
    }
    if a.migrateMedia {
      var _ := MigrateMedia(store, site.media, p);
    }
    if a.migratePosts {
      var _ := MigratePosts(store, site.posts, p);
    }
    if a.migratePages {
      var _ := MigratePages(store, site.pages, p);
    }
  }

  /** handle: the clear phase chosen by --clear-all and the prompts, then the migrate phase chosen by --migrate-all. */
  method Handle(store: Store, site: CommandSpec.Site, o: CommandSpec.Options, a: CommandSpec.Answers, p: Platform)
    returns (messages: seq<string>)
    requires store.Valid()
    modifies store
    ensures store.Valid() && (store.State(), messages) == CommandSpec.Handle(old(store.State()), site, o, a, p)
  {
    if o.clearAll {
      if a.confirmClearAll {
        messages := ClearAll(store, p);
      } else {
        messages := [];
      }
    } else {
      messages := ClearSelected(store, a, p);
    }
    if o.migrateAll {
      MigrateAll(store, site, p);
    } else {
      MigrateSelected(store, site, a, p);
    }
  }
}
