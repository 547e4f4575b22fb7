# wp-api-content-migration, as a verified model

This project models the migration engine of the `migrate:content` WordPress
console command. The command copies categories, tags, media, posts and pages
from a remote WordPress site, read through its REST API, into the local
installation. It also purges local content and removes the meta rows that
record where each item came from.

The local installation is a value `LocalStore.Db`. It holds:

- terms;
- term-meta rows;
- posts, attachments and pages;
- post-meta rows;
- the counter that hands out fresh ids.

`LocalStore.Store` is the object whose fields the WordPress primitives update
in place (`wp_insert_term`, `update_term_meta`, `wp_insert_post`,
`update_post_meta`, `set_post_thumbnail`, `wp_delete_term`, `wp_delete_attachment`, `wp_delete_post`,
and the bulk meta delete of the query builder).

Each PHP operation appears twice:

- As a method on `Store`, with the same lookups, calls, loops and branches as
  the PHP code (modules `ContentMigration`, `ClearContent` and
  `ContentMigrationCommand`).
- As a function from the state before the call to the state after it
  (modules `MigrationSpec`, `ClearSpec` and `CommandSpec`).

Each method's postcondition ties the new state to its function. The
properties of the tool are proved as lemmas about those functions.

Modules:

- `Meta`: meta rows, the mapping keys and the `where(key)->where(value)->value(col)` lookup.
- `Rewrite`: the three content rewrites, written as scanners over `seq<char>`.
- `Remote`: the remote records.
- `LocalStore`: the installation and the platform behaviour the code relies on.
- `MigrationSpec` / `ContentMigration`: `createCategory`, `createTag`, `createMedia`, `createPost`, `createPage`.
- `ClearSpec` / `ClearContent`: the four purgers and `clearImportedMeta`.
- `CommandSpec` / `ContentMigrationCommand`:
  - the 1-based page loops;
  - the root-then-child split for categories and pages;
  - the run order of `handle`, and `clearImportedMeta` over all types.

Calls into WordPress or PHP behaviour that the repository does not define are
fields of `LocalStore.Platform`. These are: whether an insert succeeds, the
download and sideload of a media file, `sanitize_text_field`, `strip_tags`,
`wp_get_attachment_url`, which records `get_posts` lists, the
`default_category` option that `wp_delete_term` protects, and the message a
purger's storage calls may raise.

Where the written description of the tool and the code disagree, the model
follows the code:

- `createPost` does not pass the remote date, so the local post has none.
- The attachment's alt text is the sanitised caption, not the remote alt text.
- No code writes `wp_api_prev_post_id` or `wp_api_prev_featured_media_id`.
  So `clearImportedMeta('post')` and `clearImportedMeta('featured_media')`
  delete rows that the migration never creates.
- `createMedia` writes its mapping under `prev_featured_media_id`. That key
  differs from the `wp_api_prev_featured_media_id` the purgers delete, so the
  mapping survives every purge (`ClearSpec.ClearKeepsMediaMapping`).
- The media duplicate check looks for a `source_url` meta row. Nothing writes
  one, so a re-run imports the same media again
  (`MigrationSpec.MediaNotDeduplicated`).
- Categories and pages are split into roots and children within each page
  only. A child whose parent arrives on a later page loses its parent
  (`CommandSpec.MigrateCategoriesParentLost`).

## Model

| member | source | states |
|---|---|---|
| Meta.Lookup | src/ContentMigration.php:162-165 | the result is none exactly when no row has the key and value; otherwise it is the owner of the first such row in table order |
| Meta.LookupAppend | src/ContentMigration.php:163 | appending rows never changes a lookup that already succeeds; otherwise the appended rows decide it |
| Meta.PutThenLookup | src/ContentMigration.php:173-176 | after a mapping row is appended for a value no row held, the lookup of that value yields the row's owner |
| Meta.PutOtherKeepsLookup | src/ContentMigration.php:163 | appending a row with another key or value leaves the lookup unchanged |
| Meta.Upsert | src/ContentMigration.php:176 | update_*_meta leaves a row for owner, key and value; when the owner had no row under the key, it appends exactly that row |
| Meta.UpsertRows | src/ContentMigration.php:196 | after update_*_meta every row for that owner and key carries the new value, and rows for other owners or keys are kept exactly |
| Meta.DropKeys | src/ClearContent.php:171 | a bulk delete by meta_key keeps exactly the rows whose key is not in the set |
| Meta.DropOwners | src/ClearContent.php:40-42 | deleting objects removes exactly the meta rows they own |
| Meta.DropKeysTwice | src/ClearContent.php:84-86 | two successive key deletes equal one delete of both keys |
| Meta.DropKeysIdempotent | src/ClearContent.php:171 | repeating a key delete changes nothing |
| Meta.LookupSurvivesDrop | src/ClearContent.php:176-178 | a delete of other keys does not change any lookup under a key outside the set |
| Meta.DropOwnersTwice | src/ClearContent.php:79-81 | deleting two sets of owners one after the other equals deleting their union |
| LocalStore.Store.InsertTerm | src/ContentMigration.php:173 | wp_insert_term: on acceptance the term is stored under the next id and that id is returned; otherwise nothing changes |
| LocalStore.Store.UpdateTermMeta | src/ContentMigration.php:176 | update_term_meta upserts the row for an existing term |
| LocalStore.Store.InsertPost | src/ContentMigration.php:355-366 | wp_insert_post: on acceptance the post is stored under the next id and that id is returned; otherwise nothing changes |
| LocalStore.Store.UpdatePostMeta | src/ContentMigration.php:271 | update_post_meta upserts the row for an existing post |
| LocalStore.Store.SetPostThumbnail | src/ContentMigration.php:371 | set_post_thumbnail upserts the post's _thumbnail_id meta row, holding the attachment id, when the post and the attachment both exist; otherwise nothing changes |
| LocalStore.Store.DeleteTerm | src/ClearContent.php:41 | wp_delete_term removes the term and its meta rows, except that the category named by the default_category option is kept |
| LocalStore.Store.DeleteAttachment | src/ClearContent.php:80 | wp_delete_attachment with force removes the attachment, its meta rows and every _thumbnail_id row that names it |
| LocalStore.Store.DeletePost | src/ClearContent.php:121 | wp_delete_post with force, on a post or page, removes it and its meta rows |
| LocalStore.Store.DeleteTermMeta | src/ClearContent.php:171 | the termmeta bulk delete removes every row with the key |
| LocalStore.Store.DeletePostMeta | src/ClearContent.php:84 | the postmeta bulk delete removes every row with the key |
| LocalStore.RemoveValid | src/ClearContent.php:40-51 | deleting objects or meta keys keeps the installation consistent: ids below the counter, no meta row without its owner |
| LocalStore.RemoveAttachmentsValid | src/ClearContent.php:79-81 | deleting attachments keeps the installation consistent |
| LocalStore.RemoveAttachmentsTwice | src/ClearContent.php:79-81 | deleting two sets of attachments one after the other equals deleting their union |
| Rewrite.BracketSpanAt | src/ContentMigration.php:387 | a span `[` + one or more non-`]` + `]` starts at i exactly when the pattern matches there, it ends after the first `]`, and `[]` is no span |
| Rewrite.StripBracketsSound | src/ContentMigration.php:387 | after the bracket strip no span is left, and stripping again changes nothing |
| Rewrite.StripKeepsChars | src/ContentMigration.php:387 | every character of the stripped content occurs in the input |
| Rewrite.StripWithoutSpan | src/ContentMigration.php:387 | content with no span is left unchanged |
| Rewrite.StripAtClose | src/ContentMigration.php:387 | a `]` that closes no span is kept |
| Rewrite.StripEmptyBrackets | src/ContentMigration.php:387 | an empty `[]` is no match: both brackets are kept and the strip goes on behind them |
| Rewrite.AnchoredImageAt | src/ContentMigration.php:303 | a match is `<a` + attributes + `>` + one `<img …>` tag + `</a>` starting at i, with the image's extent returned |
| Rewrite.UnwrapOneLink | src/ContentMigration.php:303 | a link that wraps a single image is replaced by the image |
| Rewrite.LinkedImageMatches | src/ContentMigration.php:303 | the match of the pattern on a link around a single image starts at its `<a`, its group spans exactly the image, and it ends after its `</a>` |
| Rewrite.UnwrapWithoutAnchor | src/ContentMigration.php:303 | content without `<a` is left unchanged |
| Rewrite.UnwrapShrinks | src/ContentMigration.php:303 | the unwrap never lengthens the content |
| Rewrite.ImageSrcAt | src/ContentMigration.php:290 | a match is an `<img` tag with a `src="…"` attribute before its first `>`, and the captured value ends at a `"` and holds none |
| Rewrite.SrcValueAt | src/ContentMigration.php:290 | the captured src value holds no `"` and no `>` and ends at a `"` |
| Rewrite.LastSrc | src/ContentMigration.php:290 | the chosen src attribute is the last one before the bound, as the greedy `[^>]+` makes it |
| Rewrite.ReplaceBySelf | src/ContentMigration.php:296 | str_replace of a string by itself changes nothing |
| Rewrite.RewriteUnmapped | src/ContentMigration.php:290-300 | without a mapped featured image every matched image keeps its src, so the content is unchanged |
| Rewrite.RewriteWithoutImage | src/ContentMigration.php:290-300 | content without `<img` is unchanged whatever the URL |
| MigrationSpec.NonEmptyIsFound | src/ContentMigration.php:294 | PHP `!empty` of a looked-up id holds exactly when the lookup found a row, because ids are positive |
| MigrationSpec.CreateCategory | src/ContentMigration.php:156-182 | an existing slug leaves the store unchanged; otherwise either nothing changes or the slug now exists under one fresh id; posts are never touched |
| MigrationSpec.CategoryParent | src/ContentMigration.php:162-165 | a root asks for no parent; a child asks for the term of the first wp_api_prev_category_id row holding its remote parent, and for none when no row holds it |
| MigrationSpec.CategoryEffect | src/ContentMigration.php:169-177 | on creation exactly one category term under the fresh id and exactly one wp_api_prev_category_id row mapping it to the remote id are added; otherwise nothing changes |
| MigrationSpec.CategoryIdempotent | src/ContentMigration.php:169-177 | createCategory twice with the same record equals createCategory once |
| MigrationSpec.CategoryMapped | src/ContentMigration.php:173-176 | after a creation the remote id's lookup yields the new term |
| ContentMigration.CreateCategory | src/ContentMigration.php:156-182 | the method leaves the store in the state MigrationSpec.CreateCategory describes |
| MigrationSpec.CreateTag | src/ContentMigration.php:187-201 | a tag either changes nothing or takes one fresh id; posts are never touched |
| MigrationSpec.TagEffect | src/ContentMigration.php:189-196 | an accepted tag adds one post_tag term and one wp_api_prev_tag_id row with the remote id |
| MigrationSpec.TagNotIdempotent | src/ContentMigration.php:189-196 | with no existence check, the same tag twice yields two equal terms, when WordPress accepts both inserts |
| ContentMigration.CreateTag | src/ContentMigration.php:187-201 | the method leaves the store in the state MigrationSpec.CreateTag describes |
| MigrationSpec.CreateMedia | src/ContentMigration.php:206-279 | nothing changes when an attachment with that source_url exists or when download_url fails; terms are never touched |
| MigrationSpec.MediaRows | src/ContentMigration.php:265-274 | the rows of a new attachment: a _wp_attached_file row exactly when the sideload stored a file, a _wp_attachment_metadata row exactly when it did and the generated metadata is not empty, then the prev_featured_media_id row with the remote id and the alt-text row, all owned by the attachment and none under source_url |
| MigrationSpec.MediaEffect | src/ContentMigration.php:245-274 | when no attachment has the source_url, the download succeeds and the insert is accepted, exactly one attachment is added under the fresh id and exactly its rows are appended, even when the sideload failed; in every other case nothing changes |
| MigrationSpec.MediaAfterFailedSideload | src/ContentMigration.php:244-274 | after a failed sideload with the insert accepted, the attachment is added and only its mapping and alt-text rows are written |
| MigrationSpec.MediaNotDeduplicated | src/ContentMigration.php:219-228 | importing media never creates the source_url row the skip check looks for |
| ContentMigration.CreateMedia | src/ContentMigration.php:206-279 | the method leaves the store in the state MigrationSpec.CreateMedia describes |
| MigrationSpec.ResolveCategories | src/ContentMigration.php:327-332 | one entry per remote category, in order: the mapped term, or none when unmapped |
| MigrationSpec.ResolveTags | src/ContentMigration.php:335-345 | never more names than remote tags |
| MigrationSpec.ResolveTagsFromMapped | src/ContentMigration.php:337-345 | every name comes from a mapped remote tag |
| MigrationSpec.ResolveTagsAllOrNone | src/ContentMigration.php:337-345 | when all tags are mapped their names come in order, one each; when none is mapped the list is empty |
| MigrationSpec.ResolveTagsAppend | src/ContentMigration.php:337-345 | resolution goes tag by tag, keeping order: it distributes over concatenation |
| MigrationSpec.CreatePost | src/ContentMigration.php:284-376 | a post either changes nothing or takes one fresh id; terms and term meta are never touched |
| MigrationSpec.ThumbnailRows | src/ContentMigration.php:369-372 | a _thumbnail_id row holding the attachment id is written exactly when the featured media is mapped |
| MigrationSpec.PostEffect | src/ContentMigration.php:348-372 | an accepted post is stored under the fresh id, and the only post-meta row appended is its _thumbnail_id row, present exactly when its featured media is mapped; a rejected post changes nothing |
| MigrationSpec.PostContentUnmapped | src/ContentMigration.php:290-303 | with unmapped featured media every image keeps its src; only linked images are unwrapped |
| ContentMigration.CreatePost | src/ContentMigration.php:284-376 | the method leaves the store in the state MigrationSpec.CreatePost describes |
| ContentMigration.ResolvePostCategories | src/ContentMigration.php:327-332 | the post_category loop yields MigrationSpec.ResolveCategories: one entry per remote category, in order, the mapped term or none |
| ContentMigration.ResolvePostTags | src/ContentMigration.php:335-345 | the tags_input loop yields MigrationSpec.ResolveTags: the names of the mapped remote tags, in order |
| MigrationSpec.PageRecord | src/ContentMigration.php:384-418 | the page has no bracket span left, and its parent is the owner of the first wp_api_prev_page_id row holding the remote parent, or none |
| MigrationSpec.PageRows | src/ContentMigration.php:421-425 | the wp_api_prev_page_id row is always written last; a wp_api_prev_page_parent_id row comes before it only for a non-zero parent |
| MigrationSpec.CreatePage | src/ContentMigration.php:381-430 | a page either changes nothing or takes one fresh id; terms are never touched |
| MigrationSpec.PageEffect | src/ContentMigration.php:405-425 | an accepted page is stored under the fresh id, and exactly its mapping rows are appended |
| ContentMigration.CreatePage | src/ContentMigration.php:381-430 | the method leaves the store in the state MigrationSpec.CreatePage describes |
| ClearSpec.ClearImportedMeta | src/ClearContent.php:167-187 | exactly the meta rows whose key belongs to the type are deleted, every other row stays, and no term or post is touched |
| ClearSpec.ClearImportedMetaIdempotent | src/ClearContent.php:169-186 | clearing a type twice equals clearing it once |
| ClearSpec.ClearUnknownTypeUnchanged | src/ClearContent.php:169-186 | a type the switch does not name changes nothing |
| ClearSpec.ClearKeepsMediaMapping | src/ClearContent.php:176-178 | no type removes the prev_featured_media_id rows createMedia writes |
| ClearSpec.ClearImportedMetaValid | src/ClearContent.php:167-187 | clearing a type keeps the installation consistent |
| ClearContent.ClearImportedMeta | src/ClearContent.php:167-187 | the method leaves the store in the state ClearSpec.ClearImportedMeta describes |
| ClearSpec.ClearTaxonomies | src/ClearContent.php:31-62 | on success every term goes except the default category, which stays unchanged; a term-meta row stays exactly when it is under neither mapping key and belongs to the default category or to no stored term; posts, post meta and the id counter are untouched, and the result is "Taxonomies cleared"; a raised message is returned with nothing changed |
| ClearSpec.ClearMedia | src/ClearContent.php:69-103 | on success every listed attachment goes and the others stay unchanged; exactly the rows of deleted attachments, the _thumbnail_id rows naming them, and the _wp_attached_file, _wp_attachment_metadata and wp_api_prev_featured_media_id rows go; terms, term meta and the id counter are untouched; the result is "Media cleared"; a raised message is returned with nothing changed |
| ClearSpec.ClearPosts | src/ClearContent.php:110-131 | on success every listed post goes and the others stay unchanged; exactly the deleted posts' rows and the wp_api_prev_post_id rows go; terms, term meta and the id counter are untouched; the result is "Posts cleared"; a raised message is returned with nothing changed |
| ClearSpec.ClearPages | src/ClearContent.php:138-159 | on success every listed page goes and the others stay unchanged; exactly the deleted pages' rows and both page mapping keys go; terms, term meta and the id counter are untouched; the result is "Pages cleared"; a raised message is returned with nothing changed |
| ClearSpec.PurgersKeepOtherTypes | src/ClearContent.php:73-150 | a post of a type a purger does not list survives that purger with its record unchanged; its featured image is a separate _thumbnail_id row, which clearMedia removes when it names a deleted attachment |
| ClearSpec.ClearTaxonomiesValid | src/ClearContent.php:31-62 | clearTaxonomies keeps the installation consistent |
| ClearSpec.ClearMediaValid | src/ClearContent.php:69-103 | clearMedia keeps the installation consistent |
| ClearSpec.ClearPostsPagesValid | src/ClearContent.php:110-159 | clearPosts and clearPages keep the installation consistent |
| ClearContent.DeleteTerms | src/ClearContent.php:40-51 | the loop deletes exactly the listed terms and their meta, sparing the default category |
| ClearContent.DeleteAttachments | src/ClearContent.php:79-81 | the loop deletes exactly the listed attachments, their meta and the _thumbnail_id rows naming them |
| ClearContent.DeletePosts | src/ClearContent.php:120-122 | the loop deletes exactly the listed posts and their meta |
| ClearContent.ClearTaxonomies | src/ClearContent.php:31-62 | the method gives the state and message ClearSpec.ClearTaxonomies describes |
| ClearContent.ClearMedia | src/ClearContent.php:69-103 | the method gives the state and message ClearSpec.ClearMedia describes |
| ClearContent.ClearPosts | src/ClearContent.php:110-131 | the method gives the state and message ClearSpec.ClearPosts describes |
| ClearContent.ClearPages | src/ClearContent.php:138-159 | the method gives the state and message ClearSpec.ClearPages describes |
| CommandSpec.ApplyAppend | src/Console/ContentMigrationCommand.php:265-287 | running the records of two lists one after the other equals running their concatenation |
| CommandSpec.Roots | src/Console/ContentMigrationCommand.php:270-272 | every record the root filter keeps has parent 0 |
| CommandSpec.Children | src/Console/ContentMigrationCommand.php:280-282 | every record the child filter keeps has a non-zero parent |
| CommandSpec.SplitPartition | src/Console/ContentMigrationCommand.php:270-282 | the two filters partition the page: the multisets add up to the page, and each record lands in the group its parent decides |
| CommandSpec.SplitAppend | src/Console/ContentMigrationCommand.php:270-282 | each filter keeps input order: filtering a concatenation concatenates the filtered parts |
| CommandSpec.SplitOrderPermutes | src/Console/ContentMigrationCommand.php:270-287 | roots then children is a permutation of the page |
| CommandSpec.RootsFirst | src/Console/ContentMigrationCommand.php:274-287 | in that order every root comes before every child |
| CommandSpec.FiltersDistinct | src/Console/ContentMigrationCommand.php:270-282 | filtering keeps records with distinct keys distinct |
| CommandSpec.RunOrderPermutes | src/Console/ContentMigrationCommand.php:265-296 | the whole category or page run processes every fetched record exactly once |
| CommandSpec.RunOrderPrefix | src/Console/ContentMigrationCommand.php:265-296 | the records of earlier pages are processed before those of later pages |
| CommandSpec.RunOrderDistinct | src/Console/ContentMigrationCommand.php:472-489 | fetched records with distinct keys stay distinct in the run order |
| CommandSpec.RunOrderNext | src/Console/ContentMigrationCommand.php:265-287 | page k of the run consists of its roots and then its children, after pages 1 to k-1 |
| CommandSpec.FetchedNext | src/Console/ContentMigrationCommand.php:327-333 | page k of a tag, media or post run is its records in fetched order, after pages 1 to k-1 |
| CommandSpec.RunOrderPosition | src/Console/ContentMigrationCommand.php:265-287 | each record of page k has a place in the run inside page k's block, in the root part exactly when its parent is 0 |
| CommandSpec.RunOrderEarlier | src/Console/ContentMigrationCommand.php:265-287 | a record of an earlier page, or a root of the same page as a child record, comes before it in the run |
| CommandSpec.CategoriesExtend | src/Console/ContentMigrationCommand.php:275-287 | a category run only adds: old terms stay, each new term has the slug of one of the records, each new mapping row holds one of their remote ids |
| CommandSpec.SlugUntouched | src/Console/ContentMigrationCommand.php:275-287 | a slug that no record carries gains no term |
| CommandSpec.CategoryLookupAfter | src/Console/ContentMigrationCommand.php:275-287 | an existing category mapping is kept, and none appears for a remote id no record carries |
| CommandSpec.ParentThenChild | src/Console/ContentMigrationCommand.php:275-287 | when the parent comes before the child, the child is created under the parent's new term |
| CommandSpec.CategoryParentResolved | src/Console/ContentMigrationCommand.php:275-287 | when the parent comes first in the run, the child's only term has the parent's term as its parent after the run |
| CommandSpec.MigrateCategoriesParentResolved | src/Console/ContentMigrationCommand.php:265-296 | a child whose new root parent is on the same page or an earlier one ends up under the parent's new term, whatever their order inside the page |
| CommandSpec.CategoryOrphaned | src/ContentMigration.php:162-177 | a child processed before any record carrying its parent's id is created without a parent |
| CommandSpec.MigrateCategoriesParentLost | src/Console/ContentMigrationCommand.php:265-296 | a child on an earlier page than its parent ends up with no parent |
| CommandSpec.TagsCount | src/Console/ContentMigrationCommand.php:331-333 | when every insert is accepted, each tag record adds exactly one term |
| CommandSpec.MigrateTagsCount | src/Console/ContentMigrationCommand.php:327-342 | a tag run adds exactly one term per fetched tag |
| CommandSpec.ApplyValid | src/Console/ContentMigrationCommand.php:265-296 | a loop of steps that each keep the installation consistent keeps it consistent |
| CommandSpec.StepsKeepValid | src/ContentMigration.php:156-430 | each create operation keeps the installation consistent |
| CommandSpec.ClearImportedMetaAllUnfold | src/Console/ContentMigrationCommand.php:132-136 | clearImportedMeta runs over category, tag, featured_media, post and page, in that order |
| CommandSpec.ClearImportedMetaAllDrops | src/Console/ContentMigrationCommand.php:130-139 | the five types together delete exactly the two term mapping keys and the four post mapping keys |
| CommandSpec.ClearImportedMetaAllEffect | src/Console/ContentMigrationCommand.php:130-139 | afterwards exactly the mapping rows are gone, terms and posts are untouched, and the prev_featured_media_id lookups are as before |
| CommandSpec.ClearImportedMetaAllValid | src/Console/ContentMigrationCommand.php:130-139 | the loop keeps the installation consistent |
| CommandSpec.ClearAllEffect | src/Console/ContentMigrationCommand.php:39-45 | a confirmed clear-all runs taxonomies, media, posts, pages in that order: their four messages in order, only the default category left as a term, no mapping or attachment-file row left |
| CommandSpec.ClearAllPosts | src/Console/ContentMigrationCommand.php:41-44 | every post clear-all leaves was there before, with its record unchanged, and is one its purger's listing skips |
| CommandSpec.DefaultCategoryOnly | src/ClearContent.php:35-51 | the terms a clear leaves: the default category, if the installation holds it as a category, and nothing else |
| CommandSpec.ClearTaxonomiesLeavesDefault | src/ClearContent.php:35-51 | a successful clearTaxonomies leaves exactly the default category |
| CommandSpec.ClearAllValid | src/Console/ContentMigrationCommand.php:39-45 | clear-all keeps the installation consistent |
| CommandSpec.ClearSelectedValid | src/Console/ContentMigrationCommand.php:47-53 | the prompted clear keeps the installation consistent |
| CommandSpec.ClearIfValid | src/Console/ContentMigrationCommand.php:49-52 | one prompted purger keeps the installation consistent, whether or not it runs |
| CommandSpec.MigrateSequenceValid | src/Console/ContentMigrationCommand.php:59-63 | the five migrate loops keep the installation consistent |
| CommandSpec.MigrateAllEffect | src/Console/ContentMigrationCommand.php:56-65 | migrate-all leaves the terms and posts of the five loops, with every mapping row removed except the media mapping |
| CommandSpec.MigrateSelectedAll | src/Console/ContentMigrationCommand.php:56-73 | answering yes to every migrate prompt, followed by clearImportedMeta, equals migrate-all |
| CommandSpec.MigrateSelectedValid | src/Console/ContentMigrationCommand.php:66-73 | the prompted migration keeps the installation consistent |
| CommandSpec.HandleValid | src/Console/ContentMigrationCommand.php:30-75 | the whole command keeps the installation consistent |
| CommandSpec.HandleMigrateAllClearsMappings | src/Console/ContentMigrationCommand.php:56-65 | with --migrate-all no category, tag, post or page mapping row is left at the end |
| CommandSpec.HandleAllDeclined | src/Console/ContentMigrationCommand.php:47-73 | without options and with every prompt declined, nothing changes and nothing is reported |
| CommandSpec.HandleClearAllDeclined | src/Console/ContentMigrationCommand.php:37-65 | with both options and the clear-all prompt declined, only migrate-all runs |
| ContentMigrationCommand.CreateCategories | src/Console/ContentMigrationCommand.php:275-277 | the foreach leaves the state of createCategory applied to each record in turn |
| ContentMigrationCommand.CreateTags | src/Console/ContentMigrationCommand.php:331-333 | the foreach leaves the state of createTag applied to each record in turn |
| ContentMigrationCommand.CreateMediaItems | src/Console/ContentMigrationCommand.php:378-380 | the foreach leaves the state of createMedia applied to each record in turn |
| ContentMigrationCommand.CreatePosts | src/Console/ContentMigrationCommand.php:425-427 | the foreach leaves the state of createPost applied to each record in turn |
| ContentMigrationCommand.CreatePages | src/Console/ContentMigrationCommand.php:477-479 | the foreach leaves the state of createPage applied to each record in turn |
| ContentMigrationCommand.MigrateCategoriesPage | src/Console/ContentMigrationCommand.php:267-287 | one pass of the loop: the page's roots, then its children, after the earlier pages |
| ContentMigrationCommand.MigrateCategories | src/Console/ContentMigrationCommand.php:265-296 | pages 1 to total_pages are requested in increasing order, none when total_pages is 0; each page's roots are created, then its children; the final state is CommandSpec.MigrateCategories |
| ContentMigrationCommand.MigrateTagsPage | src/Console/ContentMigrationCommand.php:328-333 | one pass of the loop: the page's tags after those of the earlier pages |
| ContentMigrationCommand.MigrateTags | src/Console/ContentMigrationCommand.php:327-342 | pages 1 to total_pages are requested in increasing order; every tag is created in fetched order |
| ContentMigrationCommand.MigrateMediaPage | src/Console/ContentMigrationCommand.php:375-380 | one pass of the loop: the page's media after those of the earlier pages |
| ContentMigrationCommand.MigrateMedia | src/Console/ContentMigrationCommand.php:374-389 | pages 1 to total_pages are requested in increasing order; every medium is created in fetched order |
| ContentMigrationCommand.MigratePostsPage | src/Console/ContentMigrationCommand.php:422-427 | one pass of the loop: the page's posts after those of the earlier pages |
| ContentMigrationCommand.MigratePosts | src/Console/ContentMigrationCommand.php:421-436 | pages 1 to total_pages are requested in increasing order; every post is created in fetched order |
| ContentMigrationCommand.MigratePagesPage | src/Console/ContentMigrationCommand.php:469-489 | one pass of the loop: the page's root pages, then its child pages, after the earlier pages |
| ContentMigrationCommand.MigratePages | src/Console/ContentMigrationCommand.php:468-498 | pages 1 to total_pages are requested in increasing order; each page's roots are created, then its children |
| ContentMigrationCommand.ClearImportedMeta | src/Console/ContentMigrationCommand.php:130-139 | the loop over the five types leaves the state CommandSpec.ClearImportedMetaAll describes |
| ContentMigrationCommand.ClearAll | src/Console/ContentMigrationCommand.php:39-45 | the four purgers run in order, and their messages are returned in order |
| ContentMigrationCommand.ClearSelected | src/Console/ContentMigrationCommand.php:47-53 | each confirmed purger runs in the fixed order, and the messages of those that ran are returned |
| ContentMigrationCommand.ClearIf | src/Console/ContentMigrationCommand.php:49-52 | a prompted purger changes the store and returns its message only when its prompt is confirmed |
| ContentMigrationCommand.Purge | src/Console/ContentMigrationCommand.php:49-52 | the purger a prompt names leaves the store as that purger's specification says, and returns its message |
| ContentMigrationCommand.MigrateAll | src/Console/ContentMigrationCommand.php:57-65 | the five loops, then clearImportedMeta |
| ContentMigrationCommand.MigrateSelected | src/Console/ContentMigrationCommand.php:66-73 | each confirmed loop runs, in the fixed order |
| ContentMigrationCommand.Handle | src/Console/ContentMigrationCommand.php:30-75 | the clear switch, then the migrate switch, in the state and message list CommandSpec.Handle describes |

## Left out

- HTTP fetching of listings is left out: `fetchData`, `fetchTotalPages`, `fetchPageData`, `wp_remote_get`, `json_decode` and the `X-WP-TotalPages` header. A listing is an input: its pages and its page total.
- CommandSpec.MigrateCategories, CommandSpec.MigratePages, ContentMigrationCommand.MigrateCategories and ContentMigrationCommand.MigratePages: a page that fails to load makes `fetchPageData` return null. `array_filter(null, …)` at src/Console/ContentMigrationCommand.php:270 and :472 then raises a TypeError under PHP 8, which ends the command. The model has no such abort: a listing page is always a list of records. For tags, media and posts, a `foreach` over null only warns, so an empty page is what PHP does there.
- The unpaged `fetchData` call before each loop is left out, because its result is discarded.
- The `$page === $total_pages` break is left out. It compares an integer with the header string, so it never fires, and the loop bound already stops the loop.
- Console input and output are left out: `ask`, `confirm`, `info`, `line`, progress bars and `printFormattedEndMessage`. The answers to the prompts are an input (`CommandSpec.Answers`). The purgers' messages are returned as a list instead of printed.
- The `domain` argument and the endpoint URLs built from it are left out, because they only select what is fetched.
- Media I/O is left out: `download_url`, `mime_content_type`, `filesize`, `wp_handle_sideload` and `wp_generate_attachment_metadata`. They are one platform function. It gives a failed download, a failed sideload, or the stored file with its generated metadata (none when the metadata is empty). A failed sideload does not stop the import: the attachment is inserted with neither a `_wp_attached_file` nor a `_wp_attachment_metadata` row, because without a file the generated metadata is empty and `wp_update_attachment_metadata` writes no row for it; its mapping and alt-text rows are still written.
- MigrationSpec.CreateMedia: whether the metadata of a stored file is empty is a platform value, not derived from the file. For empty metadata `wp_update_attachment_metadata` calls `delete_post_meta`, which on a fresh attachment has nothing to delete, so the model writes nothing.
- The `$sideload['error']` test at src/ContentMigration.php:252 reads an undefined variable and can never stop the import, so it is not an error path.
- Deleting files from the uploads directory (`glob`, `unlink`) is filesystem I/O and is left out.
- WordPress behaviour outside the repository is modelled as platform parameters. This covers which statuses `get_posts` lists, whether `wp_insert_term` and `wp_insert_post` accept a record, `sanitize_text_field`, `strip_tags`, `wp_get_attachment_url` and the `default_category` option. The effects of `wp_delete_term`, `wp_delete_attachment` and `set_post_thumbnail` are modelled on values of the installation, within the limits the lines below state.
- ContentMigrationCommand.MigrateCategories, ContentMigrationCommand.MigrateTags and ContentMigrationCommand.Handle: when `wp_insert_term` rejects a term it returns a WP_Error, and createCategory and createTag then index `$term['term_id']` on it. That raises an Error, which `catch (\Exception $e)` does not catch, so the whole command aborts. The model instead treats a rejected term as writing nothing and carries on with the next record. A rejected `wp_insert_post` returns 0, which nothing indexes, so for posts, pages and media the model's "nothing is written and the loop goes on" is what PHP does.
- The full PCRE semantics of the three patterns is left out. Each pattern is a scanner that implements the pattern's shape: `\[[^\]]+\]`, `<a[^>]+>(<img[^>]+>)<\/a>`, and `<img[^>]+src="([^">]+)"` with the greedy choice of the last `src`.
- `meta_input` is kept as a field of the stored post rather than expanded into meta rows.
- Deleting a term or post removes it and its meta rows. The reparenting of its children by WordPress is left out.
- ClearSpec.ClearTaxonomies and CommandSpec.ClearAllPosts: term relationships are kept as fields of the stored post (its `post_category` and `tags_input` lists), not as rows. So `wp_delete_term` does not remove deleted terms from posts, and does not give a post left without a category the default category. A post that a clear keeps therefore keeps the term lists it was inserted with.
- LocalStore.Store.SetPostThumbnail: the `wp_get_attachment_image` check that WordPress makes before writing `_thumbnail_id` is reduced to "the attachment exists".
- ClearSpec.ClearTaxonomies, ClearSpec.ClearMedia, ClearSpec.ClearPosts and ClearSpec.ClearPages model a raised storage error as occurring before the first deletion. An error part-way through a purge is left out.
- The duplicate purgers in src/ContentMigration.php:30-151 are left out, because the command calls only those of ClearContent.
- The service provider and the facades are wiring only, and are left out.
- CommandSpec.MigrateCategoriesParentResolved: the parent-before-child result is proved for categories only. Pages use the same run order (CommandSpec.RunOrderPermutes, CommandSpec.RootsFirst and CommandSpec.RunOrderNext are generic over the record type), but their parent resolution is stated per page (MigrationSpec.PageRecord) rather than over a whole run.
- CommandSpec.TagsCount and CommandSpec.MigrateTagsCount assume every insert is accepted. When WordPress rejects a duplicate, the count is lower.
