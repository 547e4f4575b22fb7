/**
  Rows of the platform's generic meta tables (termmeta and postmeta) and the
  queries the migration issues against them. A remote-to-local identifier
  mapping is nothing but a row (local id, per-kind key, remote id).
 */
module Meta {
  import opened Wrappers

  /** A stored meta value: remote identifiers are numbers, URLs and text are strings. */
  datatype Value = Num(n: int) | Text(s: string)

  /** One row of termmeta or postmeta: the local object it belongs to, its key and its value. */
  datatype MetaRow = MetaRow(owner: nat, key: string, value: Value)

  // Mapping keys written or deleted by the migration.
  const CategoryKey := "wp_api_prev_category_id"
  const TagKey := "wp_api_prev_tag_id"
  const FeaturedMediaKey := "wp_api_prev_featured_media_id"
  const PostKey := "wp_api_prev_post_id"
  const PageKey := "wp_api_prev_page_id"
  const PageParentKey := "wp_api_prev_page_parent_id"
  /** The key createMedia actually writes for the media mapping (it differs from FeaturedMediaKey). */
  const MediaKey := "prev_featured_media_id"
  // Attachment keys.
  const SourceUrlKey := "source_url"
  const AltTextKey := "_wp_attachment_image_alt"
  const AttachedFileKey := "_wp_attached_file"
  const AttachmentMetadataKey := "_wp_attachment_metadata"
  /** The key set_post_thumbnail writes: the featured image's attachment id. */
  const ThumbnailKey := "_thumbnail_id"

  predicate Matches(row: MetaRow, key: string, value: Value) {
    row.key == key && row.value == value
  }

  /**
    The query `where(meta_key, key)->where(meta_value, value)->value(col)`:
    the owner of the first row (in table order) with that key and value.
   */
  function Lookup(rows: seq<MetaRow>, key: string, value: Value): (r: Option<nat>)
    ensures r.None? <==> forall i :: 0 <= i < |rows| ==> !Matches(rows[i], key, value)
    ensures r.Some? ==> exists i :: 0 <= i < |rows| && FirstMatchAt(rows, key, value, i) && rows[i].owner == r.value
  {
    if rows == [] then None
    else if Matches(rows[0], key, value) then
      assert FirstMatchAt(rows, key, value, 0);
      Some(rows[0].owner)
    else
      var r := Lookup(rows[1..], key, value);
      assert r.Some? ==> exists i :: 0 <= i < |rows| && FirstMatchAt(rows, key, value, i) && rows[i].owner == r.value by {
        if r.Some? {
          var i :| 0 <= i < |rows[1..]| && FirstMatchAt(rows[1..], key, value, i) && rows[1..][i].owner == r.value;
          assert FirstMatchAt(rows, key, value, i + 1);
        }
      }
      r
  }

  /** Row i is the first row with this key and value. */
  ghost predicate FirstMatchAt(rows: seq<MetaRow>, key: string, value: Value, i: nat) {
    i < |rows| && Matches(rows[i], key, value) && forall j :: 0 <= j < i ==> !Matches(rows[j], key, value)
  }

  /** Appending rows never changes a lookup that already succeeds; otherwise the new rows decide it. */
  lemma {:induction false} LookupAppend(rows: seq<MetaRow>, extra: seq<MetaRow>, key: string, value: Value)
    ensures Lookup(rows + extra, key, value) ==
            if Lookup(rows, key, value).Some? then Lookup(rows, key, value) else Lookup(extra, key, value)
  {
    if rows != [] {
      assert (rows + extra)[1..] == rows[1..] + extra;
      LookupAppend(rows[1..], extra, key, value);
    } else {
      assert rows + extra == extra;
    }
  }

  /** Appending rows keeps a lookup that succeeds; one that fails stays failed when no appended row matches. */
  lemma LookupGrown(rows: seq<MetaRow>, grown: seq<MetaRow>, key: string, value: Value)
    requires rows <= grown
    ensures Lookup(rows, key, value).Some? ==> Lookup(grown, key, value) == Lookup(rows, key, value)
    ensures Lookup(rows, key, value).None? && (forall j :: |rows| <= j < |grown| ==> !Matches(grown[j], key, value)) ==>
              Lookup(grown, key, value).None?
  {
    var extra := grown[|rows|..];
    assert grown == rows + extra;
    LookupAppend(rows, extra, key, value);
    if forall j :: |rows| <= j < |grown| ==> !Matches(grown[j], key, value) {
      forall k | 0 <= k < |extra| ensures !Matches(extra[k], key, value) {
        assert extra[k] == grown[|rows| + k];
      }
    }
  }

  /** Round trip of a mapping: a row put for a remote id that had none is what the lookup returns. */
  lemma PutThenLookup(rows: seq<MetaRow>, owner: nat, key: string, value: Value)
    requires Lookup(rows, key, value).None?
    ensures Lookup(rows + [MetaRow(owner, key, value)], key, value) == Some(owner)
  {
    LookupAppend(rows, [MetaRow(owner, key, value)], key, value);
  }

  /** A row with another key or value leaves every lookup as it was. */
  lemma PutOtherKeepsLookup(rows: seq<MetaRow>, row: MetaRow, key: string, value: Value)
    requires !Matches(row, key, value)
    ensures Lookup(rows + [row], key, value) == Lookup(rows, key, value)
  {
    LookupAppend(rows, [row], key, value);
  }

  /** No row belongs to this owner under this key. */
  predicate Unset(rows: seq<MetaRow>, owner: nat, key: string) {
    forall i :: 0 <= i < |rows| ==> rows[i].owner != owner || rows[i].key != key
  }

  /**
    update_term_meta / update_post_meta: every row of the owner under the key
    gets the new value; if there is none, one row is added at the end.
   */
  function Upsert(rows: seq<MetaRow>, owner: nat, key: string, value: Value): (r: seq<MetaRow>)
    ensures MetaRow(owner, key, value) in r
    ensures Unset(rows, owner, key) ==> r == rows + [MetaRow(owner, key, value)]
  {
    if Unset(rows, owner, key) then rows + [MetaRow(owner, key, value)]
    else
      var r := seq(|rows|, i requires 0 <= i < |rows| =>
                 if rows[i].owner == owner && rows[i].key == key then MetaRow(owner, key, value) else rows[i]);
      assert MetaRow(owner, key, value) in r by {
        var i :| 0 <= i < |rows| && rows[i].owner == owner && rows[i].key == key;
        assert r[i] == MetaRow(owner, key, value);
      }
      r
  }

  /**
    After an upsert the owner's rows under the key all hold the new value, and
    every other row is present exactly when it was present before.
   */
  lemma UpsertRows(rows: seq<MetaRow>, owner: nat, key: string, value: Value)
    ensures forall row :: row in Upsert(rows, owner, key, value) && row.owner == owner && row.key == key ==> row.value == value
    ensures forall row: MetaRow :: row.owner != owner || row.key != key ==> (row in Upsert(rows, owner, key, value) <==> row in rows)
  {
    var r := Upsert(rows, owner, key, value);
    if !Unset(rows, owner, key) {
      assert |r| == |rows| && forall i :: 0 <= i < |rows| ==>
        r[i] == if rows[i].owner == owner && rows[i].key == key then MetaRow(owner, key, value) else rows[i];
      forall row: MetaRow | row.owner != owner || row.key != key
        ensures row in r <==> row in rows
      {
        if row in rows {
          var i :| 0 <= i < |rows| && rows[i] == row;
          assert r[i] == row;
        }
        if row in r {
          var i :| 0 <= i < |r| && r[i] == row;
          assert rows[i] == row;
        }
      }
    }
  }

  /** The rows left by `where(meta_key, k)->delete()` for every k in keys, in their order. */
  function DropKeys(rows: seq<MetaRow>, keys: set<string>): (r: seq<MetaRow>)
    ensures forall row :: row in r <==> row in rows && row.key !in keys
    ensures |r| <= |rows|
  {
    if rows == [] then []
    else (if rows[0].key in keys then [] else [rows[0]]) + DropKeys(rows[1..], keys)
  }

  /** The rows left after the objects in ids were deleted with their meta. */
  function DropOwners(rows: seq<MetaRow>, ids: set<nat>): (r: seq<MetaRow>)
    ensures forall row :: row in r <==> row in rows && row.owner !in ids
    ensures |r| <= |rows|
  {
    if rows == [] then []
    else (if rows[0].owner in ids then [] else [rows[0]]) + DropOwners(rows[1..], ids)
  }

  /** A _thumbnail_id row naming one of the given attachments as a post's featured image. */
  predicate PointsInto(row: MetaRow, ids: set<nat>) {
    row.key == ThumbnailKey && row.value.Num? && row.value.n in ids
  }

  /**
    The rows left after the attachments in ids were deleted: their own rows
    go, and so does every _thumbnail_id row of any post that names one of them.
   */
  function DropAttachmentRows(rows: seq<MetaRow>, ids: set<nat>): (r: seq<MetaRow>)
    ensures forall row :: row in r <==> row in rows && row.owner !in ids && !PointsInto(row, ids)
    ensures |r| <= |rows|
  {
    if rows == [] then []
    else (if rows[0].owner in ids || PointsInto(rows[0], ids) then [] else [rows[0]]) + DropAttachmentRows(rows[1..], ids)
  }

  /** Deleting key by key is deleting the whole key set at once. */
  lemma {:induction false} DropKeysTwice(rows: seq<MetaRow>, a: set<string>, b: set<string>)
    ensures DropKeys(DropKeys(rows, a), b) == DropKeys(rows, a + b)
  {
    if rows != [] {
      DropKeysTwice(rows[1..], a, b);
      var head := if rows[0].key in a then [] else [rows[0]];
      assert DropKeys(rows, a) == head + DropKeys(rows[1..], a);
      DropKeysAppend(head, DropKeys(rows[1..], a), b);
    }
  }

  lemma {:induction false} DropKeysAppend(x: seq<MetaRow>, y: seq<MetaRow>, keys: set<string>)
    ensures DropKeys(x + y, keys) == DropKeys(x, keys) + DropKeys(y, keys)
  {
    if x != [] {
      assert (x + y)[1..] == x[1..] + y;
      DropKeysAppend(x[1..], y, keys);
    } else {
      assert x + y == y;
    }
  }

  /** Deleting the same keys again removes nothing more. */
  lemma DropKeysIdempotent(rows: seq<MetaRow>, keys: set<string>)
    ensures DropKeys(DropKeys(rows, keys), keys) == DropKeys(rows, keys)
  {
    DropKeysTwice(rows, keys, keys);
    assert keys + keys == keys;
  }

  /** Deleting an empty key set changes nothing. */
  lemma {:induction false} DropNoKeys(rows: seq<MetaRow>)
    ensures DropKeys(rows, {}) == rows
  {
    if rows != [] {
      DropNoKeys(rows[1..]);
      assert rows == [rows[0]] + rows[1..];
    }
  }

  /** A lookup under a key that is not deleted sees the same first row as before. */
  lemma {:induction false} LookupSurvivesDrop(rows: seq<MetaRow>, keys: set<string>, key: string, value: Value)
    requires key !in keys
    ensures Lookup(DropKeys(rows, keys), key, value) == Lookup(rows, key, value)
  {
    if rows != [] {
      LookupSurvivesDrop(rows[1..], keys, key, value);
      var head := if rows[0].key in keys then [] else [rows[0]];
      LookupAppend(head, DropKeys(rows[1..], keys), key, value);
    }
  }

  /** Deleting owner set by owner set is deleting their union. */
  lemma {:induction false} DropOwnersTwice(rows: seq<MetaRow>, a: set<nat>, b: set<nat>)
    ensures DropOwners(DropOwners(rows, a), b) == DropOwners(rows, a + b)
  {
    if rows != [] {
      DropOwnersTwice(rows[1..], a, b);
      var head := if rows[0].owner in a then [] else [rows[0]];
      DropOwnersAppend(head, DropOwners(rows[1..], a), b);
    }
  }

  lemma {:induction false} DropOwnersAppend(x: seq<MetaRow>, y: seq<MetaRow>, ids: set<nat>)
    ensures DropOwners(x + y, ids) == DropOwners(x, ids) + DropOwners(y, ids)
  {
    if x != [] {
      assert (x + y)[1..] == x[1..] + y;
      DropOwnersAppend(x[1..], y, ids);
    } else {
      assert x + y == y;
    }
  }

  /** Deleting attachments batch by batch is deleting their union. */
  lemma {:induction false} DropAttachmentRowsTwice(rows: seq<MetaRow>, a: set<nat>, b: set<nat>)
    ensures DropAttachmentRows(DropAttachmentRows(rows, a), b) == DropAttachmentRows(rows, a + b)
  {
    if rows != [] {
      DropAttachmentRowsTwice(rows[1..], a, b);
      var head := if rows[0].owner in a || PointsInto(rows[0], a) then [] else [rows[0]];
      DropAttachmentRowsAppend(head, DropAttachmentRows(rows[1..], a), b);
    }
  }

  lemma {:induction false} DropAttachmentRowsAppend(x: seq<MetaRow>, y: seq<MetaRow>, ids: set<nat>)
    ensures DropAttachmentRows(x + y, ids) == DropAttachmentRows(x, ids) + DropAttachmentRows(y, ids)
  {
    if x != [] {
      assert (x + y)[1..] == x[1..] + y;
      DropAttachmentRowsAppend(x[1..], y, ids);
    } else {
      assert x + y == y;
    }
  }

  lemma {:induction false} DropNoAttachments(rows: seq<MetaRow>)
    ensures DropAttachmentRows(rows, {}) == rows
  {
    if rows != [] {
      DropNoAttachments(rows[1..]);
      assert rows == [rows[0]] + rows[1..];
    }
  }

  lemma {:induction false} DropNoOwners(rows: seq<MetaRow>)
    ensures DropOwners(rows, {}) == rows
  {
    if rows != [] {
      DropNoOwners(rows[1..]);
      assert rows == [rows[0]] + rows[1..];
    }
  }
}
