/**
  The read-only operations of the content store (`DB.is_admin`, the check
  branch of `DB.create_or_check_batch`, `DB.get_items`, `DB.get_template`,
  `DB.get_templates`) as functions of the tables.
*/
module Queries {
  import opened Common
  import opened Schema

  // ---------------------------------------------------------------- admins

  /** `SELECT id FROM admins WHERE user_type = t AND user_id = u AND active = TRUE`, first row. */
  function FindActive(rows: seq<AdminRow>, userType: string, userId: string): (r: Option<int>)
    ensures r.Some? <==> exists a :: a in rows && IsUser(a, userType, userId) && a.active
    ensures r.Some? ==> exists a :: a in rows && IsUser(a, userType, userId) && a.active && a.id == r.value
  {
    if rows == [] then None
    else if IsUser(rows[0], userType, userId) && rows[0].active then Some(rows[0].id)
    else FindActive(rows[1..], userType, userId)
  }

  /** `DB.is_admin`: the id of the active admin row for (user_type, user_id), if any. */
  function IsAdmin(d: Tables, userType: string, userId: string): (r: Option<int>)
    ensures r.Some? <==> exists a :: a in d.admins && IsUser(a, userType, userId) && a.active
    ensures r.Some? ==> exists a :: a in d.admins && IsUser(a, userType, userId) && a.active && a.id == r.value
  {
    FindActive(d.admins, userType, userId)
  }

  lemma {:induction false} FindActiveAppend(s: seq<AdminRow>, t: seq<AdminRow>, userType: string, userId: string)
    ensures FindActive(s + t, userType, userId) ==
      if FindActive(s, userType, userId).Some? then FindActive(s, userType, userId) else FindActive(t, userType, userId)
  {
    if s != [] {
      assert (s + t)[1..] == s[1..] + t;
      FindActiveAppend(s[1..], t, userType, userId);
    } else {
      assert s + t == t;
    }
  }

  /** With the UNIQUE constraint in force, `is_admin` reports exactly the status of the user's row. */
  lemma {:induction false} IsAdminOfRow(rows: seq<AdminRow>, a: AdminRow)
    requires Unique(rows)
    requires a in rows
    ensures FindActive(rows, a.userType, a.userId) == if a.active then Some(a.id) else None
  {
    if rows[0] == a {
      if !a.active {
        assert forall b :: b in rows[1..] ==> !IsUser(b, a.userType, a.userId);
      }
    } else {
      assert a in rows[1..];
      assert !IsUser(rows[0], a.userType, a.userId);
      IsAdminOfRow(rows[1..], a);
    }
  }

  /** Ids handed out by AUTOINCREMENT start at 1, so a found id is never Python-falsy. */
  lemma IsAdminIdPositive(d: Tables, userType: string, userId: string)
    requires Integrity(d)
    ensures IsAdmin(d, userType, userId).Some? ==> IsAdmin(d, userType, userId).value >= 1
  {
  }

  // --------------------------------------------------------------- batches

  datatype BatchError = NoOpenBatch(admin: int, batch: string)

  /** Whether `batch` is a batch owned by `admin` with `closed IS NULL`. */
  predicate IsOpenBatchOf(d: Tables, admin: int, batch: string) {
    batch in d.batches && d.batches[batch].adminId == admin && d.batches[batch].closed.None?
  }

  /**
    The check branch of `DB.create_or_check_batch(admin, batch)`: the batch id
    unchanged when the caller owns it and it is still open, and the raised
    exception otherwise. It reads the tables only.
  */
  function CheckBatch(d: Tables, admin: int, batch: string): (r: Result<string, BatchError>)
    ensures r.Ok? <==> IsOpenBatchOf(d, admin, batch)
    ensures r.Ok? ==> r.value == batch
    ensures r.Err? ==> r.error == NoOpenBatch(admin, batch)
  {
    if IsOpenBatchOf(d, admin, batch) then Ok(batch) else Err(NoOpenBatch(admin, batch))
  }

  // ----------------------------------------------------------------- items

  /** A row as `DB.get_items` returns it: the decrypted data and the template id. */
  datatype ItemView = ItemView(data: string, templateId: string)

  /** `WHERE target_type = tt AND target_id = ti AND archived = FALSE`, in rowid order. */
  function Matching(items: seq<ItemRow>, targetType: string, targetId: string): (r: seq<ItemRow>)
    ensures |r| <= |items|
    ensures forall x :: x in r <==> x in items && x.targetType == targetType && x.targetId == targetId && !x.archived
  {
    if items == [] then []
    else
      var rest := Matching(items[1..], targetType, targetId);
      var x := items[0];
      if x.targetType == targetType && x.targetId == targetId && !x.archived then [x] + rest else rest
  }

  /**
    `Matching` drops no copy of a matching row and adds none: each row occurs in the
    result exactly as often as in the table when it matches, and never otherwise.
  */
  lemma {:induction false} MatchingCounts(items: seq<ItemRow>, targetType: string, targetId: string)
    ensures forall x :: (multiset(Matching(items, targetType, targetId))[x] ==
      if x.targetType == targetType && x.targetId == targetId && !x.archived then multiset(items)[x] else 0)
  {
    if items != [] {
      assert items == [items[0]] + items[1..];
      MatchingCounts(items[1..], targetType, targetId);
    }
  }

  /** Rows in non-increasing `created` order (what `ORDER BY created DESC` promises). */
  predicate NewestFirst(s: seq<ItemRow>) {
    forall i, j :: 0 <= i < j < |s| ==> s[i].created >= s[j].created
  }

  /** No row of `s` is newer than `c`. */
  predicate NotNewerThan(s: seq<ItemRow>, c: Timestamp) {
    forall k :: 0 <= k < |s| ==> s[k].created <= c
  }

  lemma NewestFirstCons(a: ItemRow, t: seq<ItemRow>)
    requires NewestFirst(t) && NotNewerThan(t, a.created)
    ensures NewestFirst([a] + t)
  {
  }

  /** Place `x` before the first row that is not newer than it. */
  function InsertNewestFirst(x: ItemRow, s: seq<ItemRow>): (r: seq<ItemRow>)
    ensures |r| == |s| + 1
  {
    if s == [] || s[0].created <= x.created then [x] + s
    else [s[0]] + InsertNewestFirst(x, s[1..])
  }

  lemma {:induction false} InsertNotNewer(x: ItemRow, s: seq<ItemRow>, c: Timestamp)
    requires NotNewerThan(s, c) && x.created <= c
    ensures NotNewerThan(InsertNewestFirst(x, s), c)
  {
    if !(s == [] || s[0].created <= x.created) {
      InsertNotNewer(x, s[1..], c);
      var r := InsertNewestFirst(x, s);
      forall k | 0 <= k < |r| ensures r[k].created <= c {
        if k > 0 { assert r[k] == InsertNewestFirst(x, s[1..])[k - 1]; }
      }
    }
  }

  /** Inserting into a newest-first sequence keeps it newest first. */
  lemma {:induction false} InsertKeepsNewestFirst(x: ItemRow, s: seq<ItemRow>)
    requires NewestFirst(s)
    ensures NewestFirst(InsertNewestFirst(x, s))
  {
    if s == [] || s[0].created <= x.created {
      forall k | 0 <= k < |s| ensures s[k].created <= x.created {
        if k > 0 { assert s[0].created >= s[k].created; }
      }
      NewestFirstCons(x, s);
    } else {
      var t := s[1..];
      assert NewestFirst(t) by {
        forall i, j | 0 <= i < j < |t| ensures t[i].created >= t[j].created {
          assert t[i] == s[i + 1] && t[j] == s[j + 1];
        }
      }
      InsertKeepsNewestFirst(x, t);
      forall k | 0 <= k < |t| ensures t[k].created <= s[0].created {
        assert t[k] == s[k + 1];
      }
      InsertNotNewer(x, t, s[0].created);
      NewestFirstCons(s[0], InsertNewestFirst(x, t));
    }
  }

  /** Inserting adds exactly `x` and loses nothing. */
  lemma {:induction false} InsertIsPermutation(x: ItemRow, s: seq<ItemRow>)
    ensures multiset(InsertNewestFirst(x, s)) == multiset(s) + multiset{x}
  {
    if !(s == [] || s[0].created <= x.created) {
      InsertIsPermutation(x, s[1..]);
      assert s == [s[0]] + s[1..];
    }
  }

  /**
    The `ORDER BY created DESC` of `get_items`: a newest-first permutation of
    its input. SQLite leaves the order of rows with equal timestamps open; this
    model keeps them in rowid order.
  */
  function SortNewestFirst(s: seq<ItemRow>): (r: seq<ItemRow>)
    ensures NewestFirst(r)
    ensures multiset(r) == multiset(s)
    ensures |r| == |s|
  {
    if s == [] then []
    else
      var t := SortNewestFirst(s[1..]);
      InsertKeepsNewestFirst(s[0], t);
      InsertIsPermutation(s[0], t);
      assert s == [s[0]] + s[1..];
      InsertNewestFirst(s[0], t)
  }

  /** The rows `get_items` fetches, in the order it fetches them. */
  function OrderedRows(d: Tables, targetType: string, targetId: string): (r: seq<ItemRow>)
    ensures NewestFirst(r)
    ensures multiset(r) == multiset(Matching(d.items, targetType, targetId))
  {
    SortNewestFirst(Matching(d.items, targetType, targetId))
  }

  function View(x: ItemRow, decrypt: string -> Option<string>): ItemView
    requires decrypt(x.data).Some?
  {
    ItemView(decrypt(x.data).value, x.templateId)
  }

  /** Whether `v` is what `get_items` makes of some row of `rows`. */
  predicate ViewOfSome(v: ItemView, rows: seq<ItemRow>, decrypt: string -> Option<string>) {
    exists x :: x in rows && decrypt(x.data) == Some(v.data) && v.templateId == x.templateId
  }

  /**
    The list comprehension and `filter` of `get_items`: decrypt every row, keep
    the template id, and drop the rows whose data does not decrypt.
  */
  function DecryptRows(rows: seq<ItemRow>, decrypt: string -> Option<string>): (r: seq<ItemView>)
    ensures |r| <= |rows|
  {
    if rows == [] then []
    else
      var rest := DecryptRows(rows[1..], decrypt);
      match decrypt(rows[0].data)
      case None => rest
      case Some(plain) => [ItemView(plain, rows[0].templateId)] + rest
  }

  /** Every returned item is the decryption of one of the fetched rows. */
  lemma {:induction false} DecryptRowsSound(rows: seq<ItemRow>, decrypt: string -> Option<string>)
    ensures forall v :: v in DecryptRows(rows, decrypt) ==> ViewOfSome(v, rows, decrypt)
  {
    if rows != [] {
      DecryptRowsSound(rows[1..], decrypt);
      forall v | v in DecryptRows(rows, decrypt) ensures ViewOfSome(v, rows, decrypt) {
        if v in DecryptRows(rows[1..], decrypt) {
          var x :| x in rows[1..] && decrypt(x.data) == Some(v.data) && v.templateId == x.templateId;
          assert x in rows;
        } else {
          assert rows[0] in rows;
        }
      }
    }
  }

  /** A fetched row whose data decrypts is never dropped. */
  lemma {:induction false} DecryptRowsComplete(rows: seq<ItemRow>, decrypt: string -> Option<string>, x: ItemRow)
    requires x in rows && decrypt(x.data).Some?
    ensures View(x, decrypt) in DecryptRows(rows, decrypt)
  {
    if x != rows[0] {
      assert x in rows[1..];
      DecryptRowsComplete(rows[1..], decrypt, x);
    }
  }

  /**
    The `filter` drops rows but never reorders the rest: two fetched rows that
    decrypt come out in the order they were fetched.
  */
  lemma {:induction false} DecryptRowsKeepsOrder(rows: seq<ItemRow>, decrypt: string -> Option<string>, i: nat, j: nat)
    requires i < j < |rows| && decrypt(rows[i].data).Some? && decrypt(rows[j].data).Some?
    ensures exists p, q :: (0 <= p < q < |DecryptRows(rows, decrypt)|
      && DecryptRows(rows, decrypt)[p] == View(rows[i], decrypt)
      && DecryptRows(rows, decrypt)[q] == View(rows[j], decrypt))
  {
    var rest := DecryptRows(rows[1..], decrypt);
    assert rows[j] == rows[1..][j - 1];
    if i == 0 {
      DecryptRowsComplete(rows[1..], decrypt, rows[j]);
      var q :| 0 <= q < |rest| && rest[q] == View(rows[j], decrypt);
      assert DecryptRows(rows, decrypt) == [View(rows[0], decrypt)] + rest;
      assert DecryptRows(rows, decrypt)[0] == View(rows[i], decrypt);
      assert DecryptRows(rows, decrypt)[q + 1] == View(rows[j], decrypt);
    } else {
      assert rows[i] == rows[1..][i - 1];
      DecryptRowsKeepsOrder(rows[1..], decrypt, i - 1, j - 1);
      var p, q :| 0 <= p < q < |rest| && rest[p] == View(rows[i], decrypt) && rest[q] == View(rows[j], decrypt);
      if decrypt(rows[0].data).Some? {
        assert DecryptRows(rows, decrypt) == [View(rows[0], decrypt)] + rest;
        assert DecryptRows(rows, decrypt)[p + 1] == View(rows[i], decrypt);
        assert DecryptRows(rows, decrypt)[q + 1] == View(rows[j], decrypt);
      } else {
        assert DecryptRows(rows, decrypt) == rest;
      }
    }
  }

  /** The positions of the fetched rows whose data decrypts. */
  function Decrypting(rows: seq<ItemRow>, decrypt: string -> Option<string>): set<nat> {
    set i: nat | i < |rows| && decrypt(rows[i].data).Some?
  }

  /** Every position moved one further. */
  function Shift(s: set<nat>): set<nat> {
    set i | i in s :: i + 1
  }

  lemma {:induction false} ShiftSize(s: set<nat>)
    ensures |Shift(s)| == |s|
  {
    if s != {} {
      var x :| x in s;
      var rest := s - {x};
      ShiftSize(rest);
      forall k ensures k in Shift(s) <==> k in Shift(rest) + {x + 1} {
        if k in Shift(s) {
          var y :| y in s && k == y + 1;
          assert y == x || y in rest;
        }
      }
      assert Shift(s) == Shift(rest) + {x + 1};
      assert x + 1 !in Shift(rest);
    }
  }

  /** The decrypting positions of a non-empty table: maybe position 0, then the rest's, moved by one. */
  lemma DecryptingCons(rows: seq<ItemRow>, decrypt: string -> Option<string>)
    requires rows != []
    ensures Decrypting(rows, decrypt) ==
      (if decrypt(rows[0].data).Some? then {0} else {}) + Shift(Decrypting(rows[1..], decrypt))
    ensures 0 !in Shift(Decrypting(rows[1..], decrypt))
  {
    var tail := Decrypting(rows[1..], decrypt);
    var head: set<nat> := if decrypt(rows[0].data).Some? then {0} else {};
    forall k: nat ensures k in Decrypting(rows, decrypt) <==> k in head + Shift(tail) {
      if k > 0 && k < |rows| {
        assert rows[k] == rows[1..][k - 1];
        assert k in Shift(tail) <==> k - 1 in tail;
      }
    }
  }

  /**
    The `filter` keeps exactly one entry per fetched row that decrypts: the result
    is as long as the set of positions whose data decrypts.
  */
  lemma {:induction false} DecryptRowsCount(rows: seq<ItemRow>, decrypt: string -> Option<string>)
    ensures |DecryptRows(rows, decrypt)| == |Decrypting(rows, decrypt)|
  {
    if rows == [] {
      assert Decrypting(rows, decrypt) == {};
    } else {
      DecryptRowsCount(rows[1..], decrypt);
      ShiftSize(Decrypting(rows[1..], decrypt));
      DecryptingCons(rows, decrypt);
    }
  }

  /** When every fetched row decrypts, nothing is dropped and the order is kept. */
  lemma {:induction false} DecryptRowsAll(rows: seq<ItemRow>, decrypt: string -> Option<string>)
    requires forall x :: x in rows ==> decrypt(x.data).Some?
    ensures |DecryptRows(rows, decrypt)| == |rows|
    ensures forall i :: 0 <= i < |rows| ==> DecryptRows(rows, decrypt)[i] == View(rows[i], decrypt)
  {
    if rows != [] {
      assert rows[0] in rows;
      assert forall x :: x in rows[1..] ==> x in rows;
      DecryptRowsAll(rows[1..], decrypt);
      var r := DecryptRows(rows, decrypt);
      forall i | 0 <= i < |rows| ensures r[i] == View(rows[i], decrypt) {
        if i > 0 { assert rows[i] == rows[1..][i - 1]; }
      }
    }
  }

  /**
    `DB.get_items(target_type, target_id)`: the decrypted, non-archived items
    addressed to the target, newest first.
  */
  function GetItems(d: Tables, decrypt: string -> Option<string>, targetType: string, targetId: string): (r: seq<ItemView>)
    ensures |r| <= |Matching(d.items, targetType, targetId)|
    ensures forall v :: v in r ==> ViewOfSome(v, Matching(d.items, targetType, targetId), decrypt)
  {
    var rows := OrderedRows(d, targetType, targetId);
    DecryptRowsSound(rows, decrypt);
    SameMembers(rows, Matching(d.items, targetType, targetId));
    DecryptRows(rows, decrypt)
  }

  lemma SameMembers(s: seq<ItemRow>, t: seq<ItemRow>)
    requires multiset(s) == multiset(t)
    ensures forall x :: x in s <==> x in t
  {
    forall x ensures x in s <==> x in t {
      assert x in s <==> x in multiset(s);
      assert x in t <==> x in multiset(t);
    }
  }

  /**
    In a store where every item decrypts (the invariant ingestion keeps), `get_items`
    returns one entry per matching row, newest first, and drops nothing.
  */
  lemma GetItemsOfDecryptableStore(d: Tables, decrypt: string -> Option<string>, targetType: string, targetId: string)
    requires Decryptable(d, decrypt)
    ensures var rows := OrderedRows(d, targetType, targetId);
      && |GetItems(d, decrypt, targetType, targetId)| == |rows|
      && forall i :: 0 <= i < |rows| ==>
           decrypt(rows[i].data).Some? && GetItems(d, decrypt, targetType, targetId)[i] == View(rows[i], decrypt)
  {
    var rows := OrderedRows(d, targetType, targetId);
    SameMembers(rows, Matching(d.items, targetType, targetId));
    DecryptRowsAll(rows, decrypt);
  }

  /**
    `get_items` lists one entry per fetched row that decrypts, however many other
    rows of the target fail to decrypt.
  */
  lemma GetItemsCount(d: Tables, decrypt: string -> Option<string>, targetType: string, targetId: string)
    ensures |GetItems(d, decrypt, targetType, targetId)| == |Decrypting(OrderedRows(d, targetType, targetId), decrypt)|
  {
    DecryptRowsCount(OrderedRows(d, targetType, targetId), decrypt);
  }

  /** Every decryptable matching row shows up in `get_items`. */
  lemma GetItemsComplete(d: Tables, decrypt: string -> Option<string>, targetType: string, targetId: string, x: ItemRow)
    requires x in d.items && x.targetType == targetType && x.targetId == targetId && !x.archived
    requires decrypt(x.data).Some?
    ensures View(x, decrypt) in GetItems(d, decrypt, targetType, targetId)
  {
    var rows := OrderedRows(d, targetType, targetId);
    SameMembers(rows, Matching(d.items, targetType, targetId));
    DecryptRowsComplete(rows, decrypt, x);
  }

  /**
    Of two listed rows for the same target, the more recently created one comes
    first, whatever other rows of the store fail to decrypt.
  */
  lemma NewerRowListedFirst(d: Tables, decrypt: string -> Option<string>, targetType: string, targetId: string,
                            older: ItemRow, newer: ItemRow)
    requires decrypt(older.data).Some? && decrypt(newer.data).Some?
    requires older in d.items && older.targetType == targetType && older.targetId == targetId && !older.archived
    requires newer in d.items && newer.targetType == targetType && newer.targetId == targetId && !newer.archived
    requires older.created < newer.created
    ensures var r := GetItems(d, decrypt, targetType, targetId);
      exists i, j :: 0 <= i < j < |r| && r[i] == View(newer, decrypt) && r[j] == View(older, decrypt)
  {
    var rows := OrderedRows(d, targetType, targetId);
    var r := GetItems(d, decrypt, targetType, targetId);
    assert newer in rows && older in rows by {
      var m := Matching(d.items, targetType, targetId);
      assert newer in m && older in m;
      SameMembers(rows, m);
    }
    var i :| 0 <= i < |rows| && rows[i] == newer;
    var j :| 0 <= j < |rows| && rows[j] == older;
    NewerComesFirst(rows, i, j);
    DecryptRowsKeepsOrder(rows, decrypt, i, j);
  }

  lemma NewerComesFirst(rows: seq<ItemRow>, i: nat, j: nat)
    requires NewestFirst(rows) && i < |rows| && j < |rows|
    requires rows[j].created < rows[i].created
    ensures i < j
  {
  }

  // ------------------------------------------------------------- templates

  datatype TemplateError = NoSuchTemplate(id: string)

  /**
    `DB.get_template` as written: on a missing id `fetchone()` yields `None`
    and `len(None)` raises, so the `else None` arm is never reached.
  */
  function GetTemplate(d: Tables, id: string): (r: Result<string, TemplateError>)
    ensures r.Ok? <==> id in d.templates
    ensures r.Ok? ==> r.value == d.templates[id]
  {
    if id in d.templates then Ok(d.templates[id]) else Err(NoSuchTemplate(id))
  }

  /** `DB.get_template` as evidently intended: the content, or `None` for a missing id. */
  function LookupTemplate(d: Tables, id: string): (r: Option<string>)
    ensures r.None? <==> id !in d.templates
    ensures r.Some? ==> r.value == d.templates[id]
  {
    if id in d.templates then Some(d.templates[id]) else None
  }

  /** A row of `SELECT id, content FROM templates`. */
  datatype TemplateRow = TemplateRow(id: string, content: string)

  /** `DB.get_templates`: every template row (the query has no ORDER BY, so no order is modelled). */
  function GetTemplates(d: Tables): (r: set<TemplateRow>)
    ensures forall id :: id in d.templates ==> TemplateRow(id, d.templates[id]) in r
    ensures forall row :: row in r ==> row.id in d.templates && d.templates[row.id] == row.content
  {
    set id | id in d.templates :: TemplateRow(id, d.templates[id])
  }

  /** A template id is listed by `get_templates` exactly when `get_template` finds it, with the same content. */
  lemma GetTemplateAgreesWithList(d: Tables, id: string, content: string)
    ensures GetTemplate(d, id) == Ok(content) <==> TemplateRow(id, content) in GetTemplates(d)
  {
  }

  /** The as-written `get_template` raises for every id that is not a template, e.g. on an empty table. */
  lemma GetTemplateMissingRaises(d: Tables, id: string)
    requires id !in d.templates
    ensures GetTemplate(d, id).Err?
    ensures LookupTemplate(d, id) == None
  {
  }

  /** Where the as-written `get_template` returns, the corrected one returns the same content. */
  lemma LookupTemplateAgrees(d: Tables, id: string)
    ensures GetTemplate(d, id).Ok? ==> LookupTemplate(d, id) == Some(GetTemplate(d, id).value)
    ensures GetTemplate(d, id).Err? <==> LookupTemplate(d, id).None?
  {
  }
}
