/**
  The four tables of the thingbox content store (`admins`, `templates`,
  `batches`, `items`) as an in-memory value, together with the integrity
  constraints the schema declares: primary keys, the UNIQUE pair on admins and
  the foreign keys that `PRAGMA foreign_keys = ON` makes SQLite enforce.
*/
module Schema {
  import opened Common

  /** `CURRENT_TIMESTAMP`: whole seconds; its text form compares chronologically. */
  type Timestamp = nat

  /** A row of `admins`; `id` is the AUTOINCREMENT primary key. */
  datatype AdminRow = AdminRow(id: int, userType: string, userId: string, active: bool)

  /** A row of `batches` (the key, `id`, is the map key); `closed == None` means open. */
  datatype BatchRow = BatchRow(adminId: int, created: Timestamp, closed: Option<Timestamp>)

  /** A row of `items`; `data` is the base64 ciphertext exactly as submitted. */
  datatype ItemRow = ItemRow(
    id: int, batchId: string, targetType: string, targetId: string, category: string,
    data: string, templateId: string, created: Timestamp, archived: bool)

  /**
    The database. Admin and item rows are kept in rowid order; `adminSeq` and
    `itemSeq` are the AUTOINCREMENT counters (the largest id ever handed out).
    Templates and batches are keyed by their TEXT primary key.
  */
  datatype Tables = Tables(
    admins: seq<AdminRow>, adminSeq: nat,
    templates: map<string, string>,
    batches: map<string, BatchRow>,
    items: seq<ItemRow>, itemSeq: nat)

  /** The tables of a freshly created database file whose templates were loaded out of band. */
  function Empty(templates: map<string, string>): Tables {
    Tables([], 0, templates, map[], [], 0)
  }

  predicate IsUser(a: AdminRow, userType: string, userId: string) {
    a.userType == userType && a.userId == userId
  }

  /** Two admin rows that could not coexist: same primary key or same (user_type, user_id). */
  predicate Clash(a: AdminRow, b: AdminRow) {
    a.id == b.id || IsUser(a, b.userType, b.userId)
  }

  /** No two rows of `rows` clash (the PRIMARY KEY and the UNIQUE constraint of `admins`). */
  predicate Unique(rows: seq<AdminRow>) {
    rows == [] || ((forall b :: b in rows[1..] ==> !Clash(rows[0], b)) && Unique(rows[1..]))
  }

  predicate HasAdminId(rows: seq<AdminRow>, id: int) {
    exists a :: a in rows && a.id == id
  }

  /** Item ids are strictly increasing in rowid order and bounded by the counter. */
  predicate ItemIdsIncreasing(items: seq<ItemRow>, itemSeq: nat) {
    (forall i :: 0 <= i < |items| ==> 1 <= items[i].id <= itemSeq) &&
    (forall i, j :: 0 <= i < j < |items| ==> items[i].id < items[j].id)
  }

  /** Every constraint the schema declares, with foreign keys enforced. */
  predicate Integrity(d: Tables) {
    && Unique(d.admins)
    && (forall a :: a in d.admins ==> 1 <= a.id <= d.adminSeq)
    && (forall b :: b in d.batches ==> HasAdminId(d.admins, d.batches[b].adminId))
    && ItemIdsIncreasing(d.items, d.itemSeq)
    && (forall x :: x in d.items ==> x.batchId in d.batches && x.templateId in d.templates)
  }

  /** The store's own rule: every stored ciphertext decrypts under the server key. */
  predicate Decryptable(d: Tables, decrypt: string -> Option<string>) {
    forall x :: x in d.items ==> decrypt(x.data).Some?
  }

  lemma {:induction false} UniqueNoTwoRowsForUser(rows: seq<AdminRow>, i: nat, j: nat)
    requires Unique(rows)
    requires i < j < |rows|
    ensures !Clash(rows[i], rows[j])
  {
    if i > 0 {
      UniqueNoTwoRowsForUser(rows[1..], i - 1, j - 1);
    } else {
      assert rows[j] in rows[1..];
    }
  }
}
