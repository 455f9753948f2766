/**
  `DB` of server/thingbox/db.py: the object whose writing methods change the
  four tables in place. Each method assigns the tables it changes and is proved
  to produce exactly the transition of module Transitions; the read-only methods
  are the functions of module Queries applied to `State()`.
*/
module Database {
  import opened Common
  import opened Schema
  import opened Queries
  import opened Transitions

  class DB {
    /** The SealedBox decryption of `decrypt_data`: None for anything that does not decrypt. */
    const decrypt: string -> Option<string>

    var admins: seq<AdminRow>
    var adminSeq: nat
    var templates: map<string, string>
    var batches: map<string, BatchRow>
    var items: seq<ItemRow>
    var itemSeq: nat

    /** The four tables and the AUTOINCREMENT counters. */
    function State(): Tables
      reads this
    {
      Tables(admins, adminSeq, templates, batches, items, itemSeq)
    }

    ghost predicate Valid()
      reads this
    {
      Integrity(State()) && Decryptable(State(), decrypt)
    }

    /** A database file created by `ensure_schema`, with its template rows already present. */
    constructor (decrypt: string -> Option<string>, templates: map<string, string>)
      ensures Valid()
      ensures this.decrypt == decrypt && State() == Empty(templates)
    {
      this.decrypt := decrypt;
      admins, adminSeq := [], 0;
      this.templates := templates;
      batches := map[];
      items, itemSeq := [], 0;
    }

    /** The shared `INSERT OR REPLACE` of `make_admin` and `revoke_admin`. */
    method Upsert(userType: string, userId: string, active: bool) returns (ok: bool)
      requires Valid()
      modifies this
      ensures Valid()
      ensures ok == UpsertAdmin(old(State()), userType, userId, active).result
      ensures State() == UpsertAdmin(old(State()), userType, userId, active).after
    {
      if ReplaceBlocked(State(), userType, userId) {
        return false;
      }
      ghost var before := State();
      admins := DropUser(admins, userType, userId) + [AdminRow(adminSeq + 1, userType, userId, active)];
      adminSeq := adminSeq + 1;
      ok := true;
      UpsertPreservesIntegrity(before, userType, userId, active);
    }

    /** `DB.make_admin`: True and the user is an active admin, or False and nothing changed. */
    method MakeAdmin(userType: string, userId: string) returns (ok: bool)
      requires Valid()
      modifies this
      ensures Valid()
      ensures ok == !ReplaceBlocked(old(State()), userType, userId)
      ensures State() == UpsertAdmin(old(State()), userType, userId, true).after
      ensures ok ==> IsAdmin(State(), userType, userId) == Some(old(adminSeq) + 1)
      ensures !ok ==> State() == old(State())
      ensures forall t, u :: !(t == userType && u == userId) ==> IsAdmin(State(), t, u) == IsAdmin(old(State()), t, u)
    {
      ghost var before := State();
      ok := Upsert(userType, userId, true);
      if ok { UpsertSetsStatus(before, userType, userId, true); }
      forall t, u | !(t == userType && u == userId)
        ensures IsAdmin(State(), t, u) == IsAdmin(before, t, u)
      {
        UpsertKeepsOthers(before, userType, userId, true, t, u);
      }
    }

    /** `DB.revoke_admin`: True and the user is no admin, or False and nothing changed. */
    method RevokeAdmin(userType: string, userId: string) returns (ok: bool)
      requires Valid()
      modifies this
      ensures Valid()
      ensures ok == !ReplaceBlocked(old(State()), userType, userId)
      ensures State() == UpsertAdmin(old(State()), userType, userId, false).after
      ensures ok ==> IsAdmin(State(), userType, userId) == None
      ensures !ok ==> State() == old(State())
      ensures forall t, u :: !(t == userType && u == userId) ==> IsAdmin(State(), t, u) == IsAdmin(old(State()), t, u)
    {
      ghost var before := State();
      ok := Upsert(userType, userId, false);
      if ok { UpsertSetsStatus(before, userType, userId, false); }
      forall t, u | !(t == userType && u == userId)
        ensures IsAdmin(State(), t, u) == IsAdmin(before, t, u)
      {
        UpsertKeepsOthers(before, userType, userId, false, t, u);
      }
    }

    /**
      `DB.create_or_check_batch(admin, batch)`. With no `batch`, inserts an open
      batch under the generated `freshId` (stamped `now`) and returns `Ok(Some(freshId))`,
      or `Ok(None)` on an IntegrityError. With a `batch`, returns it when the caller
      owns it and it is open, and the raised exception otherwise, changing nothing.
    */
    method CreateOrCheckBatch(admin: int, batch: Option<string>, freshId: string, now: Timestamp)
      returns (r: Result<Option<string>, BatchError>)
      requires Valid()
      modifies this
      ensures Valid()
      ensures batch.None? ==> r == Ok(CreateBatch(old(State()), admin, freshId, now).result)
      ensures batch.None? ==> State() == CreateBatch(old(State()), admin, freshId, now).after
      ensures batch.None? && r.value.Some? ==> CheckBatch(State(), admin, freshId) == Ok(freshId)
      ensures batch.Some? ==> State() == old(State())
      ensures batch.Some? ==> r == (match CheckBatch(old(State()), admin, batch.value)
                                    case Ok(b) => Ok(Some(b))
                                    case Err(e) => Err(e))
    {
      if batch.Some? {
        match CheckBatch(State(), admin, batch.value) {
          case Ok(b) => r := Ok(Some(b));
          case Err(e) => r := Err(e);
        }
        return;
      }
      if freshId in batches || !HasAdminId(admins, admin) {
        return Ok(None);
      }
      batches := batches[freshId := BatchRow(admin, now, None)];
      r := Ok(Some(freshId));
    }

    /** `DB.close_batch`: stamps `closed` on that one batch (if present) and always returns True. */
    method CloseBatch(batch: string, now: Timestamp) returns (ok: bool)
      requires Valid()
      modifies this
      ensures Valid()
      ensures ok
      ensures State() == Transitions.CloseBatch(old(State()), batch, now).after
      ensures forall a :: CheckBatch(State(), a, batch).Err?
    {
      if batch in batches {
        batches := batches[batch := batches[batch].(closed := Some(now))];
      }
      ok := true;
    }

    /**
      `DB.add_item`: decrypts first and returns False if that fails; otherwise
      inserts one non-archived row stamped `now`, or returns False when the batch
      or the template does not exist.
    */
    method AddItem(batch: string, targetType: string, targetId: string, category: string,
                   data: string, template: string, now: Timestamp) returns (ok: bool)
      requires Valid()
      modifies this
      ensures Valid()
      ensures ok <==> decrypt(data).Some? && batch in old(batches) && template in old(templates)
      ensures State() == Transitions.AddItem(old(State()), decrypt, batch, targetType, targetId, category, data, template, now).after
      ensures ok ==> ItemView(decrypt(data).value, template) in GetItems(State(), decrypt, targetType, targetId)
    {
      if decrypt(data).None? {
        return false;
      }
      if batch !in batches || template !in templates {
        return false;
      }
      ghost var before := State();
      ghost var step := Transitions.AddItem(before, decrypt, batch, targetType, targetId, category, data, template, now);
      items := items + [ItemRow(itemSeq + 1, batch, targetType, targetId, category, data, template, now, false)];
      itemSeq := itemSeq + 1;
      ok := true;
      assert State() == step.after;
      AddItemPreservesInvariants(before, decrypt, batch, targetType, targetId, category, data, template, now);
      AddedItemIsListed(before, decrypt, batch, targetType, targetId, category, data, template, now);
    }
  }
}
