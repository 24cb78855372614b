/**
 * The daily usage store: one counter per (user, calendar day). The data
 * store's `usage` table (columns id, user_id, day, count) becomes a map keyed
 * by (user, day), which also keeps "at most one record per user and day".
 */
module Usage {
  import opened Wrappers

  /** The authentication provider's user id. */
  type UserId = string

  /** A calendar day as the handler writes it: the first ten characters of an ISO timestamp. */
  type Day = string

  datatype Key = Key(user: UserId, day: Day)

  /** Requests a user may make per day without, and with, premium. */
  const FreeDailyLimit: nat := 5
  const PremiumDailyLimit: nat := 50

  function DailyLimit(premium: bool): nat {
    if premium then PremiumDailyLimit else FreeDailyLimit
  }

  /** The count recorded for `key`, where a missing record counts as 0. */
  function UsedToday(rows: map<Key, nat>, key: Key): nat {
    if key in rows then rows[key] else 0
  }

  /** The `usage` table, updated in place by the handler. */
  class UsageTable {
    var rows: map<Key, nat>

    constructor ()
      ensures rows == map[]
    {
      rows := map[];
    }

    /** Selects the record for one user and day, if there is one. */
    method Find(key: Key) returns (count: Option<nat>)
      ensures count.Some? <==> key in rows
      ensures count.Some? ==> count.value == rows[key]
      ensures count.GetOr(0) == UsedToday(rows, key)
    {
      if key in rows {
        count := Some(rows[key]);
      } else {
        count := None;
      }
    }

    /** Inserts a new record; the handler does so only when Find returned none. */
    method Insert(key: Key, count: nat)
      requires key !in rows
      modifies this
      ensures rows == old(rows)[key := count]
      ensures rows.Keys == old(rows).Keys + {key}
    {
      rows := rows[key := count];
    }

    /** Overwrites the count of an existing record. */
    method Update(key: Key, count: nat)
      requires key in rows
      modifies this
      ensures rows == old(rows)[key := count]
      ensures rows.Keys == old(rows).Keys
    {
      rows := rows[key := count];
    }
  }
}
