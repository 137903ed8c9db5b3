/** The feature flag as the API speaks it, the row that stores it, and the row's
    identity. */
module FeatureFlags {
  import opened Prelude

  function DaysIn(year: nat, month: nat): nat {
    if month == 2 then (if year % 4 == 0 && (year % 100 != 0 || year % 400 == 0) then 29 else 28)
    else if month in {4, 6, 9, 11} then 30 else 31
  }

  /** A UTC calendar timestamp with microseconds, as `datetime.now(UTC)` gives. */
  datatype RawTimestamp =
    RawTimestamp(year: nat, month: nat, day: nat, hour: nat, minute: nat, second: nat, micro: nat) {
    predicate Valid() {
      && 1 <= year <= 9999 && 1 <= month <= 12 && 1 <= day <= DaysIn(year, month)
      && hour < 24 && minute < 60 && second < 60 && micro < 1_000_000
    }
  }

  type Timestamp = t: RawTimestamp | t.Valid() witness RawTimestamp(2026, 1, 15, 12, 0, 0, 0)

  /** The composite primary key of `feature_flags`. */
  datatype Pair = Pair(tenant: string, name: string)

  /** The other columns. `UserDetails` admits no empty user id. */
  datatype Row = Row(value: bool, updatedAt: Timestamp, updatedBy: NonEmpty)

  /** `FeatureFlag`: `name` and `updated_by_user_id` have `min_length=1`. */
  datatype Flag = Flag(name: NonEmpty, enabled: bool, updatedAt: Timestamp, updatedBy: NonEmpty)

  /** `_row_to_flag`. `None` is the validation error of a flag without a name. */
  function RowToFlag(name: string, row: Row): Option<Flag> {
    if name == "" then None else Some(Flag(name, row.value, row.updatedAt, row.updatedBy))
  }
}
