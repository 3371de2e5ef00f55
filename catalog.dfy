/**
 * The client's small catalogue helpers: the user-field whitelist that
 * `addUser`, `updateUser` and `addOrUpdateUser` apply, the list of all
 * group IDs, and the singular/plural choice of `out_stats`.
 */
module Catalog {
  import opened PhpString
  import opened PhpValue

  // ---------------------------------------------------------------------
  // user_fields

  /** The fields every user call accepts. */
  const BaseUserFields: seq<string> := [
    "userID", "login", "firstName", "middleName", "lastName", "gender", "title",
    "initials", "email", "function", "company", "dateOfBirth", "telephoneNumber",
    "faxNumber", "cellPhoneNumber", "address", "zip", "residence", "country",
    "invoiceAddress", "invoiceZip", "invoiceResidence", "invoiceCountry",
    "custom1", "custom2", "custom3", "custom4", "custom5", "locale",
    "timeZoneGroup", "timeZone", "password", "generatePassword",
    "forcePasswordChange", "notify", "active", "renewable", "avatar", "deleteAvatar"
  ]

  /** The extra fields a particular call accepts. */
  function ExtraUserFields(fn: string): seq<string>
  {
    if fn == "addUser" then ["role"]
    else if fn == "updateUser" || fn == "addOrUpdateUser" then ["userUID", "id", "archived"]
    else []
  }

  /** `user_fields($function)` as intended: the base list, then the extras. */
  function UserFields(fn: string): seq<string>
  {
    BaseUserFields + ExtraUserFields(fn)
  }

  /** `user_fields($function)` as written: the branches for the three user
      calls merge an undefined variable, which PHP 8 rejects with a
      `TypeError` (`None` here); every other name gets the base list. */
  function UserFieldsAsWritten(fn: string): Option<seq<string>>
  {
    if fn == "addUser" || fn == "updateUser" || fn == "addOrUpdateUser" then None
    else Some(BaseUserFields)
  }

  /** As written, every caller of `user_fields` with a function name fails. */
  lemma UserFieldsAsWrittenFails(fn: string)
    ensures UserFieldsAsWritten(fn).None? <==> fn in {"addUser", "updateUser", "addOrUpdateUser"}
    ensures UserFieldsAsWritten(fn).Some? ==> UserFieldsAsWritten(fn).value == UserFields(fn)
  {
  }

  lemma ExtrasNotInBase()
    ensures "role" !in BaseUserFields && "archived" !in BaseUserFields
  {
    assert forall i :: 0 <= i < |BaseUserFields| ==> |BaseUserFields[i]| != 4;
    assert forall i :: 0 <= i < |BaseUserFields| && |BaseUserFields[i]| == 8 ==> BaseUserFields[i][0] != 'a';
  }

  /** The intended lists: the base fields first, plus `role` for `addUser`
      only and `userUID`, `id`, `archived` for the update calls only. */
  lemma UserFieldsExtend(fn: string)
    ensures UserFields(fn)[..|BaseUserFields|] == BaseUserFields
    ensures ("role" in UserFields(fn)) <==> fn == "addUser"
    ensures ("archived" in UserFields(fn)) <==> (fn == "updateUser" || fn == "addOrUpdateUser")
  {
    ExtrasNotInBase();
    var extra := ExtraUserFields(fn);
    assert forall f :: f in UserFields(fn) <==> f in BaseUserFields || f in extra;
    if fn == "addUser" {
      assert extra == ["role"];
    } else if fn == "updateUser" || fn == "addOrUpdateUser" {
      assert extra == ["userUID", "id", "archived"];
    } else {
      assert extra == [];
    }
  }

  /** The entries of a row whose key is in the whitelist, in row order. */
  function Whitelisted(row: seq<(string, Value)>, fields: seq<string>): seq<(string, Value)>
    decreases |row|
  {
    if |row| == 0 then []
    else
      var rest := Whitelisted(row[..|row| - 1], fields);
      if row[|row| - 1].0 in fields then rest + [row[|row| - 1]] else rest
  }

  /** Filtering two rows one after the other is filtering each. */
  lemma {:induction false} WhitelistedAppend(a: seq<(string, Value)>, b: seq<(string, Value)>, fields: seq<string>)
    ensures Whitelisted(a + b, fields) == Whitelisted(a, fields) + Whitelisted(b, fields)
    decreases |b|
  {
    if |b| == 0 {
      assert a + b == a;
    } else {
      assert (a + b)[..|a + b| - 1] == a + b[..|b| - 1];
      assert (a + b)[|a + b| - 1] == b[|b| - 1];
      WhitelistedAppend(a, b[..|b| - 1], fields);
    }
  }

  /** Exactly the entries whose key is whitelisted survive. */
  lemma {:induction false} WhitelistedMembers(row: seq<(string, Value)>, fields: seq<string>)
    ensures forall e :: e in Whitelisted(row, fields) <==> e in row && e.0 in fields
    decreases |row|
  {
    if |row| > 0 {
      WhitelistedMembers(row[..|row| - 1], fields);
      assert row == row[..|row| - 1] + [row[|row| - 1]];
    }
  }

  /** Filtering twice filters once. */
  lemma {:induction false} WhitelistedIdempotent(row: seq<(string, Value)>, fields: seq<string>)
    ensures Whitelisted(Whitelisted(row, fields), fields) == Whitelisted(row, fields)
    decreases |row|
  {
    if |row| > 0 {
      var init := row[..|row| - 1];
      var last := row[|row| - 1];
      WhitelistedIdempotent(init, fields);
      if last.0 in fields {
        WhitelistedAppend(Whitelisted(init, fields), [last], fields);
        assert Whitelisted([last], fields) == [last] by {
          assert [last][..0] == [];
        }
      }
    }
  }

  /** The `foreach ... unset` loop over the keys of a user row. */
  method FilterFields(row: seq<(string, Value)>, fields: seq<string>) returns (kept: seq<(string, Value)>)
    ensures kept == Whitelisted(row, fields)
  {
    kept := [];
    var i := 0;
    while i < |row|
      invariant 0 <= i <= |row|
      invariant kept == Whitelisted(row[..i], fields)
    {
      assert row[..i + 1][..i] == row[..i];
      if row[i].0 in fields {
        kept := kept + [row[i]];
      }
      i := i + 1;
    }
    assert row[..|row|] == row;
  }

  // ---------------------------------------------------------------------
  // all_groups

  /** `array_unique`: first occurrences, in order. */
  function Dedup(vs: seq<string>): seq<string>
    decreases |vs|
  {
    if |vs| == 0 then []
    else
      var d := Dedup(vs[..|vs| - 1]);
      if vs[|vs| - 1] in d then d else d + [vs[|vs| - 1]]
  }

  predicate Distinct(vs: seq<string>)
  {
    forall i, j :: 0 <= i < j < |vs| ==> vs[i] != vs[j]
  }

  /** `array_unique` keeps every value once and adds none. */
  lemma {:induction false} DedupMeaning(vs: seq<string>)
    ensures Distinct(Dedup(vs))
    ensures forall v :: v in Dedup(vs) <==> v in vs
    decreases |vs|
  {
    if |vs| > 0 {
      DedupMeaning(vs[..|vs| - 1]);
      assert vs == vs[..|vs| - 1] + [vs[|vs| - 1]];
    }
  }

  /** `all_groups()`: the distinct group IDs of the job-title table, then the
      teacher group (which is appended even when the table holds it too). */
  function AllGroups(groups: seq<(string, string)>, teacher: string): seq<string>
  {
    Dedup(seq(|groups|, i requires 0 <= i < |groups| => groups[i].1)) + [teacher]
  }

  /** The list ends with the teacher group; before it, each group of the
      table appears exactly once and nothing else does, so a table that
      holds the teacher group lists it twice. */
  lemma AllGroupsMeaning(groups: seq<(string, string)>, teacher: string)
    ensures var all := AllGroups(groups, teacher);
      var table := all[..|all| - 1];
      && |all| > 0 && all[|all| - 1] == teacher
      && Distinct(table)
      && (forall i :: 0 <= i < |groups| ==> groups[i].1 in table)
      && (forall g :: g in table ==> exists i :: 0 <= i < |groups| && groups[i].1 == g)
  {
    var vs := seq(|groups|, i requires 0 <= i < |groups| => groups[i].1);
    DedupMeaning(vs);
    var all := AllGroups(groups, teacher);
    var table := all[..|all| - 1];
    assert table == Dedup(vs);
    forall g | g in table
      ensures exists i :: 0 <= i < |groups| && groups[i].1 == g
    {
      assert g in vs;
      var i :| 0 <= i < |vs| && vs[i] == g;
      assert groups[i].1 == g;
    }
    forall i | 0 <= i < |groups| ensures groups[i].1 in table {
      assert vs[i] == groups[i].1;
    }
  }

  // ---------------------------------------------------------------------
  // out_stats

  /** The noun `out_stats` prints after a count: none for a zero count, the
      singular for one, and otherwise the plural, where a plural shorter
      than the singular is a suffix to append to it. */
  function StatsName(count: int, single: string, plural: string): Option<string>
  {
    if count == 0 then None
    else if count == 1 then Some(single)
    else if |plural| < |single| then Some(single + plural)
    else Some(plural)
  }

  /** Every non-zero count gets a noun. Every count other than zero and one
      gets the same plural noun, which always ends with `plural`, and is the
      singular followed by `plural` when `plural` is the shorter. */
  lemma StatsNameMeaning(count: int, single: string, plural: string)
    ensures StatsName(count, single, plural).None? <==> count == 0
    ensures count == 1 ==> StatsName(count, single, plural) == Some(single)
    ensures count != 0 && count != 1 ==>
      && StatsName(count, single, plural) == StatsName(2, single, plural)
      && EndsWith(StatsName(count, single, plural).value, plural)
    ensures count != 0 && count != 1 && |plural| < |single| ==> StatsName(count, single, plural) == Some(single + plural)
    ensures count != 0 && count != 1 && |plural| >= |single| ==> StatsName(count, single, plural) == Some(plural)
  {
    if count != 0 && count != 1 && |plural| < |single| {
      assert (single + plural)[|single + plural| - |plural|..] == plural;
    }
  }
}
