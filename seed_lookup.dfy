/**
 * The in-memory lookup maps the seeders build from the rows they read:
 * `new Map(rows.map((row) => [key, row.id]))`, keyed either by the row's exact
 * name (user e-mails) or by its `toLookupKey` (labels, priorities, statuses,
 * projects, tasks).
 */
module SeedLookup {
  import opened Wrappers
  import opened Text
  import opened Js

  /** A row as the seeders select it: its id and the field they look it up by. */
  datatype NamedRow = NamedRow(id: string, name: string)

  /** `new Map(entries)`: a later entry for the same key replaces an earlier one. */
  function Index(entries: seq<(string, string)>): (m: map<string, string>)
    ensures forall k :: k in m <==> exists i :: 0 <= i < |entries| && entries[i].0 == k
    ensures entries != [] ==> m[entries[|entries| - 1].0] == entries[|entries| - 1].1
  {
    if entries == [] then map[]
    else
      var last := entries[|entries| - 1];
      var m := Index(entries[..|entries| - 1])[last.0 := last.1];
      assert forall i :: 0 <= i < |entries| - 1 ==> entries[..|entries| - 1][i] == entries[i];
      m
  }

  /** The value stored under a key is the one of the last entry with that key. */
  lemma {:induction false} IndexLastWins(entries: seq<(string, string)>, i: nat)
    requires i < |entries|
    requires forall j :: i < j < |entries| ==> entries[j].0 != entries[i].0
    ensures Index(entries)[entries[i].0] == entries[i].1
  {
    if i < |entries| - 1 {
      var init := entries[..|entries| - 1];
      assert init[i] == entries[i];
      forall j | i < j < |init| ensures init[j].0 != init[i].0 {
        assert init[j] == entries[j];
      }
      IndexLastWins(init, i);
    }
  }

  /** Every value in the map is the value of an entry with that key. */
  lemma {:induction false} IndexValueFromEntry(entries: seq<(string, string)>, k: string)
    requires k in Index(entries)
    ensures exists i :: 0 <= i < |entries| && entries[i] == (k, Index(entries)[k])
  {
    var n := |entries| - 1;
    var init := entries[..n];
    if entries[n].0 == k {
      assert entries[n] == (k, Index(entries)[k]);
    } else {
      IndexValueFromEntry(init, k);
      var i :| 0 <= i < |init| && init[i] == (k, Index(init)[k]);
      assert entries[i] == init[i];
    }
  }

  /** `new Map(users.map((user) => [user.email, user.id]))`. */
  function ExactIndex(rows: seq<NamedRow>): map<string, string> {
    Index(seq(|rows|, i requires 0 <= i < |rows| => (rows[i].name, rows[i].id)))
  }

  /** `new Map(rows.map((row) => [toLookupKey(row.name), row.id]))`. */
  function KeyIndex(rows: seq<NamedRow>): map<string, string> {
    Index(seq(|rows|, i requires 0 <= i < |rows| => (LookupKey(rows[i].name), rows[i].id)))
  }

  /** `map.get(key)`: `undefined` for a missing key. */
  function Get(m: map<string, string>, key: string): (r: Option<string>)
    ensures r.Some? <==> key in m
    ensures r.Some? ==> r.value == m[key]
  {
    if key in m then Some(m[key]) else None
  }

  /** `map.get(toLookupKey(name))`. */
  function Find(m: map<string, string>, name: string): Option<string> {
    Get(m, LookupKey(name))
  }

  /** An e-mail finds a user exactly when some row has that e-mail, and then it finds
      the id of such a row. */
  lemma ExactIndexFinds(rows: seq<NamedRow>, email: string)
    ensures Get(ExactIndex(rows), email).Some? <==> exists r :: r in rows && r.name == email
    ensures Get(ExactIndex(rows), email).Some? ==>
      exists r :: r in rows && r.name == email && r.id == Get(ExactIndex(rows), email).value
  {
    var entries := seq(|rows|, i requires 0 <= i < |rows| => (rows[i].name, rows[i].id));
    if r :| r in rows && r.name == email {
      var i :| 0 <= i < |rows| && rows[i] == r;
      assert entries[i].0 == email;
    }
    if email in Index(entries) {
      IndexValueFromEntry(entries, email);
      var i :| 0 <= i < |entries| && entries[i] == (email, Index(entries)[email]);
      assert rows[i] in rows;
    }
  }

  /** A name finds a row exactly when some row's name has the same lookup key, and
      then it finds the id of such a row. */
  lemma KeyIndexFinds(rows: seq<NamedRow>, name: string)
    ensures Find(KeyIndex(rows), name).Some? <==> exists r :: r in rows && LookupKey(r.name) == LookupKey(name)
    ensures Find(KeyIndex(rows), name).Some? ==>
      exists r :: r in rows && LookupKey(r.name) == LookupKey(name) && r.id == Find(KeyIndex(rows), name).value
  {
    var entries := seq(|rows|, i requires 0 <= i < |rows| => (LookupKey(rows[i].name), rows[i].id));
    var k := LookupKey(name);
    if r :| r in rows && LookupKey(r.name) == k {
      var i :| 0 <= i < |rows| && rows[i] == r;
      assert entries[i].0 == k;
    }
    if k in Index(entries) {
      IndexValueFromEntry(entries, k);
      var i :| 0 <= i < |entries| && entries[i] == (k, Index(entries)[k]);
      assert rows[i] in rows;
    }
  }

  /** Lookups ignore letter case... */
  lemma FindIgnoresCase(m: map<string, string>, a: string, b: string)
    requires ToLower(a) == ToLower(b)
    ensures Find(m, a) == Find(m, b)
  {
    LookupKeyIgnoresCase(a, b);
  }

  /** ...and surrounding whitespace. */
  lemma FindIgnoresSurroundingWhitespace(m: map<string, string>, p: string, s: string, q: string)
    requires AllWhitespace(p) && AllWhitespace(q)
    ensures Find(m, p + s + q) == Find(m, s)
  {
    LookupKeyIgnoresSurroundingWhitespace(p, s, q);
  }
}
