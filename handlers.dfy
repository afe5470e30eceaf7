/** The HTTP handlers of the backend (main.rs) as operations on the open
    database. Each handler runs its statement under the connection lock and
    answers with a fixed JSON message; a failing statement panics in
    `unwrap`, which the client sees as a failed request. */
module Handlers {
  import opened Opt
  import opened Records
  import opened Database
  import FeaturesJson

  /** What a handler sends back. */
  datatype Reply = Ok(message: string) | Panic

  /** The body of a registration request. */
  datatype RegistrationForm = RegistrationForm(name: string, phone: string, address: string, package: string, notes: string)

  /* ---------- settings ---------- */

  /** `INSERT OR REPLACE`: the key maps to the new value afterwards. */
  function Upsert(m: map<string, string>, s: Setting): map<string, string>
  {
    m[s.key := s.value]
  }

  /** The upsert writes its key, leaves every other key as it was, and adds
      at most one entry (none when the key was there). */
  lemma UpsertSpec(m: map<string, string>, s: Setting)
    ensures s.key in Upsert(m, s) && Upsert(m, s)[s.key] == s.value
    ensures forall k :: k != s.key ==> (k in Upsert(m, s) <==> k in m) && (k in m ==> Upsert(m, s)[k] == m[k])
    ensures |Upsert(m, s)| <= |m| + 1
    ensures s.key in m ==> |Upsert(m, s)| == |m|
  {
    var r := Upsert(m, s);
    if s.key in m {
      assert r.Keys == m.Keys;
    } else {
      assert r.Keys == m.Keys + {s.key};
    }
  }

  /** `update_setting`. */
  method UpdateSetting(conn: Connection, setting: Setting) returns (reply: Reply)
    modifies conn
    ensures conn.settings == Upsert(old(conn.settings), setting)
    ensures conn.packages == old(conn.packages) && conn.registrations == old(conn.registrations)
    ensures reply == Ok("Setting updated")
  {
    conn.settings := conn.settings[setting.key := setting.value];
    reply := Ok("Setting updated");
  }

  /** `get_settings`: every row once, each with its stored value. The order
      in which SQLite scans the table is not modelled. */
  method GetSettings(conn: Connection) returns (r: seq<Setting>)
    ensures DistinctKeys(r) && |r| == |conn.settings|
    ensures forall i :: 0 <= i < |r| ==> r[i].key in conn.settings && conn.settings[r[i].key] == r[i].value
    ensures forall k :: k in conn.settings ==> k in Keys(r)
  {
    r := [];
    var remaining := conn.settings.Keys;
    while remaining != {}
      invariant remaining <= conn.settings.Keys
      invariant |r| + |remaining| == |conn.settings|
      invariant forall i :: 0 <= i < |r| ==> r[i].key in conn.settings && conn.settings[r[i].key] == r[i].value && r[i].key !in remaining
      invariant DistinctKeys(r)
      invariant forall k :: k in conn.settings ==> k in remaining || k in Keys(r)
      decreases |remaining|
    {
      var k := Pick(remaining);
      assert Keys(r + [Setting(k, conn.settings[k])]) == Keys(r) + [k];
      r := r + [Setting(k, conn.settings[k])];
      remaining := remaining - {k};
    }
  }

  /* ---------- packages ---------- */

  /** How `get_packages` turns a row into a package: the features text is
      decoded, and an undecodable text gives the empty list. */
  function ToPackage(id: int, row: PackageRow): Package
  {
    Package(Some(id), row.name, row.speed, row.price, FeaturesJson.FeaturesOf(row.features))
  }

  /** How `save_package` stores a package: the features are encoded. */
  function ToRow(p: Package): (row: PackageRow)
  {
    PackageRow(p.name, p.speed, p.price, FeaturesJson.Encode(p.features))
  }

  /** Storing a package and reading it back gives the same package, now
      with its id. */
  lemma RowRoundTrip(id: int, p: Package)
    ensures ToPackage(id, ToRow(p)) == p.(id := Some(id))
  {
    FeaturesJson.FeaturesRoundTrip(p.features);
  }

  /** The smallest id of a non-empty set. */
  method PickMin(ids: set<int>) returns (m: int)
    requires ids != {}
    ensures m in ids && forall k :: k in ids ==> m <= k
  {
    m := Pick(ids);
    var rest := ids - {m};
    while rest != {}
      invariant m in ids && rest <= ids
      invariant forall k :: k in ids && k !in rest ==> m <= k
      decreases |rest|
    {
      var k := Pick(rest);
      if k < m {
        m := k;
      }
      rest := rest - {k};
    }
  }

  /** The ids of a table in ascending order, as a rowid scan visits them. */
  method AscendingIds(keys: set<int>) returns (ids: seq<int>)
    ensures |ids| == |keys|
    ensures forall i :: 0 <= i < |ids| ==> ids[i] in keys
    ensures forall i, j :: 0 <= i < j < |ids| ==> ids[i] < ids[j]
    ensures forall id :: id in keys ==> id in ids
  {
    ids := [];
    var remaining := keys;
    while remaining != {}
      invariant remaining <= keys
      invariant |ids| + |remaining| == |keys|
      invariant forall i :: 0 <= i < |ids| ==> ids[i] in keys
      invariant forall i :: 0 <= i < |ids| ==> forall k :: k in remaining ==> ids[i] < k
      invariant forall i, j :: 0 <= i < j < |ids| ==> ids[i] < ids[j]
      invariant forall id :: id in keys ==> id in remaining || id in ids
      decreases |remaining|
    {
      var id := PickMin(remaining);
      ids := ids + [id];
      remaining := remaining - {id};
    }
  }

  /** `get_packages`: one package per row, in ascending id order (the order
      SQLite's table scan visits a rowid table), features decoded. */
  method GetPackages(conn: Connection) returns (r: seq<Package>)
    ensures |r| == |conn.packages|
    ensures forall i :: 0 <= i < |r| ==> r[i].id.Some? && r[i].id.value in conn.packages && r[i] == ToPackage(r[i].id.value, conn.packages[r[i].id.value])
    ensures forall i, j :: 0 <= i < j < |r| ==> r[i].id.Some? && r[j].id.Some? && r[i].id.value < r[j].id.value
    ensures forall id :: id in conn.packages ==> exists i :: 0 <= i < |r| && r[i].id == Some(id)
  {
    var t := conn.packages;
    var ids := AscendingIds(t.Keys);
    r := seq(|ids|, i requires 0 <= i < |ids| => ToPackage(ids[i], t[ids[i]]));
    assert forall i :: 0 <= i < |r| ==> r[i] == ToPackage(ids[i], t[ids[i]]) && r[i].id == Some(ids[i]);
    forall id | id in t ensures exists i :: 0 <= i < |r| && r[i].id == Some(id) {
      var i :| 0 <= i < |ids| && ids[i] == id;
      assert r[i].id == Some(id);
    }
  }

  /** The table after `save_package`: with an id, `UPDATE ... WHERE id`,
      which changes that row if it exists and nothing otherwise; without
      one, an insert under the next rowid `newId`. */
  function Saved(t: map<int, PackageRow>, p: Package, newId: int): map<int, PackageRow>
  {
    match p.id
    case Some(id) => if id in t then t[id := ToRow(p)] else t
    case None => t[newId := ToRow(p)]
  }

  /** Saving with a known id replaces that row and adds none; with an unknown
      id it changes nothing; without an id it adds exactly one row under a
      newId id and leaves the existing rows alone. */
  lemma SavedSpec(t: map<int, PackageRow>, p: Package, newId: int)
    requires newId !in t
    ensures p.id.Some? && p.id.value in t ==> Saved(t, p, newId).Keys == t.Keys && Saved(t, p, newId)[p.id.value] == ToRow(p)
    ensures p.id.Some? ==> forall k :: k in t && k != p.id.value ==> Saved(t, p, newId)[k] == t[k]
    ensures p.id.Some? && p.id.value !in t ==> Saved(t, p, newId) == t
    ensures p.id.None? ==> Saved(t, p, newId).Keys == t.Keys + {newId} && |Saved(t, p, newId)| == |t| + 1
    ensures p.id.None? ==> Saved(t, p, newId)[newId] == ToRow(p) && forall k :: k in t ==> Saved(t, p, newId)[k] == t[k]
  {
    if p.id.None? {
      assert Saved(t, p, newId).Keys == t.Keys + {newId};
    }
  }

  /** `save_package`. `newId` is the rowid an insert uses. */
  method SavePackage(conn: Connection, pkg: Package) returns (reply: Reply, ghost newId: int)
    modifies conn
    ensures IsNextRowid(old(conn.packages).Keys, newId) && newId !in old(conn.packages)
    ensures conn.packages == Saved(old(conn.packages), pkg, newId)
    ensures conn.settings == old(conn.settings) && conn.registrations == old(conn.registrations)
    ensures reply == Ok("Package saved")
  {
    var n := NextRowid(conn.packages.Keys);
    newId := n;
    var row := PackageRow(pkg.name, pkg.speed, pkg.price, FeaturesJson.Encode(pkg.features));
    match pkg.id {
      case Some(id) =>
        if id in conn.packages {
          conn.packages := conn.packages[id := row];
        }
      case None =>
        conn.packages := conn.packages[n := row];
    }
    reply := Ok("Package saved");
  }

  /** `delete_package`: `DELETE ... WHERE id`; an unknown id deletes nothing
      and the reply is the same. */
  method DeletePackage(conn: Connection, id: int) returns (reply: Reply)
    modifies conn
    ensures conn.packages == old(conn.packages) - {id}
    ensures conn.settings == old(conn.settings) && conn.registrations == old(conn.registrations)
    ensures reply == Ok("Package deleted")
  {
    conn.packages := conn.packages - {id};
    reply := Ok("Package deleted");
  }

  /** Deleting removes exactly the row with that id. */
  lemma DeleteSpec(t: map<int, PackageRow>, id: int)
    ensures id !in t - {id}
    ensures forall k :: k != id ==> (k in t - {id} <==> k in t) && (k in t ==> (t - {id})[k] == t[k])
    ensures id !in t ==> t - {id} == t
    ensures id in t ==> |t - {id}| == |t| - 1
  {
    if id in t {
      assert (t - {id}).Keys == t.Keys - {id};
    } else {
      assert (t - {id}) == t;
    }
  }

  /* ---------- registrations ---------- */

  /** The ids in use in the registrations table. */
  function RegistrationIds(rows: seq<RegistrationRow>): set<int>
  {
    set i | 0 <= i < |rows| :: rows[i].id
  }

  /** `save_registration`: one row appended with the next rowid and the
      clock's current `datetime('now')` text `now`. Without a registrations
      table the insert fails and the handler panics. */
  method SaveRegistration(conn: Connection, form: RegistrationForm, now: string) returns (reply: Reply)
    modifies conn
    ensures old(conn.registrations).None? ==> reply == Panic && conn.registrations == None
    ensures old(conn.registrations).Some? ==>
      && reply == Ok("Registration saved")
      && conn.registrations.Some?
      && (var rows := old(conn.registrations).value;
          && |conn.registrations.value| == |rows| + 1
          && conn.registrations.value[..|rows|] == rows
          && (var row := conn.registrations.value[|rows|];
              && IsNextRowid(RegistrationIds(rows), row.id)
              && row == RegistrationRow(row.id, form.name, form.phone, form.address, form.package, form.notes, now)))
    ensures conn.settings == old(conn.settings) && conn.packages == old(conn.packages)
  {
    match conn.registrations {
      case None =>
        reply := Panic;
      case Some(rows) =>
        var id := NextRowid(RegistrationIds(rows));
        var row := RegistrationRow(id, form.name, form.phone, form.address, form.package, form.notes, now);
        conn.registrations := Some(rows + [row]);
        assert conn.registrations.value[..|rows|] == rows;
        reply := Ok("Registration saved");
    }
  }

  /** SQLite's BINARY collation on text: lexicographic by character code
      (byte order of UTF-8 is code point order). */
  predicate TextLe(a: string, b: string)
    decreases |a|
  {
    a == [] || (b != [] && (a[0] < b[0] || (a[0] == b[0] && TextLe(a[1..], b[1..]))))
  }

  lemma {:induction false} TextLeTotal(a: string, b: string)
    ensures TextLe(a, b) || TextLe(b, a)
    decreases |a|
  {
    if a != [] && b != [] && a[0] == b[0] {
      TextLeTotal(a[1..], b[1..]);
    }
  }

  lemma {:induction false} TextLeTransitive(a: string, b: string, c: string)
    requires TextLe(a, b) && TextLe(b, c)
    ensures TextLe(a, c)
    decreases |a|
  {
    if a != [] && a[0] == b[0] && b[0] == c[0] {
      TextLeTransitive(a[1..], b[1..], c[1..]);
    }
  }

  /** Newest first: `ORDER BY created_at DESC`. */
  predicate NewestFirst(rows: seq<RegistrationRow>) {
    forall i, j :: 0 <= i < j < |rows| ==> TextLe(rows[j].createdAt, rows[i].createdAt)
  }

  /** `row` placed in front of the first row that is not newer than it. */
  function InsertNewestFirst(rows: seq<RegistrationRow>, row: RegistrationRow): (r: seq<RegistrationRow>)
    ensures multiset(r) == multiset(rows) + multiset{row}
    ensures |r| == |rows| + 1
  {
    if rows == [] || TextLe(rows[0].createdAt, row.createdAt) then [row] + rows
    else
      assert rows == [rows[0]] + rows[1..];
      [rows[0]] + InsertNewestFirst(rows[1..], row)
  }

  /** Insertion keeps a newest-first list newest first. */
  lemma {:induction false} InsertKeepsOrder(rows: seq<RegistrationRow>, row: RegistrationRow)
    requires NewestFirst(rows)
    ensures NewestFirst(InsertNewestFirst(rows, row))
    decreases |rows|
  {
    var r := InsertNewestFirst(rows, row);
    if rows == [] || TextLe(rows[0].createdAt, row.createdAt) {
      forall j | 1 <= j < |r| ensures TextLe(r[j].createdAt, r[0].createdAt) {
        if j > 1 { TextLeTransitive(r[j].createdAt, rows[0].createdAt, row.createdAt); }
      }
    } else {
      assert NewestFirst(rows[1..]);
      InsertKeepsOrder(rows[1..], row);
      TextLeTotal(rows[0].createdAt, row.createdAt);
      var tail := InsertNewestFirst(rows[1..], row);
      assert multiset(tail) == multiset(rows[1..]) + multiset{row};
      forall j | 0 <= j < |tail| ensures TextLe(tail[j].createdAt, rows[0].createdAt) {
        assert tail[j] in multiset(tail);
        if tail[j] != row {
          assert tail[j] in multiset(rows[1..]);
          var k :| 0 <= k < |rows[1..]| && rows[1..][k] == tail[j];
          assert rows[k + 1] == tail[j];
        }
      }
    }
  }

  /** `get_registrations`: the rows, newest first, none lost or added. The
      order among equal timestamps is not modelled. Without the table the
      query fails and the handler panics (`None`). */
  method GetRegistrations(conn: Connection) returns (r: Option<seq<RegistrationRow>>)
    ensures conn.registrations.None? ==> r.None?
    ensures conn.registrations.Some? ==> r.Some? && NewestFirst(r.value) && multiset(r.value) == multiset(conn.registrations.value)
  {
    match conn.registrations {
      case None =>
        r := None;
      case Some(rows) =>
        var sorted := [];
        for i := 0 to |rows|
          invariant NewestFirst(sorted) && multiset(sorted) == multiset(rows[..i])
        {
          InsertKeepsOrder(sorted, rows[i]);
          assert rows[..i + 1] == rows[..i] + [rows[i]];
          sorted := InsertNewestFirst(sorted, rows[i]);
        }
        assert rows[..|rows|] == rows;
        r := Some(sorted);
    }
  }
}
