/** The backend's SQLite file as two tables (database.rs): `settings`, keyed
    by its TEXT primary key, and `packages`, keyed by its INTEGER primary key
    (the rowid), whose `features` column holds JSON text. A `registrations`
    table is written and read by the handlers but never created here, so
    the file may or may not have it. `init_db` opens the file, creates the
    two tables if missing and seeds them. */
module Database {
  import opened Opt
  import opened Records

  /** A row of `packages` without its id: features as stored text. */
  datatype PackageRow = PackageRow(name: string, speed: string, price: string, features: string)

  /** A row of `registrations`; `createdAt` is SQLite's `datetime('now')`
      text. */
  datatype RegistrationRow = RegistrationRow(id: int, name: string, phone: string, address: string,
                                             package: string, notes: string, createdAt: string)

  /** The eight settings seeded into an empty or incomplete table, in the
      order they are inserted. */
  const DefaultSettings: seq<Setting> := [
    Setting("site_title", "UNNET"),
    Setting("whatsapp_number", "6285233053443"),
    Setting("address", "Jawa Timur & Sekitarnya"),
    Setting("email", "info@unnet.id"),
    Setting("work_hours", "Senin - Sabtu: 08:00 - 20:00"),
    Setting("tagline", "Teknisi Cepat Tanggap"),
    Setting("map_embed_url", "https://www.google.com/maps/embed?pb=!1m18!1m12!1m3!1d3953.8!2d111.7626166!3d-7.2648367!2m3!1f0!2f0!3f0!3m2!1i1024!2i768!4f13.1!3m3!1m2!1s0x2e79d5e75d766211%3A0x2c8b3ef233d2ef5a!2sUNNET%20WIFI%20cepat%20tanggap%20teknisinya!5e0!3m2!1sen!2sid!4v1234567890"),
    Setting("map_direct_url", "https://www.google.com/maps/place/UNNET+WIFI+cepat+tanggap+teknisinya/@-7.2648314,111.7600417,1078m/data=!3m1!1e3!4m8!3m7!1s0x2e79d5e75d766211:0x2c8b3ef233d2ef5a!8m2!3d-7.2648367!4d111.7626166!9m1!1b1!16s%2Fg%2F11smmhxn1f")
  ]

  /** The four packages seeded into an empty table, in insertion order; the
      features are the literal JSON text of the seed. */
  const DefaultPackages: seq<PackageRow> := [
    PackageRow("Starter", "30 Mbps", "Rp 150rb/bulan", "[\"Ideal untuk 1-3 perangkat\", \"Streaming HD lancar\", \"Bebas FUP\"]"),
    PackageRow("Standard", "100 Mbps", "Rp 250rb/bulan", "[\"Ideal untuk 4-7 perangkat\", \"Streaming 4K lancar\", \"Gaming rendah latensi\"]"),
    PackageRow("Premium", "300 Mbps", "Rp 450rb/bulan", "[\"Ideal untuk Smart Home\", \"Upload file besar cepat\", \"Prioritas Bandwidth\"]"),
    PackageRow("Business", "1 Gbps", "Rp 850rb/bulan", "[\"Koneksi Bisnis/Kantor\", \"IP Public Static\", \"Support Prioritas\"]")
  ]

  /** The rowid SQLite gives a new row of a table without AUTOINCREMENT:
      one more than the largest rowid in use, or 1 for an empty table. */
  ghost predicate IsNextRowid(ids: set<int>, n: int) {
    if ids == {} then n == 1 else n - 1 in ids && forall k :: k in ids ==> k < n
  }

  /** The open database. Keys of `settings` are unique and ids of
      `packages` are unique because both are primary keys: each is a map. */
  class Connection {
    var settings: map<string, string>
    var packages: map<int, PackageRow>
    /** `None` when the file has no `registrations` table. */
    var registrations: Option<seq<RegistrationRow>>

    /** Opening a database file that already holds these tables (an absent
        file opens as empty tables). */
    constructor Open(settings: map<string, string>, packages: map<int, PackageRow>, registrations: Option<seq<RegistrationRow>>)
      ensures this.settings == settings && this.packages == packages && this.registrations == registrations
    {
      this.settings := settings;
      this.packages := packages;
      this.registrations := registrations;
    }
  }

  /** Some element of a non-empty set (the order a table scan visits rows
      in is not modelled). */
  method Pick<T>(s: set<T>) returns (x: T)
    requires s != {}
    ensures x in s
  {
    x :| x in s;
  }

  /** Computing the next rowid by scanning the ids in use. */
  method NextRowid(ids: set<int>) returns (n: int)
    ensures IsNextRowid(ids, n)
    ensures n !in ids && forall k :: k in ids ==> k < n
  {
    if ids == {} {
      return 1;
    }
    var first := Pick(ids);
    var max := first;
    var seen := {first};
    while seen != ids
      invariant seen <= ids && max in seen
      invariant forall k :: k in seen ==> k <= max
      decreases |ids - seen|
    {
      var k := Pick(ids - seen);
      if k > max {
        max := k;
      }
      seen := seen + {k};
    }
    n := max + 1;
  }

  /* ---------- seeding ---------- */

  /** `INSERT OR IGNORE`: adds the pair only when the key is not there. */
  function InsertOrIgnore(m: map<string, string>, s: Setting): (r: map<string, string>)
  {
    if s.key in m then m else m[s.key := s.value]
  }

  /** The inserts of a list applied in order. */
  function InsertAllOrIgnore(m: map<string, string>, data: seq<Setting>): map<string, string>
    decreases |data|
  {
    if data == [] then m else InsertOrIgnore(InsertAllOrIgnore(m, data[..|data| - 1]), data[|data| - 1])
  }

  /** The settings table after `init_db`. */
  function SeedSettings(m: map<string, string>): map<string, string>
  {
    InsertAllOrIgnore(m, DefaultSettings)
  }

  /** The packages table after `init_db`: the four seeds with rowids 1 to
      4 when it was empty, untouched otherwise. */
  function SeedPackages(t: map<int, PackageRow>): map<int, PackageRow>
  {
    if |t| == 0 then
      map[1 := DefaultPackages[0], 2 := DefaultPackages[1], 3 := DefaultPackages[2], 4 := DefaultPackages[3]]
    else t
  }

  /** What the ignoring inserts do: every listed key is present afterwards,
      a key already present keeps its value, a key neither present nor
      listed stays absent, and a newly added key gets the first listed
      value for it. */
  lemma {:induction false} InsertAllOrIgnoreSpec(m: map<string, string>, data: seq<Setting>)
    ensures forall k :: k in InsertAllOrIgnore(m, data) <==> k in m || k in Keys(data)
    ensures forall k :: k in m ==> InsertAllOrIgnore(m, data)[k] == m[k]
    ensures forall i :: 0 <= i < |data| && data[i].key !in m && (forall j :: 0 <= j < i ==> data[j].key != data[i].key)
              ==> data[i].key in InsertAllOrIgnore(m, data) && InsertAllOrIgnore(m, data)[data[i].key] == data[i].value
    decreases |data|
  {
    if data != [] {
      var init := data[..|data| - 1];
      InsertAllOrIgnoreSpec(m, init);
      assert Keys(data) == Keys(init) + [data[|data| - 1].key];
      forall i | 0 <= i < |data| && data[i].key !in m && (forall j :: 0 <= j < i ==> data[j].key != data[i].key)
        ensures data[i].key in InsertAllOrIgnore(m, data) && InsertAllOrIgnore(m, data)[data[i].key] == data[i].value
      {
        if i < |init| {
          assert data[i].key in Keys(init);
        } else {
          assert forall j :: 0 <= j < |init| ==> init[j].key != data[i].key;
          assert data[i].key !in Keys(init);
        }
      }
    }
  }

  lemma DefaultKeysDistinct()
    ensures DistinctKeys(DefaultSettings)
  {
  }

  /** After seeding, all eight default keys exist; keys that were there keep
      their stored value; keys outside the defaults are neither added nor
      changed; and a default key that was missing gets its default value. */
  lemma SeedSettingsSpec(m: map<string, string>)
    ensures forall i :: 0 <= i < |DefaultSettings| ==> DefaultSettings[i].key in SeedSettings(m)
    ensures forall k :: k in m ==> k in SeedSettings(m) && SeedSettings(m)[k] == m[k]
    ensures forall k :: k !in Keys(DefaultSettings) ==> (k in SeedSettings(m) <==> k in m)
    ensures forall i :: 0 <= i < |DefaultSettings| && DefaultSettings[i].key !in m ==>
              SeedSettings(m)[DefaultSettings[i].key] == DefaultSettings[i].value
  {
    InsertAllOrIgnoreSpec(m, DefaultSettings);
    DefaultKeysDistinct();
  }

  /** Inserting keys that are all present already changes nothing. */
  lemma {:induction false} InsertAllPresent(m: map<string, string>, data: seq<Setting>)
    requires forall i :: 0 <= i < |data| ==> data[i].key in m
    ensures InsertAllOrIgnore(m, data) == m
    decreases |data|
  {
    if data != [] {
      InsertAllPresent(m, data[..|data| - 1]);
    }
  }

  /** The packages table gets exactly the four seed rows if and only if it
      was empty; a non-empty table is left as it was. */
  lemma SeedPackagesSpec(t: map<int, PackageRow>)
    ensures |t| == 0 ==> SeedPackages(t).Keys == {1, 2, 3, 4} && forall i :: 0 <= i < 4 ==> SeedPackages(t)[i + 1] == DefaultPackages[i]
    ensures |t| != 0 ==> SeedPackages(t) == t
    ensures |SeedPackages(t)| != 0
  {
    if |t| == 0 {
      var s := SeedPackages(t);
      assert s.Keys == {1, 2, 3, 4};
      assert 1 in s;
    } else {
      assert |SeedPackages(t)| == |t|;
    }
  }

  /** Running the seeding twice leaves the same tables as running it once. */
  lemma SeedIdempotent(m: map<string, string>, t: map<int, PackageRow>)
    ensures SeedSettings(SeedSettings(m)) == SeedSettings(m)
    ensures SeedPackages(SeedPackages(t)) == SeedPackages(t)
  {
    SeedSettingsSpec(m);
    InsertAllPresent(SeedSettings(m), DefaultSettings);
    SeedPackagesSpec(t);
  }

  /** `init_db` on an opened file: the `INSERT OR IGNORE` loop over the
      default settings, then the count-guarded insert loop over the default
      packages. The registrations table is not touched. */
  method InitDb(conn: Connection)
    modifies conn
    ensures conn.settings == SeedSettings(old(conn.settings))
    ensures conn.packages == SeedPackages(old(conn.packages))
    ensures conn.registrations == old(conn.registrations)
  {
    SeedSettingRows(conn);
    var count := |conn.packages|;
    if count == 0 {
      SeedPackageRows(conn);
    }
  }

  /** The `INSERT OR IGNORE` loop. */
  method SeedSettingRows(conn: Connection)
    modifies conn
    ensures conn.settings == SeedSettings(old(conn.settings))
    ensures conn.packages == old(conn.packages) && conn.registrations == old(conn.registrations)
  {
    for i := 0 to |DefaultSettings|
      invariant conn.settings == InsertAllOrIgnore(old(conn.settings), DefaultSettings[..i])
      invariant conn.packages == old(conn.packages) && conn.registrations == old(conn.registrations)
    {
      var s := DefaultSettings[i];
      assert DefaultSettings[..i + 1][..i] == DefaultSettings[..i];
      if s.key !in conn.settings {
        conn.settings := conn.settings[s.key := s.value];
      }
    }
    assert DefaultSettings[..|DefaultSettings|] == DefaultSettings;
  }

  /** The seed insert loop of an empty packages table; each row gets the
      next rowid. */
  method SeedPackageRows(conn: Connection)
    requires |conn.packages| == 0
    modifies conn
    ensures conn.packages == SeedPackages(old(conn.packages))
    ensures conn.settings == old(conn.settings) && conn.registrations == old(conn.registrations)
  {
    conn.packages := map[];
    for i := 0 to |DefaultPackages|
      invariant forall j :: j in conn.packages <==> 1 <= j <= i
      invariant forall j :: j in conn.packages ==> conn.packages[j] == DefaultPackages[j - 1]
      invariant conn.settings == old(conn.settings) && conn.registrations == old(conn.registrations)
    {
      var id := NextRowid(conn.packages.Keys);
      assert id == i + 1 by {
        if i == 0 {
          assert conn.packages.Keys == {};
        } else {
          assert i in conn.packages.Keys;
        }
      }
      conn.packages := conn.packages[id := DefaultPackages[i]];
    }
    assert conn.packages.Keys == {1, 2, 3, 4};
  }
}
