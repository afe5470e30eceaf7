/** How the pages and the backend fit together: what a page ends up
    showing after reading the settings endpoint, and what a package added
    in the console looks like when it is read back. */
module Integration {
  import opened Opt
  import opened Records
  import opened SettingsFold
  import Database
  import Handlers
  import UseSettings
  import Admin

  /** `r` is a possible answer of `get_settings` for the table `store`
      (the guarantees of `Handlers.GetSettings`). */
  predicate Describes(r: seq<Setting>, store: map<string, string>) {
    && DistinctKeys(r)
    && (forall i :: 0 <= i < |r| ==> r[i].key in store && store[r[i].key] == r[i].value)
    && (forall k :: k in store ==> k in Keys(r))
  }

  /** Folding an answer of `get_settings` gives back the table, in
      whatever order the rows came, except for a row named `__proto__`,
      which the browser drops. */
  lemma FetchedSettingsMatchStore(r: seq<Setting>, store: map<string, string>)
    requires Describes(r, store)
    ensures Fold(map[], r) == store - {ProtoKey}
  {
    FoldDistinct(r);
    var m := Fold(map[], r);
    var shown := store - {ProtoKey};
    forall k | k in shown ensures k in m && m[k] == shown[k] {
      var i :| 0 <= i < |r| && Keys(r)[i] == k;
    }
    forall k | k in m ensures k in shown {
      var i :| 0 <= i < |r| && r[i].key == k;
    }
  }

  /** The frontend's eight defaults are the backend's eight seeded keys. */
  lemma SameDefaultKeys()
    ensures forall k :: k in UseSettings.DefaultKeys <==> k in Keys(Database.DefaultSettings)
  {
    forall k | k in UseSettings.DefaultKeys ensures k in Keys(Database.DefaultSettings) {
      var ks := Keys(Database.DefaultSettings);
      assert ks[0] == "site_title" && ks[1] == "whatsapp_number" && ks[2] == "address" && ks[3] == "email";
      assert ks[4] == "work_hours" && ks[5] == "tagline" && ks[6] == "map_embed_url" && ks[7] == "map_direct_url";
    }
  }

  /** Seeding leaves every one of the frontend's default keys in the
      table. */
  lemma SeededHasDefaultKeys(m: map<string, string>)
    ensures UseSettings.DefaultKeys <= Database.SeedSettings(m).Keys
  {
    Database.SeedSettingsSpec(m);
    SameDefaultKeys();
    forall k | k in UseSettings.DefaultKeys ensures k in Database.SeedSettings(m) {
      var i :| 0 <= i < |Database.DefaultSettings| && Keys(Database.DefaultSettings)[i] == k;
    }
  }

  /** An overlay that has every key of the base replaces it entirely. */
  lemma OverlayCovers(base: map<string, string>, over: map<string, string>)
    requires base.Keys <= over.Keys
    ensures base + over == over
  {
  }

  /** Once the database is seeded, the settings hook shows exactly the
      stored settings, less a `__proto__` row: every default is overridden
      by the stored row. */
  lemma HookShowsStore(m: map<string, string>, r: seq<Setting>)
    requires Describes(r, Database.SeedSettings(m))
    ensures UseSettings.Merge(UseSettings.Defaults, r) == Database.SeedSettings(m) - {ProtoKey}
  {
    var shown := Database.SeedSettings(m) - {ProtoKey};
    FetchedSettingsMatchStore(r, Database.SeedSettings(m));
    SeededHasDefaultKeys(m);
    UseSettings.DefaultsShape();
    UseSettings.ProtoNotDefault();
    assert UseSettings.Defaults.Keys <= shown.Keys;
    OverlayCovers(UseSettings.Defaults, shown);
  }

  /** A package added in the console is stored as a new row, and reading
      that row back gives the draft with the features parsed from the text
      and the new id. */
  lemma AddedPackageReadBack(draft: Package, text: string, t: map<int, Database.PackageRow>, newId: int)
    requires draft.id.None? && newId !in t
    ensures var body := draft.(features := Admin.ParseFeatures(text));
      var t' := Handlers.Saved(t, body, newId);
      && newId in t' && t'.Keys == t.Keys + {newId}
      && Handlers.ToPackage(newId, t'[newId]) == draft.(id := Some(newId), features := Admin.ParseFeatures(text))
  {
    var body := draft.(features := Admin.ParseFeatures(text));
    Handlers.SavedSpec(t, body, newId);
    Handlers.RowRoundTrip(newId, body);
  }
}
