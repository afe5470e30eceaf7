/** The public pages' settings hook (useSettings.ts): eight built-in
    values, overlaid with whatever the settings endpoint returns. */
module UseSettings {
  import opened Opt
  import opened Records
  import opened SettingsFold

  /** The values shown before (or without) a response. */
  const Defaults: map<string, string> := map[
    "site_title" := "UNNET",
    "whatsapp_number" := "6285233053443",
    "address" := "Jawa Timur & Sekitarnya",
    "map_embed_url" := "",
    "map_direct_url" := "",
    "email" := "info@unnet.id",
    "work_hours" := "Senin - Sabtu: 08:00 - 20:00",
    "tagline" := "Teknisi Cepat Tanggap"
  ]

  /** The eight keys of the built-in settings. */
  const DefaultKeys: set<string> := {
    "site_title", "whatsapp_number", "address", "map_embed_url",
    "map_direct_url", "email", "work_hours", "tagline"
  }

  /** There are eight defaults, the two map links among them empty. */
  lemma DefaultsShape()
    ensures Defaults.Keys == DefaultKeys && |Defaults| == 8
    ensures Defaults["map_embed_url"] == "" && Defaults["map_direct_url"] == ""
    ensures Defaults["site_title"] == "UNNET"
  {
    assert Defaults.Keys == DefaultKeys;
  }

  /** `__proto__` is not one of the built-in keys: it has nine characters,
      and no built-in key has. */
  lemma ProtoNotDefault()
    ensures ProtoKey !in DefaultKeys
  {
    assert |ProtoKey| == 9;
    assert forall k | k in DefaultKeys :: |k| != 9;
  }

  /** `{...prev, ...newSettings}` where `newSettings` is the response folded
      into a fresh object. */
  function Merge(prev: map<string, string>, data: seq<Setting>): map<string, string>
  {
    prev + Fold(map[], data)
  }

  /** The merged settings hold the previous keys and the fetched keys other
      than `__proto__`; a fetched key takes the value of its last
      occurrence, whether or not it is one of the defaults; a previous key
      the response does not mention keeps its value. */
  lemma MergeSpec(prev: map<string, string>, data: seq<Setting>)
    ensures forall k :: k in Merge(prev, data) <==> k in prev || (k in Keys(data) && k != ProtoKey)
    ensures forall i :: 0 <= i < |data| && LastFor(data, i) && data[i].key != ProtoKey ==>
              data[i].key in Merge(prev, data) && Merge(prev, data)[data[i].key] == data[i].value
    ensures forall k :: k in prev && (k !in Keys(data) || k == ProtoKey) ==> Merge(prev, data)[k] == prev[k]
  {
    SpreadIsFold(prev, data);
    FoldSpec(prev, data);
  }

  /** Merged into the defaults: all eight keys stay present, keys outside
      the defaults come through from the response, and `__proto__` never
      does. */
  lemma MergeDefaults(data: seq<Setting>)
    ensures DefaultKeys <= Merge(Defaults, data).Keys
    ensures forall k :: k in Keys(data) && k !in DefaultKeys && k != ProtoKey ==> k in Merge(Defaults, data)
    ensures forall k :: k in Merge(Defaults, data) && k !in DefaultKeys ==> k in Keys(data)
    ensures ProtoKey !in Merge(Defaults, data)
  {
    DefaultsShape();
    ProtoNotDefault();
    MergeSpec(Defaults, data);
  }

  /** The hook's state. */
  class SettingsHook {
    var settings: map<string, string>
    var loading: bool

    /** Mounting: the defaults, and the request under way. */
    constructor ()
      ensures settings == Defaults && loading
    {
      settings := Defaults;
      loading := true;
    }

    /** The request finished: `Some(data)` is a parsed response, `None` a
        failed request or an unreadable body. Loading ends either way; on
        failure the settings are kept. */
    method Complete(outcome: Option<seq<Setting>>)
      modifies this
      ensures !loading
      ensures outcome.Some? ==> settings == Merge(old(settings), outcome.value)
      ensures outcome.None? ==> settings == old(settings)
    {
      match outcome {
        case Some(data) =>
          var fetched := FoldLoop(map[], data);
          settings := settings + fetched;
        case None =>
      }
      loading := false;
    }
  }
}
