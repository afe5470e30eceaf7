/** The value shapes shared by the backend tables and the frontend pages:
    a setting is a key/value pair of strings, a package has an optional
    server-assigned id, three display strings and an ordered feature list. */
module Records {

  import opened Opt

  /** One row of the settings table; the same `{key, value}` object the
      settings endpoint sends and receives. */
  datatype Setting = Setting(key: string, value: string)

  /** A service package. `id` is absent for a package that has not been
      stored yet (the admin draft, the body of a create request). */
  datatype Package = Package(id: Option<int>, name: string, speed: string, price: string, features: seq<string>)

  /** The keys of a settings list, in order. */
  function Keys(data: seq<Setting>): (r: seq<string>)
    ensures |r| == |data|
    ensures forall i :: 0 <= i < |data| ==> r[i] == data[i].key
  {
    seq(|data|, i requires 0 <= i < |data| => data[i].key)
  }

  /** No key occurs twice in a settings list. */
  predicate DistinctKeys(data: seq<Setting>) {
    forall i, j :: 0 <= i < j < |data| ==> data[i].key != data[j].key
  }

  /** `settings[key]`, with `undefined` as `None`. */
  function Lookup(settings: map<string, string>, key: string): (r: Option<string>)
    ensures r.Some? <==> key in settings
    ensures r.Some? ==> r.value == settings[key]
  {
    if key in settings then Some(settings[key]) else None
  }
}
