/** Turning a fetched `{key, value}` list into a settings object: both the
    admin page (Admin.tsx) and the settings hook (useSettings.ts) run
    `data.forEach(s => m[s.key] = s.value)` over a fresh object. */
module SettingsFold {
  import opened Records

  /** The one key a plain object does not take by assignment: `m["__proto__"]
      = v` runs the prototype setter, which ignores a string, so no own
      property is created. */
  const ProtoKey: string := "__proto__"

  /** `m[s.key] = s.value` on a plain object. */
  function Assign(m: map<string, string>, s: Setting): map<string, string>
  {
    if s.key == ProtoKey then m else m[s.key := s.value]
  }

  /** `k` is the key of no entry after position `i`: entry `i` is the last
      one for its key. */
  predicate LastFor(data: seq<Setting>, i: nat)
    requires i < |data|
  {
    forall j :: i < j < |data| ==> data[j].key != data[i].key
  }

  /** The object the loop leaves when it starts from `start`: the entries
      written one after the other, in list order. */
  function Fold(start: map<string, string>, data: seq<Setting>): map<string, string>
    decreases |data|
  {
    if data == [] then start
    else Assign(Fold(start, data[..|data| - 1]), data[|data| - 1])
  }

  /** What the fold contains: exactly the starting keys and the listed
      keys other than `__proto__`; the last entry for a key wins; keys that
      no entry names, and `__proto__`, keep their starting value. */
  lemma {:induction false} FoldSpec(start: map<string, string>, data: seq<Setting>)
    ensures forall k :: k in Fold(start, data) <==> k in start || (k in Keys(data) && k != ProtoKey)
    ensures forall i :: 0 <= i < |data| && LastFor(data, i) && data[i].key != ProtoKey ==>
              data[i].key in Fold(start, data) && Fold(start, data)[data[i].key] == data[i].value
    ensures forall k :: k in start && (k !in Keys(data) || k == ProtoKey) ==> Fold(start, data)[k] == start[k]
    decreases |data|
  {
    if data != [] {
      var init := data[..|data| - 1];
      var last := data[|data| - 1];
      FoldSpec(start, init);
      assert Keys(data) == Keys(init) + [last.key];
      forall i | 0 <= i < |data| && LastFor(data, i) && data[i].key != ProtoKey
        ensures data[i].key in Fold(start, data) && Fold(start, data)[data[i].key] == data[i].value
      {
        if i < |init| {
          assert LastFor(init, i);
          assert data[i].key != last.key;
        }
      }
    }
  }

  /** The `forEach` loop itself. */
  method FoldLoop(start: map<string, string>, data: seq<Setting>) returns (m: map<string, string>)
    ensures m == Fold(start, data)
  {
    m := start;
    for i := 0 to |data|
      invariant m == Fold(start, data[..i])
    {
      assert data[..i + 1][..i] == data[..i];
      if data[i].key != ProtoKey {
        m := m[data[i].key := data[i].value];
      }
    }
    assert data[..|data|] == data;
  }

  /** Spreading the folded object over `prev` (`{...prev, ...newSettings}`)
      is the same as folding the list straight into `prev`. */
  lemma {:induction false} SpreadIsFold(prev: map<string, string>, data: seq<Setting>)
    ensures prev + Fold(map[], data) == Fold(prev, data)
    decreases |data|
  {
    if data != [] {
      SpreadIsFold(prev, data[..|data| - 1]);
    }
  }

  /** A list without repeated keys folds to the map it lists, whatever the
      order, less a `__proto__` entry: every other entry is found, and every
      key comes from an entry. */
  lemma FoldDistinct(data: seq<Setting>)
    requires DistinctKeys(data)
    ensures forall i :: 0 <= i < |data| && data[i].key != ProtoKey ==>
              data[i].key in Fold(map[], data) && Fold(map[], data)[data[i].key] == data[i].value
    ensures forall k :: k in Fold(map[], data) ==> k != ProtoKey && exists i :: 0 <= i < |data| && data[i].key == k
  {
    var m := Fold(map[], data);
    FoldSpec(map[], data);
    forall i | 0 <= i < |data| && data[i].key != ProtoKey ensures data[i].key in m && m[data[i].key] == data[i].value {
      assert LastFor(data, i);
    }
    forall k | k in m ensures k != ProtoKey && exists i :: 0 <= i < |data| && data[i].key == k {
      assert k in Keys(data);
      var i :| 0 <= i < |data| && Keys(data)[i] == k;
    }
  }
}
