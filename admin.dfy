/** The admin console (Admin.tsx): a password gate in front of the site
    settings, the map-embed field and the package list. Requests to the
    backend are not modelled; each handler takes the outcome of its request
    as a parameter (`posted`: the `fetch` promise resolved) and returns the
    request it sends. */
module Admin {
  import opened Opt
  import opened Records
  import opened Text
  import opened SettingsFold
  import MapEmbed

  const AdminPassword: string := "admin123"

  /** The empty package draft. */
  const EmptyDraft: Package := Package(None, "", "", "", [])

  /* ---------- features text ---------- */

  /** The trimmed pieces that are not empty, in order. */
  function NonEmptyTrimmed(pieces: seq<string>): seq<string>
  {
    if pieces == [] then []
    else
      var t := Trim(pieces[0]);
      if t == [] then NonEmptyTrimmed(pieces[1..]) else [t] + NonEmptyTrimmed(pieces[1..])
  }

  /** `featuresInput.split(',').map(s => s.trim()).filter(s => s)`. */
  function ParseFeatures(text: string): seq<string>
  {
    NonEmptyTrimmed(Split(text, ','))
  }

  /** A clean feature: not empty, no comma, no white space at either end. */
  predicate CleanFeature(f: string) {
    f != [] && ',' !in f && !IsJsSpace(f[0]) && !IsJsSpace(f[|f| - 1])
  }

  /** Trimming a piece without a comma gives nothing or a clean feature. */
  lemma TrimPieceClean(p: string)
    requires ',' !in p
    ensures Trim(p) == [] || CleanFeature(Trim(p))
  {
    var t := Trim(p);
    TrimSpec(p);
    var i, j :| 0 <= i <= j <= |p| && t == p[i..j];
    forall m | 0 <= m < |t| ensures t[m] != ',' {
      assert t[m] == p[i + m];
    }
  }

  lemma {:induction false} NonEmptyTrimmedClean(pieces: seq<string>)
    requires forall k :: 0 <= k < |pieces| ==> ',' !in pieces[k]
    ensures forall k :: 0 <= k < |NonEmptyTrimmed(pieces)| ==> CleanFeature(NonEmptyTrimmed(pieces)[k])
  {
    if pieces != [] {
      NonEmptyTrimmedClean(pieces[1..]);
      TrimPieceClean(pieces[0]);
    }
  }

  /** Every parsed feature is clean: the pieces are trimmed, the empty ones
      are dropped, and a piece of a split never holds the separator. */
  lemma ParseFeaturesClean(text: string)
    ensures forall k :: 0 <= k < |ParseFeatures(text)| ==> CleanFeature(ParseFeatures(text)[k])
  {
    NonEmptyTrimmedClean(Split(text, ','));
  }

  lemma {:induction false} NonEmptyTrimmedAppend(p: seq<string>, q: seq<string>)
    ensures NonEmptyTrimmed(p + q) == NonEmptyTrimmed(p) + NonEmptyTrimmed(q)
  {
    if p != [] {
      assert (p + q)[0] == p[0];
      assert (p + q)[1..] == p[1..] + q;
      NonEmptyTrimmedAppend(p[1..], q);
    } else {
      assert p + q == q;
    }
  }

  /** Text with no comma gives its trimmed self as the one feature, or no
      feature when that is empty. */
  lemma ParsePiece(text: string)
    requires ',' !in text
    ensures ParseFeatures(text) == if Trim(text) == [] then [] else [Trim(text)]
  {
    SplitJoin([text], ',');
    assert Split(text, ',') == [text];
    assert NonEmptyTrimmed([text])
        == (if Trim(text) == [] then [] else [Trim(text)]) + NonEmptyTrimmed([text][1..]);
  }

  /** The features keep the order of the text: the features of the text
      before a comma come first, then those after it. */
  lemma ParseFeaturesAppend(a: string, b: string)
    ensures ParseFeatures(a + "," + b) == ParseFeatures(a) + ParseFeatures(b)
  {
    SplitAppend(a, b, ',');
    NonEmptyTrimmedAppend(Split(a, ','), Split(b, ','));
  }

  /** Empty or blank text gives no features. */
  lemma BlankFeatures(text: string)
    requires AllSpace(text)
    ensures ParseFeatures(text) == []
  {
    assert ',' !in text by {
      forall m | 0 <= m < |text| ensures text[m] != ',' {
        assert IsJsSpace(text[m]);
      }
    }
    SplitJoin([text], ',');
    assert Split(text, ',') == [text];
    TrimAllSpace(text);
    assert NonEmptyTrimmed([text]) == NonEmptyTrimmed([]);
  }

  lemma {:induction false} NonEmptyTrimmedKeepsClean(items: seq<string>)
    requires forall k :: 0 <= k < |items| ==> CleanFeature(items[k])
    ensures NonEmptyTrimmed(items) == items
  {
    if items != [] {
      TrimFixed(items[0]);
      NonEmptyTrimmedKeepsClean(items[1..]);
    }
  }

  /** Clean features typed in with commas between them are read back as
      they were. */
  lemma ParseJoined(items: seq<string>)
    requires |items| >= 1
    requires forall k :: 0 <= k < |items| ==> CleanFeature(items[k])
    ensures ParseFeatures(Join(items, ',')) == items
  {
    SplitJoin(items, ',');
    NonEmptyTrimmedKeepsClean(items);
  }

  /* ---------- requests ---------- */

  /** The body of a settings POST. `value` is absent when the field was
      never loaded (`undefined`, which `JSON.stringify` drops). */
  datatype SettingBody = SettingBody(key: string, value: Option<string>)

  /** A field of the package draft. */
  datatype DraftField = Name | Speed | Price

  /** `{...prev, [key]: value}`; writing `undefined` leaves the key unset. */
  function Write(settings: map<string, string>, key: string, value: Option<string>): map<string, string>
  {
    match value
    case Some(v) => settings[key := v]
    case None => settings - {key}
  }

  /** A resolved save sets its key to the value it carried, unset for
      `undefined`, and leaves every other key of the settings current at
      the resolution as it is. */
  lemma ResolveSpec(now: map<string, string>, body: SettingBody)
    ensures body.key in Write(now, body.key, body.value) <==> body.value.Some?
    ensures body.value.Some? ==> Write(now, body.key, body.value)[body.key] == body.value.value
    ensures forall k :: k != body.key ==> (k in Write(now, body.key, body.value) <==> k in now)
    ensures forall k :: k != body.key && k in now ==> Write(now, body.key, body.value)[k] == now[k]
  {
  }

  /** Writing a key's own current value back changes nothing. */
  lemma WriteBack(settings: map<string, string>, key: string)
    ensures Write(settings, key, Lookup(settings, key)) == settings
  {
    if key !in settings {
      assert settings - {key} == settings;
    }
  }

  /** What is typed into a field while its save is in flight is lost: the
      resolution writes the value captured at the click over it. */
  lemma ResolveOverwritesEdit(m: map<string, string>, key: string, typed: string, v: Option<string>)
    ensures Write(m[key := typed], key, v) == Write(m, key, v)
  {
    match v {
      case Some(x) =>
      case None => assert m[key := typed] - {key} == m - {key};
    }
  }

  /** Saves of two different keys resolve to the same settings in either
      order; two saves of the same key leave the later one's value. */
  lemma ResolvesCommute(m: map<string, string>, a: SettingBody, b: SettingBody)
    ensures a.key != b.key ==>
      Write(Write(m, a.key, a.value), b.key, b.value) == Write(Write(m, b.key, b.value), a.key, a.value)
    ensures a.key == b.key ==>
      Write(Write(m, a.key, a.value), b.key, b.value) == Write(m, b.key, b.value)
  {
    if a.key != b.key {
      var l := Write(Write(m, a.key, a.value), b.key, b.value);
      var r := Write(Write(m, b.key, b.value), a.key, a.value);
      ResolveSpec(m, a);
      ResolveSpec(m, b);
      ResolveSpec(Write(m, a.key, a.value), b);
      ResolveSpec(Write(m, b.key, b.value), a);
      assert l.Keys == r.Keys;
    } else {
      match a.value {
        case Some(x) => ResolveOverwritesEdit(m, a.key, x, b.value);
        case None =>
          match b.value {
            case Some(y) =>
            case None => assert m - {a.key} - {a.key} == m - {a.key};
          }
      }
    }
  }

  /** The map save button with nothing typed before its two requests
      resolve: in either order, the settings end as they were at the
      click. */
  lemma MapPairResolvesIdle(m: map<string, string>)
    ensures var e := SettingBody(MapEmbed.EmbedKey, Lookup(m, MapEmbed.EmbedKey));
      var d := SettingBody(MapEmbed.DirectKey, Lookup(m, MapEmbed.DirectKey));
      && Write(Write(m, e.key, e.value), d.key, d.value) == m
      && Write(Write(m, d.key, d.value), e.key, e.value) == m
  {
    WriteBack(m, MapEmbed.EmbedKey);
    WriteBack(m, MapEmbed.DirectKey);
  }

  /** The id the trash button passes on: `pkg.id && handleDeletePackage(pkg.id)`
      only calls the handler for a truthy id. */
  function DeleteTarget(pkg: Package): (r: Option<int>)
    ensures r.Some? <==> pkg.id.Some? && pkg.id.value != 0
    ensures r.Some? ==> r == pkg.id
  {
    match pkg.id
    case Some(id) => if id != 0 then Some(id) else None
    case None => None
  }

  /** The console's state. `settings` holds only keys with a defined value;
      `pending` holds the bodies of the settings POSTs sent and not yet
      settled, each of which, on resolving, writes the value it carries. */
  class AdminConsole {
    var authenticated: bool
    var loading: bool
    var settings: map<string, string>
    var packages: seq<Package>
    var draft: Package
    var featuresInput: string
    var pending: seq<SettingBody>

    /** The draft never carries an id, so an added package is always a
        new row. */
    ghost predicate Valid()
      reads this
    {
      draft.id.None?
    }

    constructor ()
      ensures Valid()
      ensures !authenticated && !loading
      ensures settings == map[] && packages == [] && draft == EmptyDraft && featuresInput == ""
      ensures pending == []
    {
      authenticated := false;
      loading := false;
      settings := map[];
      packages := [];
      draft := EmptyDraft;
      featuresInput := "";
      pending := [];
    }

    /** `handleLogin`: the right password signs in; any other leaves every
        field as it was. `fetch` says whether the sign-in starts a load (the
        effect runs when the flag turns true). */
    method Login(password: string) returns (fetch: bool)
      modifies this
      ensures authenticated == (old(authenticated) || password == AdminPassword)
      ensures fetch <==> !old(authenticated) && password == AdminPassword
      ensures loading == old(loading) && settings == old(settings) && packages == old(packages)
      ensures draft == old(draft) && featuresInput == old(featuresInput) && pending == old(pending)
    {
      fetch := false;
      if password == AdminPassword {
        fetch := !authenticated;
        authenticated := true;
      }
    }

    /** The logout button clears the flag and nothing else. */
    method Logout()
      modifies this
      ensures !authenticated
      ensures loading == old(loading) && settings == old(settings) && packages == old(packages)
      ensures draft == old(draft) && featuresInput == old(featuresInput) && pending == old(pending)
    {
      authenticated := false;
    }

    /** `fetchData` up to its first `await`. */
    method StartFetch()
      modifies this
      ensures loading
      ensures authenticated == old(authenticated) && settings == old(settings) && packages == old(packages)
      ensures draft == old(draft) && featuresInput == old(featuresInput) && pending == old(pending)
    {
      loading := true;
    }

    /** The rest of `fetchData`: with both responses the settings are
        rebuilt from the list alone and the packages replaced; on any
        failure both stay as they were. Loading ends either way. */
    method FinishFetch(response: Option<(seq<Setting>, seq<Package>)>)
      modifies this
      ensures !loading
      ensures response.Some? ==> settings == Fold(map[], response.value.0) && packages == response.value.1
      ensures response.None? ==> settings == old(settings) && packages == old(packages)
      ensures authenticated == old(authenticated) && draft == old(draft) && featuresInput == old(featuresInput)
      ensures pending == old(pending)
    {
      match response {
        case Some(lists) =>
          var m := FoldLoop(map[], lists.0);
          settings := m;
          packages := lists.1;
        case None =>
      }
      loading := false;
    }

    /** Typing into a settings field. */
    method EditSetting(key: string, value: string)
      modifies this
      ensures settings == old(settings)[key := value]
      ensures authenticated == old(authenticated) && loading == old(loading) && packages == old(packages)
      ensures draft == old(draft) && featuresInput == old(featuresInput) && pending == old(pending)
    {
      settings := settings[key := value];
    }

    /** `handleUpdateSetting(key, value)` up to its `await`: the body is
        sent and joins the requests in flight; nothing else changes until
        the request settles. */
    method UpdateSetting(key: string, value: Option<string>) returns (body: SettingBody)
      modifies this
      ensures body == SettingBody(key, value)
      ensures pending == old(pending) + [body]
      ensures settings == old(settings)
      ensures authenticated == old(authenticated) && loading == old(loading) && packages == old(packages)
      ensures draft == old(draft) && featuresInput == old(featuresInput)
    {
      body := SettingBody(key, value);
      pending := pending + [body];
    }

    /** The rest of `handleUpdateSetting` once the `i`-th request in flight
        resolved: its captured value is written into the settings as they
        are now, whatever was typed since the click. */
    method SettingSaved(i: nat)
      requires i < |pending|
      modifies this
      ensures settings == Write(old(settings), old(pending)[i].key, old(pending)[i].value)
      ensures pending == old(pending)[..i] + old(pending)[i + 1..]
      ensures authenticated == old(authenticated) && loading == old(loading) && packages == old(packages)
      ensures draft == old(draft) && featuresInput == old(featuresInput)
    {
      var body := pending[i];
      match body.value {
        case Some(v) => settings := settings[body.key := v];
        case None => settings := settings - {body.key};
      }
      pending := pending[..i] + pending[i + 1..];
    }

    /** The `i`-th request in flight threw: it is dropped and the settings
        are left alone. */
    method SettingFailed(i: nat)
      requires i < |pending|
      modifies this
      ensures pending == old(pending)[..i] + old(pending)[i + 1..]
      ensures settings == old(settings)
      ensures authenticated == old(authenticated) && loading == old(loading) && packages == old(packages)
      ensures draft == old(draft) && featuresInput == old(featuresInput)
    {
      pending := pending[..i] + pending[i + 1..];
    }

    /** A field's save button: `handleUpdateSetting(key, settings[key])`,
        sending the value the field holds at the click. */
    method SaveField(key: string) returns (body: SettingBody)
      modifies this
      ensures body == SettingBody(key, Lookup(old(settings), key))
      ensures pending == old(pending) + [body]
      ensures settings == old(settings)
      ensures authenticated == old(authenticated) && loading == old(loading) && packages == old(packages)
      ensures draft == old(draft) && featuresInput == old(featuresInput)
    {
      body := UpdateSetting(key, Lookup(settings, key));
    }

    /** The map save button: two saves started together, the embed URL and
        then the direct link, both read from the settings at the click;
        the two requests are in flight at once and settle in any order. */
    method SaveMapPair() returns (embed: SettingBody, direct: SettingBody)
      modifies this
      ensures embed == SettingBody(MapEmbed.EmbedKey, Lookup(old(settings), MapEmbed.EmbedKey))
      ensures direct == SettingBody(MapEmbed.DirectKey, Lookup(old(settings), MapEmbed.DirectKey))
      ensures pending == old(pending) + [embed, direct]
      ensures settings == old(settings)
      ensures authenticated == old(authenticated) && loading == old(loading) && packages == old(packages)
      ensures draft == old(draft) && featuresInput == old(featuresInput)
    {
      embed := SaveField(MapEmbed.EmbedKey);
      direct := SaveField(MapEmbed.DirectKey);
    }

    /** The map-embed field's `onChange`. */
    method MapEmbedChanged(input: string)
      modifies this
      ensures settings == MapEmbed.ApplyMapInput(old(settings), input)
      ensures authenticated == old(authenticated) && loading == old(loading) && packages == old(packages)
      ensures draft == old(draft) && featuresInput == old(featuresInput) && pending == old(pending)
    {
      settings := MapEmbed.ApplyMapInput(settings, input);
    }

    /** Typing into one of the draft's text fields. */
    method EditDraft(field: DraftField, value: string)
      requires Valid()
      modifies this
      ensures Valid()
      ensures draft == match field
        case Name => old(draft).(name := value)
        case Speed => old(draft).(speed := value)
        case Price => old(draft).(price := value)
      ensures authenticated == old(authenticated) && loading == old(loading) && settings == old(settings)
      ensures packages == old(packages) && featuresInput == old(featuresInput) && pending == old(pending)
    {
      match field {
        case Name => draft := draft.(name := value);
        case Speed => draft := draft.(speed := value);
        case Price => draft := draft.(price := value);
      }
    }

    /** Typing into the features text area. */
    method EditFeaturesInput(text: string)
      modifies this
      ensures featuresInput == text
      ensures authenticated == old(authenticated) && loading == old(loading) && settings == old(settings)
      ensures packages == old(packages) && draft == old(draft) && pending == old(pending)
    {
      featuresInput := text;
    }

    /** `handleAddPackage` up to its `await`: the draft with its features
        parsed from the text is sent as it is, with no check of its fields,
        and nothing changes yet. */
    method AddPackage() returns (body: Package)
      requires Valid()
      ensures body == draft.(features := ParseFeatures(featuresInput)) && body.id.None?
    {
      body := draft.(features := ParseFeatures(featuresInput));
    }

    /** The rest of `handleAddPackage` once the POST resolved: the draft and
        the text are reset, whatever was typed while the request was in
        flight, and `fetchData` starts a reload. A thrown request takes no
        step. */
    method PackageAdded()
      requires Valid()
      modifies this
      ensures Valid()
      ensures draft == EmptyDraft && featuresInput == "" && loading
      ensures authenticated == old(authenticated) && settings == old(settings)
      ensures packages == old(packages) && pending == old(pending)
    {
      draft := EmptyDraft;
      featuresInput := "";
      StartFetch();
    }

    /** The trash button of `pkg` and `handleDeletePackage` up to its
        `await`: a falsy id or a declined confirmation sends nothing;
        otherwise the delete of that id is sent. A resolved delete goes on
        to `fetchData` (`StartFetch`); the list itself only changes through
        that reload. */
    method DeletePackage(pkg: Package, confirmed: bool) returns (request: Option<int>)
      ensures request.Some? <==> confirmed && pkg.id.Some? && pkg.id.value != 0
      ensures request.Some? ==> request == pkg.id
    {
      request := None;
      var target := DeleteTarget(pkg);
      if target.Some? && confirmed {
        request := target;
      }
    }
  }

  /** After a load the settings hold exactly the keys of the response,
      less `__proto__`, each with the value of its last occurrence. */
  lemma FetchRebuilds(data: seq<Setting>)
    ensures forall k :: k in Fold(map[], data) <==> k in Keys(data) && k != ProtoKey
    ensures forall i :: 0 <= i < |data| && LastFor(data, i) && data[i].key != ProtoKey ==>
              Fold(map[], data)[data[i].key] == data[i].value
  {
    FoldSpec(map[], data);
  }
}
