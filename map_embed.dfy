/** The admin console's map-embed field (Admin.tsx): the pasted text is
    either a whole `<iframe ...>` snippet or a bare URL. The three regular
    expressions involved are modelled as scanners for the first position
    where each one matches. */
module MapEmbed {
  import opened Opt
  import opened Text

  const SrcOpen: string := "src=\""
  const EmbedMarker: string := "google.com/maps/embed"
  const LongTag: string := "!2d"
  const LatTag: string := "!3d"
  const SearchPrefix: string := "https://www.google.com/maps/search/?api=1&query="
  const EmbedKey: string := "map_embed_url"
  const DirectKey: string := "map_direct_url"

  /* ---------- /src="([^"]+)"/ ---------- */

  /** `/src="([^"]+)"/` matches at `i`: the opener is there and the next
      quote after it closes a non-empty run. */
  predicate SrcMatchAt(s: string, i: nat) {
    && OccursAt(s, SrcOpen, i)
    && var close := IndexOf(s, "\"", i + |SrcOpen|);
       close.Some? && close.value > i + |SrcOpen|
  }

  /** The leftmost position at or after `from` where the pattern matches. */
  function FirstSrc(s: string, from: nat): (r: Option<nat>)
    ensures r.Some? ==> from <= r.value && SrcMatchAt(s, r.value)
    ensures forall k :: from <= k && (r.None? || k < r.value) ==> !SrcMatchAt(s, k)
    decreases |s| - from
  {
    if from >= |s| then None
    else if SrcMatchAt(s, from) then Some(from)
    else FirstSrc(s, from + 1)
  }

  /** `srcMatch[1]`. */
  function SrcCapture(s: string): (r: Option<string>)
  {
    match FirstSrc(s, 0)
    case None => None
    case Some(i) =>
      var close := IndexOf(s, "\"", i + |SrcOpen|);
      if close.Some? && close.value > i + |SrcOpen| then Some(s[i + |SrcOpen|..close.value])
      else None
  }

  /** The capture is the quote-free, non-empty text between `src="` and the
      next quote, taken at the leftmost place where that text is non-empty;
      there is no capture exactly when no such place exists. */
  lemma SrcCaptureSpec(s: string)
    ensures SrcCapture(s).Some? <==> exists i: nat :: SrcMatchAt(s, i)
    ensures SrcCapture(s).Some? ==>
      var x := SrcCapture(s).value;
      && x != [] && '"' !in x
      && exists i: nat :: OccursAt(s, SrcOpen + x + "\"", i) && forall k: nat :: k < i ==> !SrcMatchAt(s, k)
  {
    match FirstSrc(s, 0)
    case None =>
    case Some(i) =>
      var close := IndexOf(s, "\"", i + |SrcOpen|);
      var x := s[i + |SrcOpen|..close.value];
      forall m | 0 <= m < |x| ensures x[m] != '"' {
        assert !OccursAt(s, "\"", i + |SrcOpen| + m);
      }
      assert OccursAt(s, "\"", close.value);
      assert s[i..i + |SrcOpen + x + "\""|] == SrcOpen + x + "\"" by {
        assert s[i..i + |SrcOpen|] == SrcOpen;
        assert s[i..close.value + 1] == s[i..i + |SrcOpen|] + x + s[close.value..close.value + 1];
      }
      assert OccursAt(s, SrcOpen + x + "\"", i);
  }

  /** `embedUrl`: the capture if there is one, otherwise the whole input. */
  function EmbedUrl(input: string): (r: string)
    ensures SrcCapture(input).None? ==> r == input
    ensures SrcCapture(input).Some? ==> r == SrcCapture(input).value
  {
    match SrcCapture(input)
    case Some(x) => x
    case None => input
  }

  /* ---------- /!2d([\d\.]+)/ and /!3d([\d\.-]+)/ ---------- */

  predicate IsDigit(c: char) {
    '0' <= c <= '9'
  }

  /** The capture's character class: digits and `.`, and `-` too when
      `minus` holds (the latitude pattern only). */
  predicate InClass(c: char, minus: bool) {
    IsDigit(c) || c == '.' || (minus && c == '-')
  }

  /** The end of the longest run of class characters starting at `k`. */
  function RunEnd(s: string, k: nat, minus: bool): (j: nat)
    requires k <= |s|
    ensures k <= j <= |s|
    ensures forall m :: k <= m < j ==> InClass(s[m], minus)
    ensures j < |s| ==> !InClass(s[j], minus)
    decreases |s| - k
  {
    if k < |s| && InClass(s[k], minus) then RunEnd(s, k + 1, minus) else k
  }

  /** `tag` followed by at least one class character matches at `i`. */
  predicate TagMatchAt(s: string, tag: string, minus: bool, i: nat) {
    OccursAt(s, tag, i) && i + |tag| < |s| && InClass(s[i + |tag|], minus)
  }

  function FirstTag(s: string, tag: string, minus: bool, from: nat): (r: Option<nat>)
    ensures r.Some? ==> from <= r.value && TagMatchAt(s, tag, minus, r.value)
    ensures forall k :: from <= k && (r.None? || k < r.value) ==> !TagMatchAt(s, tag, minus, k)
    decreases |s| - from
  {
    if from >= |s| then None
    else if TagMatchAt(s, tag, minus, from) then Some(from)
    else FirstTag(s, tag, minus, from + 1)
  }

  /** Group 1 of the tag pattern: the greedy run of class characters after
      the leftmost tag that one follows. */
  function TagCapture(s: string, tag: string, minus: bool): (r: Option<string>)
  {
    match FirstTag(s, tag, minus, 0)
    case None => None
    case Some(i) => Some(s[i + |tag|..RunEnd(s, i + |tag|, minus)])
  }

  /** `x` is what the pattern captures when its leftmost match is at `i`:
      it follows the tag there and is followed by no class character. */
  predicate CapturedAt(s: string, tag: string, minus: bool, i: nat, x: string) {
    && TagMatchAt(s, tag, minus, i)
    && (forall k: nat :: k < i ==> !TagMatchAt(s, tag, minus, k))
    && OccursAt(s, tag + x, i)
    && (i + |tag| + |x| < |s| ==> !InClass(s[i + |tag| + |x|], minus))
  }

  /** There is a capture exactly when the pattern matches somewhere; it is
      non-empty, made of class characters, follows the leftmost matching
      tag, and is followed by no further class character. */
  lemma TagCaptureSpec(s: string, tag: string, minus: bool)
    ensures TagCapture(s, tag, minus).Some? <==> exists i: nat :: TagMatchAt(s, tag, minus, i)
    ensures TagCapture(s, tag, minus).Some? ==>
      var x := TagCapture(s, tag, minus).value;
      && x != [] && (forall m :: 0 <= m < |x| ==> InClass(x[m], minus))
      && exists i: nat :: CapturedAt(s, tag, minus, i, x)
  {
    match FirstTag(s, tag, minus, 0)
    case None =>
    case Some(i) =>
      CaptureAtFirst(s, tag, minus, i);
  }

  /** The run after the leftmost matching tag is a capture there. */
  lemma CaptureAtFirst(s: string, tag: string, minus: bool, i: nat)
    requires TagMatchAt(s, tag, minus, i)
    requires forall k: nat :: k < i ==> !TagMatchAt(s, tag, minus, k)
    ensures var x := s[i + |tag|..RunEnd(s, i + |tag|, minus)];
      && x != [] && (forall m :: 0 <= m < |x| ==> InClass(x[m], minus))
      && CapturedAt(s, tag, minus, i, x)
  {
    var j := RunEnd(s, i + |tag|, minus);
    var x := s[i + |tag|..j];
    forall m | 0 <= m < |x| ensures InClass(x[m], minus) {
      assert x[m] == s[i + |tag| + m];
    }
    assert i + |tag| + |x| == j;
    assert OccursAt(s, tag + x, i) by {
      assert s[i..i + |tag|] == tag;
      SliceSplit(s, i, i + |tag|, j);
    }
  }

  lemma SliceSplit(s: string, a: nat, b: nat, c: nat)
    requires a <= b <= c <= |s|
    ensures s[a..c] == s[a..b] + s[b..c]
  {
  }

  /** The latitude and longitude captures. */
  function Latitude(url: string): Option<string> {
    TagCapture(url, LatTag, true)
  }

  function Longitude(url: string): Option<string> {
    TagCapture(url, LongTag, false)
  }

  /** A longitude pattern never captures where a tag is followed by `-`:
      when every `!2d` in the URL carries a minus sign (a place west of
      Greenwich), there is no longitude and hence no direct link. */
  lemma NegativeLongitude(url: string)
    requires forall i: nat :: OccursAt(url, LongTag, i) ==> i + 3 < |url| && url[i + 3] == '-'
    ensures Longitude(url).None?
  {
  }

  /* ---------- the `onChange` handler ---------- */

  /** The direct link built from the two captures. */
  function DirectLink(lat: string, long: string): string {
    SearchPrefix + lat + "," + long
  }

  /** The settings after the map-embed field changes to `input`. */
  function ApplyMapInput(settings: map<string, string>, input: string): map<string, string>
  {
    var url := EmbedUrl(input);
    if !Includes(url, EmbedMarker) then settings
    else
      match (Latitude(url), Longitude(url))
      case (Some(lat), Some(long)) => settings[DirectKey := DirectLink(lat, long)][EmbedKey := url]
      case _ => settings[EmbedKey := url]
  }

  /** Only the two map keys can change. Without the embed marker nothing
      changes; with it the embed key is the URL, and the direct key becomes
      the search link exactly when both coordinates are captured,
      otherwise it keeps its previous value (or stays absent). */
  lemma ApplyMapInputSpec(settings: map<string, string>, input: string)
    ensures var r := ApplyMapInput(settings, input);
      forall k :: k != EmbedKey && k != DirectKey ==> (k in r <==> k in settings) && (k in r ==> r[k] == settings[k])
    ensures !Includes(EmbedUrl(input), EmbedMarker) ==> ApplyMapInput(settings, input) == settings
    ensures Includes(EmbedUrl(input), EmbedMarker) ==>
      var r := ApplyMapInput(settings, input);
      var url := EmbedUrl(input);
      && EmbedKey in r && r[EmbedKey] == url
      && (Latitude(url).Some? && Longitude(url).Some? ==>
            DirectKey in r && r[DirectKey] == SearchPrefix + Latitude(url).value + "," + Longitude(url).value)
      && (Latitude(url).None? || Longitude(url).None? ==>
            (DirectKey in r <==> DirectKey in settings) && (DirectKey in r ==> r[DirectKey] == settings[DirectKey]))
  {
  }
}
