/** The post-processing of app/services/openai_profile_extraction.py: the JSON
    object the model returns is completed with default sections and cleaned
    (entries lower-cased and stripped, blank scalars turned into null), and any
    failure yields the default profile. */
module Extraction {
  import opened Wrappers
  import opened Text

  // ------------------------------------------------------------ raw JSON

  /** A list-valued key: absent, `null`, or a list whose entries are strings or `null`. */
  datatype RawList = MissingList | NullList | Items(items: seq<Option<string>>)

  /** The `confidence_score` value: absent, `null`, or an object (values kept as JSON text). */
  datatype Scores = MissingScores | NullScores | ScoreMap(entries: map<string, string>)

  /** A section key of the top-level object: absent, `null`, or an object. */
  datatype Section<T> = Absent | NullSection | Present(value: T)

  /** The scalar keys hold `None` when absent or `null`. */
  datatype RawScent = RawScent(favorites: RawList, dislikes: RawList, families: RawList, intensity: Option<string>)
  datatype RawStyle = RawStyle(clothingStyle: Option<string>, allStyles: RawList)
  datatype RawTraits = RawTraits(traits: RawList, primaryTrait: Option<string>, confidence: Scores)

  datatype RawProfile = RawProfile(scent: Section<RawScent>, style: Section<RawStyle>, traits: Section<RawTraits>)

  // --------------------------------------------------------- cleaned data

  datatype Scent = Scent(favorites: seq<string>, dislikes: seq<string>, families: seq<string>, intensity: string)
  datatype Style = Style(clothingStyle: Option<string>, allStyles: seq<string>)
  datatype Traits = Traits(traits: seq<string>, primaryTrait: Option<string>, confidence: Scores)
  datatype Profile = Profile(scent: Scent, style: Style, traits: Traits)

  const DefaultIntensity: string := "medium"

  /** `_get_default_scent_preferences` and its siblings, as the JSON they return. */
  const DefaultRawScent: RawScent := RawScent(Items([]), Items([]), Items([]), Some(DefaultIntensity))
  const DefaultRawStyle: RawStyle := RawStyle(None, Items([]))
  const DefaultRawTraits: RawTraits := RawTraits(Items([]), None, ScoreMap(map[]))

  /** `_get_default_profile_data()`. */
  const DefaultProfile: Profile :=
    Profile(Scent([], [], [], DefaultIntensity), Style(None, []), Traits([], None, ScoreMap(map[])))

  // ------------------------------------------------------------- cleaning

  /** `(s or "").lower().strip()`. */
  function CleanItem(s: Option<string>): (r: string)
    ensures IsStripped(r) && Lower(r) == r
  {
    var t := s.GetOr("");
    var c := Strip(Lower(t));
    assert IsStripped(c);
    StripLowerCommute(t);
    LowerIdempotent(Strip(t));
    assert c == Lower(Strip(t));
    c
  }

  /** `[(s or "").lower().strip() for s in d.get(key, [])]`; iterating `null` raises. */
  function CleanList(l: RawList): (r: Result<seq<string>>)
    ensures r.Err? <==> l.NullList?
    ensures l.MissingList? ==> r == Ok([])
    ensures r.Ok? ==> CleanEntries(r.value)
    ensures l.Items? ==> |r.value| == |l.items|
    ensures l.Items? ==> forall i :: 0 <= i < |l.items| ==> r.value[i] == CleanItem(l.items[i])
  {
    match l
    case MissingList => Ok([])
    case NullList => Err("'NoneType' object is not iterable")
    case Items(xs) => Ok(seq(|xs|, i requires 0 <= i < |xs| => CleanItem(xs[i])))
  }

  /** `(d.get("intensity_preference") or "medium").lower()`: lower-cased, not stripped. */
  function CleanIntensity(o: Option<string>): (r: string)
    ensures r != [] && Lower(r) == r
    ensures o.None? || o.value == [] ==> r == DefaultIntensity
    ensures o.Some? && o.value != [] ==> r == Lower(o.value)
  {
    var v := if o.None? || o.value == [] then DefaultIntensity else o.value;
    LowerIdempotent(v);
    Lower(v)
  }

  /** `(d.get(key) or "").lower().strip() or None`. */
  function CleanOptional(o: Option<string>): (r: Option<string>)
    ensures r.None? <==> CleanItem(o) == []
    ensures r.Some? ==> r.value == CleanItem(o)
  {
    var c := CleanItem(o);
    if c == [] then None else Some(c)
  }

  /** `d.get("confidence_score", {})`. */
  function CleanScores(s: Scores): (r: Scores)
    ensures s.MissingScores? ==> r == ScoreMap(map[])
    ensures !s.MissingScores? ==> r == s
  {
    if s.MissingScores? then ScoreMap(map[]) else s
  }

  function CleanScent(s: RawScent): (r: Result<Scent>)
    ensures r.Err? <==> s.favorites.NullList? || s.dislikes.NullList? || s.families.NullList?
    ensures r.Ok? ==> r.value.favorites == CleanList(s.favorites).value
    ensures r.Ok? ==> r.value.dislikes == CleanList(s.dislikes).value
    ensures r.Ok? ==> r.value.families == CleanList(s.families).value
    ensures r.Ok? ==> r.value.intensity == CleanIntensity(s.intensity)
    ensures r.Ok? ==> CleanScentSection(r.value)
  {
    var fav :- CleanList(s.favorites);
    var dis :- CleanList(s.dislikes);
    var fam :- CleanList(s.families);
    Ok(Scent(fav, dis, fam, CleanIntensity(s.intensity)))
  }

  function CleanStyle(s: RawStyle): (r: Result<Style>)
    ensures r.Err? <==> s.allStyles.NullList?
    ensures r.Ok? ==> r.value == Style(CleanOptional(s.clothingStyle), CleanList(s.allStyles).value)
    ensures r.Ok? ==> CleanStyleSection(r.value)
  {
    var all :- CleanList(s.allStyles);
    Ok(Style(CleanOptional(s.clothingStyle), all))
  }

  function CleanTraits(t: RawTraits): (r: Result<Traits>)
    ensures r.Err? <==> t.traits.NullList?
    ensures r.Ok? ==> r.value == Traits(CleanList(t.traits).value, CleanOptional(t.primaryTrait), CleanScores(t.confidence))
    ensures r.Ok? ==> CleanTraitsSection(r.value)
  {
    var traits :- CleanList(t.traits);
    Ok(Traits(traits, CleanOptional(t.primaryTrait), CleanScores(t.confidence)))
  }

  /** A section: an absent one is replaced by its default before cleaning; a
      `null` one raises on `.get`. */
  function Fill<T>(s: Section<T>, default: T): (r: Result<T>)
    ensures r.Err? <==> s.NullSection?
    ensures s.Absent? ==> r == Ok(default)
    ensures s.Present? ==> r == Ok(s.value)
  {
    match s
    case Absent => Ok(default)
    case NullSection => Err("'NoneType' object has no attribute 'get'")
    case Present(v) => Ok(v)
  }

  function ScentSection(s: Section<RawScent>): (r: Result<Scent>)
    ensures s.Absent? ==> r == Ok(DefaultProfile.scent)
    ensures s.NullSection? ==> r.Err?
    ensures r.Ok? ==> CleanScentSection(r.value)
  {
    DefaultSectionsClean();
    var v :- Fill(s, DefaultRawScent);
    CleanScent(v)
  }

  function StyleSection(s: Section<RawStyle>): (r: Result<Style>)
    ensures s.Absent? ==> r == Ok(DefaultProfile.style)
    ensures s.NullSection? ==> r.Err?
    ensures r.Ok? ==> CleanStyleSection(r.value)
  {
    DefaultSectionsClean();
    var v :- Fill(s, DefaultRawStyle);
    CleanStyle(v)
  }

  function TraitsSection(s: Section<RawTraits>): (r: Result<Traits>)
    ensures s.Absent? ==> r == Ok(DefaultProfile.traits)
    ensures s.NullSection? ==> r.Err?
    ensures r.Ok? ==> CleanTraitsSection(r.value)
  {
    DefaultSectionsClean();
    var v :- Fill(s, DefaultRawTraits);
    CleanTraits(v)
  }

  /** `_clean_extracted_data(data)`: the sections are cleaned in the order
      scent, style, personality, and the first failure propagates. */
  function CleanExtractedData(raw: RawProfile): (r: Result<Profile>)
    ensures raw.scent.NullSection? || raw.style.NullSection? || raw.traits.NullSection? ==> r.Err?
    ensures raw.scent.Absent? && r.Ok? ==> r.value.scent == DefaultProfile.scent
    ensures raw.style.Absent? && r.Ok? ==> r.value.style == DefaultProfile.style
    ensures raw.traits.Absent? && r.Ok? ==> r.value.traits == DefaultProfile.traits
    ensures r.Ok? ==> Clean(r.value)
  {
    var sc :- ScentSection(raw.scent);
    var st :- StyleSection(raw.style);
    var tr :- TraitsSection(raw.traits);
    Ok(Profile(sc, st, tr))
  }

  /** Cleaning the default sections gives the default profile's sections. */
  lemma DefaultSectionsClean()
    ensures CleanScent(DefaultRawScent) == Ok(DefaultProfile.scent)
    ensures CleanStyle(DefaultRawStyle) == Ok(DefaultProfile.style)
    ensures CleanTraits(DefaultRawTraits) == Ok(DefaultProfile.traits)
  {
    var empty := CleanList(Items([]));
    assert empty == Ok([]);
    DefaultIntensityIsLower();
    assert CleanIntensity(Some(DefaultIntensity)) == DefaultIntensity;
    assert CleanScent(DefaultRawScent) == Ok(Scent(empty.value, empty.value, empty.value, DefaultIntensity));
    CleanNothing();
  }

  lemma DefaultIntensityIsLower()
    ensures Lower(DefaultIntensity) == DefaultIntensity
  {
    var r := Lower(DefaultIntensity);
    forall i | 0 <= i < |DefaultIntensity|
      ensures r[i] == DefaultIntensity[i]
    {
    }
  }

  lemma CleanNothing()
    ensures CleanItem(None) == [] && CleanOptional(None) == None
  {
    assert Lower("") == [];
  }

  /** `extract_profile_data(message)`: `response` is the parsed JSON the model
      returned, or the failure of the call or of `json.loads`. Never raises. */
  function ExtractProfileData(response: Result<RawProfile>): (r: Profile)
    ensures Clean(r)
    ensures response.Err? ==> r == DefaultProfile
    ensures response.Ok? && CleanExtractedData(response.value).Err? ==> r == DefaultProfile
    ensures response.Ok? && CleanExtractedData(response.value).Ok? ==> r == CleanExtractedData(response.value).value
  {
    match response
    case Err(_) => DefaultProfile
    case Ok(raw) =>
      match CleanExtractedData(raw)
      case Err(_) => DefaultProfile
      case Ok(p) => p
  }

  // ------------------------------------------------------------ properties

  /** An entry as cleaning leaves it. */
  predicate CleanEntry(s: string) {
    IsStripped(s) && Lower(s) == s
  }

  predicate CleanEntries(xs: seq<string>) {
    forall i :: 0 <= i < |xs| ==> CleanEntry(xs[i])
  }

  /** What every cleaned profile satisfies: lower-cased stripped entries, a
      non-empty lower-case intensity, and scalars that are `None` or clean and non-blank. */
  predicate Clean(p: Profile) {
    CleanScentSection(p.scent) && CleanStyleSection(p.style) && CleanTraitsSection(p.traits)
  }

  predicate CleanScentSection(s: Scent) {
    && CleanEntries(s.favorites) && CleanEntries(s.dislikes) && CleanEntries(s.families)
    && s.intensity != [] && Lower(s.intensity) == s.intensity
  }

  predicate CleanStyleSection(s: Style) {
    && (s.clothingStyle.Some? ==> s.clothingStyle.value != [] && CleanEntry(s.clothingStyle.value))
    && CleanEntries(s.allStyles)
  }

  predicate CleanTraitsSection(t: Traits) {
    && CleanEntries(t.traits)
    && (t.primaryTrait.Some? ==> t.primaryTrait.value != [] && CleanEntry(t.primaryTrait.value))
    && !t.confidence.MissingScores?
  }

  /** A cleaned profile written back as JSON. */
  function Embed(p: Profile): RawProfile {
    RawProfile(
      Present(RawScent(EmbedList(p.scent.favorites), EmbedList(p.scent.dislikes), EmbedList(p.scent.families),
                       Some(p.scent.intensity))),
      Present(RawStyle(p.style.clothingStyle, EmbedList(p.style.allStyles))),
      Present(RawTraits(EmbedList(p.traits.traits), p.traits.primaryTrait, p.traits.confidence)))
  }

  function EmbedList(xs: seq<string>): (r: RawList)
    ensures r.Items? && |r.items| == |xs|
    ensures forall i :: 0 <= i < |xs| ==> r.items[i] == Some(xs[i])
  {
    Items(seq(|xs|, i requires 0 <= i < |xs| => Some(xs[i])))
  }

  /** A clean entry is left as it is. */
  lemma CleanEntryFixed(s: string)
    requires CleanEntry(s)
    ensures CleanItem(Some(s)) == s
  {
    StrippedIsFixed(s);
  }

  lemma CleanListFixed(xs: seq<string>)
    requires CleanEntries(xs)
    ensures CleanList(EmbedList(xs)) == Ok(xs)
  {
    var r := CleanList(EmbedList(xs)).value;
    forall i | 0 <= i < |xs|
      ensures r[i] == xs[i]
    {
      CleanEntryFixed(xs[i]);
    }
    assert r == xs;
  }

  /** Cleaning an already cleaned profile changes nothing. */
  lemma CleaningIsIdempotent(p: Profile)
    requires Clean(p)
    ensures CleanExtractedData(Embed(p)) == Ok(p)
  {
    ScentSectionFixed(p);
    StyleSectionFixed(p);
    TraitsSectionFixed(p);
  }

  lemma ScentSectionFixed(p: Profile)
    requires CleanScentSection(p.scent)
    ensures ScentSection(Embed(p).scent) == Ok(p.scent)
  {
    CleanListFixed(p.scent.favorites);
    CleanListFixed(p.scent.dislikes);
    CleanListFixed(p.scent.families);
  }

  lemma StyleSectionFixed(p: Profile)
    requires CleanStyleSection(p.style)
    ensures StyleSection(Embed(p).style) == Ok(p.style)
  {
    CleanListFixed(p.style.allStyles);
    if p.style.clothingStyle.Some? {
      CleanEntryFixed(p.style.clothingStyle.value);
    }
  }

  lemma TraitsSectionFixed(p: Profile)
    requires CleanTraitsSection(p.traits)
    ensures TraitsSection(Embed(p).traits) == Ok(p.traits)
  {
    CleanListFixed(p.traits.traits);
    if p.traits.primaryTrait.Some? {
      CleanEntryFixed(p.traits.primaryTrait.value);
    }
  }

  /** Extraction twice over: cleaning what an extraction returned gives it back. */
  lemma ExtractionIsIdempotent(response: Result<RawProfile>)
    ensures var p := ExtractProfileData(response);
            ExtractProfileData(Ok(Embed(p))) == p
  {
    CleaningIsIdempotent(ExtractProfileData(response));
  }

  /** A section given as `null` makes the whole extraction fall back to the defaults. */
  lemma NullSectionGivesDefaults(scent: RawScent, style: RawStyle)
    ensures ExtractProfileData(Ok(RawProfile(Present(scent), Present(style), NullSection))) == DefaultProfile
  {
  }
}
