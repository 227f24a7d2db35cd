/**
 * The selection logic of the map page: which conditions and hint it hands to
 * the classifier, which configuration the map receives (query overrides,
 * then the derived specialty, then the default), whether the page calls
 * itself a specialty search, and the sentence under its heading.
 */
module MapPage {
  import opened Wrappers
  import opened Text
  import opened SpecialityHospitals

  /** `DEFAULT_MAP_CONFIG`: an empty keyword and a generic hospital search. */
  const DefaultMapConfig := SearchProfile(
    "", "hospital",
    "Hospitals & clinics near you",
    "Tap a marker or list item to see contact details.")

  /**
   * `DEFAULT_DESCRIPTION`, shown when the map is not tailored. It and the
   * tailored opening below are written as their first words and the rest,
   * which keeps the character that tells them apart (the third) in reach
   * of the verifier.
   */
  const DefaultDescription :=
    "We use" + " your location to surface nearby emergency rooms, urgent care, and trusted partners so you can get help fast."

  /** The opening of the tailored description; the map title and a full stop follow it. */
  const TailoredPrefix := "We\U{2019}re" + " highlighting nearby care tailored to your recent results: "

  /**
   * The part of the stored diagnosis analysis the page reads. `conditions`
   * is `None` when the stored value is not an array, and each condition is
   * represented by its name as in `SpecialityHospitals`.
   */
  datatype Analysis = Analysis(conditions: Option<seq<Option<string>>>, whichSpecialityHospitalToGo: Option<string>)

  /** The URL's search parameters: a name that is absent reads as `null`. */
  type SearchParams = map<string, string>

  /** The query overrides read from the URL, every missing one read as "". */
  datatype QueryOverrides = QueryOverrides(keyword: string, placeType: string, title: string, highlight: string, hint: string)

  /** What the page computes for its heading and its map. */
  datatype PageView = PageView(mapConfig: SearchProfile, isSpecialtySearch: bool, heroDescription: string)

  /**
   * `searchParams.get(name)`: the parameter's value, or `null` (here `None`)
   * when the URL does not carry it.
   */
  function Get(params: SearchParams, name: string): (r: Option<string>)
    ensures r.Some? <==> name in params
    ensures r.Some? ==> r.value == params[name]
  {
    if name in params then Some(params[name]) else None
  }

  /** JavaScript `a || b` on strings: `a` unless it is empty. */
  function Or(a: string, b: string): (r: string)
    ensures r == a || r == b
    ensures a != "" ==> r == a
    ensures r == "" <==> a == "" && b == ""
  {
    if a != "" then a else b
  }

  // ---------------------------------------------------------------------
  // Inputs to the classifier
  // ---------------------------------------------------------------------

  /** `conditions`: the analysis's conditions when they are an array, otherwise none. */
  function ConditionsOf(analysis: Option<Analysis>): (r: seq<Option<string>>)
    ensures analysis.Some? && analysis.value.conditions.Some? ==> r == analysis.value.conditions.value
    ensures analysis.None? || analysis.value.conditions.None? ==> r == []
  {
    match analysis
    case None => []
    case Some(a) => a.conditions.GetOr([])
  }

  /** `queryOverrides`: each parameter or "", and the hint parameter lower-cased. */
  function QueryOverridesOf(params: SearchParams): (r: QueryOverrides)
    ensures r.keyword == (if "keyword" in params then params["keyword"] else "")
    ensures r.placeType == (if "placeType" in params then params["placeType"] else "")
    ensures r.title == (if "title" in params then params["title"] else "")
    ensures r.highlight == (if "highlight" in params then params["highlight"] else "")
    ensures "whichSpecialityHospitalToGo" in params ==> r.hint == Lower(params["whichSpecialityHospitalToGo"])
    ensures "whichSpecialityHospitalToGo" !in params ==> r.hint == ""
    ensures Lower(r.hint) == r.hint
  {
    var hint := match Get(params, "whichSpecialityHospitalToGo")
      case Some(h) => Lower(h)
      case None => "";
    LowerIgnoresCase(hint);
    QueryOverrides(
      Get(params, "keyword").GetOr(""),
      Get(params, "placeType").GetOr(""),
      Get(params, "title").GetOr(""),
      Get(params, "highlight").GetOr(""),
      hint)
  }

  /**
   * `specialtyHint`: the lowered analysis hint when it is non-empty,
   * otherwise the lowered query hint; either way already lower-case.
   */
  function SpecialtyHintOf(analysis: Option<Analysis>, overrides: QueryOverrides): (r: string)
    requires Lower(overrides.hint) == overrides.hint
    ensures Lower(r) == r
    ensures analysis.Some? && Lower(analysis.value.whichSpecialityHospitalToGo.GetOr("")) != "" ==>
      r == Lower(analysis.value.whichSpecialityHospitalToGo.GetOr(""))
    ensures (analysis.None? || Lower(analysis.value.whichSpecialityHospitalToGo.GetOr("")) == "") ==>
      r == overrides.hint
  {
    var fromAnalysis := match analysis
      case Some(a) => Lower(a.whichSpecialityHospitalToGo.GetOr(""))
      case None => Lower("");
    LowerIgnoresCase(if analysis.Some? then analysis.value.whichSpecialityHospitalToGo.GetOr("") else "");
    Or(fromAnalysis, overrides.hint)
  }

  /** `derivedSpecialty`: null exactly when there are no conditions and no hint. */
  function DerivedSpecialty(conditions: seq<Option<string>>, specialtyHint: string): (r: Option<SearchProfile>)
    ensures r.None? <==> |conditions| == 0 && specialtyHint == ""
    ensures r.Some? ==> r.value == DeriveSpecialtySearch(conditions, specialtyHint)
    ensures r.Some? ==> Named(r.value)
  {
    if |conditions| == 0 && specialtyHint == "" then None
    else Some(DeriveSpecialtySearch(conditions, specialtyHint))
  }

  // ---------------------------------------------------------------------
  // mapConfig
  // ---------------------------------------------------------------------

  /** Some query override is non-empty: the `||` chain of the four overrides is truthy. */
  predicate HasOverride(o: QueryOverrides)
    ensures HasOverride(o) <==> Or(Or(Or(o.keyword, o.placeType), o.title), o.highlight) != ""
  {
    o.keyword != "" || o.placeType != "" || o.title != "" || o.highlight != ""
  }

  /**
   * Each field taken from the given one, or from `DEFAULT_MAP_CONFIG` when
   * that is empty. The keyword passes unchanged because the default keyword
   * is empty; the other three fields are never empty.
   */
  function WithDefaults(keyword: string, placeType: string, title: string, highlight: string): (r: SearchProfile)
    ensures r.keyword == keyword
    ensures placeType != "" ==> r.placeType == placeType
    ensures title != "" ==> r.title == title
    ensures highlight != "" ==> r.highlight == highlight
    ensures placeType == "" ==> r.placeType == DefaultMapConfig.placeType
    ensures title == "" ==> r.title == DefaultMapConfig.title
    ensures highlight == "" ==> r.highlight == DefaultMapConfig.highlight
    ensures r.placeType != "" && r.title != "" && r.highlight != ""
  {
    SearchProfile(
      Or(keyword, DefaultMapConfig.keyword),
      Or(placeType, DefaultMapConfig.placeType),
      Or(title, DefaultMapConfig.title),
      Or(highlight, DefaultMapConfig.highlight))
  }

  /** `mapConfig`: query overrides first, then the derived specialty, then the default. */
  function MapConfig(o: QueryOverrides, derived: Option<SearchProfile>): (r: SearchProfile)
    ensures HasOverride(o) ==> r == WithDefaults(o.keyword, o.placeType, o.title, o.highlight)
    ensures !HasOverride(o) && derived.Some? ==>
      r == WithDefaults(derived.value.keyword, derived.value.placeType, derived.value.title, derived.value.highlight)
    ensures !HasOverride(o) && derived.None? ==> r == DefaultMapConfig
    ensures r.placeType != "" && r.title != "" && r.highlight != ""
  {
    if HasOverride(o) then WithDefaults(o.keyword, o.placeType, o.title, o.highlight)
    else match derived
      case Some(d) => WithDefaults(d.keyword, d.placeType, d.title, d.highlight)
      case None => DefaultMapConfig
  }

  /** `isSpecialtySearch`: the configuration differs from the default in some field. */
  function IsSpecialtySearch(config: SearchProfile): (r: bool)
    ensures r <==> config != DefaultMapConfig
  {
    config.keyword != DefaultMapConfig.keyword ||
    config.placeType != DefaultMapConfig.placeType ||
    config.title != DefaultMapConfig.title ||
    config.highlight != DefaultMapConfig.highlight
  }

  /** `heroDescription`: the tailored sentence naming the map title, or the default text. */
  function HeroDescription(config: SearchProfile): (r: string)
    ensures r == DefaultDescription <==> !IsSpecialtySearch(config)
    ensures IsSpecialtySearch(config) ==> OccursAt(config.title, r, |TailoredPrefix|)
  {
    if IsSpecialtySearch(config) then
      var r := TailoredPrefix + config.title + ".";
      assert r[2] == TailoredPrefix[2] == '\U{2019}' && DefaultDescription[2] == ' ';
      assert r[|TailoredPrefix|..|TailoredPrefix| + |config.title|] == config.title;
      r
    else DefaultDescription
  }

  /** The page's computed view for a stored analysis and the URL's search parameters. */
  function View(analysis: Option<Analysis>, params: SearchParams): (r: PageView)
    ensures r.isSpecialtySearch <==> r.mapConfig != DefaultMapConfig
    ensures r.heroDescription == DefaultDescription <==> !r.isSpecialtySearch
  {
    var overrides := QueryOverridesOf(params);
    var conditions := ConditionsOf(analysis);
    var hint := SpecialtyHintOf(analysis, overrides);
    var config := MapConfig(overrides, DerivedSpecialty(conditions, hint));
    PageView(config, IsSpecialtySearch(config), HeroDescription(config))
  }

  // ---------------------------------------------------------------------
  // Properties
  // ---------------------------------------------------------------------

  /** While some query override is set, the derived specialty has no influence. */
  lemma OverridesIgnoreDerived(o: QueryOverrides, d1: Option<SearchProfile>, d2: Option<SearchProfile>)
    requires HasOverride(o)
    ensures MapConfig(o, d1) == MapConfig(o, d2)
  {
  }

  /** With no override and no derived specialty, the map gets exactly the default configuration. */
  lemma NothingGivesDefault(o: QueryOverrides)
    requires !HasOverride(o)
    ensures MapConfig(o, None) == DefaultMapConfig && !IsSpecialtySearch(MapConfig(o, None))
  {
  }

  /**
   * Whenever the derived branch is taken the page is a specialty search:
   * a derived profile's keyword is never empty, and the default keyword is.
   */
  lemma DerivedBranchIsSpecialty(o: QueryOverrides, conditions: seq<Option<string>>, specialtyHint: string)
    requires !HasOverride(o)
    requires |conditions| > 0 || specialtyHint != ""
    ensures MapConfig(o, DerivedSpecialty(conditions, specialtyHint)) == DeriveSpecialtySearch(conditions, specialtyHint)
    ensures IsSpecialtySearch(MapConfig(o, DerivedSpecialty(conditions, specialtyHint)))
  {
    var p := DeriveSpecialtySearch(conditions, specialtyHint);
    assert MapConfig(o, DerivedSpecialty(conditions, specialtyHint)) == WithDefaults(p.keyword, p.placeType, p.title, p.highlight);
  }

  /**
   * The page is tailored exactly when an override yields a configuration
   * other than the default, or when, with no override, there is a
   * condition or a hint to classify.
   */
  lemma TailoredIff(analysis: Option<Analysis>, params: SearchParams)
    ensures var o := QueryOverridesOf(params);
      View(analysis, params).isSpecialtySearch <==>
        (HasOverride(o) && WithDefaults(o.keyword, o.placeType, o.title, o.highlight) != DefaultMapConfig) ||
        (!HasOverride(o) && (|ConditionsOf(analysis)| > 0 || SpecialtyHintOf(analysis, o) != ""))
  {
    var o := QueryOverridesOf(params);
    var conditions := ConditionsOf(analysis);
    var hint := SpecialtyHintOf(analysis, o);
    if !HasOverride(o) && (|conditions| > 0 || hint != "") {
      DerivedBranchIsSpecialty(o, conditions, hint);
    }
  }

  /**
   * A tailored page names the map's title in its description, and an
   * untailored one shows the default text.
   */
  lemma HeroDescriptionNamesTitle(analysis: Option<Analysis>, params: SearchParams)
    ensures var v := View(analysis, params);
      (v.isSpecialtySearch ==> Occurs(v.mapConfig.title, v.heroDescription)) &&
      (!v.isSpecialtySearch ==> v.heroDescription == DefaultDescription)
  {
    var v := View(analysis, params);
    if v.isSpecialtySearch {
      assert OccursAt(v.mapConfig.title, v.heroDescription, |TailoredPrefix|);
    }
  }

  /** A tailored description is the whole sentence: the tailored opening, the map title and a full stop. */
  lemma TailoredSentence(config: SearchProfile)
    requires IsSpecialtySearch(config)
    ensures HeroDescription(config) == TailoredPrefix + config.title + "."
    ensures HeroDescription(config)[..|TailoredPrefix|] == TailoredPrefix
    ensures HeroDescription(config)[|HeroDescription(config)| - 1] == '.'
  {
    var r := TailoredPrefix + config.title + ".";
    assert r[..|TailoredPrefix|] == TailoredPrefix;
  }

  /**
   * Input that reaches the classifier but holds nothing to search (no
   * override, some conditions or a non-empty hint, and only missing or
   * all-whitespace names and hint) gets the classifier's `DEFAULT_RESULT`,
   * which the page presents as a tailored search.
   */
  lemma EmptySearchIsTailored(analysis: Option<Analysis>, params: SearchParams)
    requires !HasOverride(QueryOverridesOf(params))
    requires |ConditionsOf(analysis)| > 0 || SpecialtyHintOf(analysis, QueryOverridesOf(params)) != ""
    requires NothingToSearch(ConditionsOf(analysis), SpecialtyHintOf(analysis, QueryOverridesOf(params)))
    ensures View(analysis, params).mapConfig == DefaultResult
    ensures View(analysis, params).isSpecialtySearch
  {
    DerivedBranchIsSpecialty(QueryOverridesOf(params), ConditionsOf(analysis), SpecialtyHintOf(analysis, QueryOverridesOf(params)));
  }

  /** Conditions without names, with no hint and no query, are such input. */
  lemma NamelessConditionsAreTailored(conditions: seq<Option<string>>)
    requires |conditions| > 0
    requires forall i | 0 <= i < |conditions| :: conditions[i].None?
    ensures View(Some(Analysis(Some(conditions), None)), map[]).mapConfig == DefaultResult
    ensures View(Some(Analysis(Some(conditions), None)), map[]).isSpecialtySearch
  {
    var analysis := Some(Analysis(Some(conditions), None));
    assert Lower("") == "";
    assert SpecialtyHintOf(analysis, QueryOverridesOf(map[])) == "";
    EmptySearchIsTailored(analysis, map[]);
  }

  /** A whitespace-only hint reaches the classifier, and the page presents its `DEFAULT_RESULT` as tailored. */
  lemma WhitespaceHintIsTailored()
    ensures View(Some(Analysis(None, Some(" "))), map[]).mapConfig == DefaultResult
    ensures View(Some(Analysis(None, Some(" "))), map[]).isSpecialtySearch
  {
    var analysis := Some(Analysis(None, Some(" ")));
    assert Lower(" ") == " ";
    assert SpecialtyHintOf(analysis, QueryOverridesOf(map[])) == " ";
    EmptySearchIsTailored(analysis, map[]);
  }

  /** A non-empty query parameter for one of the four map fields always reaches the map, whatever the analysis says. */
  lemma OverrideFieldsWin(analysis: Option<Analysis>, params: SearchParams, name: string)
    requires name in params && params[name] != ""
    requires name in {"keyword", "placeType", "title", "highlight"}
    ensures var c := View(analysis, params).mapConfig;
      (name == "keyword" ==> c.keyword == params[name]) &&
      (name == "placeType" ==> c.placeType == params[name]) &&
      (name == "title" ==> c.title == params[name]) &&
      (name == "highlight" ==> c.highlight == params[name])
  {
  }
}
