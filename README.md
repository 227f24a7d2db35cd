# Specialty hospital search: a Dafny model

This project models how the care-navigator map chooses what to search for.
It has two parts.

- `deriveSpecialtySearch` (`lib/specialityHospitals.js`) classifies a
  diagnosis into a place search (`keyword`, `placeType`, `title`,
  `highlight`). It lower-cases the specialty hint and the condition names,
  drops missing or empty names, and joins the hint and the names with spaces.
  It then trims the result into a search text. An empty search text gives
  `DEFAULT_RESULT`. Otherwise twenty rules are tried in order. Each rule
  lists keywords that are matched as substrings, and the first rule with a
  keyword in the text decides. When no rule matches, the function returns
  the distinct "hospital clinic" fallback.
- The map page (`components/MapPage.jsx`) chooses the conditions and the
  hint it passes to the classifier. It calls the classifier only when it has
  one of them. It then builds the map configuration in three tiers: any
  non-empty query override first, then the derived profile, then
  `DEFAULT_MAP_CONFIG`. In the first two tiers an empty field is filled from
  the default. The page calls itself a specialty search when the
  configuration differs from the default in some field, and its hero
  description then names the map title.

Modules:

- `Wrappers` holds `Option`, which stands for JavaScript `undefined`/`null`,
  and its `GetOr`, which is `??`.
- `Text` holds the string operations: `toLowerCase`, `trim`, `includes`,
  `join(" ")`, and a reference definition of "occurs as a substring".
- `SpecialityHospitals` holds:
  - the profiles and the rule table, in source order;
  - the search text and the first-match chain, `DeriveSpecialtySearch`;
  - the properties of all of these.
- `Shadowing` shows that substring matching over an ordered table makes some
  keywords dead. Striking one of them changes the result for no input. For
  example, the respiratory "ent" captures "dental", "mental" and
  "urgent care".
- `Scenarios` works through concrete inputs, from their search text to the
  profile they get.
- `MapPage` holds the selection logic of the page.

A condition is represented by its name only (`Option<string>`; `None` when
the condition or its name is missing). A missing analysis, and `conditions`
that are not an array, are `None` as well. The URL's search parameters are a
`map<string, string>`. A missing hint is the empty string.

`trim` strips exactly the ECMAScript WhiteSpace and LineTerminator code
points (sections 12.2 and 12.3 of ECMA-262):
- TAB, LF, VT, FF, CR and SPACE;
- NO-BREAK SPACE (U+00A0) and U+1680;
- U+2000 to U+200A;
- LINE SEPARATOR (U+2028) and PARAGRAPH SEPARATOR (U+2029);
- U+202F, U+205F and U+3000;
- the byte order mark U+FEFF.

So a hint of one no-break space gives an empty search text, and a hint of
one zero-width space (U+200B) does not.

Three consequences of the code:

- An empty input gets `DEFAULT_RESULT`, whose keyword is "hospital". It does
  not get the "hospital clinic" fallback.
- A text that no rule matches, such as "broken ankle", gets "hospital
  clinic".
- "earthquake injury" is classified as wound care, through "injury". The
  wound-care rule comes before the ear rule, whose "ear" also occurs in the
  text.

## Model

| member | source | states |
|---|---|---|
| Text.Lower | lib/specialityHospitals.js:13 | lower-casing keeps the length and maps each character to its lower-case form |
| Text.LowerIgnoresCase | lib/specialityHospitals.js:13 | lower-casing is idempotent and forgets upper-casing |
| Text.LowerKeepsWhitespace | lib/specialityHospitals.js:13 | a string is all whitespace exactly when its lower-cased form is |
| Text.WhitespaceCodePoints | lib/specialityHospitals.js:21 | `IsWhitespace`, the test `trim` uses, holds of exactly the ECMAScript WhiteSpace and LineTerminator code points, listed one by one; U+00A0 is among them and U+200B is not |
| Text.Trim | lib/specialityHospitals.js:21 | trimming never lengthens the input, gives the empty string exactly when the input is all whitespace, and otherwise gives a string that starts and ends with non-whitespace |
| Text.TrimIsSlice | lib/specialityHospitals.js:21 | the trimmed string is the input with only whitespace cut from either end |
| Text.TrimStartIsSuffix | lib/specialityHospitals.js:21 | trimming the start keeps a suffix of the input, cuts only whitespace, and stops at a non-whitespace character |
| Text.TrimEndIsPrefix | lib/specialityHospitals.js:21 | trimming the end keeps a prefix of the input, cuts only whitespace, and stops at a non-whitespace character |
| Text.TrimOfFramedWord | lib/specialityHospitals.js:21 | a word with only whitespace before and after it in a string is exactly what trimming that string keeps |
| Text.TrimAround | lib/specialityHospitals.js:21 | trimming a word padded with whitespace gives back the word |
| Text.OccursSurvivesTrim | lib/specialityHospitals.js:21 | a word that occurs in a string still occurs after trimming |
| Text.IncludesFromIsOccurrence | lib/specialityHospitals.js:10 | the substring search from an offset finds the keyword exactly when it occurs at or after that offset |
| Text.Includes | lib/specialityHospitals.js:10 | `subject.includes(keyword)` holds exactly when the keyword occurs in the subject |
| Text.JoinWithSpaces | lib/specialityHospitals.js:18 | no parts give the empty string, one part gives itself; with more parts the string starts with the first part followed by one space, and every part occurs in the space-joined string |
| Text.JoinAllWhitespace | lib/specialityHospitals.js:18 | the space-joined string is all whitespace exactly when every part is |
| SpecialityHospitals.IncludesAnyFromIsSomeKeyword | lib/specialityHospitals.js:9-10 | the scan from index i finds a keyword exactly when some keyword at or after i occurs |
| SpecialityHospitals.IncludesAny | lib/specialityHospitals.js:9-10 | `includesAny` holds exactly when some listed keyword occurs in the subject |
| SpecialityHospitals.RuleMatchesByKeyword | lib/specialityHospitals.js:27-41 | a rule's `includesAny(joined, [...])` test holds exactly when one of that rule's keywords occurs in the text |
| SpecialityHospitals.FirstMatch | lib/specialityHospitals.js:26-413 | the chain of rule tests returns either the profile of a rule that matches the text or the "hospital clinic" fallback |
| SpecialityHospitals.FirstMatchWins | lib/specialityHospitals.js:26-405 | when rule i is the first to match, its profile is returned whatever later rules match |
| SpecialityHospitals.NoMatchFallsThrough | lib/specialityHospitals.js:407-413 | when no rule matches, the result is the "hospital clinic" fallback |
| SpecialityHospitals.FirstMatchCases | lib/specialityHospitals.js:26-413 | the chain returns either the profile of its first matching rule or, when none matches, the fallback |
| SpecialityHospitals.LaterRulesIrrelevant | lib/specialityHospitals.js:26-405 | two tables that agree up to a matching rule give the same result |
| SpecialityHospitals.EquivalentRules | lib/specialityHospitals.js:26-413 | tables whose rules match the same texts and share their profiles give the same result |
| SpecialityHospitals.Without | lib/specialityHospitals.js:28-40 | helper used to state that a keyword is dead: removing a keyword from a list like this one keeps every other keyword and only those |
| SpecialityHospitals.Strike | lib/specialityHospitals.js:26-405 | helper used to state that a keyword is dead: striking a keyword from rule i changes that rule's list and nothing else in the table |
| SpecialityHospitals.DeadKeyword | lib/specialityHospitals.js:26-405 | a keyword that contains a keyword of the same or an earlier rule never decides the result |
| SpecialityHospitals.ProfilesDistinct | lib/specialityHospitals.js:42-399 | the twenty rule profiles are pairwise different |
| SpecialityHospitals.FallbacksDistinct | lib/specialityHospitals.js:1-7 | `DEFAULT_RESULT` and the "hospital clinic" fallback differ from each other and from every rule profile |
| SpecialityHospitals.ProfilesNamed | lib/specialityHospitals.js:1-7 | every profile, the two fallbacks included, has all four fields non-empty |
| SpecialityHospitals.KeywordsLetterEnds | lib/specialityHospitals.js:28-396 | every keyword of every rule starts and ends with a lower-case letter |
| SpecialityHospitals.LetterEndsAreWords | lib/specialityHospitals.js:28-396 | keywords that start and end with a lower-case letter neither start nor end with whitespace |
| SpecialityHospitals.KeywordsAreWords | lib/specialityHospitals.js:28-396 | no keyword of any rule starts or ends with whitespace |
| SpecialityHospitals.NonEmpty | lib/specialityHospitals.js:17 | `.filter(Boolean)` keeps exactly the non-empty names and is never longer than its input |
| SpecialityHospitals.NonEmptyAppend | lib/specialityHospitals.js:17 | filtering distributes over concatenation |
| SpecialityHospitals.SearchTextEmpty | lib/specialityHospitals.js:13-22 | the search text is empty exactly when the hint and every present name are all whitespace |
| SpecialityHospitals.LowerName | lib/specialityHospitals.js:16 | a present name keeps its length when lowered, and the lowered name is empty exactly when the name is missing or empty |
| SpecialityHospitals.Names | lib/specialityHospitals.js:16 | there is one lowered name per condition, and an entry is empty exactly when that condition's name is missing or empty |
| SpecialityHospitals.NamesAppend | lib/specialityHospitals.js:16 | the names of two lists of conditions put together are the two lists of names put together |
| SpecialityHospitals.ConditionText | lib/specialityHospitals.js:14-19 | `conditionText` is empty exactly when every name is missing or empty, and every present name occurs in it lower-cased |
| SpecialityHospitals.SearchText | lib/specialityHospitals.js:21 | `joined` is either empty or neither starts nor ends with whitespace |
| SpecialityHospitals.FilteredNamesIgnoreMissing | lib/specialityHospitals.js:16-17 | inserting a condition with a missing or empty name leaves the filtered names unchanged |
| SpecialityHospitals.MissingNameIgnored | lib/specialityHospitals.js:16-17 | inserting a condition with a missing or empty name leaves the search text unchanged |
| SpecialityHospitals.HintReachesText | lib/specialityHospitals.js:13-21 | a keyword that occurs in the lowered hint occurs in the search text |
| SpecialityHospitals.NameReachesText | lib/specialityHospitals.js:16-21 | a keyword that occurs in a lowered condition name occurs in the search text |
| SpecialityHospitals.SearchTextOfName | lib/specialityHospitals.js:13-21 | one name whose lowered form is a word (non-empty, no whitespace at either end), with no hint, is searched as that lowered form |
| SpecialityHospitals.SearchTextOfHint | lib/specialityHospitals.js:13-21 | a hint whose lowered form is a word, with no conditions, is searched as that lowered form |
| SpecialityHospitals.SearchTextOfTwoNames | lib/specialityHospitals.js:14-21 | two names whose lowered forms are words, with no hint, are searched as those lowered forms joined by one space |
| SpecialityHospitals.SearchTextIgnoresCase | lib/specialityHospitals.js:13-21 | inputs that agree after lower-casing give the same search text |
| SpecialityHospitals.DeriveSpecialtySearch | lib/specialityHospitals.js:12-414 | the result is `DEFAULT_RESULT` exactly when there is nothing to search; otherwise it is a rule profile or the "hospital clinic" fallback; every result has all four fields non-empty |
| SpecialityHospitals.EmptyInputGivesDefault | lib/specialityHospitals.js:21-24 | with no hint and only missing or empty names the result is `DEFAULT_RESULT`, keyword "hospital" |
| SpecialityHospitals.MatchNeedsText | lib/specialityHospitals.js:21-28 | a text that some rule matches is neither empty nor all whitespace |
| SpecialityHospitals.MatchOfWordsNeedsText | lib/specialityHospitals.js:9-10 | a rule whose keywords are words matches neither the empty text nor any all-whitespace text |
| SpecialityHospitals.DeriveFirstMatch | lib/specialityHospitals.js:26-405 | when rule i is the first to match the search text, the result is its profile |
| SpecialityHospitals.DeriveFallback | lib/specialityHospitals.js:407-413 | the result is the "hospital clinic" fallback exactly when there is something to search and no rule matches |
| SpecialityHospitals.DeriveByKeyword | lib/specialityHospitals.js:26-405 | when keyword k of rule i occurs in the lowered hint or in one lowered condition name, and no earlier rule matches the search text, the result is rule i's profile |
| SpecialityHospitals.DeriveAtOrBefore | lib/specialityHospitals.js:26-405 | when rule j matches, the result is the profile of rule j or of an earlier rule |
| SpecialityHospitals.DeriveIgnoresCase | lib/specialityHospitals.js:13-16 | inputs that agree after lower-casing get the same result |
| SpecialityHospitals.UpperNames | lib/specialityHospitals.js:16 | helper used to state case-insensitivity: upper-casing every condition name keeps the number of conditions and which names are missing |
| SpecialityHospitals.DeriveIgnoresUpperCase | lib/specialityHospitals.js:13-16 | upper-casing the hint and every name does not change the result |
| Shadowing.RespiratoryListsEnt | lib/specialityHospitals.js:51-71 | the respiratory rule (second in the table) lists "ent" |
| Shadowing.EntShadowsLaterKeyword | lib/specialityHospitals.js:61 | any keyword of a later rule that contains "ent" is dead |
| Shadowing.DentalKeywordsAreDead | lib/specialityHospitals.js:176 | "dental", "dentist" and "dentistry" never decide the dental rule |
| Shadowing.MentalKeywordIsDead | lib/specialityHospitals.js:269 | "mental" never decides the mental-health rule |
| Shadowing.UrgentCareKeywordIsDead | lib/specialityHospitals.js:291 | "urgent care" never decides the wound-care rule |
| Shadowing.EarEntIsDead | lib/specialityHospitals.js:348 | the ear rule's own "ent" never decides it |
| Shadowing.AllergyAsthmaIsDead | lib/specialityHospitals.js:396 | the allergy rule's "asthma" never decides it |
| Shadowing.RedEyeIsDead | lib/specialityHospitals.js:192 | "red eye" is subsumed by "eye" in the same rule |
| Shadowing.AsthmaNeverGivesAllergy | lib/specialityHospitals.js:53 | a search text with "asthma" is classified orthopedic or respiratory, never allergy |
| Shadowing.EntGivesRespiratory | lib/specialityHospitals.js:61 | a search text with "ent" and no orthopedic keyword is classified respiratory |
| Scenarios.FirstMatchByKeyword | lib/specialityHospitals.js:26-405 | when no keyword of an earlier rule occurs and a keyword of rule i does, rule i decides |
| Scenarios.NoKeywordFallsThrough | lib/specialityHospitals.js:407-413 | when no keyword occurs at all, the chain gives the "hospital clinic" fallback |
| Scenarios.DeriveOnText | lib/specialityHospitals.js:21-24 | for a non-empty search text the result is what the rule chain gives for it |
| Scenarios.DentalText | lib/specialityHospitals.js:51-71 | the text "dental" is classified respiratory |
| Scenarios.MentalText | lib/specialityHospitals.js:51-71 | the text "mental" is classified respiratory |
| Scenarios.UrgentCareText | lib/specialityHospitals.js:51-71 | the text "urgent care" is classified respiratory |
| Scenarios.HeartToothText | lib/specialityHospitals.js:74-90 | "heart tooth" is classified cardiology: the earlier rule wins over the dental one |
| Scenarios.TensionHeadacheText | lib/specialityHospitals.js:135-154 | "tension headache" is classified neurology |
| Scenarios.MigraineText | lib/specialityHospitals.js:135-154 | "migraine" is classified neurology |
| Scenarios.DermatologyText | lib/specialityHospitals.js:206-225 | "dermatology" is classified dermatology |
| Scenarios.EarthquakeInjuryText | lib/specialityHospitals.js:284-300 | "earthquake injury" is classified wound care |
| Scenarios.BrokenAnkleText | lib/specialityHospitals.js:407-413 | "broken ankle" matches no rule and gets the "hospital clinic" fallback |
| Scenarios.SearchTextOfTwoWords | lib/specialityHospitals.js:14-21 | `SearchTextOfTwoNames` restated over variables, so that concrete names only meet its precondition: two names whose lowered forms are words are searched as those words joined by a space |
| Scenarios.DentalCondition | lib/specialityHospitals.js:12-71 | a condition named "dental" gets the respiratory profile |
| Scenarios.MentalCondition | lib/specialityHospitals.js:12-71 | a condition named "mental" gets the respiratory profile |
| Scenarios.UrgentCareCondition | lib/specialityHospitals.js:12-71 | a condition named "urgent care" gets the respiratory profile |
| Scenarios.HeartAndToothConditions | lib/specialityHospitals.js:12-90 | conditions "Heart" and "Tooth" get the cardiology profile |
| Scenarios.TensionHeadacheCondition | lib/specialityHospitals.js:12-154 | a condition named "Tension headache" gets the neurology profile |
| Scenarios.MigraineUpperCase | lib/specialityHospitals.js:12-154 | a condition named "MIGRAINE" gets the neurology profile, because it lowers to the same name as "migraine" |
| Scenarios.MigraineLowerCase | lib/specialityHospitals.js:12-154 | a condition named "migraine" gets the neurology profile |
| Scenarios.DermatologyHint | lib/specialityHospitals.js:12-225 | the hint "Dermatology" alone gets the dermatology profile |
| Scenarios.EarthquakeInjuryCondition | lib/specialityHospitals.js:12-300 | a condition named "earthquake injury" gets the wound-care profile |
| Scenarios.BrokenAnkleCondition | lib/specialityHospitals.js:12-414 | a condition named "broken ankle" gets the "hospital clinic" fallback, not `DEFAULT_RESULT` |
| MapPage.ConditionsOf | components/MapPage.jsx:43-46 | the analysis's conditions when they are an array, otherwise none |
| MapPage.QueryOverridesOf | components/MapPage.jsx:48-57 | each override is its query parameter or ""; the hint is the lowered parameter and is lower-case |
| MapPage.SpecialtyHintOf | components/MapPage.jsx:59-61 | the hint is the lowered analysis hint when that is non-empty, otherwise the query hint; it is lower-case |
| MapPage.DerivedSpecialty | components/MapPage.jsx:63-66 | null exactly when there are no conditions and no hint, otherwise the classifier's profile, which has all fields non-empty |
| MapPage.Get | components/MapPage.jsx:49-54 | `searchParams.get`: a value exactly when the URL carries the parameter, and then that parameter's value; otherwise null |
| MapPage.Or | components/MapPage.jsx:76-90 | JavaScript "or" on strings (also the hint fallback at line 60) gives one of its operands: the first when it is non-empty, and the empty string only when both are empty |
| MapPage.HasOverride | components/MapPage.jsx:76 | holds exactly when the JavaScript or-chain of the four overrides evaluates to a non-empty string |
| MapPage.WithDefaults | components/MapPage.jsx:78-81 | each field is the given one or, when that is empty, the default; the keyword passes unchanged and the other fields are never empty |
| MapPage.MapConfig | components/MapPage.jsx:75-101 | overrides first, then the derived profile, then `DEFAULT_MAP_CONFIG`, each with empty fields defaulted |
| MapPage.IsSpecialtySearch | components/MapPage.jsx:103-107 | true exactly when the configuration differs from `DEFAULT_MAP_CONFIG` |
| MapPage.HeroDescription | components/MapPage.jsx:109-111 | the default description exactly when the search is not a specialty search; otherwise a text carrying the map title right after the tailored opening |
| MapPage.TailoredSentence | components/MapPage.jsx:109-111 | a specialty page's description is the tailored opening, then the map title, then a full stop |
| MapPage.View | components/MapPage.jsx:43-111 | the page is a specialty search exactly when its map configuration is not the default, and it shows the default description exactly when it is not |
| MapPage.OverridesIgnoreDerived | components/MapPage.jsx:76-83 | while an override is set the derived profile has no influence |
| MapPage.NothingGivesDefault | components/MapPage.jsx:94 | with no override and no derived profile the map gets `DEFAULT_MAP_CONFIG` and the page is not a specialty search |
| MapPage.DerivedBranchIsSpecialty | components/MapPage.jsx:85-92 | in the derived tier the map gets the classifier's profile unchanged, and the page is a specialty search |
| MapPage.TailoredIff | components/MapPage.jsx:75-107 | the page is a specialty search exactly when an override yields a non-default configuration, or there is no override and there are conditions or a hint |
| MapPage.HeroDescriptionNamesTitle | components/MapPage.jsx:109-111 | a specialty page's description contains the map title; any other page shows the default description |
| MapPage.EmptySearchIsTailored | components/MapPage.jsx:59-107 | with no override, some conditions or a non-empty hint, and only missing or all-whitespace names and hint, the map gets the classifier's `DEFAULT_RESULT` and the page is a specialty search |
| MapPage.NamelessConditionsAreTailored | components/MapPage.jsx:63-66 | conditions without names, with no hint and no query, still reach the classifier, whose `DEFAULT_RESULT` the page presents as a specialty search |
| MapPage.WhitespaceHintIsTailored | components/MapPage.jsx:59-66 | a hint of one space reaches the classifier, whose `DEFAULT_RESULT` the page presents as a specialty search |
| MapPage.OverrideFieldsWin | components/MapPage.jsx:76-82 | a non-empty query parameter for a map field always reaches the map |

## Left out

- React hooks and rendering. `useSearchParams`, `useMemo`, `useDiagnosisResponse`, the JSX markup and the safety tips (`components/MapPage.jsx:10-26`, `113-193`) are UI. The search parameters and the stored analysis are plain inputs.
- `MapComp`, the places-provider query and any network access. `components/MapComp` is not part of this model.
- The analysis comes from the diagnosis-response store (`lib/diagnosisResponse.js`), which is not modelled; the model takes the analysis as an input.
- `toLowerCase` is modelled as ASCII lower-casing. Full Unicode case mapping has no counterpart in Dafny.
- Non-string names and hints are left out, such as a number in `whichSpecialityHospitalToGo`, on which `toLowerCase` throws. A name that is not a string reads as missing, as `condition?.name?.toLowerCase?.()` makes it.
- The default parameter values `conditions = []` and `specialtyHint = ""` are left out. The page always passes both, so the model takes both as given.
- Repeated query parameters are left out: `searchParams.get` returns the first value, while the model has one value per name.
- The memoisation of `useMemo` is left out. It only caches values that the model computes as pure functions.
