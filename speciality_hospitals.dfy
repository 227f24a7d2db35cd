/**
 * The specialty classifier `deriveSpecialtySearch` (lib/specialityHospitals.js):
 * the hint and the condition names are lower-cased and joined into one
 * search text, and the first rule of a fixed, ordered table that has a
 * keyword occurring in that text decides the search profile.
 */
module SpecialityHospitals {
  import opened Wrappers
  import opened Text

  /** How to query the places provider and how to label the page. */
  datatype SearchProfile = SearchProfile(keyword: string, placeType: string, title: string, highlight: string)

  /** One `if (includesAny(joined, [...])) return {...}` step of the chain. */
  datatype Rule = Rule(keywords: seq<string>, profile: SearchProfile)

  /** Returned when the search text is empty; no rule is evaluated. */
  const DefaultResult := SearchProfile(
    "hospital", "hospital",
    "Nearby hospitals & urgent care centers",
    "General emergency and acute care")

  /** Returned when the search text is non-empty and no rule matches it. */
  const HospitalClinic := SearchProfile(
    "hospital clinic", "hospital",
    "Nearby hospitals & medical clinics",
    "General and specialized healthcare")

  const Orthopedic := SearchProfile(
    "orthopedic clinic physical therapy", "physiotherapist",
    "Nearby orthopedic & physiotherapy centers",
    "For injuries, joint pain, and musculoskeletal issues")
  const Respiratory := SearchProfile(
    "pulmonologist ENT clinic", "doctor",
    "Nearby ENT & respiratory specialists",
    "Ear, nose, throat, and breathing problems")
  const Cardiology := SearchProfile(
    "cardiologist", "doctor",
    "Nearby cardiology clinics",
    "Heart and blood pressure specialists")
  const Urology := SearchProfile(
    "urologist nephrologist", "doctor",
    "Nearby urology & kidney specialists",
    "For urinary or kidney-related conditions")
  const Gastroenterology := SearchProfile(
    "gastroenterologist", "doctor",
    "Nearby gastroenterology clinics",
    "For stomach, digestion, or liver problems")
  const Neurology := SearchProfile(
    "neurologist", "doctor",
    "Nearby neurology centers",
    "For migraines, nerve, or brain-related conditions")
  const Endocrinology := SearchProfile(
    "endocrinologist diabetes clinic", "doctor",
    "Nearby endocrinology & diabetes clinics",
    "For thyroid and metabolic health")
  const Dental := SearchProfile(
    "dentist dental clinic", "dentist",
    "Nearby dental clinics",
    "Oral and dental care")
  const EyeCare := SearchProfile(
    "ophthalmologist optometrist eye clinic", "doctor",
    "Nearby eye care centers",
    "Eye specialists and vision clinics")
  const Dermatology := SearchProfile(
    "dermatologist skin clinic", "doctor",
    "Nearby dermatology clinics",
    "Skin, hair, and allergy specialists")
  const Rheumatology := SearchProfile(
    "rheumatologist", "doctor",
    "Nearby arthritis & rheumatology clinics",
    "For gout and chronic joint pain")
  const UrgentCare := SearchProfile(
    "urgent care clinic", "hospital",
    "Nearby urgent care centers",
    "For general infections and fevers")
  const MentalHealth := SearchProfile(
    "psychologist psychiatrist mental health clinic", "doctor",
    "Nearby mental health support centers",
    "Counseling, therapy, and psychiatry")
  const WoundCare := SearchProfile(
    "urgent care wound clinic", "hospital",
    "Nearby urgent care or wound treatment centers",
    "Immediate treatment for minor injuries")
  const WomensHealth := SearchProfile(
    "gynecologist obstetrician women health clinic", "doctor",
    "Nearby women\U{2019}s health & OB-GYN clinics",
    "Reproductive and maternal care")
  const Pediatrics := SearchProfile(
    "pediatric clinic", "doctor",
    "Nearby pediatric care centers",
    "For child and infant healthcare")
  const EarCare := SearchProfile(
    "ENT clinic audiologist", "doctor",
    "Nearby ENT & audiology centers",
    "Ear, hearing, and sinus specialists")
  const MensHealth := SearchProfile(
    "urologist men health clinic", "doctor",
    "Nearby urology & men's health clinics",
    "Prostate and men's health specialists")
  const Obstetrics := SearchProfile(
    "obstetrician gynecologist", "doctor",
    "Nearby prenatal & obstetrics clinics",
    "Pregnancy and maternal care")
  const Allergy := SearchProfile(
    "allergy specialist immunologist", "doctor",
    "Nearby allergy & immunology clinics",
    "Allergy and immune system treatment")

  const OrthopedicKeywords: seq<string> := ["tendonitis", "tendinitis", "sprain", "strain", "fracture",
    "ligament", "joint", "back pain", "muscle", "orthopedic", "physiotherapy"]
  const RespiratoryKeywords: seq<string> := ["asthma", "bronchitis", "cough", "sore throat", "sinus",
    "cold", "flu", "respiratory", "ent", "pulmonology"]
  const CardiologyKeywords: seq<string> := ["chest pain", "heart", "hypertension", "blood pressure",
    "cardiology", "cardiologist"]
  const UrologyKeywords: seq<string> := ["urinary", "kidney", "bladder", "uti", "urology", "nephrology"]
  const GastroenterologyKeywords: seq<string> := ["stomach", "digestive", "diarrhea", "vomit",
    "constipation", "acid", "ulcer", "liver", "gastroenterology", "gi"]
  const NeurologyKeywords: seq<string> := ["migraine", "headache", "neuropathy", "seizure", "numbness",
    "paralysis", "tremor", "neurology", "neurologist"]
  const EndocrinologyKeywords: seq<string> := ["diabetes", "thyroid", "hormone", "endocrine", "endocrinology"]
  const DentalKeywords: seq<string> := ["tooth", "gum", "dental", "dentist", "dentistry"]
  const EyeCareKeywords: seq<string> := ["eye", "vision", "cataract", "red eye", "ophthalmology", "optometry"]
  const DermatologyKeywords: seq<string> := ["rash", "acne", "eczema", "psoriasis", "itch", "dermatitis",
    "skin", "dermatology", "dermatologist"]
  const RheumatologyKeywords: seq<string> := ["arthritis", "gout", "osteoarthritis", "rheumatology",
    "rheumatologist"]
  const UrgentCareKeywords: seq<string> := ["infection", "fever", "infectious disease", "infectious"]
  const MentalHealthKeywords: seq<string> := ["anxiety", "depression", "stress", "panic", "mental",
    "psychiatry", "psychology", "behavioral health"]
  const WoundCareKeywords: seq<string> := ["wound", "cut", "burn", "trauma", "injury", "urgent care"]
  const WomensHealthKeywords: seq<string> := ["pregnancy", "menstrual", "fertility", "period", "gynecology",
    "obgyn", "women's health"]
  const PediatricsKeywords: seq<string> := ["child", "pediatric", "infant", "children's hospital", "pediatrics"]
  const EarCareKeywords: seq<string> := ["ear", "hearing", "tinnitus", "audiology", "otology", "ent"]
  const MensHealthKeywords: seq<string> := ["prostate", "erectile", "male", "men's health", "andrology"]
  const ObstetricsKeywords: seq<string> := ["prenatal", "obstetric", "obstetrics", "maternal"]
  const AllergyKeywords: seq<string> := ["allergy", "immune", "immunology", "immunologist", "asthma"]

  /** The chain of rules, in the order the source tests them; the first match wins. */
  const Rules: seq<Rule> := [
    Rule(OrthopedicKeywords, Orthopedic),              //  0
    Rule(RespiratoryKeywords, Respiratory),            //  1
    Rule(CardiologyKeywords, Cardiology),              //  2
    Rule(UrologyKeywords, Urology),                    //  3
    Rule(GastroenterologyKeywords, Gastroenterology),  //  4
    Rule(NeurologyKeywords, Neurology),                //  5
    Rule(EndocrinologyKeywords, Endocrinology),        //  6
    Rule(DentalKeywords, Dental),                      //  7
    Rule(EyeCareKeywords, EyeCare),                    //  8
    Rule(DermatologyKeywords, Dermatology),            //  9
    Rule(RheumatologyKeywords, Rheumatology),          // 10
    Rule(UrgentCareKeywords, UrgentCare),              // 11
    Rule(MentalHealthKeywords, MentalHealth),          // 12
    Rule(WoundCareKeywords, WoundCare),                // 13
    Rule(WomensHealthKeywords, WomensHealth),          // 14
    Rule(PediatricsKeywords, Pediatrics),              // 15
    Rule(EarCareKeywords, EarCare),                    // 16
    Rule(MensHealthKeywords, MensHealth),              // 17
    Rule(ObstetricsKeywords, Obstetrics),              // 18
    Rule(AllergyKeywords, Allergy)                     // 19
  ]

  // ---------------------------------------------------------------------
  // Matching
  // ---------------------------------------------------------------------

  /** `includesAny(subject, keywords)`, looking at `keywords[i..]`. */
  function IncludesAnyFrom(subject: string, keywords: seq<string>, i: nat): bool
    decreases |keywords| - i
  {
    if i >= |keywords| then false
    else Includes(subject, keywords[i]) || IncludesAnyFrom(subject, keywords, i + 1)
  }

  lemma {:induction false} IncludesAnyFromIsSomeKeyword(subject: string, keywords: seq<string>, i: nat)
    ensures IncludesAnyFrom(subject, keywords, i) <==> exists j :: i <= j < |keywords| && Occurs(keywords[j], subject)
    decreases |keywords| - i
  {
    if i < |keywords| {
      IncludesAnyFromIsSomeKeyword(subject, keywords, i + 1);
    }
  }

  /** `includesAny(subject, keywords)`: some keyword is a substring of `subject`. */
  function IncludesAny(subject: string, keywords: seq<string>): (r: bool)
    ensures r <==> exists k :: k in keywords && Occurs(k, subject)
  {
    IncludesAnyFromIsSomeKeyword(subject, keywords, 0);
    IncludesAnyFrom(subject, keywords, 0)
  }

  /** The `includesAny(joined, [...])` test of one rule. */
  predicate Matches(rule: Rule, text: string)
  {
    IncludesAny(text, rule.keywords)
  }

  /** A rule's test holds exactly when one of its keywords occurs in the text. */
  lemma RuleMatchesByKeyword(rule: Rule, text: string)
    ensures Matches(rule, text) <==> exists k :: k in rule.keywords && Occurs(k, text)
  {
  }

  /** Rule `i` is the first rule of `rules[from..]` that matches `text`. */
  ghost predicate FirstMatchIs(rules: seq<Rule>, text: string, from: nat, i: int) {
    && from <= i < |rules|
    && Matches(rules[i], text)
    && forall j :: from <= j < i ==> !Matches(rules[j], text)
  }

  /** The chain of `if`s over `rules[from..]`, ending in the no-match fallback. */
  function FirstMatch(rules: seq<Rule>, text: string, from: nat): (r: SearchProfile)
    ensures r == HospitalClinic || exists j :: from <= j < |rules| && Matches(rules[j], text) && r == rules[j].profile
    decreases |rules| - from
  {
    if from >= |rules| then HospitalClinic
    else if Matches(rules[from], text) then rules[from].profile
    else FirstMatch(rules, text, from + 1)
  }

  /** First match wins: the first matching rule's profile is returned, whatever later rules match. */
  lemma {:induction false} FirstMatchWins(rules: seq<Rule>, text: string, from: nat, i: int)
    requires FirstMatchIs(rules, text, from, i)
    ensures FirstMatch(rules, text, from) == rules[i].profile
    decreases |rules| - from
  {
    if from < i {
      FirstMatchWins(rules, text, from + 1, i);
    }
  }

  /** When no rule matches, the chain falls through to the "hospital clinic" profile. */
  lemma {:induction false} NoMatchFallsThrough(rules: seq<Rule>, text: string, from: nat)
    requires forall j :: from <= j < |rules| ==> !Matches(rules[j], text)
    ensures FirstMatch(rules, text, from) == HospitalClinic
    decreases |rules| - from
  {
    if from < |rules| {
      NoMatchFallsThrough(rules, text, from + 1);
    }
  }

  /** The chain either stops at its first matching rule or, when none matches, falls through. */
  lemma {:induction false} FirstMatchCases(rules: seq<Rule>, text: string, from: nat)
    ensures || (exists i :: FirstMatchIs(rules, text, from, i) && FirstMatch(rules, text, from) == rules[i].profile)
            || ((forall j :: from <= j < |rules| ==> !Matches(rules[j], text))
                && FirstMatch(rules, text, from) == HospitalClinic)
    decreases |rules| - from
  {
    if from < |rules| {
      if Matches(rules[from], text) {
        assert FirstMatchIs(rules, text, from, from);
      } else {
        FirstMatchCases(rules, text, from + 1);
        if exists i :: FirstMatchIs(rules, text, from + 1, i) && FirstMatch(rules, text, from + 1) == rules[i].profile {
          var i :| FirstMatchIs(rules, text, from + 1, i) && FirstMatch(rules, text, from + 1) == rules[i].profile;
          assert FirstMatchIs(rules, text, from, i);
        }
      }
    }
  }

  /** Once rule `j` matches, the rules after it play no part in the outcome. */
  lemma {:induction false} LaterRulesIrrelevant(r1: seq<Rule>, r2: seq<Rule>, text: string, from: nat, j: nat)
    requires from <= j < |r1| && j < |r2|
    requires forall n :: from <= n <= j ==> r1[n] == r2[n]
    requires Matches(r1[j], text)
    ensures FirstMatch(r1, text, from) == FirstMatch(r2, text, from)
    decreases j - from
  {
    if from < j {
      LaterRulesIrrelevant(r1, r2, text, from + 1, j);
    }
  }

  /** Two tables whose rules match alike and return the same profiles give the same outcome. */
  lemma {:induction false} EquivalentRules(r1: seq<Rule>, r2: seq<Rule>, text: string, from: nat)
    requires |r1| == |r2|
    requires forall n :: from <= n < |r1| ==> (Matches(r1[n], text) <==> Matches(r2[n], text))
    requires forall n :: from <= n < |r1| ==> r1[n].profile == r2[n].profile
    ensures FirstMatch(r1, text, from) == FirstMatch(r2, text, from)
    decreases |r1| - from
  {
    if from < |r1| {
      EquivalentRules(r1, r2, text, from + 1);
    }
  }

  /** `keywords` with every copy of `k` removed. */
  function Without(keywords: seq<string>, k: string): (r: seq<string>)
    ensures forall x :: x in r <==> x in keywords && x != k
  {
    if keywords == [] then []
    else if keywords[0] == k then Without(keywords[1..], k)
    else [keywords[0]] + Without(keywords[1..], k)
  }

  /** The table with keyword `k` struck from rule `i`. */
  function Strike(rules: seq<Rule>, i: nat, k: string): (r: seq<Rule>)
    requires i < |rules|
    ensures |r| == |rules|
    ensures r[i].keywords == Without(rules[i].keywords, k) && r[i].profile == rules[i].profile
    ensures forall n :: 0 <= n < |rules| && n != i ==> r[n] == rules[n]
  {
    rules[i := Rule(Without(rules[i].keywords, k), rules[i].profile)]
  }

  /**
   * A dead keyword: when `k` of rule `i` contains a keyword `k'` of an
   * earlier rule `j` (or another keyword of rule `i` itself), striking `k`
   * changes the outcome for no text at all.
   */
  lemma DeadKeyword(rules: seq<Rule>, i: nat, k: string, j: nat, k': string, text: string)
    requires j <= i < |rules|
    requires k in rules[i].keywords && k' in rules[j].keywords && Occurs(k', k)
    requires j == i ==> k' != k
    ensures FirstMatch(Strike(rules, i, k), text, 0) == FirstMatch(rules, text, 0)
  {
    var struck := Strike(rules, i, k);
    if Occurs(k, text) {
      OccursTransitive(k', k, text);
      if j < i {
        LaterRulesIrrelevant(rules, struck, text, 0, j);
      } else {
        assert k' in struck[i].keywords;
        EquivalentRules(rules, struck, text, 0);
      }
    } else {
      assert Matches(rules[i], text) <==> Matches(struck[i], text);
      EquivalentRules(rules, struck, text, 0);
    }
  }

  // ---------------------------------------------------------------------
  // Facts about the table
  // ---------------------------------------------------------------------

  /** A profile one of the 20 rules returns. */
  ghost predicate IsRuleProfile(p: SearchProfile) {
    exists i :: 0 <= i < |Rules| && Rules[i].profile == p
  }

  lemma ProfilesDistinctLow()
    ensures forall i, j :: 0 <= i < j < 10 ==> Rules[i].profile.keyword != Rules[j].profile.keyword
  {
  }

  lemma ProfilesDistinctHigh()
    ensures forall i, j :: 10 <= i < j < |Rules| ==> Rules[i].profile.keyword != Rules[j].profile.keyword
  {
  }

  lemma ProfilesDistinctAcross()
    ensures forall i, j :: 0 <= i < 10 <= j < |Rules| ==> Rules[i].profile.keyword != Rules[j].profile.keyword
  {
  }

  /** The rule profiles are 20 different values. */
  lemma ProfilesDistinct()
    ensures forall i, j :: 0 <= i < |Rules| && 0 <= j < |Rules| && i != j ==> Rules[i].profile != Rules[j].profile
  {
    ProfilesDistinctLow();
    ProfilesDistinctHigh();
    ProfilesDistinctAcross();
  }

  /** Neither fallback is a rule profile, and the two fallbacks differ. */
  lemma FallbacksDistinct()
    ensures forall i :: 0 <= i < |Rules| ==> Rules[i].profile != DefaultResult && Rules[i].profile != HospitalClinic
    ensures DefaultResult != HospitalClinic
  {
  }

  /** All four fields of the profile are non-empty. */
  predicate Named(p: SearchProfile) {
    p.keyword != "" && p.placeType != "" && p.title != "" && p.highlight != ""
  }

  /** Every one of the 22 profiles has all four fields non-empty. */
  lemma ProfilesNamed()
    ensures forall i :: 0 <= i < |Rules| ==> Named(Rules[i].profile)
    ensures Named(DefaultResult) && Named(HospitalClinic)
  {
  }

  /** Starts and ends with a lower-case ASCII letter. */
  predicate LetterEnds(k: string) {
    k != [] && 'a' <= k[0] <= 'z' && 'a' <= k[|k| - 1] <= 'z'
  }

  lemma KeywordsLetterEnds1()
    ensures forall k | k in OrthopedicKeywords :: LetterEnds(k)
    ensures forall k | k in RespiratoryKeywords :: LetterEnds(k)
    ensures forall k | k in CardiologyKeywords :: LetterEnds(k)
  {
  }

  lemma KeywordsLetterEnds2()
    ensures forall k | k in UrologyKeywords :: LetterEnds(k)
    ensures forall k | k in GastroenterologyKeywords :: LetterEnds(k)
    ensures forall k | k in NeurologyKeywords :: LetterEnds(k)
  {
  }

  lemma KeywordsLetterEnds3()
    ensures forall k | k in EndocrinologyKeywords :: LetterEnds(k)
    ensures forall k | k in DentalKeywords :: LetterEnds(k)
    ensures forall k | k in EyeCareKeywords :: LetterEnds(k)
  {
  }

  lemma KeywordsLetterEnds4()
    ensures forall k | k in DermatologyKeywords :: LetterEnds(k)
    ensures forall k | k in RheumatologyKeywords :: LetterEnds(k)
    ensures forall k | k in UrgentCareKeywords :: LetterEnds(k)
  {
  }

  lemma KeywordsLetterEnds5()
    ensures forall k | k in MentalHealthKeywords :: LetterEnds(k)
    ensures forall k | k in WoundCareKeywords :: LetterEnds(k)
    ensures forall k | k in WomensHealthKeywords :: LetterEnds(k)
  {
  }

  lemma KeywordsLetterEnds6()
    ensures forall k | k in PediatricsKeywords :: LetterEnds(k)
    ensures forall k | k in EarCareKeywords :: LetterEnds(k)
    ensures forall k | k in MensHealthKeywords :: LetterEnds(k)
  {
  }

  lemma KeywordsLetterEnds7()
    ensures forall k | k in ObstetricsKeywords :: LetterEnds(k)
    ensures forall k | k in AllergyKeywords :: LetterEnds(k)
  {
  }

  lemma KeywordsLetterEnds()
    ensures forall r, k | r in Rules && k in r.keywords :: LetterEnds(k)
  {
    KeywordsLetterEnds1();
    KeywordsLetterEnds2();
    KeywordsLetterEnds3();
    KeywordsLetterEnds4();
    KeywordsLetterEnds5();
    KeywordsLetterEnds6();
    KeywordsLetterEnds7();
  }

  /** Every keyword of the table is a word. */
  lemma KeywordsAreWords()
    ensures forall i, k :: 0 <= i < |Rules| && k in Rules[i].keywords ==> IsWord(k)
  {
    KeywordsLetterEnds();
    LetterEndsAreWords(Rules);
  }

  lemma LetterEndsAreWords(rules: seq<Rule>)
    requires forall r, k | r in rules && k in r.keywords :: LetterEnds(k)
    ensures forall i, k :: 0 <= i < |rules| && k in rules[i].keywords ==> IsWord(k)
  {
    forall i, k | 0 <= i < |rules| && k in rules[i].keywords ensures IsWord(k) {
      assert rules[i] in rules;
      assert LetterEnds(k);
    }
  }

  // ---------------------------------------------------------------------
  // The search text
  // ---------------------------------------------------------------------

  /** `condition?.name?.toLowerCase?.() ?? ""`; `None` stands for a missing or non-string name. */
  function LowerName(name: Option<string>): (r: string)
    ensures name.Some? ==> |r| == |name.value|
    ensures r == "" <==> name.None? || name.value == ""
  {
    Lower(name.GetOr(""))
  }

  /** The lowered name of every condition, in order. */
  function Names(conditions: seq<Option<string>>): (r: seq<string>)
    ensures |r| == |conditions|
    ensures forall i :: 0 <= i < |r| ==> (r[i] == "" <==> conditions[i].None? || conditions[i].value == "")
  {
    seq(|conditions|, i requires 0 <= i < |conditions| => LowerName(conditions[i]))
  }

  /** `.filter(Boolean)` on strings: keeps the non-empty ones, in order. */
  function NonEmpty(parts: seq<string>): (r: seq<string>)
    ensures forall p :: p in r <==> p in parts && p != ""
    ensures |r| <= |parts|
  {
    if parts == [] then []
    else if parts[0] == "" then NonEmpty(parts[1..])
    else [parts[0]] + NonEmpty(parts[1..])
  }

  /** Filtering works piece by piece, so it keeps the order of the parts. */
  lemma {:induction false} NonEmptyAppend(a: seq<string>, b: seq<string>)
    ensures NonEmpty(a + b) == NonEmpty(a) + NonEmpty(b)
  {
    if a == [] {
      assert a + b == b;
    } else {
      assert (a + b)[0] == a[0];
      assert (a + b)[1..] == a[1..] + b;
      NonEmptyAppend(a[1..], b);
    }
  }

  /** `conditions.map(...).filter(Boolean).join(" ")`. */
  function ConditionText(conditions: seq<Option<string>>): (r: string)
    ensures r == "" <==> forall i :: 0 <= i < |conditions| ==> conditions[i].None? || conditions[i].value == ""
    ensures forall i :: 0 <= i < |conditions| && conditions[i].Some? ==> Occurs(Lower(conditions[i].value), r)
  {
    NamesInJoin(conditions);
    JoinWithSpaces(NonEmpty(Names(conditions)))
  }

  /** The joined names contain every present name, and are empty exactly when every name is missing or empty. */
  lemma NamesInJoin(conditions: seq<Option<string>>)
    ensures var r := JoinWithSpaces(NonEmpty(Names(conditions)));
      (r == "" <==> forall i :: 0 <= i < |conditions| ==> conditions[i].None? || conditions[i].value == "") &&
      (forall i :: 0 <= i < |conditions| && conditions[i].Some? ==> Occurs(Lower(conditions[i].value), r))
  {
    var names := Names(conditions);
    var parts := NonEmpty(names);
    var r := JoinWithSpaces(parts);
    forall i | 0 <= i < |conditions| && conditions[i].Some?
      ensures Occurs(Lower(conditions[i].value), r)
    {
      if names[i] == "" {
        assert OccursAt(names[i], r, 0);
      } else {
        NamePartOccurs(parts, r, names[i]);
      }
    }
    if parts != [] {
      assert parts[0] in names;
      NamePartOccurs(parts, r, parts[0]);
    }
  }

  /** A non-empty part of a space-joined list occurs in it, so the joined text is not empty. */
  lemma NamePartOccurs(parts: seq<string>, r: string, p: string)
    requires r == JoinWithSpaces(parts)
    requires p in parts && p != ""
    ensures Occurs(p, r) && r != ""
  {
    var j :| 0 <= j < |parts| && parts[j] == p;
    var q :| OccursAt(p, r, q);
  }

  /** `joined`: `${normalizedHint} ${conditionText}`.trim(). */
  function SearchText(conditions: seq<Option<string>>, specialtyHint: string): (r: string)
    ensures r == "" || IsWord(r)
  {
    Trim(Lower(specialtyHint) + " " + ConditionText(conditions))
  }

  /** The hint and every present name are all whitespace (the empty string included). */
  ghost predicate NothingToSearch(conditions: seq<Option<string>>, specialtyHint: string) {
    && AllWhitespace(specialtyHint)
    && forall i :: 0 <= i < |conditions| && conditions[i].Some? ==> AllWhitespace(conditions[i].value)
  }

  /** The search text is empty exactly when there is nothing but whitespace to search. */
  lemma SearchTextEmpty(conditions: seq<Option<string>>, specialtyHint: string)
    ensures SearchText(conditions, specialtyHint) == "" <==> NothingToSearch(conditions, specialtyHint)
  {
    var names := Names(conditions);
    var parts := NonEmpty(names);
    var hint := Lower(specialtyHint);
    AllWhitespaceConcat(hint + " ", ConditionText(conditions));
    AllWhitespaceConcat(hint, " ");
    LowerKeepsWhitespace(specialtyHint);
    JoinAllWhitespace(parts);
    forall i | 0 <= i < |conditions| && conditions[i].Some?
      ensures AllWhitespace(names[i]) <==> AllWhitespace(conditions[i].value)
    {
      LowerKeepsWhitespace(conditions[i].value);
    }
    if forall i :: 0 <= i < |parts| ==> AllWhitespace(parts[i]) {
      forall i | 0 <= i < |conditions| && conditions[i].Some?
        ensures AllWhitespace(names[i])
      {
        if names[i] != "" {
          assert names[i] in parts;
        }
      }
    }
    if NothingToSearch(conditions, specialtyHint) {
      forall i | 0 <= i < |parts| ensures AllWhitespace(parts[i]) {
        assert parts[i] in names;
      }
    }
  }

  /** A missing name, or an empty one, contributes nothing to the search text wherever it stands. */
  lemma MissingNameIgnored(conditions: seq<Option<string>>, i: nat, name: Option<string>, specialtyHint: string)
    requires i <= |conditions|
    requires name == None || name == Some("")
    ensures SearchText(conditions[..i] + [name] + conditions[i..], specialtyHint) == SearchText(conditions, specialtyHint)
  {
    FilteredNamesIgnoreMissing(conditions, i, name);
  }

  /** The missing name is dropped by the filter, so the filtered names are unchanged. */
  lemma FilteredNamesIgnoreMissing(conditions: seq<Option<string>>, i: nat, name: Option<string>)
    requires i <= |conditions|
    requires name == None || name == Some("")
    ensures NonEmpty(Names(conditions[..i] + [name] + conditions[i..])) == NonEmpty(Names(conditions))
  {
    var front, back := conditions[..i], conditions[i..];
    assert conditions == front + back;
    NamesAppend(front + [name], back);
    NamesAppend(front, [name]);
    NamesAppend(front, back);
    assert Names([name]) == [""];
    assert NonEmpty([""]) == [];
    NonEmptyAppend(Names(front) + [""], Names(back));
    NonEmptyAppend(Names(front), [""]);
    NonEmptyAppend(Names(front), Names(back));
  }

  /** Lowering the names works condition by condition. */
  lemma NamesAppend(a: seq<Option<string>>, b: seq<Option<string>>)
    ensures Names(a + b) == Names(a) + Names(b)
  {
    assert forall n :: 0 <= n < |a + b| ==> Names(a + b)[n] == (Names(a) + Names(b))[n];
  }

  /** A word in the lowered hint reaches the search text. */
  lemma HintReachesText(conditions: seq<Option<string>>, specialtyHint: string, k: string)
    requires IsWord(k) && Occurs(k, Lower(specialtyHint))
    ensures Occurs(k, SearchText(conditions, specialtyHint))
  {
    OccursInLeft(k, Lower(specialtyHint), " " + ConditionText(conditions));
    assert Lower(specialtyHint) + " " + ConditionText(conditions) == Lower(specialtyHint) + (" " + ConditionText(conditions));
    OccursSurvivesTrim(k, Lower(specialtyHint) + " " + ConditionText(conditions));
  }

  /** A word in a lowered condition name reaches the search text. */
  lemma NameReachesText(conditions: seq<Option<string>>, specialtyHint: string, i: nat, k: string)
    requires i < |conditions| && conditions[i].Some?
    requires IsWord(k) && Occurs(k, Lower(conditions[i].value))
    ensures Occurs(k, SearchText(conditions, specialtyHint))
  {
    var names := Names(conditions);
    var parts := NonEmpty(names);
    assert names[i] != "" by {
      var p :| OccursAt(k, names[i], p);
    }
    assert names[i] in parts;
    var n :| 0 <= n < |parts| && parts[n] == names[i];
    OccursTransitive(k, parts[n], ConditionText(conditions));
    OccursInRight(k, Lower(specialtyHint) + " ", ConditionText(conditions));
    OccursSurvivesTrim(k, Lower(specialtyHint) + " " + ConditionText(conditions));
  }

  /** With no hint, a single name that is a word is searched as its lower-cased self. */
  lemma SearchTextOfName(name: string)
    requires IsWord(Lower(name))
    ensures SearchText([Some(name)], "") == Lower(name)
  {
    assert Names([Some(name)]) == [Lower(name)];
    assert Lower("") + " " + ConditionText([Some(name)]) == " " + Lower(name) + "";
    TrimAround(" ", Lower(name), "");
  }

  /** With no conditions, a hint that is a word is searched as its lower-cased self. */
  lemma SearchTextOfHint(specialtyHint: string)
    requires IsWord(Lower(specialtyHint))
    ensures SearchText([], specialtyHint) == Lower(specialtyHint)
  {
    assert ConditionText([]) == "";
    assert Lower(specialtyHint) + " " + ConditionText([]) == "" + Lower(specialtyHint) + " ";
    TrimAround("", Lower(specialtyHint), " ");
  }

  /** With no hint, two names that are words are searched as their lowered forms joined by a space. */
  lemma SearchTextOfTwoNames(first: string, second: string)
    requires IsWord(Lower(first)) && IsWord(Lower(second))
    ensures SearchText([Some(first), Some(second)], "") == Lower(first) + " " + Lower(second)
  {
    var joined := Lower(first) + " " + Lower(second);
    assert Names([Some(first), Some(second)]) == [Lower(first), Lower(second)];
    assert NonEmpty([Lower(first), Lower(second)]) == [Lower(first), Lower(second)];
    assert [Lower(first), Lower(second)][1..] == [Lower(second)];
    assert ConditionText([Some(first), Some(second)]) == joined;
    assert Lower("") + " " + joined == " " + joined + "";
    assert joined[0] == Lower(first)[0] && joined[|joined| - 1] == Lower(second)[|Lower(second)| - 1];
    TrimAround(" ", joined, "");
  }

  /** Inputs that agree once lower-cased give the same search text. */
  lemma SearchTextIgnoresCase(c1: seq<Option<string>>, h1: string, c2: seq<Option<string>>, h2: string)
    requires Lower(h1) == Lower(h2)
    requires |c1| == |c2| && forall i :: 0 <= i < |c1| ==> LowerName(c1[i]) == LowerName(c2[i])
    ensures SearchText(c1, h1) == SearchText(c2, h2)
  {
    assert Names(c1) == Names(c2);
  }

  // ---------------------------------------------------------------------
  // deriveSpecialtySearch
  // ---------------------------------------------------------------------

  /**
   * `deriveSpecialtySearch(conditions, specialtyHint)`. A `conditions`
   * argument that is not an array is passed as `[]`, a missing hint as `""`.
   * The result is `DefaultResult` exactly when there is nothing to search,
   * and it is always one of the 22 fixed profiles, each of which names a
   * keyword and a title.
   */
  function DeriveSpecialtySearch(conditions: seq<Option<string>>, specialtyHint: string): (r: SearchProfile)
    ensures r == DefaultResult <==> NothingToSearch(conditions, specialtyHint)
    ensures r == DefaultResult || r == HospitalClinic || IsRuleProfile(r)
    ensures Named(r)
  {
    var joined := SearchText(conditions, specialtyHint);
    SearchTextEmpty(conditions, specialtyHint);
    FallbacksDistinct();
    ProfilesNamed();
    FirstMatchCases(Rules, joined, 0);
    if joined == "" then DefaultResult else FirstMatch(Rules, joined, 0)
  }

  /** With a blank hint and every name missing or empty, the result is exactly `DEFAULT_RESULT`. */
  lemma EmptyInputGivesDefault(conditions: seq<Option<string>>)
    requires forall i :: 0 <= i < |conditions| ==> conditions[i] == None || conditions[i] == Some("")
    ensures DeriveSpecialtySearch(conditions, "") == DefaultResult
    ensures DeriveSpecialtySearch(conditions, "").keyword == "hospital"
  {
    assert NothingToSearch(conditions, "");
  }

  /** A rule matches only a text that is not all whitespace. */
  lemma MatchNeedsText(i: nat, text: string)
    requires i < |Rules| && Matches(Rules[i], text)
    ensures text != "" && !AllWhitespace(text)
  {
    KeywordsAreWords();
    MatchOfWordsNeedsText(Rules[i], text);
  }

  lemma MatchOfWordsNeedsText(rule: Rule, text: string)
    requires forall k :: k in rule.keywords ==> IsWord(k)
    requires Matches(rule, text)
    ensures text != "" && !AllWhitespace(text)
  {
    var k :| k in rule.keywords && Occurs(k, text);
    var p :| OccursAt(k, text, p);
    OccurrenceEnds(k, text, p);
  }

  /** First match wins: the result is the profile of the first rule matching the search text. */
  lemma DeriveFirstMatch(conditions: seq<Option<string>>, specialtyHint: string, i: int)
    requires FirstMatchIs(Rules, SearchText(conditions, specialtyHint), 0, i)
    ensures DeriveSpecialtySearch(conditions, specialtyHint) == Rules[i].profile
  {
    MatchNeedsText(i, SearchText(conditions, specialtyHint));
    FirstMatchWins(Rules, SearchText(conditions, specialtyHint), 0, i);
  }

  /** The "hospital clinic" fallback comes exactly from a non-blank input that no rule matches. */
  lemma DeriveFallback(conditions: seq<Option<string>>, specialtyHint: string)
    ensures DeriveSpecialtySearch(conditions, specialtyHint) == HospitalClinic
        <==> !NothingToSearch(conditions, specialtyHint)
             && forall j :: 0 <= j < |Rules| ==> !Matches(Rules[j], SearchText(conditions, specialtyHint))
  {
    var text := SearchText(conditions, specialtyHint);
    SearchTextEmpty(conditions, specialtyHint);
    FallbacksDistinct();
    FirstMatchCases(Rules, text, 0);
  }

  /**
   * A keyword of rule `i` in the hint or in a condition name decides the
   * result, unless an earlier rule matches the search text.
   */
  lemma DeriveByKeyword(conditions: seq<Option<string>>, specialtyHint: string, i: nat, k: string)
    requires i < |Rules| && k in Rules[i].keywords
    requires || Occurs(k, Lower(specialtyHint))
             || exists n :: 0 <= n < |conditions| && conditions[n].Some? && Occurs(k, Lower(conditions[n].value))
    requires forall j :: 0 <= j < i ==> !Matches(Rules[j], SearchText(conditions, specialtyHint))
    ensures DeriveSpecialtySearch(conditions, specialtyHint) == Rules[i].profile
  {
    KeywordsAreWords();
    if Occurs(k, Lower(specialtyHint)) {
      HintReachesText(conditions, specialtyHint, k);
    } else {
      var n :| 0 <= n < |conditions| && conditions[n].Some? && Occurs(k, Lower(conditions[n].value));
      NameReachesText(conditions, specialtyHint, n, k);
    }
    DeriveFirstMatch(conditions, specialtyHint, i);
  }

  /** When rule `j` matches the search text, the result comes from rule `j` or an earlier one. */
  lemma DeriveAtOrBefore(conditions: seq<Option<string>>, specialtyHint: string, j: nat)
    requires j < |Rules| && Matches(Rules[j], SearchText(conditions, specialtyHint))
    ensures exists i :: 0 <= i <= j && DeriveSpecialtySearch(conditions, specialtyHint) == Rules[i].profile
  {
    var text := SearchText(conditions, specialtyHint);
    MatchNeedsText(j, text);
    FirstMatchCases(Rules, text, 0);
    var i :| FirstMatchIs(Rules, text, 0, i) && FirstMatch(Rules, text, 0) == Rules[i].profile;
  }

  /** Inputs that agree once lower-cased get the same result. */
  lemma DeriveIgnoresCase(c1: seq<Option<string>>, h1: string, c2: seq<Option<string>>, h2: string)
    requires Lower(h1) == Lower(h2)
    requires |c1| == |c2| && forall i :: 0 <= i < |c1| ==> LowerName(c1[i]) == LowerName(c2[i])
    ensures DeriveSpecialtySearch(c1, h1) == DeriveSpecialtySearch(c2, h2)
  {
    SearchTextIgnoresCase(c1, h1, c2, h2);
  }

  /** Upper-casing the hint and every name leaves the result unchanged. */
  lemma DeriveIgnoresUpperCase(conditions: seq<Option<string>>, specialtyHint: string)
    ensures DeriveSpecialtySearch(UpperNames(conditions), Upper(specialtyHint))
         == DeriveSpecialtySearch(conditions, specialtyHint)
  {
    LowerIgnoresCase(specialtyHint);
    forall i | 0 <= i < |conditions| && conditions[i].Some? {
      LowerIgnoresCase(conditions[i].value);
    }
    DeriveIgnoresCase(UpperNames(conditions), Upper(specialtyHint), conditions, specialtyHint);
  }

  /** Every present name upper-cased. */
  function UpperNames(conditions: seq<Option<string>>): (r: seq<Option<string>>)
    ensures |r| == |conditions|
    ensures forall i :: 0 <= i < |r| ==> r[i].Some? == conditions[i].Some?
    ensures forall i :: 0 <= i < |r| && r[i].Some? ==> r[i].value == Upper(conditions[i].value)
  {
    seq(|conditions|, i requires 0 <= i < |conditions| =>
      match conditions[i]
      case Some(s) => Some(Upper(s))
      case None => None)
  }
}
