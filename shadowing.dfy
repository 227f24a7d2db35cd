/**
 * Consequences of matching by substring over an ordered table: keywords
 * that can never decide the outcome, and the respiratory "ent" keyword
 * capturing words that merely contain it.
 */
module Shadowing {
  import opened Wrappers
  import opened Text
  import opened SpecialityHospitals

  /** The respiratory rule (index 1) lists "ent". */
  lemma RespiratoryListsEnt()
    ensures Rules[1].keywords == RespiratoryKeywords && "ent" in Rules[1].keywords
    ensures Rules[1].profile == Respiratory
  {
  }

  /** The orthopedic rule comes first. */
  lemma OrthopedicIsFirst()
    ensures Rules[0].keywords == OrthopedicKeywords && Rules[0].profile == Orthopedic
  {
  }

  /**
   * Any keyword of a later rule that contains "ent" is dead: striking it
   * from its rule changes the outcome for no text.
   */
  lemma EntShadowsLaterKeyword(i: nat, k: string, text: string)
    requires 1 < i < |Rules| && k in Rules[i].keywords && Occurs("ent", k)
    ensures FirstMatch(Strike(Rules, i, k), text, 0) == FirstMatch(Rules, text, 0)
  {
    RespiratoryListsEnt();
    DeadKeyword(Rules, i, k, 1, "ent", text);
  }

  /** "dental", "dentist" and "dentistry" never decide the dental rule (index 7). */
  lemma DentalKeywordsAreDead(text: string)
    ensures FirstMatch(Strike(Rules, 7, "dental"), text, 0) == FirstMatch(Rules, text, 0)
    ensures FirstMatch(Strike(Rules, 7, "dentist"), text, 0) == FirstMatch(Rules, text, 0)
    ensures FirstMatch(Strike(Rules, 7, "dentistry"), text, 0) == FirstMatch(Rules, text, 0)
  {
    assert Rules[7].keywords == DentalKeywords;
    assert OccursAt("ent", "dental", 1) && OccursAt("ent", "dentist", 1) && OccursAt("ent", "dentistry", 1);
    EntShadowsLaterKeyword(7, "dental", text);
    EntShadowsLaterKeyword(7, "dentist", text);
    EntShadowsLaterKeyword(7, "dentistry", text);
  }

  /** "mental" never decides the mental-health rule (index 12). */
  lemma MentalKeywordIsDead(text: string)
    ensures FirstMatch(Strike(Rules, 12, "mental"), text, 0) == FirstMatch(Rules, text, 0)
  {
    assert Rules[12].keywords == MentalHealthKeywords;
    assert OccursAt("ent", "mental", 1);
    EntShadowsLaterKeyword(12, "mental", text);
  }

  /** "urgent care" never decides the wound-care rule (index 13). */
  lemma UrgentCareKeywordIsDead(text: string)
    ensures FirstMatch(Strike(Rules, 13, "urgent care"), text, 0) == FirstMatch(Rules, text, 0)
  {
    assert Rules[13].keywords == WoundCareKeywords;
    assert OccursAt("ent", "urgent care", 3);
    EntShadowsLaterKeyword(13, "urgent care", text);
  }

  /** The ear rule's own "ent" (index 16) is pre-empted by the respiratory "ent". */
  lemma EarEntIsDead(text: string)
    ensures FirstMatch(Strike(Rules, 16, "ent"), text, 0) == FirstMatch(Rules, text, 0)
  {
    assert Rules[16].keywords == EarCareKeywords;
    assert OccursAt("ent", "ent", 0);
    EntShadowsLaterKeyword(16, "ent", text);
  }

  /** "asthma" in the allergy rule (index 19) is pre-empted by the respiratory "asthma". */
  lemma AllergyAsthmaIsDead(text: string)
    ensures FirstMatch(Strike(Rules, 19, "asthma"), text, 0) == FirstMatch(Rules, text, 0)
  {
    assert Rules[1].keywords == RespiratoryKeywords && Rules[19].keywords == AllergyKeywords;
    assert OccursAt("asthma", "asthma", 0);
    DeadKeyword(Rules, 19, "asthma", 1, "asthma", text);
  }

  /** "red eye" is subsumed by "eye" in the same rule (index 8). */
  lemma RedEyeIsDead(text: string)
    ensures FirstMatch(Strike(Rules, 8, "red eye"), text, 0) == FirstMatch(Rules, text, 0)
  {
    assert Rules[8].keywords == EyeCareKeywords;
    assert OccursAt("eye", "red eye", 4);
    DeadKeyword(Rules, 8, "red eye", 8, "eye", text);
  }

  /** A search text containing "asthma" is classified orthopedic or respiratory, never allergy. */
  lemma AsthmaNeverGivesAllergy(conditions: seq<Option<string>>, specialtyHint: string)
    requires Occurs("asthma", SearchText(conditions, specialtyHint))
    ensures DeriveSpecialtySearch(conditions, specialtyHint) in {Orthopedic, Respiratory}
    ensures DeriveSpecialtySearch(conditions, specialtyHint) != Allergy
  {
    var text := SearchText(conditions, specialtyHint);
    AsthmaMatchesRespiratory(text);
    MatchNeedsText(1, text);
    FirstOrSecondRule(Rules, text);
    OrthopedicIsFirst();
    RespiratoryListsEnt();
  }

  /** When the second rule of a table matches, the first or the second decides. */
  lemma FirstOrSecondRule(rules: seq<Rule>, text: string)
    requires 1 < |rules| && Matches(rules[1], text)
    ensures FirstMatch(rules, text, 0) in {rules[0].profile, rules[1].profile}
  {
    assert FirstMatch(rules, text, 1) == rules[1].profile;
  }

  /** Any text containing "asthma" matches the respiratory rule. */
  lemma AsthmaMatchesRespiratory(text: string)
    requires Occurs("asthma", text)
    ensures Matches(Rules[1], text)
  {
    RespiratoryListsEnt();
    assert "asthma" in RespiratoryKeywords;
  }

  /**
   * Substring matching: a search text containing "ent" and no orthopedic
   * keyword is classified respiratory/ENT, whatever word the "ent" is part of.
   */
  lemma EntGivesRespiratory(conditions: seq<Option<string>>, specialtyHint: string)
    requires Occurs("ent", SearchText(conditions, specialtyHint))
    requires forall k | k in OrthopedicKeywords :: !Occurs(k, SearchText(conditions, specialtyHint))
    ensures DeriveSpecialtySearch(conditions, specialtyHint) == Respiratory
  {
    var text := SearchText(conditions, specialtyHint);
    RespiratoryListsEnt();
    OrthopedicIsFirst();
    assert FirstMatchIs(Rules, text, 0, 1);
    DeriveFirstMatch(conditions, specialtyHint, 1);
  }
}
