/**
 * Worked inputs for `deriveSpecialtySearch`, each proved about the model:
 * what the rule chain returns for a concrete search text, and how concrete
 * hints and condition names become that text.
 */
module Scenarios {
  import opened Wrappers
  import opened Text
  import opened SpecialityHospitals

  /** When no keyword of rules `0..i-1` occurs in `text` and keyword `k` of rule `i` does, rule `i` decides. */
  lemma FirstMatchByKeyword(rules: seq<Rule>, text: string, i: nat, k: string)
    requires i < |rules|
    requires forall j, k' :: 0 <= j < i && k' in rules[j].keywords ==> !Occurs(k', text)
    requires k in rules[i].keywords && Occurs(k, text)
    ensures FirstMatch(rules, text, 0) == rules[i].profile
  {
    assert FirstMatchIs(rules, text, 0, i);
    FirstMatchWins(rules, text, 0, i);
  }

  /** When no keyword of any rule occurs in `text`, the chain falls through to "hospital clinic". */
  lemma NoKeywordFallsThrough(rules: seq<Rule>, text: string)
    requires forall j, k :: 0 <= j < |rules| && k in rules[j].keywords ==> !Occurs(k, text)
    ensures FirstMatch(rules, text, 0) == HospitalClinic
  {
    NoMatchFallsThrough(rules, text, 0);
  }

  /** For a non-empty search text the result is what the rule chain returns for it. */
  lemma DeriveOnText(conditions: seq<Option<string>>, specialtyHint: string, text: string)
    requires SearchText(conditions, specialtyHint) == text && text != ""
    ensures DeriveSpecialtySearch(conditions, specialtyHint) == FirstMatch(Rules, text, 0)
  {
  }

  /**
   * `SearchTextOfTwoNames` with the lowered names and the joined text
   * passed in as variables. Applied to the literal names directly, the
   * lowering and trimming would be unfolded on the string literals, which
   * is too costly to verify; through this lemma the literals only meet
   * its precondition.
   */
  lemma SearchTextOfTwoWords(first: string, second: string, lf: string, ls: string, text: string)
    requires Lower(first) == lf && Lower(second) == ls && IsWord(lf) && IsWord(ls) && lf + " " + ls == text
    ensures SearchText([Some(first), Some(second)], "") == text
  {
    SearchTextOfTwoNames(first, second);
  }

  /** No Orthopedic keyword occurs in "dental". */
  lemma DentalTextMissesOrthopedic()
    ensures forall k | k in OrthopedicKeywords :: !Occurs(k, "dental")
  {
    forall k | k in OrthopedicKeywords ensures !Occurs(k, "dental") {
      if 'i' in k {
        MissingCharacter(k, "dental", 'i');
      } else {
        MissingCharacter(k, "dental", 'c');
      }
    }
  }

  /** The text "dental" is captured by the respiratory "ent", not the dental rule. */
  lemma DentalText()
    ensures FirstMatch(Rules, "dental", 0) == Respiratory
  {
    DentalTextMissesOrthopedic();
    assert Rules[0].keywords == OrthopedicKeywords;
    assert Rules[1] == Rule(RespiratoryKeywords, Respiratory);
    assert OccursAt("ent", "dental", 1);
    FirstMatchByKeyword(Rules, "dental", 1, "ent");
  }

  /** No Orthopedic keyword occurs in "mental". */
  lemma MentalTextMissesOrthopedic()
    ensures forall k | k in OrthopedicKeywords :: !Occurs(k, "mental")
  {
    forall k | k in OrthopedicKeywords ensures !Occurs(k, "mental") {
      if 'i' in k {
        MissingCharacter(k, "mental", 'i');
      } else {
        MissingCharacter(k, "mental", 'c');
      }
    }
  }

  /** The text "mental" is captured by the respiratory "ent", not the mental-health rule. */
  lemma MentalText()
    ensures FirstMatch(Rules, "mental", 0) == Respiratory
  {
    MentalTextMissesOrthopedic();
    assert Rules[0].keywords == OrthopedicKeywords;
    assert Rules[1] == Rule(RespiratoryKeywords, Respiratory);
    assert OccursAt("ent", "mental", 1);
    FirstMatchByKeyword(Rules, "mental", 1, "ent");
  }

  /** No Orthopedic keyword occurs in "urgent care". */
  lemma UrgentCareTextMissesOrthopedic()
    ensures forall k | k in OrthopedicKeywords :: !Occurs(k, "urgent care")
  {
    forall k | k in OrthopedicKeywords ensures !Occurs(k, "urgent care") {
      if 'i' in k {
        MissingCharacter(k, "urgent care", 'i');
      } else if 'f' in k {
        MissingCharacter(k, "urgent care", 'f');
      } else {
        MissingCharacter(k, "urgent care", 'l');
      }
    }
  }

  /** The text "urgent care" is captured by the respiratory "ent", not the wound-care rule. */
  lemma UrgentCareText()
    ensures FirstMatch(Rules, "urgent care", 0) == Respiratory
  {
    UrgentCareTextMissesOrthopedic();
    assert Rules[0].keywords == OrthopedicKeywords;
    assert Rules[1] == Rule(RespiratoryKeywords, Respiratory);
    assert OccursAt("ent", "urgent care", 3);
    FirstMatchByKeyword(Rules, "urgent care", 1, "ent");
  }

  /** No Orthopedic keyword occurs in "heart tooth". */
  lemma HeartToothTextMissesOrthopedic()
    ensures forall k | k in OrthopedicKeywords :: !Occurs(k, "heart tooth")
  {
    forall k | k in OrthopedicKeywords ensures !Occurs(k, "heart tooth") {
      if 'i' in k {
        MissingCharacter(k, "heart tooth", 'i');
      } else {
        MissingCharacter(k, "heart tooth", 'c');
      }
    }
  }

  /** No Respiratory keyword occurs in "heart tooth". */
  lemma HeartToothTextMissesRespiratory()
    ensures forall k | k in RespiratoryKeywords :: !Occurs(k, "heart tooth")
  {
    forall k | k in RespiratoryKeywords ensures !Occurs(k, "heart tooth") {
      if 's' in k {
        MissingCharacter(k, "heart tooth", 's');
      } else if 'l' in k {
        MissingCharacter(k, "heart tooth", 'l');
      } else if 'c' in k {
        MissingCharacter(k, "heart tooth", 'c');
      } else {
        MissingCharacter(k, "heart tooth", 'n');
      }
    }
  }

  /** Heart and tooth together: the earlier cardiology rule wins over the dental rule. */
  lemma HeartToothText()
    ensures FirstMatch(Rules, "heart tooth", 0) == Cardiology
  {
    HeartToothTextMissesOrthopedic();
    HeartToothTextMissesRespiratory();
    assert Rules[0].keywords == OrthopedicKeywords;
    assert Rules[1].keywords == RespiratoryKeywords;
    assert Rules[2] == Rule(CardiologyKeywords, Cardiology);
    assert OccursAt("heart", "heart tooth", 0);
    FirstMatchByKeyword(Rules, "heart tooth", 2, "heart");
  }

  /** "tendonitis" does not occur in "tension headache", checked position by position. */
  lemma TendonitisAbsentFromTensionHeadache()
    ensures !Occurs("tendonitis", "tension headache")
  {
    assert !IncludesFrom("tension headache", "tendonitis", 6);
    assert !IncludesFrom("tension headache", "tendonitis", 4);
    assert !IncludesFrom("tension headache", "tendonitis", 2);
    assert !IncludesFrom("tension headache", "tendonitis", 0);
    IncludesFromIsOccurrence("tension headache", "tendonitis", 0);
  }

  /** "tendinitis" does not occur in "tension headache", checked position by position. */
  lemma TendinitisAbsentFromTensionHeadache()
    ensures !Occurs("tendinitis", "tension headache")
  {
    assert !IncludesFrom("tension headache", "tendinitis", 6);
    assert !IncludesFrom("tension headache", "tendinitis", 4);
    assert !IncludesFrom("tension headache", "tendinitis", 2);
    assert !IncludesFrom("tension headache", "tendinitis", 0);
    IncludesFromIsOccurrence("tension headache", "tendinitis", 0);
  }

  /** No Orthopedic keyword occurs in "tension headache". */
  lemma TensionHeadacheTextMissesOrthopedic()
    ensures forall k | k in OrthopedicKeywords :: !Occurs(k, "tension headache")
  {
    forall k | k in OrthopedicKeywords ensures !Occurs(k, "tension headache") {
      if 'r' in k {
        MissingCharacter(k, "tension headache", 'r');
      } else if 'l' in k {
        MissingCharacter(k, "tension headache", 'l');
      } else if 'b' in k {
        MissingCharacter(k, "tension headache", 'b');
      } else if 'j' in k {
        MissingCharacter(k, "tension headache", 'j');
      } else if k == "tendonitis" {
        TendonitisAbsentFromTensionHeadache();
      } else {
        TendinitisAbsentFromTensionHeadache();
      }
    }
  }

  /** "ent" does not occur in "tension headache", checked position by position. */
  lemma EntAbsentFromTensionHeadache()
    ensures !Occurs("ent", "tension headache")
  {
    assert !IncludesFrom("tension headache", "ent", 12);
    assert !IncludesFrom("tension headache", "ent", 10);
    assert !IncludesFrom("tension headache", "ent", 8);
    assert !IncludesFrom("tension headache", "ent", 6);
    assert !IncludesFrom("tension headache", "ent", 4);
    assert !IncludesFrom("tension headache", "ent", 2);
    assert !IncludesFrom("tension headache", "ent", 0);
    IncludesFromIsOccurrence("tension headache", "ent", 0);
  }

  /** No Respiratory keyword occurs in "tension headache". */
  lemma TensionHeadacheTextMissesRespiratory()
    ensures forall k | k in RespiratoryKeywords :: !Occurs(k, "tension headache")
  {
    forall k | k in RespiratoryKeywords ensures !Occurs(k, "tension headache") {
      if 'u' in k {
        MissingCharacter(k, "tension headache", 'u');
      } else if 'r' in k {
        MissingCharacter(k, "tension headache", 'r');
      } else if 'l' in k {
        MissingCharacter(k, "tension headache", 'l');
      } else if 'm' in k {
        MissingCharacter(k, "tension headache", 'm');
      } else {
        EntAbsentFromTensionHeadache();
      }
    }
  }

  /** No Cardiology keyword occurs in "tension headache". */
  lemma TensionHeadacheTextMissesCardiology()
    ensures forall k | k in CardiologyKeywords :: !Occurs(k, "tension headache")
  {
    forall k | k in CardiologyKeywords ensures !Occurs(k, "tension headache") {
      if 'r' in k {
        MissingCharacter(k, "tension headache", 'r');
      } else {
        MissingCharacter(k, "tension headache", 'p');
      }
    }
  }

  /** No Urology keyword occurs in "tension headache". */
  lemma TensionHeadacheTextMissesUrology()
    ensures forall k | k in UrologyKeywords :: !Occurs(k, "tension headache")
  {
    forall k | k in UrologyKeywords ensures !Occurs(k, "tension headache") {
      if 'r' in k {
        MissingCharacter(k, "tension headache", 'r');
      } else if 'k' in k {
        MissingCharacter(k, "tension headache", 'k');
      } else {
        MissingCharacter(k, "tension headache", 'u');
      }
    }
  }

  /** "acid" does not occur in "tension headache", checked position by position. */
  lemma AcidAbsentFromTensionHeadache()
    ensures !Occurs("acid", "tension headache")
  {
    assert !IncludesFrom("tension headache", "acid", 12);
    assert !IncludesFrom("tension headache", "acid", 10);
    assert !IncludesFrom("tension headache", "acid", 8);
    assert !IncludesFrom("tension headache", "acid", 6);
    assert !IncludesFrom("tension headache", "acid", 4);
    assert !IncludesFrom("tension headache", "acid", 2);
    assert !IncludesFrom("tension headache", "acid", 0);
    IncludesFromIsOccurrence("tension headache", "acid", 0);
  }

  /** No Gastroenterology keyword occurs in "tension headache". */
  lemma TensionHeadacheTextMissesGastroenterology()
    ensures forall k | k in GastroenterologyKeywords :: !Occurs(k, "tension headache")
  {
    forall k | k in GastroenterologyKeywords ensures !Occurs(k, "tension headache") {
      if 'r' in k {
        MissingCharacter(k, "tension headache", 'r');
      } else if 'g' in k {
        MissingCharacter(k, "tension headache", 'g');
      } else if 'm' in k {
        MissingCharacter(k, "tension headache", 'm');
      } else if 'p' in k {
        MissingCharacter(k, "tension headache", 'p');
      } else {
        AcidAbsentFromTensionHeadache();
      }
    }
  }

  /** "tension headache" is classified by its "headache". */
  lemma TensionHeadacheText()
    ensures FirstMatch(Rules, "tension headache", 0) == Neurology
  {
    TensionHeadacheTextMissesOrthopedic();
    TensionHeadacheTextMissesRespiratory();
    TensionHeadacheTextMissesCardiology();
    TensionHeadacheTextMissesUrology();
    TensionHeadacheTextMissesGastroenterology();
    assert Rules[0].keywords == OrthopedicKeywords;
    assert Rules[1].keywords == RespiratoryKeywords;
    assert Rules[2].keywords == CardiologyKeywords;
    assert Rules[3].keywords == UrologyKeywords;
    assert Rules[4].keywords == GastroenterologyKeywords;
    assert Rules[5] == Rule(NeurologyKeywords, Neurology);
    assert OccursAt("headache", "tension headache", 8);
    FirstMatchByKeyword(Rules, "tension headache", 5, "headache");
  }

  /** No Orthopedic keyword occurs in "migraine". */
  lemma MigraineTextMissesOrthopedic()
    ensures forall k | k in OrthopedicKeywords :: !Occurs(k, "migraine")
  {
    forall k | k in OrthopedicKeywords ensures !Occurs(k, "migraine") {
      if 't' in k {
        MissingCharacter(k, "migraine", 't');
      } else if 'c' in k {
        MissingCharacter(k, "migraine", 'c');
      } else {
        MissingCharacter(k, "migraine", 'p');
      }
    }
  }

  /** No Respiratory keyword occurs in "migraine". */
  lemma MigraineTextMissesRespiratory()
    ensures forall k | k in RespiratoryKeywords :: !Occurs(k, "migraine")
  {
    forall k | k in RespiratoryKeywords ensures !Occurs(k, "migraine") {
      if 'o' in k {
        MissingCharacter(k, "migraine", 'o');
      } else if 's' in k {
        MissingCharacter(k, "migraine", 's');
      } else if 'f' in k {
        MissingCharacter(k, "migraine", 'f');
      } else {
        MissingCharacter(k, "migraine", 't');
      }
    }
  }

  /** No Cardiology keyword occurs in "migraine". */
  lemma MigraineTextMissesCardiology()
    ensures forall k | k in CardiologyKeywords :: !Occurs(k, "migraine")
  {
    forall k | k in CardiologyKeywords ensures !Occurs(k, "migraine") {
      if 'o' in k {
        MissingCharacter(k, "migraine", 'o');
      } else {
        MissingCharacter(k, "migraine", 'h');
      }
    }
  }

  /** No Urology keyword occurs in "migraine". */
  lemma MigraineTextMissesUrology()
    ensures forall k | k in UrologyKeywords :: !Occurs(k, "migraine")
  {
    forall k | k in UrologyKeywords ensures !Occurs(k, "migraine") {
      if 'y' in k {
        MissingCharacter(k, "migraine", 'y');
      } else if 'b' in k {
        MissingCharacter(k, "migraine", 'b');
      } else {
        MissingCharacter(k, "migraine", 't');
      }
    }
  }

  /** "gi" does not occur in "migraine", checked position by position. */
  lemma GiAbsentFromMigraine()
    ensures !Occurs("gi", "migraine")
  {
    assert !IncludesFrom("migraine", "gi", 6);
    assert !IncludesFrom("migraine", "gi", 4);
    assert !IncludesFrom("migraine", "gi", 2);
    assert !IncludesFrom("migraine", "gi", 0);
    IncludesFromIsOccurrence("migraine", "gi", 0);
  }

  /** No Gastroenterology keyword occurs in "migraine". */
  lemma MigraineTextMissesGastroenterology()
    ensures forall k | k in GastroenterologyKeywords :: !Occurs(k, "migraine")
  {
    forall k | k in GastroenterologyKeywords ensures !Occurs(k, "migraine") {
      if 't' in k {
        MissingCharacter(k, "migraine", 't');
      } else if 'c' in k {
        MissingCharacter(k, "migraine", 'c');
      } else if 'd' in k {
        MissingCharacter(k, "migraine", 'd');
      } else if 'l' in k {
        MissingCharacter(k, "migraine", 'l');
      } else {
        GiAbsentFromMigraine();
      }
    }
  }

  /** "migraine" is a neurology keyword. */
  lemma MigraineText()
    ensures FirstMatch(Rules, "migraine", 0) == Neurology
  {
    MigraineTextMissesOrthopedic();
    MigraineTextMissesRespiratory();
    MigraineTextMissesCardiology();
    MigraineTextMissesUrology();
    MigraineTextMissesGastroenterology();
    assert Rules[0].keywords == OrthopedicKeywords;
    assert Rules[1].keywords == RespiratoryKeywords;
    assert Rules[2].keywords == CardiologyKeywords;
    assert Rules[3].keywords == UrologyKeywords;
    assert Rules[4].keywords == GastroenterologyKeywords;
    assert Rules[5] == Rule(NeurologyKeywords, Neurology);
    assert OccursAt("migraine", "migraine", 0);
    FirstMatchByKeyword(Rules, "migraine", 5, "migraine");
  }

  /** No Orthopedic keyword occurs in "dermatology". */
  lemma DermatologyTextMissesOrthopedic()
    ensures forall k | k in OrthopedicKeywords :: !Occurs(k, "dermatology")
  {
    forall k | k in OrthopedicKeywords ensures !Occurs(k, "dermatology") {
      if 'i' in k {
        MissingCharacter(k, "dermatology", 'i');
      } else {
        MissingCharacter(k, "dermatology", 'c');
      }
    }
  }

  /** No Respiratory keyword occurs in "dermatology". */
  lemma DermatologyTextMissesRespiratory()
    ensures forall k | k in RespiratoryKeywords :: !Occurs(k, "dermatology")
  {
    forall k | k in RespiratoryKeywords ensures !Occurs(k, "dermatology") {
      if 's' in k {
        MissingCharacter(k, "dermatology", 's');
      } else if 'u' in k {
        MissingCharacter(k, "dermatology", 'u');
      } else if 'c' in k {
        MissingCharacter(k, "dermatology", 'c');
      } else {
        MissingCharacter(k, "dermatology", 'n');
      }
    }
  }

  /** No Cardiology keyword occurs in "dermatology". */
  lemma DermatologyTextMissesCardiology()
    ensures forall k | k in CardiologyKeywords :: !Occurs(k, "dermatology")
  {
    forall k | k in CardiologyKeywords ensures !Occurs(k, "dermatology") {
      if 'i' in k {
        MissingCharacter(k, "dermatology", 'i');
      } else if ' ' in k {
        MissingCharacter(k, "dermatology", ' ');
      } else {
        MissingCharacter(k, "dermatology", 'h');
      }
    }
  }

  /** No Urology keyword occurs in "dermatology". */
  lemma DermatologyTextMissesUrology()
    ensures forall k | k in UrologyKeywords :: !Occurs(k, "dermatology")
  {
    forall k | k in UrologyKeywords ensures !Occurs(k, "dermatology") {
      if 'i' in k {
        MissingCharacter(k, "dermatology", 'i');
      } else if 'b' in k {
        MissingCharacter(k, "dermatology", 'b');
      } else if 'h' in k {
        MissingCharacter(k, "dermatology", 'h');
      } else {
        MissingCharacter(k, "dermatology", 'u');
      }
    }
  }

  /** No Gastroenterology keyword occurs in "dermatology". */
  lemma DermatologyTextMissesGastroenterology()
    ensures forall k | k in GastroenterologyKeywords :: !Occurs(k, "dermatology")
  {
    forall k | k in GastroenterologyKeywords ensures !Occurs(k, "dermatology") {
      if 'i' in k {
        MissingCharacter(k, "dermatology", 'i');
      } else if 'c' in k {
        MissingCharacter(k, "dermatology", 'c');
      } else {
        MissingCharacter(k, "dermatology", 'n');
      }
    }
  }

  /** "tremor" does not occur in "dermatology", checked position by position. */
  lemma TremorAbsentFromDermatology()
    ensures !Occurs("tremor", "dermatology")
  {
    assert !IncludesFrom("dermatology", "tremor", 4);
    assert !IncludesFrom("dermatology", "tremor", 2);
    assert !IncludesFrom("dermatology", "tremor", 0);
    IncludesFromIsOccurrence("dermatology", "tremor", 0);
  }

  /** No Neurology keyword occurs in "dermatology". */
  lemma DermatologyTextMissesNeurology()
    ensures forall k | k in NeurologyKeywords :: !Occurs(k, "dermatology")
  {
    forall k | k in NeurologyKeywords ensures !Occurs(k, "dermatology") {
      if 'n' in k {
        MissingCharacter(k, "dermatology", 'n');
      } else if 'i' in k {
        MissingCharacter(k, "dermatology", 'i');
      } else if 'c' in k {
        MissingCharacter(k, "dermatology", 'c');
      } else {
        TremorAbsentFromDermatology();
      }
    }
  }

  /** No Endocrinology keyword occurs in "dermatology". */
  lemma DermatologyTextMissesEndocrinology()
    ensures forall k | k in EndocrinologyKeywords :: !Occurs(k, "dermatology")
  {
    forall k | k in EndocrinologyKeywords ensures !Occurs(k, "dermatology") {
      if 'i' in k {
        MissingCharacter(k, "dermatology", 'i');
      } else {
        MissingCharacter(k, "dermatology", 'h');
      }
    }
  }

  /** No Dental keyword occurs in "dermatology". */
  lemma DermatologyTextMissesDental()
    ensures forall k | k in DentalKeywords :: !Occurs(k, "dermatology")
  {
    forall k | k in DentalKeywords ensures !Occurs(k, "dermatology") {
      if 'n' in k {
        MissingCharacter(k, "dermatology", 'n');
      } else if 'h' in k {
        MissingCharacter(k, "dermatology", 'h');
      } else {
        MissingCharacter(k, "dermatology", 'u');
      }
    }
  }

  /** "eye" does not occur in "dermatology", checked position by position. */
  lemma EyeAbsentFromDermatology()
    ensures !Occurs("eye", "dermatology")
  {
    assert !IncludesFrom("dermatology", "eye", 8);
    assert !IncludesFrom("dermatology", "eye", 6);
    assert !IncludesFrom("dermatology", "eye", 4);
    assert !IncludesFrom("dermatology", "eye", 2);
    assert !IncludesFrom("dermatology", "eye", 0);
    IncludesFromIsOccurrence("dermatology", "eye", 0);
  }

  /** No EyeCare keyword occurs in "dermatology". */
  lemma DermatologyTextMissesEyeCare()
    ensures forall k | k in EyeCareKeywords :: !Occurs(k, "dermatology")
  {
    forall k | k in EyeCareKeywords ensures !Occurs(k, "dermatology") {
      if 'p' in k {
        MissingCharacter(k, "dermatology", 'p');
      } else if ' ' in k {
        MissingCharacter(k, "dermatology", ' ');
      } else if 'c' in k {
        MissingCharacter(k, "dermatology", 'c');
      } else if 'i' in k {
        MissingCharacter(k, "dermatology", 'i');
      } else {
        EyeAbsentFromDermatology();
      }
    }
  }

  /** "dermatology" is a dermatology keyword, and no earlier rule claims it. */
  lemma DermatologyText()
    ensures FirstMatch(Rules, "dermatology", 0) == Dermatology
  {
    DermatologyTextMissesOrthopedic();
    DermatologyTextMissesRespiratory();
    DermatologyTextMissesCardiology();
    DermatologyTextMissesUrology();
    DermatologyTextMissesGastroenterology();
    DermatologyTextMissesNeurology();
    DermatologyTextMissesEndocrinology();
    DermatologyTextMissesDental();
    DermatologyTextMissesEyeCare();
    assert Rules[0].keywords == OrthopedicKeywords;
    assert Rules[1].keywords == RespiratoryKeywords;
    assert Rules[2].keywords == CardiologyKeywords;
    assert Rules[3].keywords == UrologyKeywords;
    assert Rules[4].keywords == GastroenterologyKeywords;
    assert Rules[5].keywords == NeurologyKeywords;
    assert Rules[6].keywords == EndocrinologyKeywords;
    assert Rules[7].keywords == DentalKeywords;
    assert Rules[8].keywords == EyeCareKeywords;
    assert Rules[9] == Rule(DermatologyKeywords, Dermatology);
    assert OccursAt("dermatology", "dermatology", 0);
    FirstMatchByKeyword(Rules, "dermatology", 9, "dermatology");
  }

  /** No Orthopedic keyword occurs in "earthquake injury". */
  lemma EarthquakeInjuryTextMissesOrthopedic()
    ensures forall k | k in OrthopedicKeywords :: !Occurs(k, "earthquake injury")
  {
    forall k | k in OrthopedicKeywords ensures !Occurs(k, "earthquake injury") {
      if 's' in k {
        MissingCharacter(k, "earthquake injury", 's');
      } else if 'c' in k {
        MissingCharacter(k, "earthquake injury", 'c');
      } else if 'g' in k {
        MissingCharacter(k, "earthquake injury", 'g');
      } else {
        MissingCharacter(k, "earthquake injury", 'o');
      }
    }
  }

  /** "ent" does not occur in "earthquake injury", checked position by position. */
  lemma EntAbsentFromEarthquakeInjury()
    ensures !Occurs("ent", "earthquake injury")
  {
    assert !IncludesFrom("earthquake injury", "ent", 14);
    assert !IncludesFrom("earthquake injury", "ent", 12);
    assert !IncludesFrom("earthquake injury", "ent", 10);
    assert !IncludesFrom("earthquake injury", "ent", 8);
    assert !IncludesFrom("earthquake injury", "ent", 6);
    assert !IncludesFrom("earthquake injury", "ent", 4);
    assert !IncludesFrom("earthquake injury", "ent", 2);
    assert !IncludesFrom("earthquake injury", "ent", 0);
    IncludesFromIsOccurrence("earthquake injury", "ent", 0);
  }

  /** No Respiratory keyword occurs in "earthquake injury". */
  lemma EarthquakeInjuryTextMissesRespiratory()
    ensures forall k | k in RespiratoryKeywords :: !Occurs(k, "earthquake injury")
  {
    forall k | k in RespiratoryKeywords ensures !Occurs(k, "earthquake injury") {
      if 'o' in k {
        MissingCharacter(k, "earthquake injury", 'o');
      } else if 's' in k {
        MissingCharacter(k, "earthquake injury", 's');
      } else if 'f' in k {
        MissingCharacter(k, "earthquake injury", 'f');
      } else {
        EntAbsentFromEarthquakeInjury();
      }
    }
  }

  /** "heart" does not occur in "earthquake injury", checked position by position. */
  lemma HeartAbsentFromEarthquakeInjury()
    ensures !Occurs("heart", "earthquake injury")
  {
    assert !IncludesFrom("earthquake injury", "heart", 12);
    assert !IncludesFrom("earthquake injury", "heart", 10);
    assert !IncludesFrom("earthquake injury", "heart", 8);
    assert !IncludesFrom("earthquake injury", "heart", 6);
    assert !IncludesFrom("earthquake injury", "heart", 4);
    assert !IncludesFrom("earthquake injury", "heart", 2);
    assert !IncludesFrom("earthquake injury", "heart", 0);
    IncludesFromIsOccurrence("earthquake injury", "heart", 0);
  }

  /** No Cardiology keyword occurs in "earthquake injury". */
  lemma EarthquakeInjuryTextMissesCardiology()
    ensures forall k | k in CardiologyKeywords :: !Occurs(k, "earthquake injury")
  {
    forall k | k in CardiologyKeywords ensures !Occurs(k, "earthquake injury") {
      if 'o' in k {
        MissingCharacter(k, "earthquake injury", 'o');
      } else if 'c' in k {
        MissingCharacter(k, "earthquake injury", 'c');
      } else {
        HeartAbsentFromEarthquakeInjury();
      }
    }
  }

  /** "urinary" does not occur in "earthquake injury", checked position by position. */
  lemma UrinaryAbsentFromEarthquakeInjury()
    ensures !Occurs("urinary", "earthquake injury")
  {
    assert !IncludesFrom("earthquake injury", "urinary", 10);
    assert !IncludesFrom("earthquake injury", "urinary", 8);
    assert !IncludesFrom("earthquake injury", "urinary", 6);
    assert !IncludesFrom("earthquake injury", "urinary", 4);
    assert !IncludesFrom("earthquake injury", "urinary", 2);
    assert !IncludesFrom("earthquake injury", "urinary", 0);
    IncludesFromIsOccurrence("earthquake injury", "urinary", 0);
  }

  /** "uti" does not occur in "earthquake injury", checked position by position. */
  lemma UtiAbsentFromEarthquakeInjury()
    ensures !Occurs("uti", "earthquake injury")
  {
    assert !IncludesFrom("earthquake injury", "uti", 14);
    assert !IncludesFrom("earthquake injury", "uti", 12);
    assert !IncludesFrom("earthquake injury", "uti", 10);
    assert !IncludesFrom("earthquake injury", "uti", 8);
    assert !IncludesFrom("earthquake injury", "uti", 6);
    assert !IncludesFrom("earthquake injury", "uti", 4);
    assert !IncludesFrom("earthquake injury", "uti", 2);
    assert !IncludesFrom("earthquake injury", "uti", 0);
    IncludesFromIsOccurrence("earthquake injury", "uti", 0);
  }

  /** No Urology keyword occurs in "earthquake injury". */
  lemma EarthquakeInjuryTextMissesUrology()
    ensures forall k | k in UrologyKeywords :: !Occurs(k, "earthquake injury")
  {
    forall k | k in UrologyKeywords ensures !Occurs(k, "earthquake injury") {
      if 'l' in k {
        MissingCharacter(k, "earthquake injury", 'l');
      } else if 'd' in k {
        MissingCharacter(k, "earthquake injury", 'd');
      } else if k == "urinary" {
        UrinaryAbsentFromEarthquakeInjury();
      } else {
        UtiAbsentFromEarthquakeInjury();
      }
    }
  }

  /** No Gastroenterology keyword occurs in "earthquake injury". */
  lemma EarthquakeInjuryTextMissesGastroenterology()
    ensures forall k | k in GastroenterologyKeywords :: !Occurs(k, "earthquake injury")
  {
    forall k | k in GastroenterologyKeywords ensures !Occurs(k, "earthquake injury") {
      if 'c' in k {
        MissingCharacter(k, "earthquake injury", 'c');
      } else if 'g' in k {
        MissingCharacter(k, "earthquake injury", 'g');
      } else if 'v' in k {
        MissingCharacter(k, "earthquake injury", 'v');
      } else {
        MissingCharacter(k, "earthquake injury", 'd');
      }
    }
  }

  /** No Neurology keyword occurs in "earthquake injury". */
  lemma EarthquakeInjuryTextMissesNeurology()
    ensures forall k | k in NeurologyKeywords :: !Occurs(k, "earthquake injury")
  {
    forall k | k in NeurologyKeywords ensures !Occurs(k, "earthquake injury") {
      if 'o' in k {
        MissingCharacter(k, "earthquake injury", 'o');
      } else if 's' in k {
        MissingCharacter(k, "earthquake injury", 's');
      } else if 'c' in k {
        MissingCharacter(k, "earthquake injury", 'c');
      } else {
        MissingCharacter(k, "earthquake injury", 'g');
      }
    }
  }

  /** No Endocrinology keyword occurs in "earthquake injury". */
  lemma EarthquakeInjuryTextMissesEndocrinology()
    ensures forall k | k in EndocrinologyKeywords :: !Occurs(k, "earthquake injury")
  {
    forall k | k in EndocrinologyKeywords ensures !Occurs(k, "earthquake injury") {
      if 'd' in k {
        MissingCharacter(k, "earthquake injury", 'd');
      } else {
        MissingCharacter(k, "earthquake injury", 'm');
      }
    }
  }

  /** No Dental keyword occurs in "earthquake injury". */
  lemma EarthquakeInjuryTextMissesDental()
    ensures forall k | k in DentalKeywords :: !Occurs(k, "earthquake injury")
  {
    forall k | k in DentalKeywords ensures !Occurs(k, "earthquake injury") {
      if 'd' in k {
        MissingCharacter(k, "earthquake injury", 'd');
      } else if 'g' in k {
        MissingCharacter(k, "earthquake injury", 'g');
      } else {
        MissingCharacter(k, "earthquake injury", 'o');
      }
    }
  }

  /** "eye" does not occur in "earthquake injury", checked position by position. */
  lemma EyeAbsentFromEarthquakeInjury()
    ensures !Occurs("eye", "earthquake injury")
  {
    assert !IncludesFrom("earthquake injury", "eye", 14);
    assert !IncludesFrom("earthquake injury", "eye", 12);
    assert !IncludesFrom("earthquake injury", "eye", 10);
    assert !IncludesFrom("earthquake injury", "eye", 8);
    assert !IncludesFrom("earthquake injury", "eye", 6);
    assert !IncludesFrom("earthquake injury", "eye", 4);
    assert !IncludesFrom("earthquake injury", "eye", 2);
    assert !IncludesFrom("earthquake injury", "eye", 0);
    IncludesFromIsOccurrence("earthquake injury", "eye", 0);
  }

  /** No EyeCare keyword occurs in "earthquake injury". */
  lemma EarthquakeInjuryTextMissesEyeCare()
    ensures forall k | k in EyeCareKeywords :: !Occurs(k, "earthquake injury")
  {
    forall k | k in EyeCareKeywords ensures !Occurs(k, "earthquake injury") {
      if 'o' in k {
        MissingCharacter(k, "earthquake injury", 'o');
      } else if 'c' in k {
        MissingCharacter(k, "earthquake injury", 'c');
      } else if 'd' in k {
        MissingCharacter(k, "earthquake injury", 'd');
      } else {
        EyeAbsentFromEarthquakeInjury();
      }
    }
  }

  /** No Dermatology keyword occurs in "earthquake injury". */
  lemma EarthquakeInjuryTextMissesDermatology()
    ensures forall k | k in DermatologyKeywords :: !Occurs(k, "earthquake injury")
  {
    forall k | k in DermatologyKeywords ensures !Occurs(k, "earthquake injury") {
      if 's' in k {
        MissingCharacter(k, "earthquake injury", 's');
      } else if 'c' in k {
        MissingCharacter(k, "earthquake injury", 'c');
      } else {
        MissingCharacter(k, "earthquake injury", 'd');
      }
    }
  }

  /** No Rheumatology keyword occurs in "earthquake injury". */
  lemma EarthquakeInjuryTextMissesRheumatology()
    ensures forall k | k in RheumatologyKeywords :: !Occurs(k, "earthquake injury")
  {
    forall k | k in RheumatologyKeywords ensures !Occurs(k, "earthquake injury") {
      if 'o' in k {
        MissingCharacter(k, "earthquake injury", 'o');
      } else {
        MissingCharacter(k, "earthquake injury", 's');
      }
    }
  }

  /** No UrgentCare keyword occurs in "earthquake injury". */
  lemma EarthquakeInjuryTextMissesUrgentCare()
    ensures forall k | k in UrgentCareKeywords :: !Occurs(k, "earthquake injury")
  {
    forall k | k in UrgentCareKeywords ensures !Occurs(k, "earthquake injury") {
      MissingCharacter(k, "earthquake injury", 'f');
    }
  }

  /** No MentalHealth keyword occurs in "earthquake injury". */
  lemma EarthquakeInjuryTextMissesMentalHealth()
    ensures forall k | k in MentalHealthKeywords :: !Occurs(k, "earthquake injury")
  {
    forall k | k in MentalHealthKeywords ensures !Occurs(k, "earthquake injury") {
      if 'p' in k {
        MissingCharacter(k, "earthquake injury", 'p');
      } else if 'l' in k {
        MissingCharacter(k, "earthquake injury", 'l');
      } else if 's' in k {
        MissingCharacter(k, "earthquake injury", 's');
      } else {
        MissingCharacter(k, "earthquake injury", 'x');
      }
    }
  }

  /** "earthquake injury" contains "ear", but the earlier wound-care "injury" wins. */
  lemma EarthquakeInjuryText()
    ensures FirstMatch(Rules, "earthquake injury", 0) == WoundCare
  {
    EarthquakeInjuryTextMissesOrthopedic();
    EarthquakeInjuryTextMissesRespiratory();
    EarthquakeInjuryTextMissesCardiology();
    EarthquakeInjuryTextMissesUrology();
    EarthquakeInjuryTextMissesGastroenterology();
    EarthquakeInjuryTextMissesNeurology();
    EarthquakeInjuryTextMissesEndocrinology();
    EarthquakeInjuryTextMissesDental();
    EarthquakeInjuryTextMissesEyeCare();
    EarthquakeInjuryTextMissesDermatology();
    EarthquakeInjuryTextMissesRheumatology();
    EarthquakeInjuryTextMissesUrgentCare();
    EarthquakeInjuryTextMissesMentalHealth();
    assert Rules[0].keywords == OrthopedicKeywords;
    assert Rules[1].keywords == RespiratoryKeywords;
    assert Rules[2].keywords == CardiologyKeywords;
    assert Rules[3].keywords == UrologyKeywords;
    assert Rules[4].keywords == GastroenterologyKeywords;
    assert Rules[5].keywords == NeurologyKeywords;
    assert Rules[6].keywords == EndocrinologyKeywords;
    assert Rules[7].keywords == DentalKeywords;
    assert Rules[8].keywords == EyeCareKeywords;
    assert Rules[9].keywords == DermatologyKeywords;
    assert Rules[10].keywords == RheumatologyKeywords;
    assert Rules[11].keywords == UrgentCareKeywords;
    assert Rules[12].keywords == MentalHealthKeywords;
    assert Rules[13] == Rule(WoundCareKeywords, WoundCare);
    assert OccursAt("injury", "earthquake injury", 11);
    FirstMatchByKeyword(Rules, "earthquake injury", 13, "injury");
  }

  /** No Orthopedic keyword occurs in "broken ankle". */
  lemma BrokenAnkleTextMissesOrthopedic()
    ensures forall k | k in OrthopedicKeywords :: !Occurs(k, "broken ankle")
  {
    forall k | k in OrthopedicKeywords ensures !Occurs(k, "broken ankle") {
      if 'i' in k {
        MissingCharacter(k, "broken ankle", 'i');
      } else {
        MissingCharacter(k, "broken ankle", 'c');
      }
    }
  }

  /** No Respiratory keyword occurs in "broken ankle". */
  lemma BrokenAnkleTextMissesRespiratory()
    ensures forall k | k in RespiratoryKeywords :: !Occurs(k, "broken ankle")
  {
    forall k | k in RespiratoryKeywords ensures !Occurs(k, "broken ankle") {
      if 's' in k {
        MissingCharacter(k, "broken ankle", 's');
      } else if 'u' in k {
        MissingCharacter(k, "broken ankle", 'u');
      } else if 'c' in k {
        MissingCharacter(k, "broken ankle", 'c');
      } else {
        MissingCharacter(k, "broken ankle", 't');
      }
    }
  }

  /** No Cardiology keyword occurs in "broken ankle". */
  lemma BrokenAnkleTextMissesCardiology()
    ensures forall k | k in CardiologyKeywords :: !Occurs(k, "broken ankle")
  {
    forall k | k in CardiologyKeywords ensures !Occurs(k, "broken ankle") {
      if 'i' in k {
        MissingCharacter(k, "broken ankle", 'i');
      } else if 'd' in k {
        MissingCharacter(k, "broken ankle", 'd');
      } else {
        MissingCharacter(k, "broken ankle", 'h');
      }
    }
  }

  /** No Urology keyword occurs in "broken ankle". */
  lemma BrokenAnkleTextMissesUrology()
    ensures forall k | k in UrologyKeywords :: !Occurs(k, "broken ankle")
  {
    forall k | k in UrologyKeywords ensures !Occurs(k, "broken ankle") {
      if 'y' in k {
        MissingCharacter(k, "broken ankle", 'y');
      } else if 'd' in k {
        MissingCharacter(k, "broken ankle", 'd');
      } else {
        MissingCharacter(k, "broken ankle", 'i');
      }
    }
  }

  /** No Gastroenterology keyword occurs in "broken ankle". */
  lemma BrokenAnkleTextMissesGastroenterology()
    ensures forall k | k in GastroenterologyKeywords :: !Occurs(k, "broken ankle")
  {
    forall k | k in GastroenterologyKeywords ensures !Occurs(k, "broken ankle") {
      if 'i' in k {
        MissingCharacter(k, "broken ankle", 'i');
      } else if 'c' in k {
        MissingCharacter(k, "broken ankle", 'c');
      } else {
        MissingCharacter(k, "broken ankle", 'g');
      }
    }
  }

  /** No Neurology keyword occurs in "broken ankle". */
  lemma BrokenAnkleTextMissesNeurology()
    ensures forall k | k in NeurologyKeywords :: !Occurs(k, "broken ankle")
  {
    forall k | k in NeurologyKeywords ensures !Occurs(k, "broken ankle") {
      if 'u' in k {
        MissingCharacter(k, "broken ankle", 'u');
      } else if 'i' in k {
        MissingCharacter(k, "broken ankle", 'i');
      } else if 'c' in k {
        MissingCharacter(k, "broken ankle", 'c');
      } else {
        MissingCharacter(k, "broken ankle", 'm');
      }
    }
  }

  /** No Endocrinology keyword occurs in "broken ankle". */
  lemma BrokenAnkleTextMissesEndocrinology()
    ensures forall k | k in EndocrinologyKeywords :: !Occurs(k, "broken ankle")
  {
    forall k | k in EndocrinologyKeywords ensures !Occurs(k, "broken ankle") {
      if 'd' in k {
        MissingCharacter(k, "broken ankle", 'd');
      } else {
        MissingCharacter(k, "broken ankle", 'h');
      }
    }
  }

  /** No Dental keyword occurs in "broken ankle". */
  lemma BrokenAnkleTextMissesDental()
    ensures forall k | k in DentalKeywords :: !Occurs(k, "broken ankle")
  {
    forall k | k in DentalKeywords ensures !Occurs(k, "broken ankle") {
      if 't' in k {
        MissingCharacter(k, "broken ankle", 't');
      } else {
        MissingCharacter(k, "broken ankle", 'g');
      }
    }
  }

  /** No EyeCare keyword occurs in "broken ankle". */
  lemma BrokenAnkleTextMissesEyeCare()
    ensures forall k | k in EyeCareKeywords :: !Occurs(k, "broken ankle")
  {
    forall k | k in EyeCareKeywords ensures !Occurs(k, "broken ankle") {
      if 'y' in k {
        MissingCharacter(k, "broken ankle", 'y');
      } else if 'c' in k {
        MissingCharacter(k, "broken ankle", 'c');
      } else {
        MissingCharacter(k, "broken ankle", 'i');
      }
    }
  }

  /** No Dermatology keyword occurs in "broken ankle". */
  lemma BrokenAnkleTextMissesDermatology()
    ensures forall k | k in DermatologyKeywords :: !Occurs(k, "broken ankle")
  {
    forall k | k in DermatologyKeywords ensures !Occurs(k, "broken ankle") {
      if 'i' in k {
        MissingCharacter(k, "broken ankle", 'i');
      } else if 'c' in k {
        MissingCharacter(k, "broken ankle", 'c');
      } else if 'd' in k {
        MissingCharacter(k, "broken ankle", 'd');
      } else {
        MissingCharacter(k, "broken ankle", 'h');
      }
    }
  }

  /** No Rheumatology keyword occurs in "broken ankle". */
  lemma BrokenAnkleTextMissesRheumatology()
    ensures forall k | k in RheumatologyKeywords :: !Occurs(k, "broken ankle")
  {
    forall k | k in RheumatologyKeywords ensures !Occurs(k, "broken ankle") {
      MissingCharacter(k, "broken ankle", 't');
    }
  }

  /** No UrgentCare keyword occurs in "broken ankle". */
  lemma BrokenAnkleTextMissesUrgentCare()
    ensures forall k | k in UrgentCareKeywords :: !Occurs(k, "broken ankle")
  {
    forall k | k in UrgentCareKeywords ensures !Occurs(k, "broken ankle") {
      MissingCharacter(k, "broken ankle", 'f');
    }
  }

  /** No MentalHealth keyword occurs in "broken ankle". */
  lemma BrokenAnkleTextMissesMentalHealth()
    ensures forall k | k in MentalHealthKeywords :: !Occurs(k, "broken ankle")
  {
    forall k | k in MentalHealthKeywords ensures !Occurs(k, "broken ankle") {
      if 'i' in k {
        MissingCharacter(k, "broken ankle", 'i');
      } else if 's' in k {
        MissingCharacter(k, "broken ankle", 's');
      } else {
        MissingCharacter(k, "broken ankle", 'm');
      }
    }
  }

  /** No WoundCare keyword occurs in "broken ankle". */
  lemma BrokenAnkleTextMissesWoundCare()
    ensures forall k | k in WoundCareKeywords :: !Occurs(k, "broken ankle")
  {
    forall k | k in WoundCareKeywords ensures !Occurs(k, "broken ankle") {
      MissingCharacter(k, "broken ankle", 'u');
    }
  }

  /** No WomensHealth keyword occurs in "broken ankle". */
  lemma BrokenAnkleTextMissesWomensHealth()
    ensures forall k | k in WomensHealthKeywords :: !Occurs(k, "broken ankle")
  {
    forall k | k in WomensHealthKeywords ensures !Occurs(k, "broken ankle") {
      if 'y' in k {
        MissingCharacter(k, "broken ankle", 'y');
      } else if 'm' in k {
        MissingCharacter(k, "broken ankle", 'm');
      } else {
        MissingCharacter(k, "broken ankle", 'd');
      }
    }
  }

  /** No Pediatrics keyword occurs in "broken ankle". */
  lemma BrokenAnkleTextMissesPediatrics()
    ensures forall k | k in PediatricsKeywords :: !Occurs(k, "broken ankle")
  {
    forall k | k in PediatricsKeywords ensures !Occurs(k, "broken ankle") {
      MissingCharacter(k, "broken ankle", 'i');
    }
  }

  /** "ear" does not occur in "broken ankle", checked position by position. */
  lemma EarAbsentFromBrokenAnkle()
    ensures !Occurs("ear", "broken ankle")
  {
    assert !IncludesFrom("broken ankle", "ear", 8);
    assert !IncludesFrom("broken ankle", "ear", 6);
    assert !IncludesFrom("broken ankle", "ear", 4);
    assert !IncludesFrom("broken ankle", "ear", 2);
    assert !IncludesFrom("broken ankle", "ear", 0);
    IncludesFromIsOccurrence("broken ankle", "ear", 0);
  }

  /** No EarCare keyword occurs in "broken ankle". */
  lemma BrokenAnkleTextMissesEarCare()
    ensures forall k | k in EarCareKeywords :: !Occurs(k, "broken ankle")
  {
    forall k | k in EarCareKeywords ensures !Occurs(k, "broken ankle") {
      if 'g' in k {
        MissingCharacter(k, "broken ankle", 'g');
      } else if 't' in k {
        MissingCharacter(k, "broken ankle", 't');
      } else {
        EarAbsentFromBrokenAnkle();
      }
    }
  }

  /** No MensHealth keyword occurs in "broken ankle". */
  lemma BrokenAnkleTextMissesMensHealth()
    ensures forall k | k in MensHealthKeywords :: !Occurs(k, "broken ankle")
  {
    forall k | k in MensHealthKeywords ensures !Occurs(k, "broken ankle") {
      if 't' in k {
        MissingCharacter(k, "broken ankle", 't');
      } else if 'd' in k {
        MissingCharacter(k, "broken ankle", 'd');
      } else {
        MissingCharacter(k, "broken ankle", 'm');
      }
    }
  }

  /** No Obstetrics keyword occurs in "broken ankle". */
  lemma BrokenAnkleTextMissesObstetrics()
    ensures forall k | k in ObstetricsKeywords :: !Occurs(k, "broken ankle")
  {
    forall k | k in ObstetricsKeywords ensures !Occurs(k, "broken ankle") {
      MissingCharacter(k, "broken ankle", 't');
    }
  }

  /** No Allergy keyword occurs in "broken ankle". */
  lemma BrokenAnkleTextMissesAllergy()
    ensures forall k | k in AllergyKeywords :: !Occurs(k, "broken ankle")
  {
    forall k | k in AllergyKeywords ensures !Occurs(k, "broken ankle") {
      if 'm' in k {
        MissingCharacter(k, "broken ankle", 'm');
      } else {
        MissingCharacter(k, "broken ankle", 'g');
      }
    }
  }

  /** "broken ankle" contains no keyword of any rule, so it gets the "hospital clinic" fallback. */
  lemma BrokenAnkleText()
    ensures FirstMatch(Rules, "broken ankle", 0) == HospitalClinic
  {
    BrokenAnkleTextMissesOrthopedic();
    BrokenAnkleTextMissesRespiratory();
    BrokenAnkleTextMissesCardiology();
    BrokenAnkleTextMissesUrology();
    BrokenAnkleTextMissesGastroenterology();
    BrokenAnkleTextMissesNeurology();
    BrokenAnkleTextMissesEndocrinology();
    BrokenAnkleTextMissesDental();
    BrokenAnkleTextMissesEyeCare();
    BrokenAnkleTextMissesDermatology();
    BrokenAnkleTextMissesRheumatology();
    BrokenAnkleTextMissesUrgentCare();
    BrokenAnkleTextMissesMentalHealth();
    BrokenAnkleTextMissesWoundCare();
    BrokenAnkleTextMissesWomensHealth();
    BrokenAnkleTextMissesPediatrics();
    BrokenAnkleTextMissesEarCare();
    BrokenAnkleTextMissesMensHealth();
    BrokenAnkleTextMissesObstetrics();
    BrokenAnkleTextMissesAllergy();
    assert Rules[0].keywords == OrthopedicKeywords;
    assert Rules[1].keywords == RespiratoryKeywords;
    assert Rules[2].keywords == CardiologyKeywords;
    assert Rules[3].keywords == UrologyKeywords;
    assert Rules[4].keywords == GastroenterologyKeywords;
    assert Rules[5].keywords == NeurologyKeywords;
    assert Rules[6].keywords == EndocrinologyKeywords;
    assert Rules[7].keywords == DentalKeywords;
    assert Rules[8].keywords == EyeCareKeywords;
    assert Rules[9].keywords == DermatologyKeywords;
    assert Rules[10].keywords == RheumatologyKeywords;
    assert Rules[11].keywords == UrgentCareKeywords;
    assert Rules[12].keywords == MentalHealthKeywords;
    assert Rules[13].keywords == WoundCareKeywords;
    assert Rules[14].keywords == WomensHealthKeywords;
    assert Rules[15].keywords == PediatricsKeywords;
    assert Rules[16].keywords == EarCareKeywords;
    assert Rules[17].keywords == MensHealthKeywords;
    assert Rules[18].keywords == ObstetricsKeywords;
    assert Rules[19].keywords == AllergyKeywords;
    NoKeywordFallsThrough(Rules, "broken ankle");
  }

  /** A condition named "dental" gets the respiratory profile. */
  lemma DentalCondition()
    ensures DeriveSpecialtySearch([Some("dental")], "") == Respiratory
  {
    assert Lower("dental") == "dental";
    SearchTextOfName("dental");
    DentalText();
    DeriveOnText([Some("dental")], "", "dental");
  }

  /** A condition named "mental" gets the respiratory profile. */
  lemma MentalCondition()
    ensures DeriveSpecialtySearch([Some("mental")], "") == Respiratory
  {
    assert Lower("mental") == "mental";
    SearchTextOfName("mental");
    MentalText();
    DeriveOnText([Some("mental")], "", "mental");
  }

  /** A condition named "urgent care" gets the respiratory profile. */
  lemma UrgentCareCondition()
    ensures DeriveSpecialtySearch([Some("urgent care")], "") == Respiratory
  {
    assert Lower("urgent care") == "urgent care";
    SearchTextOfName("urgent care");
    UrgentCareText();
    DeriveOnText([Some("urgent care")], "", "urgent care");
  }

  /** Conditions "Heart" and "Tooth" get the cardiology profile, not the dental one. */
  lemma HeartAndToothConditions()
    ensures DeriveSpecialtySearch([Some("Heart"), Some("Tooth")], "") == Cardiology
  {
    SearchTextOfTwoWords("Heart", "Tooth", "heart", "tooth", "heart tooth");
    HeartToothText();
    DeriveOnText([Some("Heart"), Some("Tooth")], "", "heart tooth");
  }

  /** A condition named "Tension headache" gets the neurology profile. */
  lemma TensionHeadacheCondition()
    ensures DeriveSpecialtySearch([Some("Tension headache")], "") == Neurology
  {
    assert Lower("Tension headache") == "tension headache";
    SearchTextOfName("Tension headache");
    TensionHeadacheText();
    DeriveOnText([Some("Tension headache")], "", "tension headache");
  }

  /** A condition named "migraine" gets the neurology profile. */
  lemma MigraineLowerCase()
    ensures DeriveSpecialtySearch([Some("migraine")], "") == Neurology
  {
    assert Lower("migraine") == "migraine";
    SearchTextOfName("migraine");
    MigraineText();
    DeriveOnText([Some("migraine")], "", "migraine");
  }

  /**
   * A condition named "MIGRAINE" gets the neurology profile too: it lowers
   * to the same name as "migraine", so the case is irrelevant.
   */
  lemma MigraineUpperCase()
    ensures DeriveSpecialtySearch([Some("MIGRAINE")], "") == Neurology
  {
    assert Lower("MIGRAINE") == "migraine" == Lower("migraine");
    MigraineLowerCase();
    DeriveIgnoresCase([Some("MIGRAINE")], "", [Some("migraine")], "");
  }

  /** The hint "Dermatology" alone gets the dermatology profile. */
  lemma DermatologyHint()
    ensures DeriveSpecialtySearch([], "Dermatology") == Dermatology
  {
    assert Lower("Dermatology") == "dermatology";
    SearchTextOfHint("Dermatology");
    DermatologyText();
    DeriveOnText([], "Dermatology", "dermatology");
  }

  /** A condition named "earthquake injury" gets the wound-care profile. */
  lemma EarthquakeInjuryCondition()
    ensures DeriveSpecialtySearch([Some("earthquake injury")], "") == WoundCare
  {
    assert Lower("earthquake injury") == "earthquake injury";
    SearchTextOfName("earthquake injury");
    EarthquakeInjuryText();
    DeriveOnText([Some("earthquake injury")], "", "earthquake injury");
  }

  /** A condition named "broken ankle" gets the "hospital clinic" fallback, not `DEFAULT_RESULT`. */
  lemma BrokenAnkleCondition()
    ensures DeriveSpecialtySearch([Some("broken ankle")], "") == HospitalClinic
  {
    assert Lower("broken ankle") == "broken ankle";
    SearchTextOfName("broken ankle");
    BrokenAnkleText();
    DeriveOnText([Some("broken ankle")], "", "broken ankle");
  }
}
