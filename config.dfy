/**
 * The attribute parser of the `#[security_test]` macro
 * (`parse_security_config`): the attribute's rendered text becomes a
 * security test configuration of five flags and a threat level.
 */
module Config {
  import opened Text

  const SqlInjection: string := "sql_injection"
  const RaceCondition: string := "race_condition"
  const TimingAttack: string := "timing_attack"
  const IntegerOverflow: string := "integer_overflow"
  const BufferOverflow: string := "buffer_overflow"

  const Critical: string := "critical"
  const High: string := "high"
  const Low: string := "low"
  const Medium: string := "medium"

  /** The generated `__SecurityTestConfig` value; the threat level is the emitted string literal. */
  datatype SecurityTestConfig = SecurityTestConfig(
    sqlInjection: bool,
    raceCondition: bool,
    timingAttack: bool,
    integerOverflow: bool,
    bufferOverflow: bool,
    threatLevel: string)

  /** What an empty attribute produces. */
  const DefaultConfig: SecurityTestConfig :=
    SecurityTestConfig(false, false, false, false, false, Medium)

  predicate IsThreatLevel(level: string)
  {
    level == Critical || level == High || level == Low || level == Medium
  }

  /**
   * The threat level chain: the first of `critical`, `high`, `low` found in
   * the text wins, and `medium` is what is left. `medium` itself is never
   * searched for.
   */
  function ThreatLevel(text: string): (level: string)
    ensures IsThreatLevel(level)
    ensures level == Critical <==> Occurs(text, Critical)
    ensures level == High <==> !Occurs(text, Critical) && Occurs(text, High)
    ensures level == Low <==> !Occurs(text, Critical) && !Occurs(text, High) && Occurs(text, Low)
    ensures level == Medium <==> !Occurs(text, Critical) && !Occurs(text, High) && !Occurs(text, Low)
  {
    ContainsIffOccurs(text, Critical);
    ContainsIffOccurs(text, High);
    ContainsIffOccurs(text, Low);
    if Contains(text, Critical) then Critical
    else if Contains(text, High) then High
    else if Contains(text, Low) then Low
    else Medium
  }

  /**
   * `parse_security_config`: an empty attribute gives the defaults; any
   * other text sets each flag when its keyword occurs anywhere in it and
   * takes the threat level from the priority chain.
   */
  function ParseSecurityConfig(attr: string): (config: SecurityTestConfig)
    ensures attr == [] ==> config == DefaultConfig
    ensures config.sqlInjection <==> Occurs(attr, SqlInjection)
    ensures config.raceCondition <==> Occurs(attr, RaceCondition)
    ensures config.timingAttack <==> Occurs(attr, TimingAttack)
    ensures config.integerOverflow <==> Occurs(attr, IntegerOverflow)
    ensures config.bufferOverflow <==> Occurs(attr, BufferOverflow)
    ensures IsThreatLevel(config.threatLevel)
    ensures config.threatLevel == Critical <==> Occurs(attr, Critical)
    ensures config.threatLevel == High <==> !Occurs(attr, Critical) && Occurs(attr, High)
    ensures config.threatLevel == Low
        <==> !Occurs(attr, Critical) && !Occurs(attr, High) && Occurs(attr, Low)
    ensures config.threatLevel == Medium
        <==> !Occurs(attr, Critical) && !Occurs(attr, High) && !Occurs(attr, Low)
  {
    if attr == [] then
      DefaultConfig
    else
      ContainsIffOccurs(attr, SqlInjection);
      ContainsIffOccurs(attr, RaceCondition);
      ContainsIffOccurs(attr, TimingAttack);
      ContainsIffOccurs(attr, IntegerOverflow);
      ContainsIffOccurs(attr, BufferOverflow);
      SecurityTestConfig(
        Contains(attr, SqlInjection),
        Contains(attr, RaceCondition),
        Contains(attr, TimingAttack),
        Contains(attr, IntegerOverflow),
        Contains(attr, BufferOverflow),
        ThreatLevel(attr))
  }

  /**
   * The empty-attribute branch only short-cuts: searching the empty text
   * finds no keyword, so the general branch would give the defaults as well.
   */
  lemma EmptyBranchAgreesWithSearch()
    ensures SecurityTestConfig(
              Contains([], SqlInjection),
              Contains([], RaceCondition),
              Contains([], TimingAttack),
              Contains([], IntegerOverflow),
              Contains([], BufferOverflow),
              ThreatLevel([])) == DefaultConfig
  {
  }

  /** Order of the threat levels in the chain; the default `medium` ranks below `low`. */
  function Rank(level: string): nat
  {
    if level == Critical then 3
    else if level == High then 2
    else if level == Low then 1
    else 0
  }

  /** Two configurations together: every flag of either, and the higher-ranked threat level. */
  function Join(x: SecurityTestConfig, y: SecurityTestConfig): SecurityTestConfig
  {
    SecurityTestConfig(
      x.sqlInjection || y.sqlInjection,
      x.raceCondition || y.raceCondition,
      x.timingAttack || y.timingAttack,
      x.integerOverflow || y.integerOverflow,
      x.bufferOverflow || y.bufferOverflow,
      if Rank(y.threatLevel) > Rank(x.threatLevel) then y.threatLevel else x.threatLevel)
  }

  /**
   * A character that no keyword contains: anything but a lower-case ASCII
   * letter or `_` (the spaces and commas between rendered tokens among them).
   */
  predicate IsSeparator(c: char)
  {
    !IsAsciiLower(c) && c != '_'
  }

  /** Every character of `w` is a lower-case ASCII letter or `_`. */
  predicate IsWord(w: string)
  {
    forall i :: 0 <= i < |w| ==> IsAsciiLower(w[i]) || w[i] == '_'
  }

  lemma KeywordsAreWords()
    ensures IsWord(SqlInjection) && IsWord(RaceCondition) && IsWord(TimingAttack)
    ensures IsWord(IntegerOverflow) && IsWord(BufferOverflow)
    ensures IsWord(Critical) && IsWord(High) && IsWord(Low)
  {
  }

  /** Keywords are found in `a + [c] + b` exactly when they are found in `a` or in `b`. */
  lemma KeywordAcrossSeparator(a: string, c: char, b: string, k: string)
    requires IsSeparator(c) && IsWord(k)
    ensures Occurs(a + [c] + b, k) <==> Occurs(a, k) || Occurs(b, k)
  {
    assert c !in k;
    OccursAcrossSeparator(a, c, b, k);
  }

  /**
   * Parsing two pieces of text joined by a separator gives the join of
   * their configurations: flags accumulate and the stronger level wins.
   */
  lemma ParseAcrossSeparator(a: string, c: char, b: string)
    requires IsSeparator(c)
    ensures ParseSecurityConfig(a + [c] + b) == Join(ParseSecurityConfig(a), ParseSecurityConfig(b))
  {
    KeywordsAreWords();
    KeywordAcrossSeparator(a, c, b, SqlInjection);
    KeywordAcrossSeparator(a, c, b, RaceCondition);
    KeywordAcrossSeparator(a, c, b, TimingAttack);
    KeywordAcrossSeparator(a, c, b, IntegerOverflow);
    KeywordAcrossSeparator(a, c, b, BufferOverflow);
    KeywordAcrossSeparator(a, c, b, Critical);
    KeywordAcrossSeparator(a, c, b, High);
    KeywordAcrossSeparator(a, c, b, Low);
  }

  /** Keyword order does not matter: swapping the pieces around a separator gives the same configuration. */
  lemma ParseOrderIndependent(a: string, c: char, b: string)
    requires IsSeparator(c)
    ensures ParseSecurityConfig(a + [c] + b) == ParseSecurityConfig(b + [c] + a)
  {
    ParseAcrossSeparator(a, c, b);
    ParseAcrossSeparator(b, c, a);
  }

  /**
   * Non-empty text with none of the keywords (the word `medium` included)
   * parses to the same configuration as an empty attribute.
   */
  lemma NoKeywordIsDefault(attr: string)
    requires !Occurs(attr, SqlInjection) && !Occurs(attr, RaceCondition)
    requires !Occurs(attr, TimingAttack) && !Occurs(attr, IntegerOverflow)
    requires !Occurs(attr, BufferOverflow)
    requires !Occurs(attr, Critical) && !Occurs(attr, High) && !Occurs(attr, Low)
    ensures ParseSecurityConfig(attr) == DefaultConfig
  {
  }

  /** Writing `medium` explicitly is the same as writing nothing. */
  lemma MediumIsNotAKeyword()
    ensures ParseSecurityConfig(Medium) == DefaultConfig
  {
    AbsentWhenCharMissing(Medium, SqlInjection, 0);
    AbsentWhenCharMissing(Medium, RaceCondition, 0);
    AbsentWhenCharMissing(Medium, TimingAttack, 0);
    AbsentWhenCharMissing(Medium, IntegerOverflow, 1);
    AbsentWhenCharMissing(Medium, BufferOverflow, 0);
    AbsentWhenCharMissing(Medium, Critical, 0);
    AbsentWhenCharMissing(Medium, High, 0);
    AbsentWhenCharMissing(Medium, Low, 0);
    NoKeywordIsDefault(Medium);
  }

  /**
   * `overflow` contains `low`: text naming either overflow keyword, without
   * `critical` or `high`, gets threat level `low`.
   */
  lemma OverflowForcesLow(attr: string)
    requires Occurs(attr, BufferOverflow) || Occurs(attr, IntegerOverflow)
    requires !Occurs(attr, Critical) && !Occurs(attr, High)
    ensures ParseSecurityConfig(attr).threatLevel == Low
  {
    assert OccursAt(BufferOverflow, Low, 12);
    assert OccursAt(IntegerOverflow, Low, 13);
    if Occurs(attr, BufferOverflow) {
      OccursTransitive(attr, BufferOverflow, Low);
    } else {
      OccursTransitive(attr, IntegerOverflow, Low);
    }
  }

  /** An overflow flag never leaves the threat level at `medium`. */
  lemma OverflowFlagNeverMedium(attr: string)
    requires ParseSecurityConfig(attr).bufferOverflow || ParseSecurityConfig(attr).integerOverflow
    ensures ParseSecurityConfig(attr).threatLevel != Medium
  {
    if !Occurs(attr, Critical) && !Occurs(attr, High) {
      OverflowForcesLow(attr);
    }
  }

  /** The word `buffer_overflow` holds no other flag keyword. */
  lemma BufferOverflowOtherFlags()
    ensures !Occurs(BufferOverflow, SqlInjection) && !Occurs(BufferOverflow, RaceCondition)
    ensures !Occurs(BufferOverflow, TimingAttack) && !Occurs(BufferOverflow, IntegerOverflow)
  {
    AbsentWhenCharMissing(BufferOverflow, SqlInjection, 0);
    AbsentWhenCharMissing(BufferOverflow, RaceCondition, 2);
    AbsentWhenCharMissing(BufferOverflow, TimingAttack, 0);
    AbsentWhenCharMissing(BufferOverflow, IntegerOverflow, 0);
  }

  /** A single `buffer_overflow` keyword: its flag, and level `low` instead of the default. */
  lemma BufferOverflowAloneIsLow()
    ensures ParseSecurityConfig(BufferOverflow)
         == SecurityTestConfig(false, false, false, false, true, Low)
  {
    BufferOverflowOtherFlags();
    assert OccursAt(BufferOverflow, BufferOverflow, 0);
    AbsentWhenCharMissing(BufferOverflow, Critical, 0);
    AbsentWhenCharMissing(BufferOverflow, High, 0);
    OverflowForcesLow(BufferOverflow);
  }

  /** The word `race_condition` holds no other flag keyword. */
  lemma RaceConditionOtherFlags()
    ensures !Occurs(RaceCondition, SqlInjection) && !Occurs(RaceCondition, TimingAttack)
    ensures !Occurs(RaceCondition, IntegerOverflow) && !Occurs(RaceCondition, BufferOverflow)
  {
    AbsentWhenCharMissing(RaceCondition, SqlInjection, 0);
    AbsentWhenCharMissing(RaceCondition, TimingAttack, 2);
    AbsentWhenCharMissing(RaceCondition, IntegerOverflow, 4);
    AbsentWhenCharMissing(RaceCondition, BufferOverflow, 0);
  }

  /** The word `race_condition` holds no threat level keyword. */
  lemma RaceConditionNoLevel()
    ensures !Occurs(RaceCondition, Critical) && !Occurs(RaceCondition, High)
    ensures !Occurs(RaceCondition, Low)
  {
    AbsentWhenCharMissing(RaceCondition, Critical, 7);
    AbsentWhenCharMissing(RaceCondition, High, 0);
    AbsentWhenCharMissing(RaceCondition, Low, 0);
  }

  /** The word `high` holds no flag keyword. */
  lemma HighNoFlags()
    ensures !Occurs(High, SqlInjection) && !Occurs(High, RaceCondition)
    ensures !Occurs(High, TimingAttack) && !Occurs(High, IntegerOverflow)
    ensures !Occurs(High, BufferOverflow)
  {
  }

  /** `race_condition` alone: its flag and the default level. */
  lemma RaceConditionAlone()
    ensures ParseSecurityConfig(RaceCondition)
         == SecurityTestConfig(false, true, false, false, false, Medium)
  {
    RaceConditionOtherFlags();
    RaceConditionNoLevel();
    assert OccursAt(RaceCondition, RaceCondition, 0);
  }

  /** `high` alone: no flag and level `high`. */
  lemma HighAlone()
    ensures ParseSecurityConfig(High)
         == SecurityTestConfig(false, false, false, false, false, High)
  {
  }

  /** The attribute `race_condition high`: one flag and level `high`. */
  lemma RaceConditionHigh()
    ensures ParseSecurityConfig(RaceCondition + " " + High)
         == SecurityTestConfig(false, true, false, false, false, High)
  {
    RaceConditionAlone();
    HighAlone();
    ParseAcrossSeparator(RaceCondition, ' ', High);
  }
}
