/** Properties of the token-validation policy builder: how the issuer list is
    defaulted, what the audience check decides, which inputs the policy does
    not depend on, and when the issuer list holds no URL twice. */
module PolicyProperties {
  import opened Wrappers
  import opened AspNetExtensions

  // ---------------------------------------------------------------------------
  // Issuer list, case by case
  // ---------------------------------------------------------------------------

  /** A present, non-empty issuer list is taken element for element, and
      neither the tenant id nor the templates change it. */
  lemma ExplicitIssuersUsedVerbatim(
    section: TokenValidationSection, templates: IssuerTemplates,
    otherTenant: Option<string>, otherTemplates: IssuerTemplates)
    requires HasExplicitIssuers(section)
    ensures ResolveIssuers(section, templates) == section.validIssuers.value
    ensures ResolveIssuers(section.(tenantId := otherTenant), otherTemplates) == ResolveIssuers(section, templates)
  {
  }

  /** No explicit list and no tenant id: exactly the five defaults, in order. */
  lemma DefaultIssuersWithoutTenant(section: TokenValidationSection, templates: IssuerTemplates)
    requires !HasExplicitIssuers(section) && IsNullOrEmpty(section.tenantId)
    ensures ResolveIssuers(section, templates) == DefaultIssuers
    ensures |ResolveIssuers(section, templates)| == 5
  {
  }

  /** No explicit list and a tenant id `t`: the five defaults, then the v1 and
      the v2 tenant URL, seven in all. */
  lemma TenantIssuersAppended(section: TokenValidationSection, templates: IssuerTemplates, t: string)
    requires !HasExplicitIssuers(section) && section.tenantId == Some(t) && t != ""
    ensures var issuers := ResolveIssuers(section, templates);
      && |issuers| == 7
      && issuers[..5] == DefaultIssuers
      && issuers[5] == templates.v1(t)
      && issuers[6] == templates.v2(t)
  {
  }

  /** A missing issuer list and an empty one are treated alike. */
  lemma EmptyIssuerListIsMissing(section: TokenValidationSection, templates: IssuerTemplates)
    ensures ResolveIssuers(section.(validIssuers := Some([])), templates)
         == ResolveIssuers(section.(validIssuers := None), templates)
  {
  }

  // ---------------------------------------------------------------------------
  // Audience
  // ---------------------------------------------------------------------------

  /** Only the first audience entry matters: entries after it are ignored. */
  lemma LaterAudiencesIgnored(
    configuration: Configuration, authenticationSection: string, templates: IssuerTemplates,
    first: string, rest1: seq<string>, rest2: seq<string>)
    ensures
      var section := GetSection(configuration, TokenValidationSectionName);
      var c1 := configuration[TokenValidationSectionName := section.(audience := [first] + rest1)];
      var c2 := configuration[TokenValidationSectionName := section.(audience := [first] + rest2)];
      Resolve(c1, authenticationSection, templates) == Resolve(c2, authenticationSection, templates)
  {
  }

  /** A message literal that spells out a section name followed by
      ":Audience not set" is that section's error message. */
  lemma MessageLiteral(authenticationSection: string, expected: string)
    requires |expected| == |authenticationSection| + 17
    requires expected[..|authenticationSection|] == authenticationSection
    requires expected[|authenticationSection|..] == ":Audience not set"
    ensures AudienceNotSetMessage(authenticationSection) == expected
  {
  }

  /** The audience list ["abc123"] yields the audience "abc123". */
  lemma SingleAudienceExample(templates: IssuerTemplates)
    ensures
      var configuration := map[TokenValidationSectionName := EmptySection.(audience := ["abc123"])];
      var r := Resolve(configuration, DefaultAuthenticationSection, templates);
      r.Success? && r.value.policy.validAudience == "abc123"
  {
  }

  /** An empty or absent audience fails with the message naming the key. */
  lemma MissingAudienceExample(templates: IssuerTemplates)
    ensures Resolve(map[], DefaultAuthenticationSection, templates)
         == Failure(AudienceNotSet("TokenValidation:Audience not set"))
    ensures Resolve(map[TokenValidationSectionName := EmptySection.(audience := [""])], "Auth", templates)
         == Failure(AudienceNotSet("Auth:Audience not set"))
  {
    MessageLiteral("TokenValidation", "TokenValidation:Audience not set");
    MessageLiteral("Auth", "Auth:Audience not set");
  }

  // ---------------------------------------------------------------------------
  // What the policy does not depend on
  // ---------------------------------------------------------------------------

  /** Any two successful builds agree on every field but issuers and audience. */
  lemma FixedFieldsWhateverInput(
    c1: Configuration, s1: string, t1: IssuerTemplates,
    c2: Configuration, s2: string, t2: IssuerTemplates)
    requires Resolve(c1, s1, t1).Success? && Resolve(c2, s2, t2).Success?
    ensures
      var p1 := Resolve(c1, s1, t1).value.policy;
      var p2 := Resolve(c2, s2, t2).value.policy;
      p1.(validIssuers := p2.validIssuers, validAudience := p2.validAudience) == p2
  {
  }

  /** `IsGov` and `AzureBotServiceTokenHandling` change neither the outcome nor
      the policy; only the flags reported next to it. */
  lemma FlagsDoNotChangePolicy(
    configuration: Configuration, authenticationSection: string, templates: IssuerTemplates,
    isGov: Option<bool>, tokenHandling: Option<bool>)
    ensures
      var section := GetSection(configuration, TokenValidationSectionName);
      var other := configuration[TokenValidationSectionName :=
        section.(isGov := isGov, azureBotServiceTokenHandling := tokenHandling)];
      var r1 := Resolve(configuration, authenticationSection, templates);
      var r2 := Resolve(other, authenticationSection, templates);
      && r1.Success? == r2.Success?
      && (r1.Success? ==> r1.value.policy == r2.value.policy)
      && (r1.Failure? ==> r1 == r2)
  {
  }

  /** Absent flags default to `IsGov = false` and `AzureBotServiceTokenHandling = true`. */
  lemma FlagDefaults(configuration: Configuration, authenticationSection: string, templates: IssuerTemplates)
    requires Resolve(configuration, authenticationSection, templates).Success?
    requires GetSection(configuration, TokenValidationSectionName).isGov == None
    requires GetSection(configuration, TokenValidationSectionName).azureBotServiceTokenHandling == None
    ensures !Resolve(configuration, authenticationSection, templates).value.isGov
    ensures Resolve(configuration, authenticationSection, templates).value.azureBotServiceTokenHandling
  {
  }

  /** Only the section named "TokenValidation" is read. */
  lemma OnlyTokenValidationSectionRead(
    c1: Configuration, c2: Configuration, authenticationSection: string, templates: IssuerTemplates)
    requires GetSection(c1, TokenValidationSectionName) == GetSection(c2, TokenValidationSectionName)
    ensures Resolve(c1, authenticationSection, templates) == Resolve(c2, authenticationSection, templates)
  {
  }

  /** `authenticationSection` decides nothing but the text of the error. */
  lemma SectionParameterOnlyNamesError(
    configuration: Configuration, s1: string, s2: string, templates: IssuerTemplates)
    ensures
      var r1 := Resolve(configuration, s1, templates);
      var r2 := Resolve(configuration, s2, templates);
      && r1.Success? == r2.Success?
      && (r1.Success? ==> r1 == r2)
      && (r1.Failure? ==>
            r1.error.message == s1 + ":Audience not set" && r2.error.message == s2 + ":Audience not set")
  {
  }

  /** A section named by `authenticationSection` is not consulted: with the
      audience set under "Auth" and no "TokenValidation" section, naming "Auth"
      still fails. */
  lemma NamedSectionIsNotRead(templates: IssuerTemplates)
    ensures Resolve(map["Auth" := EmptySection.(audience := ["app"])], "Auth", templates)
         == Failure(AudienceNotSet("Auth:Audience not set"))
  {
    MessageLiteral("Auth", "Auth:Audience not set");
  }

  // ---------------------------------------------------------------------------
  // The issuer list as a set
  // ---------------------------------------------------------------------------

  /** No element occurs twice. */
  predicate Distinct(s: seq<string>)
  {
    forall i, j :: 0 <= i < j < |s| ==> s[i] != s[j]
  }

  /** The five default issuers are pairwise different. */
  lemma DefaultIssuersDistinct()
    ensures Distinct(DefaultIssuers)
  {
  }

  /** Appending keeps a list free of repeats exactly when the new element is new. */
  lemma DistinctAppend(s: seq<string>, x: string)
    ensures Distinct(s + [x]) <==> Distinct(s) && x !in s
  {
    var t := s + [x];
    if Distinct(t) {
      forall i, j | 0 <= i < j < |s| ensures s[i] != s[j] {
        assert s[i] == t[i] && s[j] == t[j];
      }
      assert Distinct(s);
      forall k | 0 <= k < |s| ensures s[k] != x {
        assert s[k] == t[k] && x == t[|s|];
      }
    }
    if Distinct(s) && x !in s {
      forall i, j | 0 <= i < j < |t| ensures t[i] != t[j] {
        if j < |s| {
          assert t[i] == s[i] && t[j] == s[j];
        } else {
          assert t[i] == s[i] && t[j] == x;
        }
      }
      assert Distinct(t);
    }
  }

  /** The resolved issuer list holds each URL once exactly when the explicit
      list does, or, without one, when the tenant URLs are new and different. */
  lemma ResolvedIssuersDistinct(section: TokenValidationSection, templates: IssuerTemplates)
    ensures Distinct(ResolveIssuers(section, templates)) <==>
      if HasExplicitIssuers(section) then
        Distinct(section.validIssuers.value)
      else
        IsNullOrEmpty(section.tenantId) ||
        (var t := section.tenantId.value;
         && templates.v1(t) !in DefaultIssuers
         && templates.v2(t) !in DefaultIssuers
         && templates.v1(t) != templates.v2(t))
  {
    DefaultIssuersDistinct();
    if !HasExplicitIssuers(section) && !IsNullOrEmpty(section.tenantId) {
      var t := section.tenantId.value;
      var u1, u2 := templates.v1(t), templates.v2(t);
      DistinctAppend(DefaultIssuers, u1);
      DistinctAppend(DefaultIssuers + [u1], u2);
      assert ResolveIssuers(section, templates) == DefaultIssuers + [u1] + [u2];
    }
  }
}
