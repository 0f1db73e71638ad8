/** The token-validation policy that `AspNetExtensions.AddBotAspNetAuthentication`
    derives from configuration before it registers JWT bearer authentication:
    the list of accepted issuers, the one accepted audience, and the fixed
    validation switches handed to the bearer middleware. */
module AspNetExtensions {
  import opened Wrappers

  // ---------------------------------------------------------------------------
  // Configuration
  // ---------------------------------------------------------------------------

  /** The keys of one configuration section once bound to values. A key the
      configuration does not set is `None` (a .NET null), and a list key that
      is not set is the empty list. */
  datatype TokenValidationSection = TokenValidationSection(
    audience: seq<string>,                    // "Audience"; only entry 0 is read
    tenantId: Option<string>,                 // "TenantId"
    validIssuers: Option<seq<string>>,        // "ValidIssuers"
    isGov: Option<bool>,                      // "IsGov"
    azureBotServiceTokenHandling: Option<bool> // "AzureBotServiceTokenHandling"
  )

  /** The whole configuration, as its top-level sections by name. */
  type Configuration = map<string, TokenValidationSection>

  /** What a section lookup yields for a name the configuration lacks: a
      section in which every key is unset (the lookup never fails). */
  const EmptySection := TokenValidationSection([], None, None, None, None)

  /** The section the builder reads, whatever section name its caller passes. */
  const TokenValidationSectionName := "TokenValidation"

  /** The default value of the `authenticationSection` parameter. */
  const DefaultAuthenticationSection := "TokenValidation"

  function GetSection(configuration: Configuration, name: string): TokenValidationSection
  {
    if name in configuration then configuration[name] else EmptySection
  }

  /** .NET's `string.IsNullOrEmpty`. */
  predicate IsNullOrEmpty(s: Option<string>)
  {
    s.None? || s.value == ""
  }

  /** The value under "Audience:0": the first audience entry, if there is one. */
  function FirstAudience(section: TokenValidationSection): Option<string>
  {
    if section.audience == [] then None else Some(section.audience[0])
  }

  // ---------------------------------------------------------------------------
  // Issuers
  // ---------------------------------------------------------------------------

  /** The Azure Bot Service public-cloud issuers, in the order the source lists them. */
  const DefaultIssuers: seq<string> := [
    "https://api.botframework.com",
    "https://sts.windows.net/d6d49420-f39b-4df7-a1dc-d59a935871db/",
    "https://login.microsoftonline.com/d6d49420-f39b-4df7-a1dc-d59a935871db/v2.0",
    "https://sts.windows.net/f8cdef31-a31e-4b4a-93e4-5f571e91255a/",
    "https://login.microsoftonline.com/f8cdef31-a31e-4b4a-93e4-5f571e91255a/v2.0"
  ]

  /** Formatting of the two tenant-scoped issuer URL templates of the
      authentication library (v1 and v2 tokens) with a tenant id. Their text is
      not part of this model, so every property here holds for any pair. */
  datatype IssuerTemplates = IssuerTemplates(v1: string -> string, v2: string -> string)

  /** An explicit issuer list is one that is present and non-empty. */
  predicate HasExplicitIssuers(section: TokenValidationSection)
  {
    section.validIssuers.Some? && section.validIssuers.value != []
  }

  /** The issuers the policy accepts: an explicit list as given; otherwise the
      defaults, followed by the two tenant URLs when a tenant id is set. */
  function ResolveIssuers(section: TokenValidationSection, templates: IssuerTemplates): (issuers: seq<string>)
    ensures issuers != []
    ensures !HasExplicitIssuers(section) ==> DefaultIssuers <= issuers
  {
    if HasExplicitIssuers(section) then
      section.validIssuers.value
    else if IsNullOrEmpty(section.tenantId) then
      DefaultIssuers
    else
      var t := section.tenantId.value;
      DefaultIssuers + [templates.v1(t), templates.v2(t)]
  }

  /** Builds the issuer list step by step, as the source does with a mutable list. */
  method BuildValidIssuers(section: TokenValidationSection, templates: IssuerTemplates)
    returns (validTokenIssuers: seq<string>)
    ensures validTokenIssuers == ResolveIssuers(section, templates)
  {
    validTokenIssuers := if section.validIssuers.Some? then section.validIssuers.value else [];
    if section.validIssuers.None? || |validTokenIssuers| == 0 {
      validTokenIssuers := DefaultIssuers;
      var tenantId := section.tenantId;
      if !IsNullOrEmpty(tenantId) {
        validTokenIssuers := validTokenIssuers + [templates.v1(tenantId.value)];
        validTokenIssuers := validTokenIssuers + [templates.v2(tenantId.value)];
      }
    }
  }

  // ---------------------------------------------------------------------------
  // Policy
  // ---------------------------------------------------------------------------

  /** The clock skew tolerated when checking token lifetimes, in minutes. */
  const ClockSkewMinutes: nat := 5

  /** The JWT bearer options the builder sets: `SaveToken` and the token
      validation parameters. */
  datatype Policy = Policy(
    saveToken: bool,
    validateIssuer: bool,
    validateAudience: bool,
    validateLifetime: bool,
    clockSkewMinutes: nat,
    validIssuers: seq<string>,
    validAudience: string,
    validateIssuerSigningKey: bool,
    requireSignedTokens: bool
  )

  /** A successful build: the policy, and the two flags the builder reads with
      their defaults applied (it computes them but passes neither on). */
  datatype Startup = Startup(policy: Policy, isGov: bool, azureBotServiceTokenHandling: bool)

  /** The one failure: the audience is missing (an `ArgumentNullException`). */
  datatype ConfigError = AudienceNotSet(message: string)

  function AudienceNotSetMessage(authenticationSection: string): string
  {
    authenticationSection + ":Audience not set"
  }

  /** Every switch the builder turns on, and the fixed clock skew. */
  predicate HasFixedValidation(p: Policy)
  {
    && p.saveToken
    && p.validateIssuer
    && p.validateAudience
    && p.validateLifetime
    && p.validateIssuerSigningKey
    && p.requireSignedTokens
    && p.clockSkewMinutes == ClockSkewMinutes
  }

  function BearerPolicy(issuers: seq<string>, audience: string): Policy
  {
    Policy(
      saveToken := true,
      validateIssuer := true,
      validateAudience := true,
      validateLifetime := true,
      clockSkewMinutes := ClockSkewMinutes,
      validIssuers := issuers,
      validAudience := audience,
      validateIssuerSigningKey := true,
      requireSignedTokens := true)
  }

  /** The outcome of `AddBotAspNetAuthentication`: the section named
      "TokenValidation" is read whatever `authenticationSection` is; that
      parameter only names the key in the error message. */
  function Resolve(configuration: Configuration, authenticationSection: string, templates: IssuerTemplates)
    : (r: Result<Startup, ConfigError>)
    ensures
      var section := GetSection(configuration, TokenValidationSectionName);
      && (r.Success? <==> |section.audience| > 0 && section.audience[0] != "")
      && (r.Failure? ==> r.error == AudienceNotSet(authenticationSection + ":Audience not set"))
      && (r.Success? ==>
            && HasFixedValidation(r.value.policy)
            && r.value.policy.validAudience == section.audience[0]
            && r.value.policy.validIssuers == ResolveIssuers(section, templates)
            && (r.value.isGov <==> section.isGov == Some(true))
            && (r.value.azureBotServiceTokenHandling <==> section.azureBotServiceTokenHandling != Some(false)))
  {
    var section := GetSection(configuration, TokenValidationSectionName);
    var issuers := ResolveIssuers(section, templates);
    var audience := FirstAudience(section);
    if IsNullOrEmpty(audience) then
      Failure(AudienceNotSet(AudienceNotSetMessage(authenticationSection)))
    else
      Success(Startup(
        BearerPolicy(issuers, audience.value),
        section.isGov.GetOr(false),
        section.azureBotServiceTokenHandling.GetOr(true)))
  }

  /** The builder as the source runs it: issuers first, then the audience
      check, then the flags; a missing audience stops it before any policy
      exists. */
  method AddBotAspNetAuthentication(
    configuration: Configuration, authenticationSection: string, templates: IssuerTemplates)
    returns (r: Result<Startup, ConfigError>)
    ensures r == Resolve(configuration, authenticationSection, templates)
  {
    var tokenValidationSection := GetSection(configuration, TokenValidationSectionName);
    var validTokenIssuers := BuildValidIssuers(tokenValidationSection, templates);
    var audience := FirstAudience(tokenValidationSection);
    if IsNullOrEmpty(audience) {
      return Failure(AudienceNotSet(AudienceNotSetMessage(authenticationSection)));
    }
    var isGov := tokenValidationSection.isGov.GetOr(false);
    var azureBotServiceTokenHandling := tokenValidationSection.azureBotServiceTokenHandling.GetOr(true);
    var policy := BearerPolicy(validTokenIssuers, audience.value);
    r := Success(Startup(policy, isGov, azureBotServiceTokenHandling));
  }
}
