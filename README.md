# Bot bearer-token validation policy

A Dafny model of `AspNetExtensions.AddBotAspNetAuthentication`, the start-up
routine of the bot lab that turns the `TokenValidation` configuration section into
the JWT bearer validation policy. It:

- resolves the list of accepted token issuers. An explicit, non-empty
  `ValidIssuers` list is used as given. Otherwise the five Azure Bot Service
  public-cloud issuers are used, followed by the v1 and the v2 tenant issuer URL
  when `TenantId` is set;
- takes the first `Audience` entry as the one accepted audience. The build fails
  with `"<authenticationSection>:Audience not set"` when that entry is missing or
  empty;
- reads `IsGov` (default false) and `AzureBotServiceTokenHandling` (default true);
- switches on issuer, audience, lifetime and signing-key validation, requires
  signed tokens, saves the token and allows 5 minutes of clock skew.

Layout:

- `wrappers.dfy`: module `Wrappers`, with `Option` (an unset key, a .NET null)
  and `Result` (the thrown exception).
- `asp_net_extensions.dfy`: module `AspNetExtensions`. It holds the configuration
  record, the policy, the specification functions `ResolveIssuers` and `Resolve`,
  and the two methods that build the issuer list and the policy step by step, as
  the source does. Each method is proved equal to its specification function.
- `policy_properties.dfy`: module `PolicyProperties`, with lemmas about the
  specification. They cover the issuer list case by case, the audience check,
  which inputs the policy does not depend on, and when the issuer list holds no
  URL twice.

The configuration is a map from section name to a bound section record. A
missing section reads as a section with every key unset, as a .NET section
lookup does. Section names are compared exactly (see "Left out"). The source
always reads the section named `TokenValidation`. Its `authenticationSection`
parameter appears only in the error message. The doc comment of the parameter
(lab/exercise1/2.end/AspNetExtensions.cs:31) calls it the name of the section
to read. The model follows the code:
`OnlyTokenValidationSectionRead`, `SectionParameterOnlyNamesError` and
`NamedSectionIsNotRead` state that split.

The two tenant issuer URL templates are constants of the authentication library.
That library is not part of this model. They enter as `IssuerTemplates`, a pair
of functions from tenant id to URL. Every property holds for any such pair.

`IsGov` and `AzureBotServiceTokenHandling` are read with their defaults and then
not used by the source. The model returns them next to the policy in `Startup`,
and `FlagsDoNotChangePolicy` shows that they affect nothing else.

## Model

| member | source | states |
|---|---|---|
| `AspNetExtensions.ResolveIssuers` | lab/exercise1/2.end/AspNetExtensions.cs:62-82 | the issuer list is never empty; without an explicit list it starts with the five defaults |
| `AspNetExtensions.BuildValidIssuers` | lab/exercise1/2.end/AspNetExtensions.cs:62-82 | building the list step by step (reset to the defaults, then append v1 and v2 tenant URLs) yields exactly `ResolveIssuers` |
| `AspNetExtensions.Resolve` | lab/exercise1/2.end/AspNetExtensions.cs:60-111 | the build succeeds iff the first audience entry of the TokenValidation section exists and is non-empty; a failure carries `authenticationSection + ":Audience not set"`; a success has all fixed switches on and a 5-minute skew, the first audience entry as audience, the resolved issuers, IsGov true only if set true, and token handling false only if set false |
| `AspNetExtensions.AddBotAspNetAuthentication` | lab/exercise1/2.end/AspNetExtensions.cs:58-111 | the step-by-step builder (issuers, audience check that stops before any policy, flags, policy) returns exactly `Resolve` |
| `PolicyProperties.ExplicitIssuersUsedVerbatim` | lab/exercise1/2.end/AspNetExtensions.cs:62-65 | a present, non-empty issuer list is the result element for element; tenant id and templates have no effect |
| `PolicyProperties.DefaultIssuersWithoutTenant` | lab/exercise1/2.end/AspNetExtensions.cs:65-77 | no explicit list and a null or empty tenant id give exactly the five defaults in source order |
| `PolicyProperties.TenantIssuersAppended` | lab/exercise1/2.end/AspNetExtensions.cs:76-81 | no explicit list and tenant id `t` give the five defaults, then v1(t), then v2(t): seven entries |
| `PolicyProperties.EmptyIssuerListIsMissing` | lab/exercise1/2.end/AspNetExtensions.cs:65 | an empty issuer list and a missing one give the same issuers |
| `PolicyProperties.LaterAudiencesIgnored` | lab/exercise1/2.end/AspNetExtensions.cs:84 | audience lists that share their first entry give the same outcome |
| `PolicyProperties.SingleAudienceExample` | lab/exercise1/2.end/AspNetExtensions.cs:84-108 | the audience list ["abc123"] gives a policy whose audience is "abc123" |
| `PolicyProperties.MissingAudienceExample` | lab/exercise1/2.end/AspNetExtensions.cs:84-87 | an absent section, or an empty first audience, fails with "TokenValidation:Audience not set" or "Auth:Audience not set" |
| `PolicyProperties.FixedFieldsWhateverInput` | lab/exercise1/2.end/AspNetExtensions.cs:100-111 | any two successful policies are equal except for issuers and audience |
| `PolicyProperties.FlagsDoNotChangePolicy` | lab/exercise1/2.end/AspNetExtensions.cs:90-91 | changing IsGov or AzureBotServiceTokenHandling changes neither success nor failure nor the policy |
| `PolicyProperties.FlagDefaults` | lab/exercise1/2.end/AspNetExtensions.cs:90-91 | with both flags absent, IsGov is false and AzureBotServiceTokenHandling is true |
| `PolicyProperties.OnlyTokenValidationSectionRead` | lab/exercise1/2.end/AspNetExtensions.cs:60 | configurations that agree on the TokenValidation section give the same outcome |
| `PolicyProperties.SectionParameterOnlyNamesError` | lab/exercise1/2.end/AspNetExtensions.cs:87 | two values of authenticationSection give the same success or the same policy; on failure each message names its own parameter |
| `PolicyProperties.NamedSectionIsNotRead` | lab/exercise1/2.end/AspNetExtensions.cs:60 | an audience set only under a section named by authenticationSection ("Auth") still fails with "Auth:Audience not set" |
| `PolicyProperties.DefaultIssuersDistinct` | lab/exercise1/2.end/AspNetExtensions.cs:67-74 | the five default issuers are pairwise different |
| `PolicyProperties.ResolvedIssuersDistinct` | lab/exercise1/2.end/AspNetExtensions.cs:65-82 | the resolved list has no repeats iff the explicit list has none, or, without one, iff there is no tenant or both tenant URLs are new and different from each other |

## Left out

- Registration with the host: `AddAuthentication` with the default
  authenticate and challenge schemes, `AddJwtBearer` and
  `EnableAadSigningKeyIssuerValidation` are calls into the ASP.NET Core and
  IdentityModel libraries. Only the options value they receive is modelled.
- Configuration binding: the `IConfiguration` lookups and their type conversion
  are library behaviour. A value that does not convert to `bool` throws in the
  source and has no counterpart in the record. The JSON scalar form of `Audience`
  is not modelled either: the source reads only the `Audience:0` key, so a
  scalar value there reads as unset. The record holds an audience list only.
- Case-insensitive section names: .NET configuration matches keys ignoring
  case, so a section written `tokenValidation` is also read. The model compares
  section names exactly, so such a configuration fails in the model with a
  missing audience where the program would read it.
- `ValidTokenIssuerUrlTemplateV1`/`V2` text and `string.Format`: these belong to
  the authentication library, which is not part of this model. They are
  parameters.
- The exception's parameter name: the source passes the (null or empty)
  audience value as the parameter name of the `ArgumentNullException`. Only the
  failure and its message are modelled.
- The `_openIdMetadataCache` concurrent dictionary: it is declared and never
  used in this file.
- The optional `ILogger` parameter: it is unused by the routine.
- Clock skew is a whole number of minutes rather than a .NET `TimeSpan`.
- The rest of the repository (agent classes calling a hosted chat model,
  weather plugins calling a public HTTP API, the weather transfer object, the
  program bootstrap and the empty bot handlers) is external calls or wiring
  with no logic of its own.
