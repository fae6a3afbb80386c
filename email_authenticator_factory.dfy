/**
 * `EmailAuthenticatorFactory`: the default configuration values, the configuration
 * properties an administrator can set and the requirement modes the step can run under.
 */
module EmailAuthenticatorFactory {
  import opened Flow

  const CodeLength: string := "6"
  const TimeToLive: string := "300"
  const SimulationMode: string := "false"

  /** `ProviderConfigProperty.STRING_TYPE` and `BOOLEAN_TYPE`. */
  datatype PropertyType = StringType | BooleanType

  /** A `ProviderConfigProperty` without its display label and help text. */
  datatype ConfigProperty = ConfigProperty(name: string, propertyType: PropertyType, defaultValue: string)

  function Id(): string {
    "email-authenticator"
  }

  predicate IsConfigurable() {
    true
  }

  predicate IsUserSetupAllowed() {
    false
  }

  function RequirementChoices(): seq<Requirement> {
    [Required, Alternative, Disabled]
  }

  function ConfigProperties(): seq<ConfigProperty> {
    [ ConfigProperty("length", StringType, CodeLength),
      ConfigProperty("ttl", StringType, TimeToLive),
      ConfigProperty("simulation", BooleanType, SimulationMode) ]
  }

  /** The provider's identity and capabilities. */
  lemma ProviderMetadata()
    ensures Id() == "email-authenticator"
    ensures IsConfigurable() && !IsUserSetupAllowed()
  {
  }

  /**
   * Each requirement is offered at most once, REQUIRED comes first and CONDITIONAL is never
   * offered.
   */
  lemma OfferedRequirements()
    ensures forall i, j :: 0 <= i < j < |RequirementChoices()| ==> RequirementChoices()[i] != RequirementChoices()[j]
    ensures RequirementChoices() == [Required, Alternative, Disabled]
    ensures Conditional !in RequirementChoices()
    ensures RequirementChoices()[0] == Required
    ensures forall r :: r in RequirementChoices() <==> r != Conditional
  {
  }

  /** The three properties have distinct names, and only `simulation` is a boolean. */
  lemma PropertiesAreDistinct()
    ensures forall i, j :: 0 <= i < j < |ConfigProperties()| ==> ConfigProperties()[i].name != ConfigProperties()[j].name
    ensures forall p :: p in ConfigProperties() ==> (p.propertyType == BooleanType <==> p.name == "simulation")
  {
  }
}
