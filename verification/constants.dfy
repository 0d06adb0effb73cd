/** The well-known names the configuration manager navigates by. They stand
    for `Constants.DEFAULT_CONFIG_SECTION_NAME`,
    `Constants.PROPERTY_NAME_HEALTHCHECHS`, `Constants.PROPERTY_NAME_SERVICENAME`
    and `Constants.PROPERTY_NAME_CONTEXT`, which the manager reads at
    ConfigurationManager.cs lines 13, 91, 40 and 41 (the Context name
    also at line 60). The `Constants` class
    is not part of this model: the strings below are chosen after the
    constant names, and the proofs use only that they are distinct. */
module Constants {

  /** Default name of the root section that holds all health-check settings. */
  const DefaultConfigSectionName: string := "DynamicHealthCheck"

  /** Child of the root section holding the ordered list of per-service entries. */
  const HealthChecksKey: string := "HealthChecks"

  /** Child of an entry naming the service the entry configures. */
  const ServiceNameKey: string := "ServiceName"

  /** Child of an entry holding the kind-specific context to bind. */
  const ContextKey: string := "Context"
}
