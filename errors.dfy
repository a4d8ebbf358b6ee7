/** Backend errors and the tests the migration and rule code apply to their
    messages to decide "already done" versus "real failure". */
module Errors {
  import opened Text

  /** `arcgisscripting.ExecuteError` (raised by geoprocessing tools) versus any
      other Python exception (cursor `RuntimeError`, `IndexError`, `ValueError`,
      `TypeError`, a plain `Exception`). The distinction matters where the
      source catches only `ExecuteError`. */
  datatype Error = ExecuteError(message: string) | OtherError(message: string)

  const FieldUpgradedCode := "ERROR 002557"
  const DomainMissingCode := "ERROR 000800"
  const FieldGroupMissingCode := "ERROR 002585"
  const RuleExistsCode := "ERROR 002541"
  const RuleMissingCode := "ERROR 002556"

  /** modify_tables: "field likely upgraded already" (substring test). */
  predicate FieldAlreadyUpgraded(message: string) {
    Contains(message, FieldUpgradedCode)
  }

  /** delete_domains: "domain already removed" (substring test). */
  predicate DomainAlreadyRemoved(message: string) {
    Contains(message, DomainMissingCode)
  }

  /** RuleGroup.execute: "rule already exists, skipping" (prefix test). */
  predicate RuleAlreadyExists(message: string) {
    StartsWith(message, RuleExistsCode)
  }

  /** RuleGroup.delete: "rule already deleted, skipping" (prefix test). */
  predicate RuleAlreadyDeleted(message: string) {
    StartsWith(message, RuleMissingCode)
  }
}
