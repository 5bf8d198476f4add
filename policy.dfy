/** The `@RequireRole` policy descriptor (annotation/RequireRole.java). */
module Policy {
  import opened Roles

  /** The denial message used when a descriptor does not give its own. */
  const DefaultMessage: string := "Access denied: insufficient privileges"

  /**
   * An attached requirement: the roles `value`, the combinator (`requireAll`
   * true means ALL, false means ANY) and the message of a 403 denial.
   */
  datatype RequireRole = RequireRole(value: seq<Role>, requireAll: bool, message: string)

  /** `@RequireRole({...})` with every defaulted element left at its default. */
  function Require(roles: seq<Role>): (d: RequireRole)
    ensures d.value == roles
    ensures !d.requireAll
    ensures d.message == DefaultMessage
  {
    RequireRole(roles, false, DefaultMessage)
  }
}
