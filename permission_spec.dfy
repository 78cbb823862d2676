/** PermissionSpec: the immutable request object handed to the authorizer by
    a GRANT or REVOKE, naming the permissions, their column lists, the target
    resource and the grantee. */
module PermissionSpecs {
  import opened AuthTypes

  /** All four fields are final in the source, so the value type is a
      datatype: its destructors are the four getters and it never changes.
      The four-argument constructor is the datatype constructor itself; it
      accepts any combination of arguments, including column-map keys that
      are not among `permissions`. */
  datatype PermissionSpec = PermissionSpec(
    permissions: set<Permission>,
    permissionColumns: map<Permission, set<ColumnIdentifier>>,
    resource: Resource,
    grantee: RoleResource)

  /** The three-argument constructor: a whole-resource request, with no
      column lists. */
  function NewPermissionSpec(permissions: set<Permission>, resource: Resource, grantee: RoleResource): (spec: PermissionSpec)
    ensures spec.permissions == permissions
    ensures spec.permissionColumns.Keys == {}
    ensures spec.resource == resource && spec.grantee == grantee
  {
    PermissionSpec(permissions, map[], resource, grantee)
  }
}
