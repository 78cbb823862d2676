/** PermissionSet: an immutable set of permissions together with, per
    permission, the names of the columns the permission is restricted to. */
module PermissionSets {
  import opened AuthTypes

  /** Both fields are final in the source, so the value type is a datatype:
      its destructors are the getters, and nothing can change it after
      construction. The two-argument constructor is the datatype constructor
      itself, which, like the source, checks nothing: keys of
      `permissionColumns` need not be members of `permissions`. */
  datatype PermissionSet = PermissionSet(permissions: set<Permission>, permissionColumns: map<Permission, set<string>>)

  /** The single-argument constructor: no column constraints at all. */
  function NewPermissionSet(permissions: set<Permission>): (ps: PermissionSet)
    ensures ps.permissions == permissions
    ensures ps.permissionColumns.Keys == {}
  {
    PermissionSet(permissions, map[])
  }

  /** hasColumnConstraint: the permission is restricted to some column. */
  function HasColumnConstraint(ps: PermissionSet, perm: Permission): (constrained: bool)
    ensures constrained <==> perm in ps.permissionColumns && exists c :: c in ps.permissionColumns[perm]
  {
    perm in ps.permissionColumns && ps.permissionColumns[perm] != {}
  }

  /** A permission without an entry in the column map, or whose entry is the
      empty set, is unconstrained. */
  lemma UnconstrainedWhenAbsentOrEmpty(ps: PermissionSet, perm: Permission)
    requires perm !in ps.permissionColumns || ps.permissionColumns[perm] == {}
    ensures !HasColumnConstraint(ps, perm)
  {
  }

  /** A permission set built without a column map constrains nothing. */
  lemma NewPermissionSetUnconstrained(permissions: set<Permission>, perm: Permission)
    ensures !HasColumnConstraint(NewPermissionSet(permissions), perm)
  {
  }

  /** Construction validates nothing: a permission that is not in the set can
      still carry a column constraint. */
  lemma {:induction false} ConstraintOutsidePermissions()
    ensures exists ps: PermissionSet, perm: Permission :: perm !in ps.permissions && HasColumnConstraint(ps, perm)
  {
    var ps := PermissionSet({}, map[SELECT := {"c1"}]);
    assert "c1" in ps.permissionColumns[SELECT];
    assert HasColumnConstraint(ps, SELECT);
  }
}
