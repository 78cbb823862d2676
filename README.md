# Column-scoped GRANT validation in Cassandra's access control

This project models the part of Cassandra's access-control layer that admits a
`GRANT` whose permissions are restricted to columns of a table
(`GRANT SELECT(c1) ON ks.t1 TO r1`), together with the two value types the grant
path produces or mirrors:

- `PermissionSet` (module `PermissionSets`): an immutable set of permissions with,
  per permission, the names of the columns it is restricted to, and its one query
  `hasColumnConstraint`.
- `PermissionSpec` (module `PermissionSpecs`): the immutable request handed to the
  authorizer: permissions, per-permission column identifiers, resource, grantee.
- `GrantPermissionsStatement` (module `GrantPermissions`): the statement's
  constructor, `validate` (generic check first, then `validateColumnsExist`) and
  the `PermissionSpec` that `execute` hands to the authorizer.
- `AuthTypes`: permissions, resources (data root, keyspace, table, roles,
  functions), column identifiers and the schema lookup
  `DataResource.getTableColumns`. The lookup is a map from table name to column
  definitions. A missing entry, or a data resource that is not a table, means the
  lookup throws.

The column check ends in one of five outcomes. These are `Admissible`,
`ColumnsOnlyOnTables` (the InvalidRequest for non-data resources), `NotATable`
(the schema lookup throws), `ColumnsDoNotExist(p, missing)` (the InvalidRequest
naming missing columns) and `NullColumnList(p)` (the null dereference, see below).
`Validate` adds `BaseCheckFailed` for the generic check.

The Java loop runs over a `Set` whose iteration order is unspecified. The model
makes that order an explicit argument `order`, a sequence listing each requested
permission exactly once (`IsEnumeration`). The outcome is then a function
(`ColumnCheck`) of the statement, the schema and the order, so validating twice
gives the same result. `OutcomeOrderIndependent` shows that the order decides only which
failing permission is reported. That also decides whether the caller gets the
InvalidRequest or the null dereference (`OrderDecidesErrorKind`).

Where a natural reading of the feature and the code differ, the model follows the
code:

- The loop runs over the requested permissions, not over the keys of the column
  map. Column lists for permissions that were not requested are never checked
  (`StrayColumnListsIgnored`).
- A requested permission with no column list, while another permission has one,
  is not treated as "unconstrained, applies to the whole table". The code
  dereferences null at `GrantPermissionsStatement.java:72`. The model reports this
  as `NullColumnList`, and `UnlistedPermissionRejected` proves such a request is
  never admitted on a table.

## Model

| member | source | states |
|---|---|---|
| `AuthTypes.GetTableColumns` | src/java/org/apache/cassandra/cql3/statements/GrantPermissionsStatement.java:66-67 | the lookup yields column definitions exactly when the data resource is a table that exists in the schema, and then they are that table's definitions; otherwise it throws |
| `PermissionSets.NewPermissionSet` | src/java/org/apache/cassandra/auth/PermissionSet.java:41-44 | the single-argument constructor keeps the permissions and has an empty column map |
| `PermissionSets.HasColumnConstraint` | src/java/org/apache/cassandra/auth/PermissionSet.java:64-68 | true iff the permission is mapped to a column set that contains some column |
| `PermissionSets.UnconstrainedWhenAbsentOrEmpty` | src/java/org/apache/cassandra/auth/PermissionSet.java:66-67 | a permission absent from the column map, or mapped to the empty set, is unconstrained |
| `PermissionSets.NewPermissionSetUnconstrained` | src/java/org/apache/cassandra/auth/PermissionSet.java:41-44 | a set built without a column map constrains no permission |
| `PermissionSets.ConstraintOutsidePermissions` | src/java/org/apache/cassandra/auth/PermissionSet.java:35-39 | construction does no validation: a permission outside the set can still carry a column constraint |
| `PermissionSpecs.NewPermissionSpec` | src/java/org/apache/cassandra/auth/PermissionSpec.java:50-53 | the three-argument constructor has an empty column map and exactly the given permissions, resource and grantee |
| `GrantPermissions.NewGrantPermissionsStatement` | src/java/org/apache/cassandra/cql3/statements/GrantPermissionsStatement.java:44-51 | an absent (null) column map is stored as the empty map, a present one unchanged, and the other fields as given |
| `GrantPermissions.ExistingColumns` | src/java/org/apache/cassandra/cql3/statements/GrantPermissionsStatement.java:68-69 | the existing columns are exactly the names of the table's column definitions |
| `GrantPermissions.MissingColumns` | src/java/org/apache/cassandra/cql3/statements/GrantPermissionsStatement.java:72-74 | the missing set lies within the requested columns, is disjoint from the existing ones, and together with them covers every requested column |
| `GrantPermissions.Offence` | src/java/org/apache/cassandra/cql3/statements/GrantPermissionsStatement.java:72-80 | one loop iteration: a permission passes iff it has a column list and every listed column exists; otherwise the error names that permission, and is the null dereference iff it has no list, else the missing set, which is its requested columns minus the existing ones and non-empty |
| `GrantPermissions.FirstOffence` | src/java/org/apache/cassandra/cql3/statements/GrantPermissionsStatement.java:70-81 | the loop: any error it stops with is a column error or a null dereference, about a permission it iterated |
| `GrantPermissions.ColumnCheck` | src/java/org/apache/cassandra/cql3/statements/GrantPermissionsStatement.java:59-88 | `validateColumnsExist`: an empty map passes whatever the resource; a non-empty map fails with the "tables only" error on any non-data resource, and through the lookup on a data resource that is not a table; column errors and null dereferences arise only on an existing table, for an iterated permission |
| `GrantPermissions.ColumnsAdmissible` | src/java/org/apache/cassandra/cql3/statements/GrantPermissionsStatement.java:61-81 | the order-free condition for admission; when the map is non-empty it implies a data resource and a column list for every requested permission |
| `GrantPermissions.FirstOffenceIsFirst` | src/java/org/apache/cassandra/cql3/statements/GrantPermissionsStatement.java:70-81 | the loop fails with the error of the first failing permission in iteration order, and passes iff no permission fails |
| `GrantPermissions.ColumnCheckAdmissibleIff` | src/java/org/apache/cassandra/cql3/statements/GrantPermissionsStatement.java:59-88 | the column check admits iff the map is empty, or the resource is an existing table and every requested permission has a column list within the table's columns |
| `GrantPermissions.ReportedOffence` | src/java/org/apache/cassandra/cql3/statements/GrantPermissionsStatement.java:72-79 | a reported missing set belongs to a requested permission, equals its requested columns minus the existing ones, and is non-empty and disjoint from the table's columns; a null dereference is only for a requested permission without a column list in a non-empty map |
| `GrantPermissions.FirstOffenceReadsOnlyOrder` | src/java/org/apache/cassandra/cql3/statements/GrantPermissionsStatement.java:70-72 | the loop reads the column map only at the permissions it iterates |
| `GrantPermissions.StrayColumnListsIgnored` | src/java/org/apache/cassandra/cql3/statements/GrantPermissionsStatement.java:70-72 | changing column-map entries of permissions that were not requested never changes the outcome, while the map stays non-empty |
| `GrantPermissions.OrderDecidesErrorKind` | src/java/org/apache/cassandra/cql3/statements/GrantPermissionsStatement.java:70-77 | with SELECT listing a missing column and MODIFY listing none, checking SELECT first gives the InvalidRequest and checking MODIFY first gives the null dereference |
| `GrantPermissions.OutcomeOrderIndependent` | src/java/org/apache/cassandra/cql3/statements/GrantPermissionsStatement.java:70-81 | two iteration orders give the same outcome, unless both report some failing permission |
| `GrantPermissions.UnlistedPermissionRejected` | src/java/org/apache/cassandra/cql3/statements/GrantPermissionsStatement.java:70-72 | a requested permission without a column list, in a non-empty map, is never admitted |
| `GrantPermissions.ValidateColumnsExist` | src/java/org/apache/cassandra/cql3/statements/GrantPermissionsStatement.java:59-88 | the loop computes the column check's outcome; an empty map always passes; a non-empty map fails on any non-data resource with the "tables only" error, and through the lookup on a data resource that is not a table; admission iff the order-free condition holds |
| `GrantPermissions.Validate` | src/java/org/apache/cassandra/cql3/statements/GrantPermissionsStatement.java:53-57 | the generic check runs first and its failure wins; otherwise the outcome is the column check's; admitted iff both pass, so repeating validation gives the same outcome |
| `GrantPermissions.Execute` | src/java/org/apache/cassandra/cql3/statements/GrantPermissionsStatement.java:90-95 | the request handed to the authorizer has the statement's permissions, column map, resource and grantee |
| `GrantPermissions.AdmittedSpecNamesExistingColumns` | src/java/org/apache/cassandra/cql3/statements/GrantPermissionsStatement.java:90-93 | after an admitted check with column lists, the authorizer gets a request on an existing table in which every permission lists only that table's columns |
| `GrantPermissions.GrantColumnPermissionsExample` | test/unit/org/apache/cassandra/cql3/validation/miscellaneous/RoleSyntaxTest.java:151-153 | on a table with columns key, c1 and c2, SELECT(c1) is admitted and SELECT(nosuchcolumn) fails naming exactly nosuchcolumn |

The two-argument constructor of `PermissionSet` (`PermissionSet.java:35-39`) and
the four-argument constructor of `PermissionSpec` (`PermissionSpec.java:38-48`) are
the datatype constructors themselves. Their getters (`PermissionSet.java:46-54`,
`PermissionSpec.java:55-73`) are the datatype destructors, so each getter returns
exactly its constructor argument. All fields of both classes are final. Values of
a Dafny datatype cannot change, so neither a `PermissionSpec` nor a `hasColumnConstraint`
call can change anything.

## Left out

- `super.validate(state)`: the generic permissions-management check (permission applicability, existence of the role and the resource). It is not part of this model and enters only as its verdict `baseValid`.
- The authorizer's `grant` call, `ClientState`, the acting user and the `null` `ResultMessage` of `execute`: `Execute` models only the request it builds.
- The grantee: the base statement converts the parsed role name into a role resource, and that class is not part of this model. The statement holds the `RoleResource` directly.
- `DataResource.getTableColumns`, `ColumnDefinition` and `ColumnIdentifier` are reduced to a map from table name to column names. How the catalog resolves names, and which exception it throws, is not modelled.
- Exception message text and `PermissionSet.toString`.
- Null references other than the statement's column map are not modelled. Java maps can map a key to `null`, and `Map.get` cannot tell that from an absent key; the model has only absent keys. A `null` column map given to the two-argument `PermissionSet` constructor makes `hasColumnConstraint` throw; the model cannot express it. `PermissionSpec` accepts `null` for any argument; the model cannot express that either.
- Iteration order of the `permissions` set is an input (`order`), not derived from hashing.
- The grammar's rejection of an empty column list (`MODIFY()`) and of column lists on permissions that cannot take them (`EXECUTE(c1)`) happens in the CQL parser, which is not part of this model. The validator accepts whatever column map it is given.
- The enumeration of `Permission` values lists the eight permissions of the access-control layer. `Permission.java` is not part of this model.
