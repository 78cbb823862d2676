/** The GRANT statement's column check: a request to grant permissions,
    optionally restricted per permission to columns of a table, is admitted
    only if the column lists apply to an existing table and name existing
    columns of it. */
module GrantPermissions {
  import opened AuthTypes
  import opened PermissionSpecs

  /** The statement's state; every field is final in the source. */
  datatype GrantPermissionsStatement = GrantPermissionsStatement(
    permissions: set<Permission>,
    permissionColumns: map<Permission, set<ColumnIdentifier>>,
    resource: Resource,
    grantee: RoleResource)

  /** How validation ends. Every outcome but Admissible is an exception in the
      source: BaseCheckFailed is whatever the generic permissions-management
      check throws, ColumnsOnlyOnTables and ColumnsDoNotExist are
      InvalidRequest errors, NotATable is the exception of the schema lookup,
      and NullColumnList is the null dereference of a permission that has no
      column list while others do. */
  datatype Outcome =
    | Admissible
    | BaseCheckFailed
    | ColumnsOnlyOnTables
    | NotATable
    | ColumnsDoNotExist(permission: Permission, missing: set<ColumnIdentifier>)
    | NullColumnList(permission: Permission)

  /** The constructor: an absent (null) column map is stored as the empty map. */
  function NewGrantPermissionsStatement(
    permissions: set<Permission>,
    permissionColumns: Option<map<Permission, set<ColumnIdentifier>>>,
    resource: Resource,
    grantee: RoleResource): (stmt: GrantPermissionsStatement)
    ensures permissionColumns.None? ==> stmt.permissionColumns.Keys == {}
    ensures permissionColumns.Some? ==> stmt.permissionColumns == permissionColumns.value
    ensures stmt.permissions == permissions && stmt.resource == resource && stmt.grantee == grantee
  {
    var columns := match permissionColumns
      case None => map[]
      case Some(m) => m;
    GrantPermissionsStatement(permissions, columns, resource, grantee)
  }

  /** The names of the table's columns. */
  function ExistingColumns(definitions: seq<ColumnDefinition>): (names: set<ColumnIdentifier>)
    ensures forall i :: 0 <= i < |definitions| ==> definitions[i].name in names
    ensures forall c :: c in names ==> exists i :: 0 <= i < |definitions| && definitions[i].name == c
  {
    set i | 0 <= i < |definitions| :: definitions[i].name
  }

  /** The requested columns that the table does not have. */
  function MissingColumns(requested: set<ColumnIdentifier>, existing: set<ColumnIdentifier>): (missing: set<ColumnIdentifier>)
    ensures missing <= requested && missing !! existing
    ensures requested <= existing + missing
  {
    set c | c in requested && c !in existing
  }

  /** What checking one permission yields: nothing if its column list exists
      and names only existing columns, an error otherwise. */
  function Offence(perm: Permission, columns: map<Permission, set<ColumnIdentifier>>, existing: set<ColumnIdentifier>): (offence: Option<Outcome>)
    ensures offence.None? <==> perm in columns && columns[perm] <= existing
    ensures offence.Some? ==> (offence.value.NullColumnList? || offence.value.ColumnsDoNotExist?) && offence.value.permission == perm
    ensures offence.Some? ==> (offence.value.NullColumnList? <==> perm !in columns)
    ensures offence.Some? && offence.value.ColumnsDoNotExist? ==>
              offence.value.missing == columns[perm] - existing && offence.value.missing != {}
  {
    if perm !in columns then Some(NullColumnList(perm))
    else
      var missing := MissingColumns(columns[perm], existing);
      if missing != {} then Some(ColumnsDoNotExist(perm, missing)) else None
  }

  /** The error of the first permission, in iteration order, whose check fails. */
  function FirstOffence(order: seq<Permission>, columns: map<Permission, set<ColumnIdentifier>>, existing: set<ColumnIdentifier>): (offence: Option<Outcome>)
    ensures offence.Some? ==> offence.value.NullColumnList? || offence.value.ColumnsDoNotExist?
    ensures offence.Some? ==> offence.value.permission in order
  {
    if order == [] then None
    else match Offence(order[0], columns, existing)
      case Some(o) => Some(o)
      case None => FirstOffence(order[1..], columns, existing)
  }

  /** `order` is the iteration order of the set `permissions`: each member
      exactly once. */
  predicate IsEnumeration(order: seq<Permission>, permissions: set<Permission>)
  {
    && (forall p :: p in permissions <==> p in order)
    && (forall i, j :: 0 <= i < j < |order| ==> order[i] != order[j])
  }

  /** The outcome of validateColumnsExist when `permissions` is iterated in `order`. */
  function ColumnCheck(stmt: GrantPermissionsStatement, schema: Schema, order: seq<Permission>): (outcome: Outcome)
    ensures outcome != BaseCheckFailed
    ensures stmt.permissionColumns == map[] ==> outcome == Admissible
    ensures stmt.permissionColumns != map[] && !stmt.resource.IsDataResource() ==> outcome == ColumnsOnlyOnTables
    ensures stmt.permissionColumns != map[] && stmt.resource.IsDataResource() && !stmt.resource.Table? ==> outcome == NotATable
    ensures outcome.ColumnsDoNotExist? || outcome.NullColumnList? ==>
              && stmt.permissionColumns != map[]
              && stmt.resource.Table?
              && TableName(stmt.resource.keyspace, stmt.resource.table) in schema
              && outcome.permission in order
  {
    if stmt.permissionColumns == map[] then Admissible
    else if !stmt.resource.IsDataResource() then ColumnsOnlyOnTables
    else match GetTableColumns(stmt.resource, schema)
      case None => NotATable
      case Some(definitions) =>
        match FirstOffence(order, stmt.permissionColumns, ExistingColumns(definitions))
        case None => Admissible
        case Some(o) => o
  }

  /** An order-free statement of when the column check admits a request:
      there are no column lists, or the resource is an existing table and
      every requested permission has a column list naming only its columns. */
  function ColumnsAdmissible(stmt: GrantPermissionsStatement, schema: Schema): (admissible: bool)
    ensures admissible && stmt.permissionColumns != map[] ==>
              stmt.resource.IsDataResource() && stmt.permissions <= stmt.permissionColumns.Keys
  {
    || stmt.permissionColumns == map[]
    || (&& stmt.resource.Table?
        && TableName(stmt.resource.keyspace, stmt.resource.table) in schema
        && forall p :: p in stmt.permissions ==>
             p in stmt.permissionColumns
             && stmt.permissionColumns[p] <= ExistingColumns(schema[TableName(stmt.resource.keyspace, stmt.resource.table)]))
  }

  /** FirstOffence reports the first failing permission in `order`, and
      nothing exactly when every permission in `order` passes. */
  lemma {:induction false} FirstOffenceIsFirst(order: seq<Permission>, columns: map<Permission, set<ColumnIdentifier>>, existing: set<ColumnIdentifier>)
    ensures FirstOffence(order, columns, existing).None? <==>
              forall i :: 0 <= i < |order| ==> Offence(order[i], columns, existing).None?
    ensures FirstOffence(order, columns, existing).Some? ==>
              exists i :: 0 <= i < |order|
                && FirstOffence(order, columns, existing) == Offence(order[i], columns, existing)
                && forall j :: 0 <= j < i ==> Offence(order[j], columns, existing).None?
  {
    if order != [] {
      FirstOffenceIsFirst(order[1..], columns, existing);
      if Offence(order[0], columns, existing).None? && FirstOffence(order, columns, existing).Some? {
        var k :| 0 <= k < |order[1..]|
          && FirstOffence(order[1..], columns, existing) == Offence(order[1..][k], columns, existing)
          && forall j :: 0 <= j < k ==> Offence(order[1..][j], columns, existing).None?;
        assert FirstOffence(order, columns, existing) == Offence(order[k + 1], columns, existing);
        assert forall j :: 0 <= j < k + 1 ==> Offence(order[j], columns, existing).None? by {
          forall j | 0 <= j < k + 1 ensures Offence(order[j], columns, existing).None? {
            if j > 0 { assert order[j] == order[1..][j - 1]; }
          }
        }
      }
    }
  }

  /** Validation admits the request exactly when the order-free condition
      holds: on a table, it fails iff some requested permission lacks a
      column list or names a column the table does not have. */
  lemma ColumnCheckAdmissibleIff(stmt: GrantPermissionsStatement, schema: Schema, order: seq<Permission>)
    requires IsEnumeration(order, stmt.permissions)
    ensures ColumnCheck(stmt, schema, order) == Admissible <==> ColumnsAdmissible(stmt, schema)
  {
    if stmt.permissionColumns != map[] && stmt.resource.Table? && TableName(stmt.resource.keyspace, stmt.resource.table) in schema {
      var existing := ExistingColumns(schema[TableName(stmt.resource.keyspace, stmt.resource.table)]);
      FirstOffenceIsFirst(order, stmt.permissionColumns, existing);
      forall p | p in stmt.permissions
        ensures Offence(p, stmt.permissionColumns, existing).None? <==>
                  p in stmt.permissionColumns && stmt.permissionColumns[p] <= existing
      {
      }
      if FirstOffence(order, stmt.permissionColumns, existing).Some? {
        var i :| 0 <= i < |order| && FirstOffence(order, stmt.permissionColumns, existing) == Offence(order[i], stmt.permissionColumns, existing);
        assert order[i] in stmt.permissions;
        match Offence(order[i], stmt.permissionColumns, existing)
        case Some(o) => assert o != Admissible;
      }
    }
  }

  /** What an InvalidRequest about columns reports: a requested permission
      and exactly those of its columns that the table lacks, so a non-empty
      set disjoint from the table's columns. A null dereference happens only
      for a requested permission that has no column list while the map is
      non-empty. */
  lemma ReportedOffence(stmt: GrantPermissionsStatement, schema: Schema, order: seq<Permission>)
    requires IsEnumeration(order, stmt.permissions)
    ensures ColumnCheck(stmt, schema, order).ColumnsDoNotExist? ==>
              var o := ColumnCheck(stmt, schema, order);
              && stmt.resource.Table?
              && TableName(stmt.resource.keyspace, stmt.resource.table) in schema
              && var existing := ExistingColumns(schema[TableName(stmt.resource.keyspace, stmt.resource.table)]);
              && o.permission in stmt.permissions
              && o.permission in stmt.permissionColumns
              && o.missing == stmt.permissionColumns[o.permission] - existing
              && o.missing != {}
              && o.missing !! existing
    ensures ColumnCheck(stmt, schema, order).NullColumnList? ==>
              var o := ColumnCheck(stmt, schema, order);
              && stmt.permissionColumns != map[]
              && o.permission in stmt.permissions
              && o.permission !in stmt.permissionColumns
  {
    var o := ColumnCheck(stmt, schema, order);
    if o.ColumnsDoNotExist? || o.NullColumnList? {
      var existing := ExistingColumns(schema[TableName(stmt.resource.keyspace, stmt.resource.table)]);
      FirstOffenceIsFirst(order, stmt.permissionColumns, existing);
      var i :| 0 <= i < |order| && Some(o) == Offence(order[i], stmt.permissionColumns, existing);
      assert order[i] in stmt.permissions;
    }
  }

  /** Column lists are only checked for the requested permissions: two
      column maps that agree on every permission in `order` lead to the same
      first offence, whatever else they map. */
  lemma {:induction false} FirstOffenceReadsOnlyOrder(
    order: seq<Permission>, columns: map<Permission, set<ColumnIdentifier>>,
    columns': map<Permission, set<ColumnIdentifier>>, existing: set<ColumnIdentifier>)
    requires forall i :: 0 <= i < |order| ==> (order[i] in columns <==> order[i] in columns')
    requires forall i :: 0 <= i < |order| && order[i] in columns ==> columns[order[i]] == columns'[order[i]]
    ensures FirstOffence(order, columns, existing) == FirstOffence(order, columns', existing)
  {
    if order != [] {
      assert order[0] in columns <==> order[0] in columns';
      FirstOffenceReadsOnlyOrder(order[1..], columns, columns', existing);
    }
  }

  /** Keys of the column map outside the requested permissions are never
      checked: changing them leaves the outcome unchanged, as long as the map
      stays non-empty. */
  lemma StrayColumnListsIgnored(stmt: GrantPermissionsStatement, columns': map<Permission, set<ColumnIdentifier>>, schema: Schema, order: seq<Permission>)
    requires IsEnumeration(order, stmt.permissions)
    requires stmt.permissionColumns != map[] && columns' != map[]
    requires forall p :: p in stmt.permissions ==> (p in stmt.permissionColumns <==> p in columns')
    requires forall p :: p in stmt.permissions && p in columns' ==> stmt.permissionColumns[p] == columns'[p]
    ensures ColumnCheck(stmt, schema, order) == ColumnCheck(stmt.(permissionColumns := columns'), schema, order)
  {
    if stmt.resource.IsDataResource() && GetTableColumns(stmt.resource, schema).Some? {
      var existing := ExistingColumns(GetTableColumns(stmt.resource, schema).value);
      assert forall i :: 0 <= i < |order| ==> order[i] in stmt.permissions;
      FirstOffenceReadsOnlyOrder(order, stmt.permissionColumns, columns', existing);
    }
  }

  /** Iteration order decides only which failing permission is reported (and
      so whether the caller sees the InvalidRequest or the null dereference):
      two orders give the same outcome, or both report an offending
      permission. */
  lemma OutcomeOrderIndependent(stmt: GrantPermissionsStatement, schema: Schema, order: seq<Permission>, order': seq<Permission>)
    requires IsEnumeration(order, stmt.permissions) && IsEnumeration(order', stmt.permissions)
    ensures
      || ColumnCheck(stmt, schema, order) == ColumnCheck(stmt, schema, order')
      || (&& (ColumnCheck(stmt, schema, order).ColumnsDoNotExist? || ColumnCheck(stmt, schema, order).NullColumnList?)
          && (ColumnCheck(stmt, schema, order').ColumnsDoNotExist? || ColumnCheck(stmt, schema, order').NullColumnList?))
  {
    ColumnCheckAdmissibleIff(stmt, schema, order);
    ColumnCheckAdmissibleIff(stmt, schema, order');
    ReportedOffence(stmt, schema, order);
    ReportedOffence(stmt, schema, order');
    if stmt.permissionColumns != map[] && stmt.resource.IsDataResource() && GetTableColumns(stmt.resource, schema).Some? {
      var existing := ExistingColumns(GetTableColumns(stmt.resource, schema).value);
      FirstOffenceIsFirst(order, stmt.permissionColumns, existing);
      FirstOffenceIsFirst(order', stmt.permissionColumns, existing);
    }
  }

  /** A requested permission without a column list, next to another
      permission that has one, makes validation fail on any existing table. */
  lemma UnlistedPermissionRejected(stmt: GrantPermissionsStatement, schema: Schema, order: seq<Permission>, perm: Permission)
    requires IsEnumeration(order, stmt.permissions)
    requires stmt.permissionColumns != map[]
    requires perm in stmt.permissions && perm !in stmt.permissionColumns
    ensures ColumnCheck(stmt, schema, order) != Admissible
  {
    ColumnCheckAdmissibleIff(stmt, schema, order);
  }

  /** validateColumnsExist, with `permissions` iterated in `order`. */
  method ValidateColumnsExist(stmt: GrantPermissionsStatement, schema: Schema, order: seq<Permission>) returns (outcome: Outcome)
    requires IsEnumeration(order, stmt.permissions)
    ensures outcome == ColumnCheck(stmt, schema, order)
    ensures outcome == Admissible <==> ColumnsAdmissible(stmt, schema)
    ensures stmt.permissionColumns == map[] ==> outcome == Admissible
    ensures stmt.permissionColumns != map[] && !stmt.resource.IsDataResource() ==> outcome == ColumnsOnlyOnTables
    ensures stmt.permissionColumns != map[] && stmt.resource.IsDataResource() && !stmt.resource.Table? ==> outcome == NotATable
  {
    ColumnCheckAdmissibleIff(stmt, schema, order);
    var columns := stmt.permissionColumns;
    if columns == map[] {
      return Admissible;
    }
    if !stmt.resource.IsDataResource() {
      return ColumnsOnlyOnTables;
    }
    var definitions := GetTableColumns(stmt.resource, schema);
    if definitions.None? {
      return NotATable;
    }
    var existing := ExistingColumns(definitions.value);
    for i := 0 to |order|
      invariant FirstOffence(order[i..], columns, existing) == FirstOffence(order, columns, existing)
    {
      assert order[i..][1..] == order[i + 1..];
      var perm := order[i];
      if perm !in columns {
        return NullColumnList(perm);
      }
      var missing := MissingColumns(columns[perm], existing);
      if missing != {} {
        return ColumnsDoNotExist(perm, missing);
      }
    }
    return Admissible;
  }

  /** validate: the generic permissions-management check (whose verdict is
      `baseValid`) runs first, then the column check. The outcome is a
      function of the statement, that verdict, the schema and the iteration
      order, so validating again gives the same outcome. */
  method Validate(stmt: GrantPermissionsStatement, baseValid: bool, schema: Schema, order: seq<Permission>) returns (outcome: Outcome)
    requires IsEnumeration(order, stmt.permissions)
    ensures !baseValid ==> outcome == BaseCheckFailed
    ensures baseValid ==> outcome == ColumnCheck(stmt, schema, order)
    ensures outcome == Admissible <==> baseValid && ColumnsAdmissible(stmt, schema)
  {
    if !baseValid {
      return BaseCheckFailed;
    }
    outcome := ValidateColumnsExist(stmt, schema, order);
  }

  /** execute: the request handed to the authorizer's grant carries the
      statement's permissions, column lists, resource and grantee. */
  function Execute(stmt: GrantPermissionsStatement): (spec: PermissionSpec)
    ensures spec.permissions == stmt.permissions
    ensures spec.permissionColumns == stmt.permissionColumns
    ensures spec.resource == stmt.resource && spec.grantee == stmt.grantee
  {
    PermissionSpec(stmt.permissions, stmt.permissionColumns, stmt.resource, stmt.grantee)
  }

  /** After an admitted column check with column lists, the authorizer
      receives a request on an existing table in which every permission has
      a column list naming only that table's columns. */
  lemma AdmittedSpecNamesExistingColumns(stmt: GrantPermissionsStatement, schema: Schema, order: seq<Permission>)
    requires IsEnumeration(order, stmt.permissions)
    requires ColumnCheck(stmt, schema, order) == Admissible
    requires stmt.permissionColumns != map[]
    ensures Execute(stmt).resource.Table?
    ensures TableName(Execute(stmt).resource.keyspace, Execute(stmt).resource.table) in schema
    ensures forall p :: p in Execute(stmt).permissions ==>
              && p in Execute(stmt).permissionColumns
              && Execute(stmt).permissionColumns[p] <= ExistingColumns(schema[TableName(stmt.resource.keyspace, stmt.resource.table)])
  {
    ColumnCheckAdmissibleIff(stmt, schema, order);
  }

  /** The unit test's table has columns key, c1 and c2: granting SELECT on
      c1 is admitted, granting SELECT on nosuchcolumn is rejected naming
      exactly that column. */
  lemma GrantColumnPermissionsExample()
    ensures
      var t := TableName("ks", "t1");
      var schema := map[t := [ColumnDefinition(ColumnIdentifier("key")), ColumnDefinition(ColumnIdentifier("c1")), ColumnDefinition(ColumnIdentifier("c2"))]];
      var ok := GrantPermissionsStatement({SELECT}, map[SELECT := {ColumnIdentifier("c1")}], Table("ks", "t1"), RoleResource("r1"));
      var bad := GrantPermissionsStatement({SELECT}, map[SELECT := {ColumnIdentifier("nosuchcolumn")}], Table("ks", "t1"), RoleResource("r1"));
      && ColumnCheck(ok, schema, [SELECT]) == Admissible
      && ColumnCheck(bad, schema, [SELECT]) == ColumnsDoNotExist(SELECT, {ColumnIdentifier("nosuchcolumn")})
  {
    var t := TableName("ks", "t1");
    var definitions := [ColumnDefinition(ColumnIdentifier("key")), ColumnDefinition(ColumnIdentifier("c1")), ColumnDefinition(ColumnIdentifier("c2"))];
    var existing := ExistingColumns(definitions);
    assert definitions[1].name == ColumnIdentifier("c1");
    assert ColumnIdentifier("c1") in existing;
    assert ColumnIdentifier("nosuchcolumn") !in existing by {
      if ColumnIdentifier("nosuchcolumn") in existing {
        var i :| 0 <= i < |definitions| && definitions[i].name == ColumnIdentifier("nosuchcolumn");
      }
    }
    var schema := map[t := definitions];
    var okColumns := map[SELECT := {ColumnIdentifier("c1")}];
    var badColumns := map[SELECT := {ColumnIdentifier("nosuchcolumn")}];
    assert GetTableColumns(Table("ks", "t1"), schema) == Some(definitions);
    assert MissingColumns({ColumnIdentifier("c1")}, existing) == {};
    assert Offence(SELECT, okColumns, existing) == None;
    assert FirstOffence([SELECT], okColumns, existing) == FirstOffence([], okColumns, existing);
    assert MissingColumns({ColumnIdentifier("nosuchcolumn")}, existing) == {ColumnIdentifier("nosuchcolumn")};
    assert Offence(SELECT, badColumns, existing) == Some(ColumnsDoNotExist(SELECT, {ColumnIdentifier("nosuchcolumn")}));
    assert FirstOffence([SELECT], badColumns, existing) == Some(ColumnsDoNotExist(SELECT, {ColumnIdentifier("nosuchcolumn")}));
  }

  /** Iteration order can decide the kind of failure: SELECT lists a column
      the table lacks and MODIFY has no column list, so checking SELECT first
      raises the InvalidRequest, and checking MODIFY first dereferences null. */
  lemma OrderDecidesErrorKind()
    ensures
      var schema := map[TableName("ks", "t1") := [ColumnDefinition(ColumnIdentifier("c1"))]];
      var stmt := GrantPermissionsStatement({SELECT, MODIFY}, map[SELECT := {ColumnIdentifier("nosuch")}], Table("ks", "t1"), RoleResource("r1"));
      && IsEnumeration([SELECT, MODIFY], stmt.permissions)
      && IsEnumeration([MODIFY, SELECT], stmt.permissions)
      && ColumnCheck(stmt, schema, [SELECT, MODIFY]) == ColumnsDoNotExist(SELECT, {ColumnIdentifier("nosuch")})
      && ColumnCheck(stmt, schema, [MODIFY, SELECT]) == NullColumnList(MODIFY)
  {
    var definitions := [ColumnDefinition(ColumnIdentifier("c1"))];
    var schema := map[TableName("ks", "t1") := definitions];
    var columns := map[SELECT := {ColumnIdentifier("nosuch")}];
    var existing := ExistingColumns(definitions);
    forall c | c in existing ensures c == ColumnIdentifier("c1") {
      var i :| 0 <= i < |definitions| && definitions[i].name == c;
    }
    assert GetTableColumns(Table("ks", "t1"), schema) == Some(definitions);
    assert MissingColumns({ColumnIdentifier("nosuch")}, existing) == {ColumnIdentifier("nosuch")};
    assert Offence(SELECT, columns, existing) == Some(ColumnsDoNotExist(SELECT, {ColumnIdentifier("nosuch")}));
    assert FirstOffence([SELECT, MODIFY], columns, existing) == Some(ColumnsDoNotExist(SELECT, {ColumnIdentifier("nosuch")}));
    assert FirstOffence([MODIFY, SELECT], columns, existing) == Some(NullColumnList(MODIFY));
  }
}
