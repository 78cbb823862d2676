/** The vocabulary of the access-control layer that the grant path works on:
    permissions, resources, roles, column identifiers, and the schema lookup
    that stands behind DataResource.getTableColumns. */
module AuthTypes {

  datatype Option<+T> = None | Some(value: T)

  /** The permissions a role can hold on a resource. */
  datatype Permission = CREATE | ALTER | DROP | SELECT | MODIFY | AUTHORIZE | DESCRIBE | EXECUTE

  /** A column name as resolved against a table's schema. */
  datatype ColumnIdentifier = ColumnIdentifier(text: string)

  /** One column of a table definition; only its name takes part in the grant check. */
  datatype ColumnDefinition = ColumnDefinition(name: ColumnIdentifier)

  /** The role that receives a grant. */
  datatype RoleResource = RoleResource(roleName: string)

  /** The protected resources. The first three are the data resources: the
      root of all keyspaces, one keyspace, and one table of a keyspace. */
  datatype Resource =
    | AllKeyspaces
    | Keyspace(keyspace: string)
    | Table(keyspace: string, table: string)
    | AllRoles
    | Role(role: RoleResource)
    | Function(keyspace: string, functionName: string)
  {
    /** The resource is a DataResource (and so may have table columns looked up). */
    predicate IsDataResource()
    {
      AllKeyspaces? || Keyspace? || Table?
    }
  }

  datatype TableName = TableName(keyspace: string, table: string)

  /** The catalog: the column definitions of every existing table. */
  type Schema = map<TableName, seq<ColumnDefinition>>

  /** DataResource.getTableColumns: the column definitions of the table the
      resource names, or None where the lookup throws (the resource is a
      keyspace or the data root, or no such table exists). */
  function GetTableColumns(resource: Resource, schema: Schema): (columns: Option<seq<ColumnDefinition>>)
    requires resource.IsDataResource()
    ensures columns.Some? <==> resource.Table? && TableName(resource.keyspace, resource.table) in schema
    ensures columns.Some? ==> columns.value == schema[TableName(resource.keyspace, resource.table)]
  {
    if resource.Table? && TableName(resource.keyspace, resource.table) in schema
    then Some(schema[TableName(resource.keyspace, resource.table)])
    else None
  }
}
