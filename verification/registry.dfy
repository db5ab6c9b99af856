/** The per-table schema registry (`PREDEFINED_FIELDS`). Its contents are
    not part of this model, so every component takes it as a parameter, in
    the shape its call site uses. */
module Registry {
  import opened Base

  /** One `field: type` entry of a table's field dictionary. */
  datatype Field = Field(name: string, sqlType: string)

  /** A field dictionary, in insertion order. */
  type Fields = seq<Field>

  /** `PREDEFINED_FIELDS[table]` is the field dictionary itself. */
  type FlatRegistry = map<string, Fields>

  /** `PREDEFINED_FIELDS[table]['fields']` is the field dictionary. */
  type NestedRegistry = map<string, map<string, Fields>>

  /** `PREDEFINED_FIELDS.get(table, {})`. */
  function FlatFields(reg: FlatRegistry, table: string): Fields {
    if table in reg then reg[table] else []
  }

  /** `PREDEFINED_FIELDS.get(table, {}).get('fields', {})`. */
  function NestedFields(reg: NestedRegistry, table: string): Fields {
    if table in reg && "fields" in reg[table] then reg[table]["fields"] else []
  }

  function Names(fs: Fields): (r: seq<string>)
    ensures |r| == |fs| && forall i :: 0 <= i < |fs| ==> r[i] == fs[i].name
  {
    if fs == [] then [] else [fs[0].name] + Names(fs[1..])
  }

  /** `name in fields`. */
  predicate Declares(fs: Fields, name: string) {
    name in Names(fs)
  }

  /** `fields[name]`: the type of the first entry with that name. */
  function TypeOf(fs: Fields, name: string): (t: string)
    requires Declares(fs, name)
    ensures exists i :: 0 <= i < |fs| && fs[i] == Field(name, t)
  {
    if fs[0].name == name then fs[0].sqlType else TypeOf(fs[1..], name)
  }
}
