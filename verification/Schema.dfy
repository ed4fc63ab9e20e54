/** What introspection reports about the tables of a query. */
module Schema {
  import opened Common
  import opened Text

  datatype Column = Column(name: string, typeName: string, distinctValues: real)

  datatype Index = Index(name: string, columns: seq<string>)

  datatype Table = Table(schema: string, name: string, columns: seq<Column>, indexes: seq<Index>, rowEstimate: int)

  /** A table named by a statement. */
  datatype TableRef = TableRef(schema: string, name: string, alias: string)

  function Qualified(t: TableRef): string {
    if t.schema != "" && t.schema != "public" then t.schema + "." + t.name else t.name
  }

  predicate Answers(t: Table, name: string) {
    EqualFold(t.name, name) || EqualFold(t.schema + "." + t.name, name)
  }

  /** The first table that goes by the name, bare or with its schema. */
  function FindTable(tables: seq<Table>, name: string): (r: Option<Table>)
    ensures r.Some? ==> exists k :: 0 <= k < |tables| && tables[k] == r.value && Answers(r.value, name) &&
                                    forall i :: 0 <= i < k ==> !Answers(tables[i], name)
    ensures r.None? ==> forall i :: 0 <= i < |tables| ==> !Answers(tables[i], name)
  {
    if tables == [] then None
    else if Answers(tables[0], name) then Some(tables[0])
    else
      var r := FindTable(tables[1..], name);
      assert r.Some? ==> forall k :: 0 <= k < |tables[1..]| ==> tables[1..][k] == tables[k + 1];
      r
  }

  /** The byte loop decides equality up to ASCII letter case. */
  method FoldEqual(a: string, b: string) returns (r: bool)
    ensures r <==> EqualFold(a, b)
  {
    if |a| != |b| {
      return false;
    }
    for i := 0 to |a|
      invariant forall k :: 0 <= k < i ==> LowerChar(a[k]) == LowerChar(b[k])
    {
      var ca, cb := a[i], b[i];
      if 'A' <= ca <= 'Z' {
        ca := (ca as int + 32) as char;
      }
      if 'A' <= cb <= 'Z' {
        cb := (cb as int + 32) as char;
      }
      if ca != cb {
        assert Lower(a)[i] != Lower(b)[i];
        return false;
      }
    }
    assert Lower(a) == Lower(b);
    return true;
  }

  predicate HasColumn(t: Table, column: string) {
    exists c :: 0 <= c < |t.columns| && EqualFold(t.columns[c].name, column)
  }

  /** The first column of the name. */
  function FindColumn(columns: seq<Column>, name: string): (r: Option<Column>)
    ensures r.Some? ==> exists k :: FirstNamed(columns, name, k) && columns[k] == r.value
    ensures r.None? ==> forall i :: 0 <= i < |columns| ==> !EqualFold(columns[i].name, name)
  {
    if columns == [] then None
    else if EqualFold(columns[0].name, name) then
      assert FirstNamed(columns, name, 0);
      Some(columns[0])
    else
      var r := FindColumn(columns[1..], name);
      assert forall k :: 0 <= k < |columns[1..]| ==> columns[1..][k] == columns[k + 1];
      assert forall k :: FirstNamed(columns[1..], name, k) ==> FirstNamed(columns, name, k + 1);
      r
  }

  predicate FirstNamed(columns: seq<Column>, name: string, k: int) {
    0 <= k < |columns| && EqualFold(columns[k].name, name) && forall i :: 0 <= i < k ==> !EqualFold(columns[i].name, name)
  }
}
