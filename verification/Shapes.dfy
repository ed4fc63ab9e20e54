/** The facts about a parsed statement, and the structural gate between a query and a candidate rewrite. */
module Shapes {
  import opened Common
  import opened Text
  import opened Schema

  datatype Statement = Statement(
    sql: string, tables: seq<TableRef>, outputCols: seq<string>, hasLimit: bool, hasOrderBy: bool, selectStar: bool)

  datatype ShapeError = ColumnCount | ColumnName(index: nat) | ExtraTable(name: string) | MissingTable(name: string)

  /** Every table of the statement, in its normal spelling. */
  ghost function TableNames(refs: seq<TableRef>): set<string> {
    set r | r in refs :: Lower(Qualified(r))
  }

  method TableSet(refs: seq<TableRef>) returns (out: set<string>)
    ensures out == TableNames(refs)
  {
    out := {};
    for i := 0 to |refs|
      invariant out == TableNames(refs[..i])
    {
      out := out + {Lower(Qualified(refs[i]))};
      assert forall r :: r in refs[..i + 1] <==> r in refs[..i] || r == refs[i];
    }
    assert refs[..|refs|] == refs;
  }

  /** Two column names agree where both are known. */
  predicate NamesAgree(a: string, b: string) {
    a == "" || b == "" || EqualFold(a, b)
  }

  ghost predicate ColumnsAgree(s: Statement, o: Statement) {
    |s.outputCols| == |o.outputCols| &&
    (s.selectStar || o.selectStar || forall i :: 0 <= i < |s.outputCols| ==> NamesAgree(s.outputCols[i], o.outputCols[i]))
  }

  ghost predicate SameShape(s: Statement, o: Statement) {
    ColumnsAgree(s, o) && TableNames(s.tables) == TableNames(o.tables)
  }

  /** The difference reported is a real one, and columns come before tables, additions before omissions. */
  ghost predicate Explains(s: Statement, o: Statement, e: ShapeError) {
    match e
    case ColumnCount => |s.outputCols| != |o.outputCols|
    case ColumnName(i) =>
      && |s.outputCols| == |o.outputCols| && !s.selectStar && !o.selectStar
      && i < |s.outputCols| && !NamesAgree(s.outputCols[i], o.outputCols[i])
      && forall k :: 0 <= k < i ==> NamesAgree(s.outputCols[k], o.outputCols[k])
    case ExtraTable(t) => ColumnsAgree(s, o) && t in TableNames(o.tables) - TableNames(s.tables)
    case MissingTable(t) =>
      ColumnsAgree(s, o) && TableNames(o.tables) <= TableNames(s.tables) && t in TableNames(s.tables) - TableNames(o.tables)
  }

  /** Only one difference can be the one reported, up to which of the tables added, or left out, is named. */
  lemma OneReason(s: Statement, o: Statement, e: ShapeError, d: ShapeError)
    requires Explains(s, o, e) && Explains(s, o, d)
    ensures e == d || (e.ExtraTable? && d.ExtraTable?) || (e.MissingTable? && d.MissingTable?)
    ensures !SameShape(s, o)
  {
  }

  method SameShapeAs(s: Statement, o: Statement) returns (r: Result<(), ShapeError>)
    ensures r.Ok? <==> SameShape(s, o)
    ensures r.Err? ==> Explains(s, o, r.error)
  {
    if |s.outputCols| != |o.outputCols| {
      return Err(ColumnCount);
    }
    if !s.selectStar && !o.selectStar {
      for i := 0 to |s.outputCols|
        invariant forall k :: 0 <= k < i ==> NamesAgree(s.outputCols[k], o.outputCols[k])
      {
        var a, b := s.outputCols[i], o.outputCols[i];
        if a != "" && b != "" && !EqualFold(a, b) {
          return Err(ColumnName(i));
        }
      }
    }
    var original := TableSet(s.tables);
    var new_ := TableSet(o.tables);
    var rest := new_;
    while rest != {}
      invariant rest <= new_ && new_ - rest <= original
      decreases rest
    {
      var t :| t in rest;
      if t !in original {
        return Err(ExtraTable(t));
      }
      rest := rest - {t};
    }
    rest := original;
    while rest != {}
      invariant rest <= original && original - rest <= new_
      decreases rest
    {
      var t :| t in rest;
      if t !in new_ {
        return Err(MissingTable(t));
      }
      rest := rest - {t};
    }
    assert original == new_;
    return Ok(());
  }
}
