/** The rule that issues the DATE() rewrite, on the text of the statement. */
module DateRule {
  import opened Common
  import opened Text
  import opened TextRewrite
  import opened IndexAdvice
  import Schema

  import opened DateCondition

  const DATE_LIKE := ["timestamp with time zone", "timestamp without time zone", "timestamptz", "timestamp", "date"]

  function Qualify(table: string, column: string): string {
    if table == "" then column else table + "." + column
  }

  /** strings.Trim(s, "'") */
  function TrimQuotes(s: string): string {
    if s != [] && s[0] == '\'' then TrimQuotes(s[1..])
    else if s != [] && s[|s| - 1] == '\'' then TrimQuotes(s[..|s| - 1])
    else s
  }

  function Sought(col: string, lit: string): string {
    "DATE(" + col + ") = '" + lit + "'"
  }

  function LowerBound(col: string, lit: string): string {
    col + " >= '" + lit + "'::timestamptz"
  }

  function UpperBound(col: string, lit: string): string {
    col + " < '" + lit + "'::timestamptz + INTERVAL '1 day'"
  }

  function Replacement(col: string, lit: string): string {
    LowerBound(col, lit) + " AND " + UpperBound(col, lit)
  }

  /** What the rule looks for, spelled with the qualifier as written. */
  function SoughtFor(p: Predicate): string {
    Sought(Qualify(p.qualifier, p.column), TrimQuotes(p.literalText))
  }

  function ReplacementFor(p: Predicate): string {
    Replacement(Qualify(p.qualifier, p.column), TrimQuotes(p.literalText))
  }

  predicate DateLike(c: Schema.Column) {
    Lower(c.typeName) in DATE_LIKE
  }

  predicate TypeAllows(p: Predicate, t: Schema.Table) {
    forall k :: 0 <= k < |t.columns| && EqualFold(t.columns[k].name, p.column) ==> DateLike(t.columns[k])
  }

  /** The rule applies: an equality of DATE(column) with a constant, on no column known to be of another type. */
  predicate Applies(p: Predicate, schema: Option<seq<Schema.Table>>) {
    && p.operator == "=" && p.literalText != "" && Lower(p.wrappedBy) == "date"
    && (schema.Some? && Schema.FindTable(schema.value, p.table).Some? ==> TypeAllows(p, Schema.FindTable(schema.value, p.table).value))
  }

  // ------------------------------------------------------------ whom the rule is for

  /** The type a name stands for, as the server takes it. */
  function TypeNamed(name: string): ColumnType {
    var n := Lower(name);
    if n == "timestamp with time zone" || n == "timestamptz" then TimestamptzColumn
    else if n == "timestamp without time zone" || n == "timestamp" then TimestampColumn
    else if n == "date" then DateColumn
    else OtherColumn
  }

  lemma DateLikeByName(name: string)
    ensures TypeNamed(name).DateLike() <==> Lower(name) in DATE_LIKE
  {
  }

  /** DATE(column) is compared for equality with a constant. */
  predicate IsDateEquality(p: Predicate) {
    p.operator == "=" && p.literalText != "" && Lower(p.wrappedBy) == "date"
  }

  /** Every column of that name in the table the predicate was resolved to is of a date-like type. */
  predicate AllDateLike(p: Predicate, schema: Option<seq<Schema.Table>>) {
    FoundTable(p, schema).Some? ==>
      var t := FoundTable(p, schema).value;
      forall k :: 0 <= k < |t.columns| && EqualFold(t.columns[k].name, p.column) ==> TypeNamed(t.columns[k].typeName).DateLike()
  }

  /** The rule is for every such equality, but on a column the schema holds with another type. */
  lemma AppliesExactlyWhen(p: Predicate, schema: Option<seq<Schema.Table>>)
    ensures Applies(p, schema) <==> IsDateEquality(p) && AllDateLike(p, schema)
  {
    forall name: string
      ensures TypeNamed(name).DateLike() <==> Lower(name) in DATE_LIKE
    {
      DateLikeByName(name);
    }
  }

  function FoundTable(p: Predicate, schema: Option<seq<Schema.Table>>): Option<Schema.Table> {
    if schema.Some? then Schema.FindTable(schema.value, p.table) else None
  }

  /** The schema holds the column, in the table the predicate was resolved to. */
  predicate HoldsColumn(p: Predicate, schema: Option<seq<Schema.Table>>) {
    FoundTable(p, schema).Some? &&
    var t := FoundTable(p, schema).value;
    exists k :: 0 <= k < |t.columns| && EqualFold(t.columns[k].name, p.column)
  }

  /** The column may be of the type: any type at all, when the schema does not hold the column. */
  predicate Possible(p: Predicate, schema: Option<seq<Schema.Table>>, typeName: string) {
    FoundTable(p, schema).Some? ==>
      var columns := FoundTable(p, schema).value.columns;
      || (forall k :: 0 <= k < |columns| ==> !EqualFold(columns[k].name, p.column))
      || (exists k :: 0 <= k < |columns| && EqualFold(columns[k].name, p.column) && columns[k].typeName == typeName)
  }

  /** The rule's look at the schema keeps columns of other types out exactly when the schema holds the column. */
  lemma GuardsTypeExactlyWhen(p: Predicate, schema: Option<seq<Schema.Table>>)
    requires Applies(p, schema)
    ensures (forall ty :: Possible(p, schema, ty) ==> Lower(ty) in DATE_LIKE) <==> HoldsColumn(p, schema)
  {
    if HoldsColumn(p, schema) {
      var t := FoundTable(p, schema).value;
      forall ty | Possible(p, schema, ty)
        ensures Lower(ty) in DATE_LIKE
      {
        var k :| 0 <= k < |t.columns| && EqualFold(t.columns[k].name, p.column) && t.columns[k].typeName == ty;
        assert DateLike(t.columns[k]);
      }
    } else {
      assert Possible(p, schema, "text");
      assert Lower("text") == "text";
    }
  }

  method CheckType(p: Predicate, t: Schema.Table) returns (ok: bool)
    ensures ok <==> TypeAllows(p, t)
  {
    for k := 0 to |t.columns|
      invariant forall c :: 0 <= c < k && EqualFold(t.columns[c].name, p.column) ==> DateLike(t.columns[c])
    {
      if EqualFold(t.columns[k].name, p.column) && !DateLike(t.columns[k]) {
        return false;
      }
    }
    return true;
  }

  predicate Quotes(s: string) {
    forall i :: 0 <= i < |s| ==> s[i] == '\''
  }

  /** Trimming takes all quotes off both ends, and nothing else. */
  lemma {:induction false} TrimQuotesExact(s: string) returns (left: string, right: string)
    ensures s == left + TrimQuotes(s) + right && Quotes(left) && Quotes(right)
    ensures var t := TrimQuotes(s); t != [] ==> t[0] != '\'' && t[|t| - 1] != '\''
    decreases |s|
  {
    if s != [] && s[0] == '\'' {
      left, right := TrimQuotesExact(s[1..]);
      left := [s[0]] + left;
    } else if s != [] && s[|s| - 1] == '\'' {
      left, right := TrimQuotesExact(s[..|s| - 1]);
      right := right + [s[|s| - 1]];
    } else {
      left, right := [], [];
    }
  }

  method RewriteDateEquality(sql: string, p: Predicate, schema: Option<seq<Schema.Table>>) returns (out: string, ok: bool)
    ensures ok <==> IsDateEquality(p) && AllDateLike(p, schema) && exists i, j :: Chosen(sql, Squeeze(SoughtFor(p)), i, j)
    ensures ok ==> Replaced(sql, Squeeze(SoughtFor(p)), ReplacementFor(p), out)
    ensures !ok ==> out == "" && (IsDateEquality(p) && AllDateLike(p, schema) ==> NoMatch(sql, Squeeze(SoughtFor(p))))
    ensures var col, lit := if p.qualifier == "" then p.column else p.qualifier + "." + p.column, TrimQuotes(p.literalText);
            && SoughtFor(p) == "DATE(" + col + ") = '" + lit + "'"
            && ReplacementFor(p) == (col + " >= '" + lit + "'::timestamptz") + " AND " + (col + " < '" + lit + "'::timestamptz + INTERVAL '1 day'")
  {
    AppliesExactlyWhen(p, schema);
    if p.operator != "=" || p.literalText == "" || Lower(p.wrappedBy) != "date" {
      return "", false;
    }
    if schema.Some? {
      var t := Schema.FindTable(schema.value, p.table);
      if t.Some? {
        var allowed := CheckType(p, t.value);
        if !allowed {
          return "", false;
        }
      }
    }
    out, ok := ReplaceFold(sql, SoughtFor(p), ReplacementFor(p));
    if !ok {
      out := "";
    }
  }
}
