/** From the comparisons of a query to the indexes worth measuring. */
module IndexAdvice {
  import opened Common
  import opened Text
  import opened Schema

  datatype Predicate = Predicate(
    table: string, qualifier: string, column: string, operator: string, wrappedBy: string, castTo: string,
    literalText: string, isJoin: bool, otherTable: string, otherColumn: string)

  // ------------------------------------------------------------ whose column is it?

  /** What a qualifier stands for: the last table reference whose alias or name it is, or itself. */
  function Dealias(refs: seq<TableRef>, q: string): string {
    if refs == [] then q
    else
      var last := refs[|refs| - 1];
      if (last.alias != "" && EqualFold(last.alias, q)) || EqualFold(last.name, q) then last.name
      else Dealias(refs[..|refs| - 1], q)
  }

  /** What the map makes of a qualifier. */
  function Looked(alias: map<string, string>, q: string): string {
    if Lower(q) in alias then alias[Lower(q)] else q
  }

  ghost predicate Dealiases(alias: map<string, string>, refs: seq<TableRef>) {
    forall q :: Looked(alias, q) == Dealias(refs, q)
  }

  function Entered(alias: map<string, string>, t: TableRef): map<string, string> {
    (if t.alias != "" then alias[Lower(t.alias) := t.name] else alias)[Lower(t.name) := t.name]
  }

  lemma DealiasesNext(alias: map<string, string>, refs: seq<TableRef>, t: TableRef)
    requires Dealiases(alias, refs)
    ensures Dealiases(Entered(alias, t), refs + [t])
  {
    var next, more := Entered(alias, t), refs + [t];
    assert more[|more| - 1] == t && more[..|more| - 1] == refs;
    forall q
      ensures Looked(next, q) == Dealias(more, q)
    {
      assert Looked(alias, q) == Dealias(refs, q);
    }
  }

  method AliasMap(refs: seq<TableRef>) returns (alias: map<string, string>)
    ensures Dealiases(alias, refs)
  {
    alias := map[];
    for i := 0 to |refs|
      invariant Dealiases(alias, refs[..i])
    {
      DealiasesNext(alias, refs[..i], refs[i]);
      assert refs[..i + 1] == refs[..i] + [refs[i]];
      if refs[i].alias != "" {
        alias := alias[Lower(refs[i].alias) := refs[i].name];
      }
      alias := alias[Lower(refs[i].name) := refs[i].name];
    }
    assert refs[..|refs|] == refs;
  }

  /** The name a reference goes by in its query: its alias, and only without one its name. */
  function Handle(t: TableRef): string {
    if t.alias != "" then t.alias else t.name
  }

  predicate Answers(t: TableRef, q: string) {
    (t.alias != "" && EqualFold(t.alias, q)) || EqualFold(t.name, q)
  }

  /** The last reference that answers decides. */
  lemma {:induction false} DealiasIsLast(refs: seq<TableRef>, q: string, m: nat)
    requires m < |refs| && Answers(refs[m], q) && forall k :: m < k < |refs| ==> !Answers(refs[k], q)
    ensures Dealias(refs, q) == refs[m].name
  {
    if m < |refs| - 1 {
      DealiasIsLast(refs[..|refs| - 1], q, m);
    }
  }

  lemma {:induction false} LastAnswer(refs: seq<TableRef>, q: string, i: nat) returns (m: nat)
    requires i < |refs| && Answers(refs[i], q)
    ensures i <= m < |refs| && Answers(refs[m], q) && forall k :: m < k < |refs| ==> !Answers(refs[k], q)
    decreases |refs| - i
  {
    if k :| i < k < |refs| && Answers(refs[k], q) {
      m := LastAnswer(refs, q, k);
    } else {
      m := i;
    }
  }

  /** The last reference of the whole statement, nested queries and all, that has the qualifier for an alias or a name. */
  predicate LastToAnswer(refs: seq<TableRef>, q: string, m: nat) {
    m < |refs| && Answers(refs[m], q) && forall k :: m < k < |refs| ==> !Answers(refs[k], q)
  }

  /** A qualifier is taken for the reference that goes by it exactly when the last reference that answers to the qualifier
      is to the same table. */
  lemma QualifierResolvedExactlyWhen(refs: seq<TableRef>, i: nat, q: string)
    requires i < |refs| && EqualFold(Handle(refs[i]), q)
    ensures EqualFold(Dealias(refs, q), refs[i].name) <==> exists m: nat :: LastToAnswer(refs, q, m) && EqualFold(refs[m].name, refs[i].name)
  {
    var m := LastAnswer(refs, q, i);
    DealiasIsLast(refs, q, m);
    assert LastToAnswer(refs, q, m);
    forall k: nat | LastToAnswer(refs, q, k)
      ensures k == m
    {
      OneIsLast(refs, q, k, m);
    }
  }

  lemma OneIsLast(refs: seq<TableRef>, q: string, k: nat, m: nat)
    requires LastToAnswer(refs, q, k) && LastToAnswer(refs, q, m)
    ensures k == m
  {
  }

  /** In FROM a x WHERE EXISTS (SELECT 1 FROM b x ...) the outer x.c is taken for a column of b. */
  lemma AliasUsedTwice()
    ensures Dealias([TableRef("", "a", "x"), TableRef("", "b", "x")], "x") == "b"
  {
    DealiasIsLast([TableRef("", "a", "x"), TableRef("", "b", "x")], "x", 1);
  }

  /** In FROM orders AS users, users AS u a column users.x is taken for one of the table users. */
  lemma AliasOfAnotherTable()
    ensures Dealias([TableRef("", "orders", "users"), TableRef("", "users", "u")], "users") == "users"
  {
    DealiasIsLast([TableRef("", "orders", "users"), TableRef("", "users", "u")], "users", 1);
  }

  /** The query's `k`-th table is known and has the column. */
  predicate Owns(tables: seq<Table>, refs: seq<TableRef>, k: int, column: string) {
    0 <= k < |refs| && FindTable(tables, refs[k].name).Some? && HasColumn(FindTable(tables, refs[k].name).value, column)
  }

  function OwnerName(tables: seq<Table>, refs: seq<TableRef>, k: int, column: string): string
    requires Owns(tables, refs, k, column)
  {
    FindTable(tables, refs[k].name).value.name
  }

  ghost predicate Named(tables: seq<Table>) {
    forall i :: 0 <= i < |tables| ==> tables[i].name != ""
  }

  /** Every owner among the first `n` tables goes by the name. */
  ghost predicate AllNamed(tables: seq<Table>, refs: seq<TableRef>, n: nat, column: string, name: string) {
    forall k :: 0 <= k < n && Owns(tables, refs, k, column) ==> EqualFold(OwnerName(tables, refs, k, column), name)
  }

  /** Some owner among the first `n` tables has exactly the name. */
  ghost predicate SomeNamed(tables: seq<Table>, refs: seq<TableRef>, n: nat, column: string, name: string) {
    exists k :: 0 <= k < n && Owns(tables, refs, k, column) && OwnerName(tables, refs, k, column) == name
  }

  ghost predicate NoneOwns(tables: seq<Table>, refs: seq<TableRef>, n: nat, column: string) {
    forall k :: 0 <= k < n ==> !Owns(tables, refs, k, column)
  }

  /** The columns of one table, against the name found so far. */
  method ScanColumns(t: Table, column: string, before: string) returns (found: string, ambiguous: bool)
    requires t.name != ""
    ensures !HasColumn(t, column) ==> !ambiguous && found == before
    ensures HasColumn(t, column) ==> (ambiguous <==> before != "" && !EqualFold(before, t.name))
    ensures HasColumn(t, column) && !ambiguous ==> found == t.name
  {
    found, ambiguous := before, false;
    for c := 0 to |t.columns|
      invariant found == before || found == t.name
      invariant (exists d :: 0 <= d < c && EqualFold(t.columns[d].name, column)) ==>
                  found == t.name && (before == "" || EqualFold(before, t.name))
      invariant (forall d :: 0 <= d < c ==> !EqualFold(t.columns[d].name, column)) ==> found == before
    {
      if EqualFold(t.columns[c].name, column) {
        if found != "" && !EqualFold(found, t.name) {
          return found, true;
        }
        found := t.name;
      }
    }
  }

  /** A column without a qualifier belongs to the one table name that has it; with none, or with two, nobody guesses. */
  ghost predicate Attributed(tables: seq<Table>, refs: seq<TableRef>, column: string, found: string) {
    && (found != "" ==> SomeNamed(tables, refs, |refs|, column, found) && AllNamed(tables, refs, |refs|, column, found))
    && (found == "" ==>
          NoneOwns(tables, refs, |refs|, column) ||
          exists k, l :: Owns(tables, refs, k, column) && Owns(tables, refs, l, column) &&
                         !EqualFold(OwnerName(tables, refs, k, column), OwnerName(tables, refs, l, column)))
  }

  method ResolveUnqualified(tables: seq<Table>, refs: seq<TableRef>, column: string) returns (found: string)
    requires Named(tables)
    ensures Attributed(tables, refs, column, found)
  {
    found := "";
    for i := 0 to |refs|
      invariant found == "" ==> NoneOwns(tables, refs, i, column)
      invariant found != "" ==> SomeNamed(tables, refs, i, column, found) && AllNamed(tables, refs, i, column, found)
    {
      var t := FindTable(tables, refs[i].name);
      if t.None? {
        continue;
      }
      var before, ambiguous := found, false;
      found, ambiguous := ScanColumns(t.value, column, before);
      if ambiguous {
        TwoNames(tables, refs, i, column, before);
        return "";
      }
      OneMore(tables, refs, i, column, before, found);
    }
  }

  lemma TwoNames(tables: seq<Table>, refs: seq<TableRef>, i: nat, column: string, before: string)
    requires Owns(tables, refs, i, column) && !EqualFold(before, OwnerName(tables, refs, i, column))
    requires SomeNamed(tables, refs, i, column, before)
    ensures Attributed(tables, refs, column, "")
  {
    var k :| 0 <= k < i && Owns(tables, refs, k, column) && OwnerName(tables, refs, k, column) == before;
  }

  lemma OneMore(tables: seq<Table>, refs: seq<TableRef>, i: nat, column: string, before: string, found: string)
    requires i < |refs|
    requires before == "" ==> NoneOwns(tables, refs, i, column)
    requires before != "" ==> SomeNamed(tables, refs, i, column, before) && AllNamed(tables, refs, i, column, before)
    requires !Owns(tables, refs, i, column) ==> found == before
    requires Owns(tables, refs, i, column) ==>
               found == OwnerName(tables, refs, i, column) && found != "" && (before == "" || EqualFold(before, found))
    ensures found == "" ==> NoneOwns(tables, refs, i + 1, column)
    ensures found != "" ==> SomeNamed(tables, refs, i + 1, column, found) && AllNamed(tables, refs, i + 1, column, found)
  {
    if Owns(tables, refs, i, column) {
      assert SomeNamed(tables, refs, i + 1, column, found);
    } else if found != "" {
      StillNamed(tables, refs, i, column, found);
    }
    if found != "" {
      forall k | 0 <= k < i + 1 && Owns(tables, refs, k, column)
        ensures EqualFold(OwnerName(tables, refs, k, column), found)
      {
        if k < i {
          assert before != "";
          assert EqualFold(OwnerName(tables, refs, k, column), before);
        }
      }
    }
  }

  lemma StillNamed(tables: seq<Table>, refs: seq<TableRef>, i: nat, column: string, name: string)
    requires SomeNamed(tables, refs, i, column, name)
    ensures SomeNamed(tables, refs, i + 1, column, name)
  {
    var k :| 0 <= k < i && Owns(tables, refs, k, column) && OwnerName(tables, refs, k, column) == name;
    assert Owns(tables, refs, k, column);
  }

  /** The attribution succeeds exactly when there is an owner and all owners go by one name. */
  lemma AttributedExactlyWhen(tables: seq<Table>, refs: seq<TableRef>, column: string, found: string)
    requires Attributed(tables, refs, column, found)
    ensures found != "" <==>
            && !NoneOwns(tables, refs, |refs|, column)
            && (forall k, l :: Owns(tables, refs, k, column) && Owns(tables, refs, l, column) ==>
                  EqualFold(OwnerName(tables, refs, k, column), OwnerName(tables, refs, l, column)))
  {
  }

  /** What resolution makes of a predicate, given the table found for its column if it has no qualifier. */
  function Resolved(p: Predicate, refs: seq<TableRef>, found: string): Predicate {
    p.(qualifier := p.table,
       table := if p.table == "" then found else Dealias(refs, p.table),
       otherTable := if p.otherTable == "" then "" else Dealias(refs, p.otherTable))
  }

  /** Two answers name the same table. */
  lemma AttributionIsUnique(tables: seq<Table>, refs: seq<TableRef>, column: string, a: string, b: string)
    requires Attributed(tables, refs, column, a) && Attributed(tables, refs, column, b)
    ensures EqualFold(a, b)
  {
    AttributedExactlyWhen(tables, refs, column, a);
    AttributedExactlyWhen(tables, refs, column, b);
  }

  ghost predicate ResolvesTo(tables: seq<Table>, refs: seq<TableRef>, p: Predicate, r: Predicate) {
    r == Resolved(p, refs, r.table) && (p.table == "" ==> Attributed(tables, refs, p.column, r.table))
  }

  method ResolveTables(preds: seq<Predicate>, refs: seq<TableRef>, tables: seq<Table>) returns (out: seq<Predicate>)
    requires Named(tables)
    ensures |out| == |preds|
    ensures forall i :: 0 <= i < |preds| ==>
              var p, table := preds[i], out[i].table;
              && out[i] == p.(qualifier := p.table, table := table, otherTable := if p.otherTable == "" then "" else Dealias(refs, p.otherTable))
              && (if p.table == "" then Attributed(tables, refs, p.column, table) else table == Dealias(refs, p.table))
  {
    var alias := AliasMap(refs);
    out := [];
    for i := 0 to |preds|
      invariant |out| == i
      invariant forall k :: 0 <= k < i ==> ResolvesTo(tables, refs, preds[k], out[k])
    {
      var p := ResolveOne(preds[i], refs, tables, alias);
      out := out + [p];
    }
  }

  method ResolveOne(pred: Predicate, refs: seq<TableRef>, tables: seq<Table>, alias: map<string, string>) returns (p: Predicate)
    requires Named(tables) && Dealiases(alias, refs)
    ensures ResolvesTo(tables, refs, pred, p)
  {
    assert Looked(alias, pred.table) == Dealias(refs, pred.table);
    assert Looked(alias, pred.otherTable) == Dealias(refs, pred.otherTable);
    p := pred.(qualifier := pred.table);
    if p.table == "" {
      var found := ResolveUnqualified(tables, refs, p.column);
      p := p.(table := found);
    } else if Lower(p.table) in alias {
      p := p.(table := alias[Lower(p.table)]);
    }
    if p.otherTable != "" && Lower(p.otherTable) in alias {
      p := p.(otherTable := alias[Lower(p.otherTable)]);
    }
  }

  // ------------------------------------------------------------ which columns want an index?

  predicate IndexLeadsWith(t: Table, column: string) {
    exists i :: 0 <= i < |t.indexes| && t.indexes[i].columns != [] && EqualFold(t.indexes[i].columns[0], column)
  }

  /** One value dominates the column, as far as the statistics tell. */
  predicate LowSelectivity(t: Table, p: Predicate) {
    var c := FindColumn(t.columns, p.column);
    c.Some? && 0.0 < c.value.distinctValues < 3.0 && !p.isJoin
  }

  /** A known table of at least a thousand rows with no index that leads with the column. */
  predicate Unindexed(tables: seq<Table>, p: Predicate) {
    p.table != "" && p.column != "" && FindTable(tables, p.table).Some? &&
    !IndexLeadsWith(FindTable(tables, p.table).value, p.column) && FindTable(tables, p.table).value.rowEstimate >= 1000
  }

  predicate Eligible(tables: seq<Table>, p: Predicate) {
    Unindexed(tables, p) && !LowSelectivity(FindTable(tables, p.table).value, p)
  }

  /** The name is the table's, with its schema in front or without. */
  predicate GoesBy(t: Table, name: string) {
    EqualFold(name, t.name) || EqualFold(name, t.schema + "." + t.name)
  }

  /** The first table of the list that goes by the name. */
  predicate FirstAnswering(tables: seq<Table>, name: string, k: int) {
    0 <= k < |tables| && GoesBy(tables[k], name) && forall i :: 0 <= i < k ==> !GoesBy(tables[i], name)
  }

  /** A column wants an index exactly when the table found for it is known to be large enough, none of its indexes begins with
      the column, and the statistics know of three values or more, or of none, unless it joins. */
  lemma EligibleExactlyWhen(tables: seq<Table>, p: Predicate)
    ensures Eligible(tables, p) <==>
            && p.table != "" && p.column != ""
            && exists k :: FirstAnswering(tables, p.table, k) && tables[k].rowEstimate >= 1000
                           && (forall i :: 0 <= i < |tables[k].indexes| ==>
                                             tables[k].indexes[i].columns == [] || !EqualFold(tables[k].indexes[i].columns[0], p.column))
                           && (p.isJoin || forall c :: FirstNamed(tables[k].columns, p.column, c) ==>
                                                         tables[k].columns[c].distinctValues <= 0.0 || tables[k].columns[c].distinctValues >= 3.0)
  {
    var t := FindTable(tables, p.table);
    assert forall k :: 0 <= k < |tables| ==> (GoesBy(tables[k], p.table) <==> Schema.Answers(tables[k], p.table));
    if t.Some? {
      var k :| FirstAnswering(tables, p.table, k) && tables[k] == t.value;
      assert forall l :: FirstAnswering(tables, p.table, l) ==> l == k;
      ColumnFound(t.value.columns, p.column);
    }
  }

  lemma ColumnFound(columns: seq<Column>, name: string)
    ensures forall c :: FirstNamed(columns, name, c) ==> FindColumn(columns, name) == Some(columns[c])
  {
    forall c | FirstNamed(columns, name, c)
      ensures FindColumn(columns, name) == Some(columns[c])
    {
      var r := FindColumn(columns, name);
      assert r.Some?;
      var k :| FirstNamed(columns, name, k) && columns[k] == r.value;
      assert k == c;
    }
  }

  datatype Suggestion = Suggestion(table: string, column: string)

  function SuggestionFor(tables: seq<Table>, p: Predicate): Suggestion
    requires Unindexed(tables, p)
  {
    Suggestion(FindTable(tables, p.table).value.name, p.column)
  }

  function Key(s: Suggestion): string {
    Lower(s.table + "." + s.column)
  }

  /** Two suggestions are taken for one exactly when they are of one table name and one column, up to letter case. */
  lemma SuggestionsMeetExactlyWhen(s: Suggestion, t: Suggestion)
    requires '.' !in s.table && '.' !in t.table
    ensures Key(s) == Key(t) <==> EqualFold(s.table, t.table) && EqualFold(s.column, t.column)
  {
    KeyIsDotted(s);
    KeyIsDotted(t);
    if Key(s) == Key(t) {
      SplitAtSeparator(Lower(s.table), Lower(s.column), Lower(t.table), Lower(t.column), '.');
    }
  }

  lemma KeyIsDotted(s: Suggestion)
    requires '.' !in s.table
    ensures Key(s) == Lower(s.table) + ['.'] + Lower(s.column) && '.' !in Lower(s.table)
  {
    forall i | 0 <= i < |s.table|
      ensures Lower(s.table)[i] != '.'
    {
      assert s.table[i] in s.table;
    }
  }

  /** The schema is no part of it: of two large tables of one name, in different schemas, only the first gets its index. */
  lemma NamesakesShareASuggestion(a: Table, b: Table, p: Predicate, q: Predicate)
    requires Eligible([a, b], p) && Eligible([a, b], q) && p.column == q.column && a.name == b.name
    requires FindTable([a, b], p.table) == Some(a) && FindTable([a, b], q.table) == Some(b)
    ensures Missing([a, b], [p, q]) == [Suggestion(a.name, p.column)]
  {
    assert [p, q][..1] == [p] && [p][..0] == [];
    assert Missing([a, b], [p]) == [Suggestion(a.name, p.column)];
  }

  function Keys(ss: seq<Suggestion>): set<string> {
    set s | s in ss :: Key(s)
  }

  /** The suggestions for a list of predicates. */
  function Missing(tables: seq<Table>, preds: seq<Predicate>): seq<Suggestion> {
    if preds == [] then []
    else
      var n := |preds| - 1;
      var before := Missing(tables, preds[..n]);
      if Eligible(tables, preds[n]) && Key(SuggestionFor(tables, preds[n])) !in Keys(before)
      then before + [SuggestionFor(tables, preds[n])]
      else before
  }

  /** The notes for columns of low selectivity. */
  function LowNotes(tables: seq<Table>, preds: seq<Predicate>): seq<Suggestion> {
    if preds == [] then []
    else
      var n := |preds| - 1;
      LowNotes(tables, preds[..n]) +
      if Unindexed(tables, preds[n]) && !Eligible(tables, preds[n]) then [SuggestionFor(tables, preds[n])] else []
  }

  method CheckMissingIndexes(tables: seq<Table>, preds: seq<Predicate>) returns (missing: seq<Suggestion>, low: seq<Suggestion>)
    ensures missing == Missing(tables, preds) && low == LowNotes(tables, preds)
  {
    missing, low := [], [];
    var proposed: set<string> := {};
    for i := 0 to |preds|
      invariant missing == Missing(tables, preds[..i]) && low == LowNotes(tables, preds[..i])
      invariant proposed == Keys(missing)
    {
      assert preds[..i + 1][..i] == preds[..i];
      var advice := Advise(tables, preds[i]);
      match advice
      case Nothing =>
      case Note(s) =>
        low := low + [s];
      case Propose(s) =>
        if Key(s) !in proposed {
          proposed := proposed + {Key(s)};
          missing := missing + [s];
        }
    }
    assert preds[..|preds|] == preds;
  }

  datatype Advice = Nothing | Note(s: Suggestion) | Propose(s: Suggestion)

  /** What one predicate asks for, whatever has been proposed before. */
  method Advise(tables: seq<Table>, p: Predicate) returns (a: Advice)
    ensures a == if Eligible(tables, p) then Propose(SuggestionFor(tables, p))
                 else if Unindexed(tables, p) then Note(SuggestionFor(tables, p)) else Nothing
  {
    if p.table == "" || p.column == "" {
      return Nothing;
    }
    var t := FindTable(tables, p.table);
    if t.None? || IndexLeadsWith(t.value, p.column) || t.value.rowEstimate < 1000 {
      return Nothing;
    }
    var s := Suggestion(t.value.name, p.column);
    var c := FindColumn(t.value.columns, p.column);
    if c.Some? && 0.0 < c.value.distinctValues < 3.0 && !p.isJoin {
      return Note(s);
    }
    return Propose(s);
  }

  /** The suggested keys are those of the eligible predicates, each once. */
  lemma {:induction false} MissingIsExact(tables: seq<Table>, preds: seq<Predicate>)
    ensures forall key :: key in Keys(Missing(tables, preds)) <==>
              exists i :: 0 <= i < |preds| && Eligible(tables, preds[i]) && Key(SuggestionFor(tables, preds[i])) == key
    ensures forall m, n :: 0 <= m < n < |Missing(tables, preds)| ==> Key(Missing(tables, preds)[m]) != Key(Missing(tables, preds)[n])
  {
    if preds != [] {
      var n := |preds| - 1;
      MissingIsExact(tables, preds[..n]);
      var before := Missing(tables, preds[..n]);
      if Eligible(tables, preds[n]) {
        var s := SuggestionFor(tables, preds[n]);
        assert Keys(Missing(tables, preds)) == Keys(before) + {Key(s)};
      }
    }
  }

  /** Among predicates with one key, the first eligible one decides how the pair is written. */
  lemma {:induction false} FirstEligibleSpeaks(tables: seq<Table>, preds: seq<Predicate>, i: nat)
    requires i < |preds| && Eligible(tables, preds[i])
    requires forall k :: 0 <= k < i && Eligible(tables, preds[k]) ==>
               Key(SuggestionFor(tables, preds[k])) != Key(SuggestionFor(tables, preds[i]))
    ensures SuggestionFor(tables, preds[i]) in Missing(tables, preds)
  {
    var n := |preds| - 1;
    if i < n {
      FirstEligibleSpeaks(tables, preds[..n], i);
    } else {
      MissingIsExact(tables, preds[..n]);
    }
  }

  ghost predicate NotedBy(tables: seq<Table>, p: Predicate, s: Suggestion) {
    Unindexed(tables, p) && LowSelectivity(FindTable(tables, p.table).value, p) && SuggestionFor(tables, p) == s
  }

  /** Notes go to the other unindexed columns, and to them alone. */
  lemma {:induction false} LowNotesAreExact(tables: seq<Table>, preds: seq<Predicate>, s: Suggestion)
    ensures s in LowNotes(tables, preds) <==> exists i :: 0 <= i < |preds| && NotedBy(tables, preds[i], s)
  {
    if preds != [] {
      var before, last := preds[..|preds| - 1], preds[|preds| - 1];
      LowNotesAreExact(tables, before, s);
      LastNote(tables, before, last, s);
      assert preds == before + [last];
      if i :| 0 <= i < |before| && NotedBy(tables, before[i], s) {
        assert NotedBy(tables, preds[i], s);
      }
      if i :| 0 <= i < |preds| && NotedBy(tables, preds[i], s) {
        assert i < |before| ==> NotedBy(tables, before[i], s);
      }
    }
  }

  lemma LastNote(tables: seq<Table>, before: seq<Predicate>, last: Predicate, s: Suggestion)
    ensures s in LowNotes(tables, before + [last]) <==> s in LowNotes(tables, before) || NotedBy(tables, last, s)
  {
    var preds := before + [last];
    assert preds[..|preds| - 1] == before && preds[|preds| - 1] == last;
  }
}
