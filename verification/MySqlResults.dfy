/** The result gate on MySQL, where what is digested is not the row but a text made of it. */
module MySqlResults {
  import opened Common
  import opened Text
  import opened Checksums
  import opened RowCodec
  import opened Verification

  /** The texts the server digests, with the separator it reads and the sentinel for NULL. */
  function Texts(rows: seq<Row>): seq<string> {
    seq(|rows|, i requires 0 <= i < |rows| => RowText(rows[i]))
  }

  function RowText(row: Row): string {
    Encode(row, SEPARATOR, SENTINEL)
  }

  /** A row of at least one column, no value of which holds the separator or reads like the sentinel. */
  predicate Clean(row: Row) {
    row != [] && forall i :: 0 <= i < |row| && row[i].Some? ==> row[i].value != SENTINEL && !Contains(row[i].value, SEPARATOR)
  }

  ghost predicate AllClean(rows: seq<Row>) {
    forall row :: row in rows ==> Clean(row)
  }

  lemma SentinelHoldsNoSeparator()
    ensures !Contains(SENTINEL, SEPARATOR)
  {
    assert 'x' !in SENTINEL && SEPARATOR[0] == 'x';
    assert forall i :: 0 <= i && i + 3 <= |SENTINEL| ==> SENTINEL[i..i + 3][0] == SENTINEL[i];
  }

  lemma CleanPieces(row: Row)
    requires Clean(row)
    ensures Split(RowText(row), SEPARATOR) == Coalesced(row, SENTINEL)
  {
    SeparatorIsBorderless();
    SentinelHoldsNoSeparator();
    SplitOfJoin(Coalesced(row, SENTINEL), SEPARATOR);
  }

  /** Clean rows have different texts, even rows of different arity. */
  lemma CleanTextsDiffer(row: Row, other: Row)
    requires Clean(row) && Clean(other) && RowText(row) == RowText(other)
    ensures row == other
  {
    CleanPieces(row);
    CleanPieces(other);
    var pieces := Split(RowText(row), SEPARATOR);
    assert |pieces| == |row| == |other|;
    forall i | 0 <= i < |row|
      ensures row[i] == other[i]
    {
      assert pieces[i] == Coalesce(row[i], SENTINEL) == Coalesce(other[i], SENTINEL);
    }
  }

  /** Where no two rows share a text, results with the same texts are the same. */
  lemma SameTextsSameResult(r: seq<Row>, s: seq<Row>, ordered: bool)
    requires forall a, b :: a in r + s && b in r + s && RowText(a) == RowText(b) ==> a == b
    requires SameResult(Texts(r), Texts(s), ordered)
    ensures SameResult(r, s, ordered)
  {
    assert Digests(RowText, r) == Texts(r) && Digests(RowText, s) == Texts(s);
    if ordered {
      assert |Texts(r)| == |Texts(s)|;
      forall i | 0 <= i < |r|
        ensures r[i] == s[i]
      {
        assert Texts(r)[i] == Texts(s)[i];
        assert r[i] in r + s && s[i] in r + s;
      }
    } else {
      SameDigestsSameRows(RowText, r, s);
    }
  }

  /** The engine's oracle of row texts comes from one of rows. */
  ghost predicate TextsOf(eng: Engine, rows: string -> Option<seq<Row>>) {
    forall sql :: eng.rows(sql) == match rows(sql) case None => None case Some(rs) => Some(Texts(rs))
  }

  /** On clean rows an accepted candidate returns the very rows of the original, NULLs and column borders included. */
  lemma AcceptedReturnsTheRows(eng: Engine, cfg: Config, base: Baseline, c: Candidate, rows: string -> Option<seq<Row>>)
    requires TextsOf(eng, rows) && IsBaseline(eng, base) && AcceptedBy(eng, cfg, base, c)
    requires eng.rows(c.sql).Some? ==> DigestsApart(eng, eng.rows(base.st.sql).value, eng.rows(c.sql).value, base.st.hasOrderBy)
    requires rows(base.st.sql).Some? ==> AllClean(rows(base.st.sql).value)
    requires rows(c.sql).Some? ==> AllClean(rows(c.sql).value)
    ensures rows(base.st.sql).Some? && rows(c.sql).Some?
    ensures SameResult(rows(base.st.sql).value, rows(c.sql).value, base.st.hasOrderBy)
  {
    AcceptedIsEquivalent(eng, cfg, base, c);
    var r, s := rows(base.st.sql).value, rows(c.sql).value;
    forall a, b | a in r + s && b in r + s && RowText(a) == RowText(b)
      ensures a == b
    {
      CleanTextsDiffer(a, b);
    }
    SameTextsSameResult(r, s, base.st.hasOrderBy);
  }

  /** Every row has `n` columns. */
  ghost predicate Uniform(rows: seq<Row>, n: nat) {
    forall row :: row in rows ==> |row| == n
  }

  lemma OneRowChanged(r: seq<Row>, i: nat, other: Row)
    requires i < |r| && other != r[i]
    ensures multiset(r[i := other]) != multiset(r)
  {
    assert multiset(r[i := other]) == multiset(r) - multiset{r[i]} + multiset{other};
    assert multiset(r[i := other])[other] == multiset(r)[other] + 1;
  }

  /** A result with a row that is not plain has a double: other rows, the same texts. */
  lemma HasDouble(r: seq<Row>, n: nat, i: nat) returns (s: seq<Row>)
    requires Uniform(r, n) && i < |r| && !Plain(r[i], SEPARATOR, SENTINEL)
    ensures Uniform(s, n) && Texts(s) == Texts(r)
    ensures !SameResult(r, s, true) && !SameResult(r, s, false)
  {
    SeparatorIsBorderless();
    DecodableExactlyWhen(r[i], SEPARATOR, SENTINEL);
    var other: Row :| |other| == |r[i]| && RowText(other) == RowText(r[i]) && other != r[i];
    s := r[i := other];
    OneRowChanged(r, i, other);
    assert s[i] != r[i];
  }

  /** A plain row is the only one of its arity with its text. */
  lemma PlainTextIsIts(row: Row, other: Row)
    requires Plain(row, SEPARATOR, SENTINEL) && |other| == |row| && RowText(other) == RowText(row)
    ensures other == row
  {
    SeparatorIsBorderless();
    DecodableExactlyWhen(row, SEPARATOR, SENTINEL);
  }

  /** A row of the one result has its text among those of the other, and so its plain owner. */
  lemma FoundThere(r: seq<Row>, s: seq<Row>, n: nat, ordered: bool, row: Row)
    requires Uniform(r, n) && Uniform(s, n) && SameResult(Texts(r), Texts(s), ordered) && row in s
    requires forall a :: a in r ==> Plain(a, SEPARATOR, SENTINEL)
    ensures row in r
  {
    var k :| 0 <= k < |s| && s[k] == row;
    assert Texts(s)[k] in multiset(Texts(s));
    assert multiset(Texts(r)) == multiset(Texts(s));
    assert Texts(s)[k] in Texts(r);
    var i :| 0 <= i < |r| && Texts(r)[i] == Texts(s)[k];
    PlainTextIsIts(r[i], row);
  }

  lemma PlainResultIsIts(r: seq<Row>, s: seq<Row>, n: nat, ordered: bool)
    requires Uniform(r, n) && Uniform(s, n) && SameResult(Texts(r), Texts(s), ordered)
    requires forall a :: a in r ==> Plain(a, SEPARATOR, SENTINEL)
    ensures SameResult(r, s, ordered)
  {
    forall a, b | a in r + s && b in r + s && RowText(a) == RowText(b)
      ensures a == b
    {
      if a !in r {
        FoundThere(r, s, n, ordered, a);
      }
      if b !in r {
        FoundThere(r, s, n, ordered, b);
      }
      PlainTextIsIts(a, b);
    }
    SameTextsSameResult(r, s, ordered);
  }

  /** The texts of a result tell it from every other result of its arity exactly when all its rows are plain. */
  lemma TextsTellApartExactlyWhen(r: seq<Row>, n: nat, ordered: bool)
    requires Uniform(r, n)
    ensures (forall s :: Uniform(s, n) && SameResult(Texts(r), Texts(s), ordered) ==> SameResult(r, s, ordered))
            <==> forall a :: a in r ==> Plain(a, SEPARATOR, SENTINEL)
  {
    if a :| a in r && !Plain(a, SEPARATOR, SENTINEL) {
      var i :| 0 <= i < |r| && r[i] == a;
      var s := HasDouble(r, n, i);
      assert SameResult(Texts(r), Texts(s), ordered);
    } else {
      forall s | Uniform(s, n) && SameResult(Texts(r), Texts(s), ordered)
        ensures SameResult(r, s, ordered)
      {
        PlainResultIsIts(r, s, n, ordered);
      }
    }
  }

  /** And the gate lets a double pass, whatever the digests and whether or not order counts. */
  lemma DoubleIsAccepted(eng: Engine, cfg: Config, base: Baseline, c: Candidate, rows: string -> Option<seq<Row>>)
    requires TextsOf(eng, rows) && IsBaseline(eng, base)
    requires rows(base.st.sql).Some? && rows(c.sql).Some? && Texts(rows(c.sql).value) == Texts(rows(base.st.sql).value)
    ensures Passes(eng, cfg, base, c, 4) && Passes(eng, cfg, base, c, 5)
  {
    assert eng.rows(base.st.sql) == eng.rows(c.sql);
  }

  /** A NULL and the text it is written as make one row. */
  lemma NullMeetsItsText(v: string)
    ensures RowText([Some(v), None]) == RowText([Some(v), Some("\0NULL\0")]) == v + "x1f" + "\0NULL\0"
  {
    var row := [Some(v), None];
    assert Coalesced(row, SENTINEL) == Coalesced([Some(v), Some("\0NULL\0")], SENTINEL) == [v, SENTINEL];
    assert [v, SENTINEL][1..] == [SENTINEL];
    assert Join([SENTINEL], SEPARATOR) == SENTINEL;
    assert Join([v, SENTINEL], SEPARATOR) == v + SEPARATOR + SENTINEL;
  }

  const ONE_ROW: Row := [Some("ax1fb"), Some("c")]
  const ITS_DOUBLE: Row := [Some("a"), Some("bx1fc")]

  /** Two rows of ordinary text that the result gate takes for one. */
  lemma CollidingRowsPass(eng: Engine, cfg: Config, base: Baseline, c: Candidate, rows: string -> Option<seq<Row>>)
    requires TextsOf(eng, rows) && IsBaseline(eng, base)
    requires rows(base.st.sql) == Some([ONE_ROW]) && rows(c.sql) == Some([ITS_DOUBLE])
    ensures Passes(eng, cfg, base, c, 5) && !SameResult(rows(base.st.sql).value, rows(c.sql).value, base.ordered)
  {
    TwoRowsOneText();
    assert Texts([ONE_ROW]) == [RowText(ONE_ROW)] == [RowText(ITS_DOUBLE)] == Texts([ITS_DOUBLE]);
    DoubleIsAccepted(eng, cfg, base, c, rows);
    assert ONE_ROW[1] == Some("c") && ITS_DOUBLE[1] == Some("bx1fc");
    assert |ONE_ROW[1].value| != |ITS_DOUBLE[1].value|;
    var r, s := [ONE_ROW], [ITS_DOUBLE];
    assert r == s[0 := ONE_ROW];
    OneRowChanged(s, 0, ONE_ROW);
  }
}
