/** What a WHERE clause says of one row: SQL's three truth values, the day an instant falls on, and the conditions the server
    reads in a text. */
module DateCondition {
  import opened Common

  // ------------------------------------------------------------ three-valued logic

  datatype Truth = True | False | Unknown

  function Not3(a: Truth): Truth {
    match a
    case True => False
    case False => True
    case Unknown => Unknown
  }

  function And3(a: Truth, b: Truth): Truth {
    if a.False? || b.False? then False else if a.True? && b.True? then True else Unknown
  }

  function Or3(a: Truth, b: Truth): Truth {
    if a.True? || b.True? then True else if a.False? && b.False? then False else Unknown
  }

  function FromBool(b: bool): Truth {
    if b then True else False
  }

  // ------------------------------------------------------------ instants and days

  /** A day in microseconds. */
  const DAY := 86_400_000_000

  /** A value of one of the date-like column types: an instant, a local time, or a calendar day. A value of any other type
      that DATE() takes, as it takes text, spells a day. */
  datatype Temporal = Instant(us: int) | LocalTime(us: int) | Date(day: int) | Spelled(day: int)

  datatype ColumnType = TimestamptzColumn | TimestampColumn | DateColumn | OtherColumn {
    /** No operator compares another type with an instant. */
    predicate DateLike() {
      !OtherColumn?
    }

    predicate Holds(v: Temporal) {
      match this
      case TimestamptzColumn => v.Instant?
      case TimestampColumn => v.LocalTime?
      case DateColumn => v.Date?
      case OtherColumn => v.Spelled?
    }
  }

  /** The literal as the server reads it: a day and a time of day, the latter zero for a pure date. */
  datatype Literal = Literal(day: int, timeOfDay: int)

  predicate IsLiteral(l: Literal) {
    0 <= l.timeOfDay < DAY
  }

  /** The instant a value stands for when it is compared with a timestamptz; `offset` is the session's from UTC. */
  function AsInstant(v: Temporal, offset: int): int {
    match v
    case Instant(us) => us
    case LocalTime(us) => us - offset
    case Date(day) => day * DAY - offset
    case Spelled(day) => day * DAY - offset
  }

  /** DATE(v): division of local time into days, rounding down. */
  function AsDate(v: Temporal, offset: int): int {
    match v
    case Instant(us) => (us + offset) / DAY
    case LocalTime(us) => us / DAY
    case Date(day) => day
    case Spelled(day) => day
  }

  // ------------------------------------------------------------ symbols

  datatype SqlType = DateType | TimestampType | TimestamptzType | OtherType(name: string)

  datatype BoolTest = IsTrue | IsNotTrue | IsFalse | IsNotFalse | IsUnknown | IsNotUnknown

  /** `DateEq` is the condition the rule replaces; `AtLeast` and `Before` are the two halves of the range. Beside them may
      stand what binds tighter than AND: `Led`, an operator in front with its left operand; `Cast` and `Continued`, a cast
      of the literal and any other operator after it; `Tested`, an IS test; `Distinct`, IS [NOT] DISTINCT FROM. Any other
      condition, with all that belongs to it, is an `Other`. */
  datatype Symbol =
    | And | Or | Not | Open | Close | Other(id: nat) | DateEq | AtLeast | Before
    | Led(id: nat) | Cast(to: SqlType) | Continued(id: nat) | Tested(test: BoolTest) | Distinct(negated: bool)

  predicate IsSite(t: Symbol) {
    t.DateEq? || t.AtLeast? || t.Before?
  }

  predicate IsTail(t: Symbol) {
    t.Cast? || t.Continued?
  }

  /** A condition with the operators that take a part of it for their operand. */
  datatype Operand = Operand(lead: Option<nat>, base: Symbol, tail: Option<Symbol>)

  /** What one row gives to the WHERE clause: the column, and the value of every other condition. `meant` is the value of an
      operand with operators of unknown meaning. */
  datatype World = World(column: Option<Temporal>, offset: int, literal: Literal, other: nat -> Truth, meant: Operand -> Truth)

  /** What is the same for all rows: the type of the column, the literal, and which operators the server has for an operand
      that is a condition, or a part of one. */
  datatype Setting = Setting(column: ColumnType, literal: Literal, accepts: Operand -> bool)

  predicate RowOf(w: World, env: Setting) {
    w.literal == env.literal && (w.column.Some? ==> env.column.Holds(w.column.value))
  }

  function LiteralInstant(w: World): int {
    w.literal.day * DAY + w.literal.timeOfDay - w.offset
  }

  function BaseValue(t: Symbol, w: World): Truth {
    match t
    case Other(id) => w.other(id)
    case DateEq => if w.column.None? then Unknown else FromBool(AsDate(w.column.value, w.offset) == w.literal.day)
    case AtLeast => if w.column.None? then Unknown else FromBool(AsInstant(w.column.value, w.offset) >= LiteralInstant(w))
    case Before => if w.column.None? then Unknown else FromBool(AsInstant(w.column.value, w.offset) < LiteralInstant(w) + DAY)
    case _ => Unknown
  }

  predicate ComparesWithDay(to: SqlType) {
    to.DateType? || to.TimestampType? || to.TimestamptzType?
  }

  /** DATE(column) = 'literal'::to. A day becomes the midnight it begins with. */
  function CastValue(to: SqlType, w: World): Truth {
    if w.column.None? then Unknown
    else FromBool(AsDate(w.column.value, w.offset) == w.literal.day && (to.DateType? || w.literal.timeOfDay == 0))
  }

  /** A row of the type on the literal's day. */
  function OnTheDay(env: Setting): Temporal {
    match env.column
    case TimestamptzColumn => Instant(env.literal.day * DAY)
    case TimestampColumn => LocalTime(env.literal.day * DAY)
    case DateColumn => Date(env.literal.day)
    case OtherColumn => Spelled(env.literal.day)
  }

  /** A cast of the literal leaves the condition its meaning on all rows exactly when it is to a day, or takes no time of day
      along. */
  lemma CastKeepsExactlyWhen(to: SqlType, env: Setting)
    requires ComparesWithDay(to)
    ensures (forall w :: RowOf(w, env) ==> OperandValue(Operand(None, DateEq, Some(Cast(to))), w) == BaseValue(DateEq, w)) <==>
            to.DateType? || env.literal.timeOfDay == 0
  {
    var w := World(Some(OnTheDay(env)), 0, env.literal, _ => Unknown, _ => Unknown);
    assert RowOf(w, env) && AsDate(w.column.value, 0) == env.literal.day;
    assert BaseValue(DateEq, w) == True;
  }

  function OperandValue(p: Operand, w: World): Truth {
    if p.base.Other? || (p.lead.None? && p.tail.None?) then BaseValue(p.base, w)
    else if p.lead.None? && p.base.DateEq? && p.tail.value.Cast? then CastValue(p.tail.value.to, w)
    else w.meant(p)
  }

  /** The server accepts the cast: of the literal to something a day compares with. No interval can be cast to any of these. */
  predicate CastAllowed(p: Operand) {
    p.tail.Some? && p.tail.value.Cast? ==>
      (p.base.DateEq? ==> ComparesWithDay(p.tail.value.to)) && (p.base.Before? ==> !ComparesWithDay(p.tail.value.to))
  }

  /** The server accepts the condition: the halves of the range only on a date-like column, and an operator only on an
      operand it is defined for. */
  predicate Allowed(p: Operand, env: Setting) {
    && CastAllowed(p)
    && (p.base.AtLeast? || p.base.Before? ==> env.column.DateLike())
    && (p.lead.Some? || (p.tail.Some? && p.tail.value.Continued?) ==> env.accepts(p))
  }

  // ------------------------------------------------------------ conditions and their grammar

  /** Parentheses are kept in the tree: what stands between them is a unit of its own. */
  datatype Expr =
    | Atom(p: Operand) | Paren(e: Expr) | Is(e: Expr, test: BoolTest) | Unlike(l: Expr, r: Expr, negated: bool)
    | Neg(e: Expr) | Conj(l: Expr, r: Expr) | Disj(l: Expr, r: Expr)

  function Passed(test: BoolTest, v: Truth): Truth {
    match test
    case IsTrue => FromBool(v == True)
    case IsNotTrue => FromBool(v != True)
    case IsFalse => FromBool(v == False)
    case IsNotFalse => FromBool(v != False)
    case IsUnknown => FromBool(v == Unknown)
    case IsNotUnknown => FromBool(v != Unknown)
  }

  /** IS DISTINCT FROM takes NULL for a value like any other. */
  function Differ(a: Truth, b: Truth, negated: bool): Truth {
    FromBool((a != b) != negated)
  }

  function Value(e: Expr, w: World): Truth {
    match e
    case Atom(p) => OperandValue(p, w)
    case Paren(e) => Value(e, w)
    case Is(e, test) => Passed(test, Value(e, w))
    case Unlike(l, r, negated) => Differ(Value(l, w), Value(r, w), negated)
    case Neg(e) => Not3(Value(e, w))
    case Conj(l, r) => And3(Value(l, w), Value(r, w))
    case Disj(l, r) => Or3(Value(l, w), Value(r, w))
  }

  /** The server accepts the whole condition. */
  predicate Typed(e: Expr, env: Setting) {
    match e
    case Atom(p) => Allowed(p, env)
    case Paren(e) => Typed(e, env)
    case Is(e, _) => Typed(e, env)
    case Unlike(l, r, _) => Typed(l, env) && Typed(r, env)
    case Neg(e) => Typed(e, env)
    case Conj(l, r) => Typed(l, env) && Typed(r, env)
    case Disj(l, r) => Typed(l, env) && Typed(r, env)
  }

  /** The operand stands somewhere in the condition. */
  predicate StandsIn(p: Operand, e: Expr) {
    match e
    case Atom(q) => p == q
    case Paren(e) => StandsIn(p, e)
    case Is(e, _) => StandsIn(p, e)
    case Unlike(l, r, _) => StandsIn(p, l) || StandsIn(p, r)
    case Neg(e) => StandsIn(p, e)
    case Conj(l, r) => StandsIn(p, l) || StandsIn(p, r)
    case Disj(l, r) => StandsIn(p, l) || StandsIn(p, r)
  }

  /** What the server says of a condition it says of its operands one by one. */
  lemma {:induction false} TypedIsAll(e: Expr, env: Setting)
    ensures Typed(e, env) <==> forall p :: StandsIn(p, e) ==> Allowed(p, env)
    decreases e, 1
  {
    match e
    case Atom(p) => assert StandsIn(p, e);
    case Paren(e) => TypedIsAll(e, env);
    case Is(e, _) => TypedIsAll(e, env);
    case Unlike(l, r, _) => TypedOfBoth(l, r, e, env);
    case Neg(e) => TypedIsAll(e, env);
    case Conj(l, r) => TypedOfBoth(l, r, e, env);
    case Disj(l, r) => TypedOfBoth(l, r, e, env);
  }

  lemma {:induction false} TypedOfBoth(l: Expr, r: Expr, e: Expr, env: Setting)
    requires l < e && r < e
    ensures Typed(l, env) && Typed(r, env) <==> forall p :: StandsIn(p, l) || StandsIn(p, r) ==> Allowed(p, env)
    decreases e, 0
  {
    TypedIsAll(l, env);
    TypedIsAll(r, env);
  }

  type Parse = Option<(Expr, seq<Symbol>)>

  /** IS binds tighter than NOT, NOT than AND, and AND than OR; the operators of an operand bind tighter than all of them.
      Each parser leaves the symbols it did not use. */
  function ParseOr(ts: seq<Symbol>): (r: Parse)
    ensures r.Some? ==> |r.value.1| < |ts|
    decreases |ts|, 4
  {
    match ParseAnd(ts)
    case None => None
    case Some((l, rest)) =>
      if rest == [] || rest[0] != Or then Some((l, rest))
      else
        match ParseOr(rest[1..])
        case None => None
        case Some((r, rest')) => Some((Disj(l, r), rest'))
  }

  function ParseAnd(ts: seq<Symbol>): (r: Parse)
    ensures r.Some? ==> |r.value.1| < |ts|
    decreases |ts|, 3
  {
    match ParseNot(ts)
    case None => None
    case Some((l, rest)) =>
      if rest == [] || rest[0] != And then Some((l, rest))
      else
        match ParseAnd(rest[1..])
        case None => None
        case Some((r, rest')) => Some((Conj(l, r), rest'))
  }

  function ParseNot(ts: seq<Symbol>): (r: Parse)
    ensures r.Some? ==> |r.value.1| < |ts|
    decreases |ts|, 2
  {
    if ts != [] && ts[0] == Not then
      match ParseNot(ts[1..])
      case None => None
      case Some((e, rest)) => Some((Neg(e), rest))
    else ParseIs(ts)
  }

  function ParseIs(ts: seq<Symbol>): (r: Parse)
    ensures r.Some? ==> |r.value.1| < |ts|
    decreases |ts|, 1
  {
    match ParseUnit(ts)
    case None => None
    case Some((e, rest)) => ParseTests(e, rest)
  }

  /** Tests follow one another; IS DISTINCT FROM does not associate. */
  function ParseTests(e: Expr, ts: seq<Symbol>): (r: Parse)
    ensures r.Some? ==> |r.value.1| <= |ts|
    decreases |ts|, 0
  {
    if ts == [] then Some((e, ts))
    else
      match ts[0]
      case Tested(test) => ParseTests(Is(e, test), ts[1..])
      case Distinct(negated) =>
        (match ParseUnit(ts[1..])
         case None => None
         case Some((r, rest)) => if StartsTest(rest) then None else Some((Unlike(e, r, negated), rest)))
      case _ => Some((e, ts))
  }

  predicate StartsTest(ts: seq<Symbol>) {
    ts != [] && (ts[0].Tested? || ts[0].Distinct?)
  }

  function ParseUnit(ts: seq<Symbol>): (r: Parse)
    ensures r.Some? ==> |r.value.1| < |ts|
    decreases |ts|, 0
  {
    if ts == [] then None
    else
      match ts[0]
      case Open =>
        (match ParseOr(ts[1..])
         case None => None
         case Some((e, rest)) => if rest != [] && rest[0] == Close then Some((Paren(e), rest[1..])) else None)
      case Other(_) => Some((Atom(Operand(None, ts[0], None)), ts[1..]))
      case Led(id) => if |ts| > 1 && IsSite(ts[1]) then Some(SiteAtom(Some(id), ts[1], ts[2..])) else None
      case _ => if IsSite(ts[0]) then Some(SiteAtom(None, ts[0], ts[1..])) else None
  }

  /** A half or the whole of the replaced condition, with the operator that goes on with it. */
  function SiteAtom(lead: Option<nat>, base: Symbol, rest: seq<Symbol>): (r: (Expr, seq<Symbol>))
    ensures |r.1| <= |rest|
  {
    if rest != [] && IsTail(rest[0]) then (Atom(Operand(lead, base, Some(rest[0]))), rest[1..])
    else (Atom(Operand(lead, base, None)), rest)
  }

  /** A whole condition. */
  predicate Parses(ts: seq<Symbol>) {
    ParseOr(ts).Some? && ParseOr(ts).value.1 == []
  }

  function Tree(ts: seq<Symbol>): Expr
    requires Parses(ts)
  {
    ParseOr(ts).value.0
  }

  function Meaning(ts: seq<Symbol>, w: World): Truth
    requires Parses(ts)
  {
    Value(Tree(ts), w)
  }
}
