/** JSON documents as the parser hands them over, their canonical text, and the two equalities
    that text could stand for. */
module JsonValues {
  import opened Doubles
  import opened Numerals
  import opened Ordering

  /** An object keeps its members in document order; its names are distinct in `WellFormed`
      documents. A float is the text it is printed as, which carries a point or an exponent. */
  datatype Json =
    | Null
    | Bool(b: bool)
    | Int(i: int)
    | Float(lexeme: string)
    | Str(s: string)
    | Arr(items: seq<Json>)
    | Obj(members: seq<Member>)

  datatype Member = Member(name: string, value: Json)

  ghost predicate DistinctNames(members: seq<Member>) {
    forall i, j | 0 <= i < j < |members| :: members[i].name != members[j].name
  }

  predicate FloatChar(c: char) {
    '0' <= c <= '9' || c == '-' || c == '+' || c == '.' || c == 'e'
  }

  ghost predicate WellFormed(v: Json) {
    match v
    case Float(x) => x != "" && (forall c | c in x :: FloatChar(c)) && ('.' in x || 'e' in x)
    case Arr(items) => forall x | x in items :: WellFormed(x)
    case Obj(members) => DistinctNames(members) && forall m | m in members :: WellFormed(m.value)
    case _ => true
  }

  // ---------------------------------------------------------------- printing

  function PrintInt(i: int): (s: string)
    ensures s != "" && forall c | c in s :: '0' <= c <= '9' || c == '-'
  {
    if i < 0 then "-" + Decimal(-i) else Decimal(i)
  }

  function Hex4(n: nat): (s: string)
    requires n < 0x10000
    ensures |s| == 4
  {
    [Digit(n / 0x1000), Digit(n / 0x100 % 16), Digit(n / 0x10 % 16), Digit(n % 16)]
  }

  /** One character inside a quoted string: ASCII only, everything else as `\uXXXX`, beyond the
      basic plane as a surrogate pair. */
  function Escape(c: char): (s: string)
    ensures s != "" && s[0] != '"'
  {
    if c == '"' then "\\\""
    else if c == '\\' then "\\\\"
    else if c == '\n' then "\\n"
    else if c == '\r' then "\\r"
    else if c == '\t' then "\\t"
    else if c == '\U{c}' then "\\f"
    else if c == '\U{8}' then "\\b"
    else if ' ' <= c <= '~' then [c]
    else if (c as int) < 0x10000 then "\\u" + Hex4(c as int)
    else
      var n := c as int - 0x10000;
      "\\u" + Hex4(0xd800 + n / 0x400) + "\\u" + Hex4(0xdc00 + n % 0x400)
  }

  function EscapeAll(s: string): string {
    if s == "" then "" else Escape(s[0]) + EscapeAll(s[1..])
  }

  function Quote(s: string): string {
    "\"" + EscapeAll(s) + "\""
  }

  /** A document printed with its members in the order it has them. */
  function Print(v: Json): string
    decreases v, 1
  {
    match v
    case Null => "null"
    case Bool(b) => if b then "true" else "false"
    case Int(i) => PrintInt(i)
    case Float(x) => x
    case Str(s) => Quote(s)
    case Arr(items) => "[" + (if items == [] then "]" else Print(items[0]) + PrintItems(items[1..]))
    case Obj(members) => "{" + (if members == [] then "}" else PrintMember(members[0]) + PrintMembers(members[1..]))
  }

  function PrintItems(items: seq<Json>): string
    decreases items, 0
  {
    if items == [] then "]" else ", " + Print(items[0]) + PrintItems(items[1..])
  }

  function PrintMember(m: Member): string
    decreases m, 0
  {
    Quote(m.name) + ": " + Print(m.value)
  }

  function PrintMembers(members: seq<Member>): string
    decreases members, 0
  {
    if members == [] then "}" else ", " + PrintMember(members[0]) + PrintMembers(members[1..])
  }

  // ---------------------------------------------------------------- sorting by name

  ghost predicate Sorted(members: seq<Member>) {
    forall i, j | 0 <= i < j < |members| :: Before(members[i].name, members[j].name)
  }

  function Insert(m: Member, members: seq<Member>): (r: seq<Member>)
    ensures |r| == |members| + 1
    ensures forall x :: x in r <==> x == m || x in members
  {
    if members == [] || Before(m.name, members[0].name) then [m] + members
    else
      assert forall x :: x in members <==> x == members[0] || x in members[1..];
      [members[0]] + Insert(m, members[1..])
  }

  function Sort(members: seq<Member>): (r: seq<Member>)
    ensures |r| == |members|
    ensures forall x :: x in r <==> x in members
  {
    if members == [] then []
    else
      assert forall x :: x in members <==> x == members[0] || x in members[1..];
      Insert(members[0], Sort(members[1..]))
  }

  lemma {:induction false} InsertSorts(m: Member, members: seq<Member>)
    requires Sorted(members) && forall x | x in members :: x.name != m.name
    ensures Sorted(Insert(m, members))
  {
    if members != [] {
      BeforeIsTotal(m.name, members[0].name);
      if Before(m.name, members[0].name) {
        forall j | 0 < j < |members| ensures Before(m.name, members[j].name) {
          BeforeIsTransitive(m.name, members[0].name, members[j].name);
        }
      } else {
        InsertSorts(m, members[1..]);
        var rest := Insert(m, members[1..]);
        assert members[0] in members;
        forall i | 0 <= i < |rest| ensures Before(members[0].name, rest[i].name) {
          assert rest[i] in rest;
        }
      }
    }
  }

  lemma {:induction false} SortSorts(members: seq<Member>)
    requires DistinctNames(members)
    ensures Sorted(Sort(members))
  {
    if members != [] {
      SortSorts(members[1..]);
      InsertSorts(members[0], Sort(members[1..]));
    }
  }

  /** Two sorted lists with the same members are the same list. */
  lemma {:induction false} SortedIsUnique(a: seq<Member>, b: seq<Member>)
    requires |a| == |b| && Sorted(a) && Sorted(b) && forall x :: x in a <==> x in b
    ensures a == b
  {
    if a != [] {
      assert a[0] in a;
      var j :| 0 <= j < |b| && b[j] == a[0];
      assert b[0] in b;
      var i :| 0 <= i < |a| && a[i] == b[0];
      BeforeIsTotal(a[0].name, b[0].name);
      assert a[0] == b[0];
      forall x ensures x in a[1..] <==> x in b[1..] {
        NotBeforeItself(a[0].name);
        if x in a[1..] {
          assert x in a && x != a[0];
          assert x in b;
        }
        if x in b[1..] {
          assert x in b && x != b[0];
          assert x in a;
        }
      }
      SortedIsUnique(a[1..], b[1..]);
    }
  }

  // ---------------------------------------------------------------- the canonical text

  /** The document with the members of every object sorted. */
  function Normalize(v: Json): Json
    decreases v, 1
  {
    match v
    case Arr(items) => Arr(NormalizeItems(items))
    case Obj(members) => Obj(Sort(NormalizeMembers(members)))
    case _ => v
  }

  function NormalizeItems(items: seq<Json>): (r: seq<Json>)
    ensures |r| == |items|
    ensures forall i | 0 <= i < |items| :: r[i] == Normalize(items[i])
    decreases items, 0
  {
    if items == [] then [] else [Normalize(items[0])] + NormalizeItems(items[1..])
  }

  function NormalizeMembers(members: seq<Member>): (r: seq<Member>)
    ensures |r| == |members|
    ensures forall i | 0 <= i < |members| :: r[i] == Member(members[i].name, Normalize(members[i].value))
    decreases members, 0
  {
    if members == [] then []
    else [Member(members[0].name, Normalize(members[0].value))] + NormalizeMembers(members[1..])
  }

  /** The key by which documents are compared: printed with sorted members. */
  function Canonical(v: Json): string {
    Print(Normalize(v))
  }

  // ---------------------------------------------------------------- two equalities

  /** Equal up to the order of members, numbers compared as they are written. */
  ghost predicate SameText(a: Json, b: Json) {
    match (a, b)
    case (Arr(x), Arr(y)) => |x| == |y| && forall i | 0 <= i < |x| :: SameText(x[i], y[i])
    case (Obj(x), Obj(y)) =>
      && |x| == |y|
      && forall m | m in x :: exists n :: n in y && n.name == m.name && SameText(m.value, n.value)
    case _ => a == b
  }

  function Power10(n: nat): real {
    if n == 0 then 1.0 else 10.0 * Power10(n - 1)
  }

  function Cut(s: string, c: char): (r: (string, string))
    ensures c !in s ==> r == (s, "")
  {
    if s == "" then ("", "")
    else if s[0] == c then ("", s[1..])
    else
      var r := Cut(s[1..], c);
      assert s == [s[0]] + s[1..];
      ([s[0]] + r.0, r.1)
  }

  function IntValue(s: string): int {
    if s != "" && s[0] == '-' then -(DigitsValue(s[1..]) as int)
    else if s != "" && s[0] == '+' then DigitsValue(s[1..])
    else DigitsValue(s)
  }

  /** The number a float holds: the double that its decimal is read as. */
  function FloatValue(lexeme: string): real {
    ToDouble(DecimalValue(lexeme))
  }

  /** The decimal a float is printed as: sign, digits, point, digits, exponent. */
  function DecimalValue(lexeme: string): real {
    var negative := lexeme != "" && lexeme[0] == '-';
    var (mantissa, exponent) := Cut(if negative then lexeme[1..] else lexeme, 'e');
    var (whole, fraction) := Cut(mantissa, '.');
    var m := DigitsValue(whole + fraction) as real / NonZero(Power10(|fraction|));
    var e := IntValue(exponent);
    var magnitude := if e < 0 then m / NonZero(Power10(-e)) else m * Power10(e);
    if negative then -magnitude else magnitude
  }

  function NonZero(x: real): (r: real)
    ensures r != 0.0
    ensures x != 0.0 ==> r == x
  {
    if x == 0.0 then 1.0 else x
  }

  predicate IsNumber(v: Json) {
    v.Int? || v.Float?
  }

  function NumberValue(v: Json): real
    requires IsNumber(v)
  {
    if v.Int? then v.i as real else FloatValue(v.lexeme)
  }

  /** JSON equality as the standard states it: numbers compared by value. */
  ghost predicate JsonEqual(a: Json, b: Json) {
    match (a, b)
    case (Arr(x), Arr(y)) => |x| == |y| && forall i | 0 <= i < |x| :: JsonEqual(x[i], y[i])
    case (Obj(x), Obj(y)) =>
      && |x| == |y|
      && forall m | m in x :: exists n :: n in y && n.name == m.name && JsonEqual(m.value, n.value)
    case _ => if IsNumber(a) && IsNumber(b) then NumberValue(a) == NumberValue(b) else a == b
  }

  /** The numbers a document holds, as they are written. */
  ghost function NumbersIn(v: Json): iset<Json> {
    match v
    case Arr(items) => iset x, n | x in items && n in NumbersIn(x) :: n
    case Obj(members) => iset m, n | m in members && n in NumbersIn(m.value) :: n
    case _ => if IsNumber(v) then iset{v} else iset{}
  }

  /** No value is written in two ways. */
  ghost predicate OneSpelling(numbers: iset<Json>) {
    forall a, b | a in numbers && b in numbers && IsNumber(a) && IsNumber(b) && NumberValue(a) == NumberValue(b) :: a == b
  }
}
