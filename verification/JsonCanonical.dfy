/** What the canonical text decides. Two documents print alike exactly when they are equal up to
    the order of members, which is JSON equality as long as no number is written in two ways. */
module JsonCanonical {
  import opened Doubles
  import opened Numerals
  import opened Ordering
  import opened JsonValues
  import opened Text

  // ---------------------------------------------------------------- numbers

  lemma IntsPrintApart(i: int, j: int)
    requires PrintInt(i) == PrintInt(j)
    ensures i == j
  {
    var a, b := if i < 0 then -i else i, if j < 0 then -j else j;
    DecimalParses(a);
    DecimalParses(b);
    assert ("-" + Decimal(a))[1..] == Decimal(a) && ("-" + Decimal(b))[1..] == Decimal(b);
    assert Decimal(a)[0] in Decimal(a) && Decimal(b)[0] in Decimal(b);
  }

  predicate NumberChar(c: char) {
    FloatChar(c)
  }

  /** What may follow a value inside a document. */
  predicate Follow(s: string) {
    s == "" || !NumberChar(s[0])
  }

  /** Two splittings of one string at the same place. */
  lemma SameSplit(x: string, y: string, s: string, t: string)
    requires x + s == y + t && |x| == |y|
    ensures x == y && s == t
  {
    assert (x + s)[..|x|] == x && (y + t)[..|y|] == y;
    assert (x + s)[|x|..] == s && (y + t)[|y|..] == t;
  }

  function RunLength(z: string): nat {
    if z == "" || !NumberChar(z[0]) then 0 else 1 + RunLength(z[1..])
  }

  lemma {:induction false} RunEnds(x: string, s: string)
    requires Follow(s) && forall c | c in x :: NumberChar(c)
    ensures RunLength(x + s) == |x|
  {
    if x == "" {
      assert x + s == s;
    } else {
      assert x[0] in x && (x + s)[1..] == x[1..] + s;
      RunEnds(x[1..], s);
    }
  }

  lemma MaximalRun(x: string, y: string, s: string, t: string)
    requires x + s == y + t && Follow(s) && Follow(t)
    requires (forall c | c in x :: NumberChar(c)) && forall c | c in y :: NumberChar(c)
    ensures x == y && s == t
  {
    RunEnds(x, s);
    RunEnds(y, t);
    SameSplit(x, y, s, t);
  }

  // ---------------------------------------------------------------- strings

  lemma DigitsDiffer(d: nat, e: nat)
    requires d < 16 && e < 16 && Digit(d) == Digit(e)
    ensures d == e
  {
  }

  lemma Hex4Differs(m: nat, n: nat)
    requires m < 0x10000 && n < 0x10000 && Hex4(m) == Hex4(n)
    ensures m == n
  {
    DigitsDiffer(Hex4Digit(m, 0), Hex4Digit(n, 0));
    DigitsDiffer(Hex4Digit(m, 1), Hex4Digit(n, 1));
    DigitsDiffer(Hex4Digit(m, 2), Hex4Digit(n, 2));
    DigitsDiffer(Hex4Digit(m, 3), Hex4Digit(n, 3));
    Hex4Sum(m);
    Hex4Sum(n);
  }

  function Hex4Digit(n: nat, k: nat): (d: nat)
    requires n < 0x10000 && k < 4
    ensures d < 16 && Hex4(n)[k] == Digit(d)
  {
    if k == 0 then n / 0x1000 else if k == 1 then n / 0x100 % 16 else if k == 2 then n / 0x10 % 16 else n % 16
  }

  lemma Hex4Sum(n: nat)
    requires n < 0x10000
    ensures n == 0x1000 * Hex4Digit(n, 0) + 0x100 * Hex4Digit(n, 1) + 0x10 * Hex4Digit(n, 2) + Hex4Digit(n, 3)
  {
    assert n / 0x100 == n / 0x10 / 0x10 && n / 0x1000 == n / 0x100 / 0x10;
  }

  /** The forms of an escape, told apart by their first two characters. */
  datatype Form = Plain(c: char) | Short(c: char) | Basic(code: nat) | Pair(high: nat, low: nat)

  function FormOf(c: char): (f: Form)
    ensures f.Basic? ==> f.code < 0x10000 && f.code == c as int
    ensures f.Pair? ==> 0xd800 <= f.high < 0xdc00 && 0xdc00 <= f.low < 0xe000
  {
    if c == '"' || c == '\\' then Short(c)
    else if c == '\n' then Short('n')
    else if c == '\r' then Short('r')
    else if c == '\t' then Short('t')
    else if c == '\U{c}' then Short('f')
    else if c == '\U{8}' then Short('b')
    else if ' ' <= c <= '~' then Plain(c)
    else if (c as int) < 0x10000 then Basic(c as int)
    else var n := c as int - 0x10000; Pair(0xd800 + n / 0x400, 0xdc00 + n % 0x400)
  }

  lemma FormsDiffer(c: char, d: char)
    requires FormOf(c) == FormOf(d)
    ensures c == d
  {
  }

  lemma UnicodeEscape(m: nat, n: nat, s: string, t: string)
    requires m < 0x10000 && n < 0x10000 && ("\\u" + Hex4(m)) + s == ("\\u" + Hex4(n)) + t
    ensures m == n && s == t
  {
    hide Hex4;
    SameSplit("\\u" + Hex4(m), "\\u" + Hex4(n), s, t);
    SameSplit("\\u", "\\u", Hex4(m), Hex4(n));
    Hex4Differs(m, n);
  }

  /** The text of an escape form. */
  function FormText(f: Form): (s: string)
    requires f.Basic? ==> f.code < 0x10000
    requires f.Pair? ==> f.high < 0x10000 && f.low < 0x10000
    ensures s != ""
  {
    match f
    case Plain(x) => [x]
    case Short(x) => ['\\', x]
    case Basic(n) => "\\u" + Hex4(n)
    case Pair(h, l) => ("\\u" + Hex4(h)) + ("\\u" + Hex4(l))
  }

  ghost predicate GoodForm(f: Form) {
    match f
    case Plain(x) => x != '\\'
    case Short(x) => x != 'u'
    case Basic(n) => n < 0xd800 || 0xe000 <= n < 0x10000
    case Pair(h, l) => 0xd800 <= h < 0xdc00 && 0xdc00 <= l < 0xe000
  }

  lemma EscapeHasForm(c: char)
    ensures GoodForm(FormOf(c)) && Escape(c) == FormText(FormOf(c))
  {
    assert FormText(FormOf(c)) == Escape(c);
  }

  /** An escape of four digits, with what follows it. */
  lemma SplitUnicode(f: Form, s: string) returns (code: nat, rest: string)
    requires GoodForm(f) && (f.Basic? || f.Pair?)
    ensures code < 0x10000 && FormText(f) + s == ("\\u" + Hex4(code)) + rest
    ensures f.Basic? ==> code == f.code && rest == s
    ensures f.Pair? ==> code == f.high && rest == ("\\u" + Hex4(f.low)) + s
  {
    hide Hex4;
    if f.Basic? {
      code, rest := f.code, s;
    } else {
      code, rest := f.high, ("\\u" + Hex4(f.low)) + s;
      Regroup("\\u" + Hex4(f.high), "\\u" + Hex4(f.low), s);
    }
  }

  lemma FirstTwo(f: Form, s: string)
    requires GoodForm(f)
    ensures var x := FormText(f) + s;
      && x[0] == (if f.Plain? then f.c else '\\')
      && (!f.Plain? ==> |x| > 1 && x[1] == if f.Short? then f.c else 'u')
  {
    hide Hex4;
  }

  lemma FormsApart(f: Form, g: Form, s: string, t: string)
    requires GoodForm(f) && GoodForm(g) && FormText(f) + s == FormText(g) + t
    ensures f == g && s == t
  {
    hide Hex4, FormText;
    FirstTwo(f, s);
    FirstTwo(g, t);
    if f.Plain? || f.Short? {
      PlainApart(f, g, s, t);
    } else {
      var m, s' := SplitUnicode(f, s);
      var n, t' := SplitUnicode(g, t);
      UnicodeEscape(m, n, s', t');
      if f.Pair? {
        UnicodeEscape(f.low, g.low, s, t);
      }
    }
  }

  lemma PlainApart(f: Form, g: Form, s: string, t: string)
    requires (f.Plain? && g.Plain?) || (f.Short? && g.Short?)
    requires FormText(f) + s == FormText(g) + t
    ensures f == g && s == t
  {
    SameSplit(FormText(f), FormText(g), s, t);
    assert FormText(f)[|FormText(f)| - 1] == f.c && FormText(g)[|FormText(g)| - 1] == g.c;
  }

  /** Escapes are told apart wherever they stand. */
  lemma EscapesDiffer(c: char, d: char, s: string, t: string)
    requires Escape(c) + s == Escape(d) + t
    ensures c == d && s == t
  {
    hide Escape, FormText, FormOf;
    EscapeHasForm(c);
    EscapeHasForm(d);
    FormsApart(FormOf(c), FormOf(d), s, t);
    FormsDiffer(c, d);
  }

  /** A string's escapes with the closing quote and what follows. */
  function Closed(a: string, s: string): string {
    EscapeAll(a) + ("\"" + s)
  }

  lemma ClosedStep(a: string, s: string)
    ensures a == "" ==> Closed(a, s) == "\"" + s
    ensures a != "" ==> Closed(a, s) == Escape(a[0]) + Closed(a[1..], s)
    ensures (Closed(a, s)[0] == '"') <==> a == ""
  {
    hide Escape;
    if a != "" {
      Regroup(Escape(a[0]), EscapeAll(a[1..]), "\"" + s);
    }
  }

  lemma {:induction false} QuotedApart(a: string, b: string, s: string, t: string)
    requires Closed(a, s) == Closed(b, t)
    ensures a == b && s == t
  {
    hide Escape, Closed;
    ClosedStep(a, s);
    ClosedStep(b, t);
    if a == "" {
      SameSplit("\"", "\"", s, t);
    } else {
      EscapesDiffer(a[0], b[0], Closed(a[1..], s), Closed(b[1..], t));
      QuotedApart(a[1..], b[1..], s, t);
      assert a == [a[0]] + a[1..] && b == [b[0]] + b[1..];
    }
  }

  lemma QuoteIsClosed(a: string, s: string)
    ensures Quote(a) + s == "\"" + Closed(a, s)
  {
    hide EscapeAll;
    Regroup("\"" + EscapeAll(a), "\"", s);
    Regroup("\"", EscapeAll(a), "\"" + s);
  }

  lemma QuotesApart(a: string, b: string, s: string, t: string)
    requires Quote(a) + s == Quote(b) + t
    ensures a == b && s == t
  {
    hide Quote, Closed;
    QuoteIsClosed(a, s);
    QuoteIsClosed(b, t);
    SameSplit("\"", "\"", Closed(a, s), Closed(b, t));
    QuotedApart(a, b, s, t);
  }

  // ---------------------------------------------------------------- whole documents

  /** The kinds of value, as the first printed character tells them. */
  function Kind(v: Json): nat {
    match v
    case Null => 0
    case Bool(_) => 1
    case Int(_) => 2
    case Float(_) => 2
    case Str(_) => 3
    case Arr(_) => 4
    case Obj(_) => 5
  }

  function KindOfChar(c: char): nat {
    if c == 'n' then 0 else if c == 't' || c == 'f' then 1 else if c == '"' then 3
    else if c == '[' then 4 else if c == '{' then 5 else if FloatChar(c) then 2 else 6
  }

  lemma FirstChar(v: Json)
    requires WellFormed(v)
    ensures Print(v) != "" && KindOfChar(Print(v)[0]) == Kind(v)
  {
    match v {
      case Int(i) => assert PrintInt(i)[0] in PrintInt(i);
      case Float(x) => assert x[0] in x;
      case _ =>
    }
  }

  lemma NumbersApart(a: Json, b: Json, s: string, t: string)
    requires WellFormed(a) && WellFormed(b) && IsNumber(a) && IsNumber(b)
    requires Print(a) + s == Print(b) + t && Follow(s) && Follow(t)
    ensures a == b && s == t
  {
    MaximalRun(Print(a), Print(b), s, t);
    if a.Int? && b.Int? {
      IntsPrintApart(a.i, b.i);
    }
  }

  /** A printed document can be read back in one way only, whatever follows it. */
  lemma {:induction false} PrintsApart(a: Json, b: Json, s: string, t: string)
    requires WellFormed(a) && WellFormed(b)
    requires Print(a) + s == Print(b) + t && Follow(s) && Follow(t)
    ensures a == b && s == t
    decreases a, 1
  {
    FirstChar(a);
    FirstChar(b);
    var x, y := Print(a) + s, Print(b) + t;
    assert x[0] == Print(a)[0] && y[0] == Print(b)[0];
    match (a, b) {
      case (Null, Null) =>
        assert x[4..] == s && y[4..] == t;
      case (Bool(p), Bool(q)) =>
        if p && q {
          assert x[4..] == s && y[4..] == t;
        } else if !p && !q {
          assert x[5..] == s && y[5..] == t;
        }
      case (Str(p), Str(q)) =>
        QuotesApart(p, q, s, t);
      case (Arr(p), Arr(q)) =>
        ArraysApart(p, q, s, t);
      case (Obj(p), Obj(q)) =>
        ObjectsApart(p, q, s, t);
      case _ =>
        NumbersApart(a, b, s, t);
    }
  }

  /** The items of an array after its bracket, and after its first item, with what follows. */
  function Opened(p: seq<Json>, s: string): string {
    if p == [] then "]" + s else Print(p[0]) + Further(p[1..], s)
  }

  function Further(p: seq<Json>, s: string): string {
    PrintItems(p) + s
  }

  lemma FurtherStep(p: seq<Json>, s: string)
    ensures p == [] ==> Further(p, s) == "]" + s
    ensures p != [] ==> Further(p, s) == ", " + (Print(p[0]) + Further(p[1..], s))
    ensures Follow(Further(p, s)) && Further(p, s) != "" && (Further(p, s)[0] == ']' <==> p == [])
  {
    hide Print;
    if p != [] {
      Regroup(", ", Print(p[0]), PrintItems(p[1..]));
      Regroup(", ", Print(p[0]) + PrintItems(p[1..]), s);
      Regroup(Print(p[0]), PrintItems(p[1..]), s);
    }
  }

  lemma ArrayOpens(p: seq<Json>, s: string)
    requires forall v | v in p :: WellFormed(v)
    ensures Print(Arr(p)) + s == "[" + Opened(p, s)
    ensures Opened(p, s) != "" && (Opened(p, s)[0] == ']' <==> p == [])
  {
    if p == [] {
      Regroup("[", "]", s);
    } else {
      FirstChar(p[0]);
      Regroup("[", Print(p[0]) + PrintItems(p[1..]), s);
      Regroup(Print(p[0]), PrintItems(p[1..]), s);
    }
  }

  lemma {:induction false} ArraysApart(p: seq<Json>, q: seq<Json>, s: string, t: string)
    requires (forall v | v in p :: WellFormed(v)) && forall v | v in q :: WellFormed(v)
    requires Print(Arr(p)) + s == Print(Arr(q)) + t
    ensures p == q && s == t
    decreases p, 2
  {
    ArrayOpens(p, s);
    ArrayOpens(q, t);
    hide Print, Further, WellFormed;
    SameSplit("[", "[", Opened(p, s), Opened(q, t));
    if p == [] {
      SameSplit("]", "]", s, t);
    } else {
      OpenedIs(p, s);
      OpenedIs(q, t);
      hide Opened;
      FurtherStep(p[1..], s);
      FurtherStep(q[1..], t);
      PrintsApart(p[0], q[0], Further(p[1..], s), Further(q[1..], t));
      ItemsApart(p[1..], q[1..], s, t);
      assert p == [p[0]] + p[1..] && q == [q[0]] + q[1..];
    }
  }

  lemma OpenedIs(p: seq<Json>, s: string)
    requires p != []
    ensures Opened(p, s) == Print(p[0]) + Further(p[1..], s)
  {
  }

  lemma {:induction false} ItemsApart(p: seq<Json>, q: seq<Json>, s: string, t: string)
    requires (forall v | v in p :: WellFormed(v)) && forall v | v in q :: WellFormed(v)
    requires Further(p, s) == Further(q, t)
    ensures p == q && s == t
    decreases p, 0
  {
    hide Print, Further, WellFormed;
    FurtherStep(p, s);
    FurtherStep(q, t);
    if p == [] {
      SameSplit("]", "]", s, t);
    } else {
      FurtherStep(p[1..], s);
      FurtherStep(q[1..], t);
      SameSplit(", ", ", ", Print(p[0]) + Further(p[1..], s), Print(q[0]) + Further(q[1..], t));
      PrintsApart(p[0], q[0], Further(p[1..], s), Further(q[1..], t));
      ItemsApart(p[1..], q[1..], s, t);
      assert p == [p[0]] + p[1..] && q == [q[0]] + q[1..];
    }
  }

  function OpenedMembers(p: seq<Member>, s: string): string {
    if p == [] then "}" + s else PrintMember(p[0]) + FurtherMembers(p[1..], s)
  }

  function FurtherMembers(p: seq<Member>, s: string): string {
    PrintMembers(p) + s
  }

  lemma FurtherMembersStep(p: seq<Member>, s: string)
    ensures p == [] ==> FurtherMembers(p, s) == "}" + s
    ensures p != [] ==> FurtherMembers(p, s) == ", " + (PrintMember(p[0]) + FurtherMembers(p[1..], s))
    ensures Follow(FurtherMembers(p, s)) && FurtherMembers(p, s) != "" && (FurtherMembers(p, s)[0] == '}' <==> p == [])
  {
    hide PrintMember;
    if p != [] {
      Regroup(", ", PrintMember(p[0]), PrintMembers(p[1..]));
      Regroup(", ", PrintMember(p[0]) + PrintMembers(p[1..]), s);
      Regroup(PrintMember(p[0]), PrintMembers(p[1..]), s);
    }
  }

  lemma ObjectOpens(p: seq<Member>, s: string)
    ensures Print(Obj(p)) + s == "{" + OpenedMembers(p, s)
    ensures OpenedMembers(p, s) != "" && (OpenedMembers(p, s)[0] == '}' <==> p == [])
  {
    if p == [] {
      Regroup("{", "}", s);
    } else {
      assert PrintMember(p[0])[0] == '"';
      Regroup("{", PrintMember(p[0]) + PrintMembers(p[1..]), s);
      Regroup(PrintMember(p[0]), PrintMembers(p[1..]), s);
    }
  }

  lemma MemberSplits(m: Member, s: string)
    ensures PrintMember(m) + s == Quote(m.name) + (": " + (Print(m.value) + s))
  {
    hide Print, Quote;
    Regroup(Quote(m.name), ": ", Print(m.value));
    Regroup(Quote(m.name), ": " + Print(m.value), s);
    Regroup(": ", Print(m.value), s);
  }

  lemma {:induction false} MemberApart(m: Member, n: Member, s: string, t: string)
    requires WellFormed(m.value) && WellFormed(n.value) && Follow(s) && Follow(t)
    requires PrintMember(m) + s == PrintMember(n) + t
    ensures m == n && s == t
    decreases m, 0
  {
    hide Print, Quote, WellFormed;
    MemberSplits(m, s);
    MemberSplits(n, t);
    QuotesApart(m.name, n.name, ": " + (Print(m.value) + s), ": " + (Print(n.value) + t));
    SameSplit(": ", ": ", Print(m.value) + s, Print(n.value) + t);
    PrintsApart(m.value, n.value, s, t);
  }

  lemma {:induction false} ObjectsApart(p: seq<Member>, q: seq<Member>, s: string, t: string)
    requires (forall m | m in p :: WellFormed(m.value)) && forall m | m in q :: WellFormed(m.value)
    requires Print(Obj(p)) + s == Print(Obj(q)) + t
    ensures p == q && s == t
    decreases p, 2
  {
    ObjectOpens(p, s);
    ObjectOpens(q, t);
    hide Print, PrintMember, FurtherMembers, WellFormed;
    SameSplit("{", "{", OpenedMembers(p, s), OpenedMembers(q, t));
    if p == [] {
      SameSplit("}", "}", s, t);
    } else {
      FurtherMembersStep(p[1..], s);
      FurtherMembersStep(q[1..], t);
      MemberApart(p[0], q[0], FurtherMembers(p[1..], s), FurtherMembers(q[1..], t));
      MembersApart(p[1..], q[1..], s, t);
      assert p == [p[0]] + p[1..] && q == [q[0]] + q[1..];
    }
  }

  lemma {:induction false} MembersApart(p: seq<Member>, q: seq<Member>, s: string, t: string)
    requires (forall m | m in p :: WellFormed(m.value)) && forall m | m in q :: WellFormed(m.value)
    requires FurtherMembers(p, s) == FurtherMembers(q, t)
    ensures p == q && s == t
    decreases p, 0
  {
    hide PrintMember, FurtherMembers, WellFormed;
    FurtherMembersStep(p, s);
    FurtherMembersStep(q, t);
    if p == [] {
      SameSplit("}", "}", s, t);
    } else {
      FurtherMembersStep(p[1..], s);
      FurtherMembersStep(q[1..], t);
      SameSplit(", ", ", ", PrintMember(p[0]) + FurtherMembers(p[1..], s), PrintMember(q[0]) + FurtherMembers(q[1..], t));
      MemberApart(p[0], q[0], FurtherMembers(p[1..], s), FurtherMembers(q[1..], t));
      MembersApart(p[1..], q[1..], s, t);
      assert p == [p[0]] + p[1..] && q == [q[0]] + q[1..];
    }
  }

  // ---------------------------------------------------------------- normal forms

  lemma {:induction false} NormalizeKeepsForm(v: Json)
    requires WellFormed(v)
    ensures WellFormed(Normalize(v))
  {
    match v {
      case Arr(items) =>
        var r := NormalizeItems(items);
        forall x | x in r ensures WellFormed(x) {
          var i :| 0 <= i < |r| && r[i] == x;
          assert items[i] in items;
          NormalizeKeepsForm(items[i]);
        }
      case Obj(members) =>
        var r := NormalizeMembers(members);
        forall m | m in Sort(r) ensures WellFormed(m.value) {
          var i :| 0 <= i < |r| && r[i] == m;
          assert members[i] in members;
          NormalizeKeepsForm(members[i].value);
        }
        SortSorts(r);
        var sorted := Sort(r);
        forall i, j | 0 <= i < j < |sorted| ensures sorted[i].name != sorted[j].name {
          NotBeforeItself(sorted[i].name);
        }
      case _ =>
    }
  }

  lemma {:induction false} SameNormalIsSameText(a: Json, b: Json)
    requires WellFormed(a) && WellFormed(b) && Normalize(a) == Normalize(b)
    ensures SameText(a, b)
  {
    match (a, b) {
      case (Arr(x), Arr(y)) =>
        assert |NormalizeItems(x)| == |NormalizeItems(y)|;
        forall i | 0 <= i < |x| ensures SameText(x[i], y[i]) {
          assert x[i] in x && y[i] in y;
          assert Normalize(x[i]) == NormalizeItems(x)[i] && Normalize(y[i]) == NormalizeItems(y)[i];
          SameNormalIsSameText(x[i], y[i]);
        }
      case (Obj(x), Obj(y)) =>
        var p, q := NormalizeMembers(x), NormalizeMembers(y);
        assert |Sort(p)| == |Sort(q)|;
        forall m | m in x ensures exists n :: n in y && n.name == m.name && SameText(m.value, n.value) {
          var i :| 0 <= i < |x| && x[i] == m;
          assert p[i] in Sort(p);
          assert p[i] in q;
          var j :| 0 <= j < |q| && q[j] == p[i];
          assert y[j] in y;
          SameNormalIsSameText(m.value, y[j].value);
        }
      case _ =>
    }
  }

  lemma {:induction false} SameTextIsSameNormal(a: Json, b: Json)
    requires WellFormed(a) && WellFormed(b) && SameText(a, b)
    ensures Normalize(a) == Normalize(b)
    decreases a
  {
    match (a, b) {
      case (Arr(x), Arr(y)) =>
        forall i | 0 <= i < |x| ensures Normalize(x[i]) == Normalize(y[i]) {
          assert x[i] in x && y[i] in y;
          SameTextIsSameNormal(x[i], y[i]);
        }
        assert NormalizeItems(x) == NormalizeItems(y);
      case (Obj(x), Obj(y)) =>
        forall i | 0 <= i < |x| ensures HasPartner(x[i], y) {
          assert x[i] in x;
          var n :| n in y && n.name == x[i].name && SameText(x[i].value, n.value);
          var j :| 0 <= j < |y| && y[j] == n;
          SameTextIsSameNormal(x[i].value, n.value);
        }
        SameSorted(x, y);
      case _ =>
    }
  }

  ghost predicate HasPartner(m: Member, members: seq<Member>) {
    exists j :: 0 <= j < |members| && members[j].name == m.name && Normalize(members[j].value) == Normalize(m.value)
  }

  lemma SameSorted(x: seq<Member>, y: seq<Member>)
    requires |x| == |y| && DistinctNames(x) && DistinctNames(y)
    requires forall i | 0 <= i < |x| :: HasPartner(x[i], y)
    ensures Sort(NormalizeMembers(x)) == Sort(NormalizeMembers(y))
  {
    var p, q := NormalizeMembers(x), NormalizeMembers(y);
    forall m | m in p ensures m in q {
      var i :| 0 <= i < |p| && p[i] == m;
      assert HasPartner(x[i], y);
      var j :| 0 <= j < |y| && y[j].name == x[i].name && Normalize(y[j].value) == Normalize(x[i].value);
      assert q[j] == m;
    }
    SameMembers(p, q);
    SortSorts(p);
    SortSorts(q);
    SortedIsUnique(Sort(p), Sort(q));
  }

  function Names(members: seq<Member>): set<string> {
    set i | 0 <= i < |members| :: members[i].name
  }

  lemma {:induction false} CountNames(members: seq<Member>)
    requires DistinctNames(members)
    ensures |Names(members)| == |members|
  {
    if members != [] {
      var last := |members| - 1;
      CountNames(members[..last]);
      assert Names(members) == Names(members[..last]) + {members[last].name};
    }
  }

  /** Lists of distinct names, equally long, one inside the other. */
  lemma SameMembers(p: seq<Member>, q: seq<Member>)
    requires |p| == |q| && DistinctNames(p) && DistinctNames(q) && forall m | m in p :: m in q
    ensures forall m :: m in p <==> m in q
  {
    CountNames(p);
    CountNames(q);
    forall n | n in Names(p) ensures n in Names(q) {
      var i :| 0 <= i < |p| && p[i].name == n;
      assert p[i] in q;
    }
    SubsetOfSameSize(Names(p), Names(q));
    forall m | m in q ensures m in p {
      assert m.name in Names(q);
      var i :| 0 <= i < |p| && p[i].name == m.name;
      assert p[i] in q;
    }
  }

  lemma SubsetOfSameSize(a: set<string>, b: set<string>)
    requires a <= b && |a| == |b|
    ensures a == b
  {
    if a != b {
      var x :| x in b && x !in a;
      assert |b - {x}| == |b| - 1;
      SubsetIsSmaller(a, b - {x});
    }
  }

  lemma {:induction false} SubsetIsSmaller(a: set<string>, b: set<string>)
    requires a <= b
    ensures |a| <= |b|
  {
    if a != {} {
      var x :| x in a;
      SubsetIsSmaller(a - {x}, b - {x});
    }
  }

  /** The canonical text compares documents up to the order of members and nothing else. */
  lemma CanonicalDecidesSameText(a: Json, b: Json)
    requires WellFormed(a) && WellFormed(b)
    ensures Canonical(a) == Canonical(b) <==> SameText(a, b)
  {
    if Canonical(a) == Canonical(b) {
      NormalizeKeepsForm(a);
      NormalizeKeepsForm(b);
      assert Print(Normalize(a)) + "" == Print(Normalize(b)) + "";
      PrintsApart(Normalize(a), Normalize(b), "", "");
      SameNormalIsSameText(a, b);
    }
    if SameText(a, b) {
      SameTextIsSameNormal(a, b);
    }
  }

  // ---------------------------------------------------------------- against JSON equality

  lemma {:induction false} SameTextIsEqual(a: Json, b: Json)
    requires SameText(a, b)
    ensures JsonEqual(a, b)
  {
    match (a, b) {
      case (Arr(x), Arr(y)) =>
        forall i | 0 <= i < |x| ensures JsonEqual(x[i], y[i]) {
          SameTextIsEqual(x[i], y[i]);
        }
      case (Obj(x), Obj(y)) =>
        forall m | m in x ensures exists n :: n in y && n.name == m.name && JsonEqual(m.value, n.value) {
          var n :| n in y && n.name == m.name && SameText(m.value, n.value);
          SameTextIsEqual(m.value, n.value);
        }
      case _ =>
    }
  }

  lemma PartsHoldFewer(v: Json)
    ensures v.Arr? ==> forall x | x in v.items :: NumbersIn(x) <= NumbersIn(v)
    ensures v.Obj? ==> forall m | m in v.members :: NumbersIn(m.value) <= NumbersIn(v)
  {
  }

  lemma {:induction false} EqualIsSameText(numbers: iset<Json>, a: Json, b: Json)
    requires OneSpelling(numbers) && NumbersIn(a) <= numbers && NumbersIn(b) <= numbers && JsonEqual(a, b)
    ensures SameText(a, b)
  {
    PartsHoldFewer(a);
    PartsHoldFewer(b);
    match (a, b) {
      case (Arr(x), Arr(y)) =>
        forall i | 0 <= i < |x| ensures SameText(x[i], y[i]) {
          assert x[i] in x && y[i] in y;
          EqualIsSameText(numbers, x[i], y[i]);
        }
      case (Obj(x), Obj(y)) =>
        forall m | m in x ensures exists n :: n in y && n.name == m.name && SameText(m.value, n.value) {
          var n :| n in y && n.name == m.name && JsonEqual(m.value, n.value);
          EqualIsSameText(numbers, m.value, n.value);
        }
      case _ =>
    }
  }

  /** The canonical text decides JSON equality of the documents whose numbers are among `numbers`. */
  ghost predicate DecidesEquality(numbers: iset<Json>) {
    forall a, b | WellFormed(a) && WellFormed(b) && NumbersIn(a) <= numbers && NumbersIn(b) <= numbers ::
      Canonical(a) == Canonical(b) <==> JsonEqual(a, b)
  }

  /** It does exactly when none of these numbers is written in two ways. */
  lemma CanonicalDecidesEquality(numbers: iset<Json>)
    requires forall n | n in numbers :: IsNumber(n) && WellFormed(n)
    ensures DecidesEquality(numbers) <==> OneSpelling(numbers)
  {
    hide WellFormed, Canonical, JsonEqual, NumbersIn, FloatValue;
    if OneSpelling(numbers) {
      forall a, b | WellFormed(a) && WellFormed(b) && NumbersIn(a) <= numbers && NumbersIn(b) <= numbers
        ensures Canonical(a) == Canonical(b) <==> JsonEqual(a, b)
      {
        SpelledOnce(numbers, a, b);
      }
    }
    if DecidesEquality(numbers) {
      forall a, b | a in numbers && b in numbers && NumberValue(a) == NumberValue(b) ensures a == b {
        OneTextOneNumber(numbers, a, b);
      }
    }
  }

  lemma SpelledOnce(numbers: iset<Json>, a: Json, b: Json)
    requires WellFormed(a) && WellFormed(b) && OneSpelling(numbers) && NumbersIn(a) <= numbers && NumbersIn(b) <= numbers
    ensures Canonical(a) == Canonical(b) <==> JsonEqual(a, b)
  {
    hide WellFormed, OneSpelling, NumbersIn;
    CanonicalDecidesSameText(a, b);
    if SameText(a, b) {
      SameTextIsEqual(a, b);
    } else if JsonEqual(a, b) {
      EqualIsSameText(numbers, a, b);
    }
  }

  lemma OneTextOneNumber(numbers: iset<Json>, a: Json, b: Json)
    requires DecidesEquality(numbers) && a in numbers && b in numbers
    requires IsNumber(a) && IsNumber(b) && WellFormed(a) && WellFormed(b) && NumberValue(a) == NumberValue(b)
    ensures a == b
  {
    hide Canonical, FloatValue, WellFormed;
    assert NumbersIn(a) <= numbers && NumbersIn(b) <= numbers;
    assert JsonEqual(a, b);
    assert Canonical(a) == Canonical(b);
    CanonicalDecidesSameText(a, b);
  }

  /** Equal texts always mean equal documents; only floats can be equal and print apart. */
  lemma EqualTextIsEqual(a: Json, b: Json)
    requires WellFormed(a) && WellFormed(b) && Canonical(a) == Canonical(b)
    ensures JsonEqual(a, b)
  {
    CanonicalDecidesSameText(a, b);
    SameTextIsEqual(a, b);
  }

  lemma OnePointZeroIsCut()
    ensures Cut("1.0", 'e') == ("1.0", "") && Cut("1.0", '.') == ("1", "0")
  {
    var x := "1.0";
    assert x[0] == '1' && x[1..] == ".0" && ".0"[1..] == "0";
    assert Cut(".0", '.') == ("", "0");
    assert ['1'] + "" == "1";
  }

  lemma TenIsRead()
    ensures DigitsValue("1" + "0") == 10 && IntValue("") == 0
  {
    var d := "1" + "0";
    assert d[..1] == "1" && d[..1][..0] == "";
    assert DigitsValue("1") == 1;
  }

  lemma OnePointZeroIsOne()
    ensures FloatValue("1.0") == 1.0
  {
    hide Cut, DigitsValue, IntValue, ToDouble;
    OnePointZeroIsCut();
    TenIsRead();
    assert "1.0"[0] == '1';
    assert Power10(0) == 1.0;
    assert Power10(1) == 10.0 * Power10(0);
    OneIsADouble();
  }

  lemma OnesPrintApart()
    ensures Canonical(Int(1)) != Canonical(Float("1.0"))
  {
    assert PrintInt(1) == "1";
    assert |Canonical(Int(1))| == 1 && |Canonical(Float("1.0"))| == 3;
  }

  /** The integer one and the float one are one number and two texts. */
  lemma OneIsNotOnePointZero()
    ensures WellFormed(Int(1)) && WellFormed(Float("1.0"))
    ensures JsonEqual(Int(1), Float("1.0")) && Canonical(Int(1)) != Canonical(Float("1.0"))
  {
    hide FloatValue, Canonical;
    OnePointZeroIsOne();
    OnesPrintApart();
    assert "1.0"[1] == '.';
  }
}
