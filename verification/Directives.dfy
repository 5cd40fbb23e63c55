/** The hidden comments that mark a block of a page, `<!-- namespace:kind key=value -->`, and the
    attributes they carry. */
module Directives {
  import opened Options
  import opened Text

  datatype Tag = Tag(kind: string, attrs: string)

  /** What follows a prefix. */
  function After(prefix: string, s: string): Option<string> {
    if |prefix| <= |s| && s[..|prefix|] == prefix then Some(s[|prefix|..]) else None
  }

  /** How much of the front is made of these characters. */
  function Run(s: string, member: char -> bool): (n: nat)
    ensures n <= |s|
  {
    if s == "" || !member(s[0]) then 0 else 1 + Run(s[1..], member)
  }

  predicate Lower(c: char) { 'a' <= c <= 'z' }

  predicate Dashed(c: char) { Lower(c) || c == '-' }

  predicate NotClose(c: char) { c != '>' }

  predicate NotSpace(c: char) { !IsSpace(c) }

  /** The tag of a line, if it is a directive of this namespace: nothing between the namespace and
      the closing `-->` holds a `>`, so the first one ends the comment. */
  function TagOf(namespace: string, line: string): Option<Tag> {
    match After("<!--", line)
    case None => None
    case Some(rest) =>
      match After(namespace + ":", LeftStrip(rest))
      case None => None
      case Some(tail) =>
        var g := Run(tail, NotClose);
        if g < |tail| && g > 2 && tail[g - 2..g] == "--" && Blank(tail[g + 1..]) && Lower(tail[0]) then
          var body := tail[..g - 2];
          var k := Run(body, Dashed);
          Some(Tag(body[..k], LeftStrip(body[k..])))
        else None
  }

  // ---------------------------------------------------------------- attributes

  datatype Attr = Attr(key: string, value: string)

  /** A `key=value` that starts the string. */
  function AttrAt(s: string): (r: Option<Attr>)
    ensures r.Some? ==> |r.value.key| + 1 + |r.value.value| <= |s| && r.value.value != ""
  {
    if s == "" || !Lower(s[0]) then None
    else
      var k := Run(s, Dashed);
      if k < |s| && s[k] == '=' then
        var v := Run(s[k + 1..], NotSpace);
        if v > 0 then Some(Attr(s[..k], s[k + 1..k + 1 + v])) else None
      else None
  }

  /** The attributes found from left to right. */
  function AttrsIn(s: string): seq<Attr> {
    if s == "" then []
    else match AttrAt(s)
         case None => AttrsIn(s[1..])
         case Some(a) => [a] + AttrsIn(s[|a.key| + 1 + |a.value|..])
  }

  function Width(attrs: seq<Attr>): nat {
    if attrs == [] then 0 else |attrs[0].key| + 1 + |attrs[0].value| + Width(attrs[1..])
  }

  /** The length without blanks. */
  function Unspaced(s: string): nat {
    if s == "" then 0 else (if s[0] == ' ' then 0 else 1) + Unspaced(s[1..])
  }

  function AsMap(attrs: seq<Attr>): map<string, string> {
    if attrs == [] then map[]
    else
      var last := |attrs| - 1;
      AsMap(attrs[..last])[attrs[last].key := attrs[last].value]
  }

  /** The attributes, unless something in there is none. */
  function ParseAttrs(s: string): Option<map<string, string>> {
    if Width(AttrsIn(s)) == Unspaced(s) then Some(AsMap(AttrsIn(s))) else None
  }

  // ---------------------------------------------------------------- identifiers

  predicate Slug(c: char) { Lower(c) || '0' <= c <= '9' || c == '-' }

  predicate IsId(id: string) {
    id != "" && id[0] != '-' && forall c | c in id :: Slug(c)
  }

  /** The one attribute that an example's directive takes. */
  function IdOf(tag: Tag): Option<string> {
    match ParseAttrs(tag.attrs)
    case None => None
    case Some(m) => if m.Keys == {"id"} && IsId(m["id"]) then Some(m["id"]) else None
  }

  // ---------------------------------------------------------------- reading what is written

  function WriteTag(namespace: string, kind: string, id: string): string {
    "<!-- " + namespace + ":" + kind + " id=" + id + " -->"
  }

  lemma AfterPrefix(prefix: string, s: string)
    ensures After(prefix, prefix + s) == Some(s)
  {
    assert (prefix + s)[..|prefix|] == prefix && (prefix + s)[|prefix|..] == s;
  }

  lemma {:induction false} RunIs(a: string, b: string, member: char -> bool)
    requires forall c | c in a :: member(c)
    requires b == "" || !member(b[0])
    ensures Run(a + b, member) == |a|
  {
    if a == "" {
      assert a + b == b;
    } else {
      assert a[0] in a && (a + b)[1..] == a[1..] + b;
      RunIs(a[1..], b, member);
    }
  }

  /** What is written is read back. */
  lemma WrittenTagIsRead(namespace: string, kind: string, id: string)
    requires kind != "" && (forall c | c in kind :: Lower(c)) && IsId(id)
    requires namespace != "" && !IsSpace(namespace[0])
    ensures TagOf(namespace, WriteTag(namespace, kind, id)) == Some(Tag(kind, "id=" + id + " "))
  {
    hide Run, LeftStrip, After, Blank;
    var line := WriteTag(namespace, kind, id);
    var body := kind + " id=" + id + " ";
    var tail := body + "-->";
    var rest := " " + namespace + ":" + tail;
    assert line == "<!--" + rest;
    AfterPrefix("<!--", rest);
    assert rest == " " + (namespace + ":" + tail);
    StripOne(namespace + ":" + tail);
    assert LeftStrip(rest) == (namespace + ":") + tail;
    AfterPrefix(namespace + ":", tail);
    TailOf(kind, id);
  }

  lemma StripOne(s: string)
    requires s != "" && !IsSpace(s[0])
    ensures LeftStrip(" " + s) == s && LeftStrip(s) == s
  {
    assert (" " + s)[1..] == s;
  }

  lemma TailOf(kind: string, id: string)
    requires kind != "" && (forall c | c in kind :: Lower(c)) && IsId(id)
    ensures var body := kind + " id=" + id + " "; var tail := body + "-->"; var g := Run(tail, NotClose);
      && g < |tail| && g > 2 && tail[g - 2..g] == "--" && Blank(tail[g + 1..]) && Lower(tail[0])
      && tail[..g - 2] == body && Run(body, Dashed) == |kind| && body[..|kind|] == kind
      && LeftStrip(body[|kind|..]) == "id=" + id + " "
  {
    hide Run, LeftStrip;
    var attrs := "id=" + id + " ";
    var body := kind + " id=" + id + " ";
    var tail := body + "-->";
    assert tail == (body + "--") + ">";
    RunIs(body + "--", ">", NotClose);
    assert body == kind + (" " + attrs);
    RunIs(kind, " " + attrs, Dashed);
    StripOne(attrs);
  }

  lemma WrittenAttr(id: string)
    requires IsId(id)
    ensures AttrAt("id=" + id + " ") == Some(Attr("id", id))
  {
    hide Run;
    var s := "id=" + id + " ";
    assert s == "id" + ("=" + id + " ");
    RunIs("id", "=" + id + " ", Dashed);
    assert s[3..] == id + " ";
    RunIs(id, " ", NotSpace);
  }

  lemma WrittenAttrs(id: string)
    requires IsId(id)
    ensures AttrsIn("id=" + id + " ") == [Attr("id", id)]
  {
    hide AttrAt, IsId;
    var s := "id=" + id + " ";
    WrittenAttr(id);
    assert s[3 + |id|..] == " ";
    NoAttrs();
  }

  lemma NoAttrs()
    ensures AttrsIn(" ") == []
  {
    assert " "[1..] == "";
  }

  lemma WrittenIdIsRead(kind: string, id: string)
    requires IsId(id)
    ensures IdOf(Tag(kind, "id=" + id + " ")) == Some(id)
  {
    hide AttrsIn, AsMap, Unspaced, IsSpace;
    WrittenAttrs(id);
    assert ' ' !in "id=" + id;
    UnspacedWord("id=" + id);
    assert Width([Attr("id", id)]) == 3 + |id|;
    OneAttr("id", id);
  }

  lemma OneAttr(key: string, value: string)
    ensures AsMap([Attr(key, value)]) == map[key := value]
  {
    assert AsMap([Attr(key, value)][..0]) == map[];
  }

  lemma {:induction false} UnspacedWord(s: string)
    requires ' ' !in s
    ensures Unspaced(s + " ") == |s|
  {
    if s == "" {
      assert s + " " == " ";
    } else {
      assert (s + " ")[1..] == s[1..] + " ";
      UnspacedWord(s[1..]);
    }
  }

  /** No line is a directive of two namespaces of which neither starts, with its colon, the other. */
  lemma NamespacesAreDisjoint(a: string, b: string, line: string)
    requires TagOf(a, line).Some? && TagOf(b, line).Some?
    ensures a == b || ':' in a || ':' in b
  {
    var s := LeftStrip(After("<!--", line).value);
    if |a| < |b| {
      assert s[|a|] == ':' && s[..|b|] == b;
      assert b[|a|] == s[|a|];
    } else if |b| < |a| {
      assert s[|b|] == ':' && s[..|a|] == a;
      assert a[|b|] == s[|b|];
    } else {
      assert a == s[..|a|] && b == s[..|b|];
    }
  }
}
