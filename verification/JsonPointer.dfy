/** Local references: the fragment written for a path of member names, by section 4 of RFC 6901,
    resolves to the value at that path. */
module JsonPointer {
  import opened Options
  import opened JsonValues
  import opened JsonSchema
  import opened Text

  /** A member name as a reference token: `~` becomes `~0`, `/` becomes `~1`. */
  function Token(name: string): (t: string)
    ensures '/' !in t
  {
    if name == "" then ""
    else (if name[0] == '~' then "~0" else if name[0] == '/' then "~1" else [name[0]]) + Token(name[1..])
  }

  function Joined(names: seq<string>): string {
    if names == [] then "" else "/" + Token(names[0]) + Joined(names[1..])
  }

  /** The fragment identifier of the value under these names. */
  function PointerTo(names: seq<string>): string {
    "#" + Joined(names)
  }

  /** The value under these names, one object inside the other. */
  function ValueAt(v: Json, names: seq<string>): Option<Json> {
    if names == [] then Some(v)
    else if !v.Obj? then None
    else match Lookup(v.members, names[0])
         case None => None
         case Some(next) => ValueAt(next, names[1..])
  }

  /** The token after the first replacement: slashes are back, tildes are still `~0`. */
  function HalfToken(name: string): string {
    if name == "" then ""
    else (if name[0] == '~' then "~0" else [name[0]]) + HalfToken(name[1..])
  }

  lemma {:induction false} FirstReplacement(name: string)
    ensures ReplacePair(Token(name), '~', '1', '/') == HalfToken(name)
  {
    if name != "" {
      FirstReplacement(name[1..]);
      var rest := Token(name[1..]);
      if name[0] == '~' {
        assert ("~0" + rest)[1..] == "0" + rest && ("0" + rest)[1..] == rest;
        assert ['~'] + (['0'] + HalfToken(name[1..])) == HalfToken(name);
      } else if name[0] == '/' {
        assert ("~1" + rest)[2..] == rest;
      } else {
        assert ([name[0]] + rest)[1..] == rest;
      }
    }
  }

  lemma {:induction false} SecondReplacement(name: string)
    ensures ReplacePair(HalfToken(name), '~', '0', '~') == name
  {
    if name != "" {
      SecondReplacement(name[1..]);
      var rest := HalfToken(name[1..]);
      assert name == [name[0]] + name[1..];
      if name[0] == '~' {
        assert ("~0" + rest)[2..] == rest;
      } else {
        assert ([name[0]] + rest)[1..] == rest;
      }
    }
  }

  lemma TokenRoundTrip(name: string)
    ensures Unescape(Token(name)) == name
  {
    FirstReplacement(name);
    SecondReplacement(name);
  }

  function Tokens(names: seq<string>): seq<string> {
    if names == [] then [] else [Token(names[0])] + Tokens(names[1..])
  }

  /** The joined names without the first slash. */
  function Bare(names: seq<string>): (s: string)
    requires names != []
    ensures Joined(names) == "/" + s
  {
    assert "/" + Token(names[0]) + Joined(names[1..]) == "/" + (Token(names[0]) + Joined(names[1..]));
    Token(names[0]) + Joined(names[1..])
  }

  lemma {:induction false} SplitJoined(names: seq<string>)
    requires names != []
    ensures Split(Bare(names), '/') == Tokens(names)
  {
    hide Token, Split;
    var t := Token(names[0]);
    if |names| == 1 {
      assert Joined(names[1..]) == "" && Tokens(names[1..]) == [];
      assert Bare(names) == t;
      SplitAtFirst(t, "", '/');
    } else {
      SplitJoined(names[1..]);
      assert Bare(names) == t + ("/" + Bare(names[1..]));
      assert t + ("/" + Bare(names[1..])) == t + ['/'] + Bare(names[1..]);
      SplitAtFirst(t, Bare(names[1..]), '/');
    }
  }

  lemma {:induction false} DescendTokens(v: Json, names: seq<string>)
    ensures Descend(v, Tokens(names)) == ValueAt(v, names)
  {
    if names != [] {
      TokenRoundTrip(names[0]);
      if v.Obj? && Lookup(v.members, names[0]).Some? {
        DescendTokens(Lookup(v.members, names[0]).value, names[1..]);
      }
    }
  }

  /** Every value in the document that is reached through objects is found by the pointer written
      for it, and every pointer to nothing is refused. */
  lemma PointersResolve(root: Json, names: seq<string>)
    ensures Resolve(PointerTo(names), root) == ValueAt(root, names)
  {
    if names != [] {
      SplitJoined(names);
      var ref := PointerTo(names);
      assert ref == "#/" + Bare(names);
      assert ref[2..] == Bare(names);
      DescendTokens(root, names);
    } else {
      assert PointerTo(names) == "#";
    }
  }
}
