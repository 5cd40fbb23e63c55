/** Splitting a string at a separator, joining the parts again, and finding one string in another. */
module Text {

  /** What `str.strip` takes off. */
  predicate IsSpace(c: char) {
    || '\t' <= c <= '\r'
    || '\U{1c}' <= c <= ' '
    || c == '\U{85}' || c == '\U{a0}' || c == '\U{1680}'
    || '\U{2000}' <= c <= '\U{200a}'
    || c == '\U{2028}' || c == '\U{2029}' || c == '\U{202f}' || c == '\U{205f}' || c == '\U{3000}'
  }

  function RightStrip(line: string): (r: string)
    ensures r <= line
    ensures r != [] ==> !IsSpace(r[|r| - 1])
    ensures forall i | |r| <= i < |line| :: IsSpace(line[i])
  {
    if line != [] && IsSpace(line[|line| - 1]) then RightStrip(line[..|line| - 1]) else line
  }

  function LeftStrip(s: string): string {
    if s != "" && IsSpace(s[0]) then LeftStrip(s[1..]) else s
  }

  /** What is stripped in front is all the blank text there is. */
  lemma {:induction false} LeftStripIs(s: string)
    ensures var r := LeftStrip(s); var n := |s| - |r|;
      && 0 <= n <= |s| && r == s[n..] && (r != "" ==> !IsSpace(r[0])) && forall i | 0 <= i < n :: IsSpace(s[i])
  {
    hide IsSpace;
    if s != "" && IsSpace(s[0]) {
      LeftStripIs(s[1..]);
      var n := |s[1..]| - |LeftStrip(s[1..])|;
      assert forall i | 0 < i < n + 1 :: s[i] == s[1..][i - 1];
    }
  }

  /** The characters that count as space, by their code points. */
  lemma SpacesAre(c: char)
    ensures IsSpace(c) <==>
      || c as int in {9, 10, 11, 12, 13, 28, 29, 30, 31, 32, 133, 160, 5760, 8232, 8233, 8239, 8287, 12288}
      || c as int in {8192, 8193, 8194, 8195, 8196, 8197, 8198, 8199, 8200, 8201, 8202}
  {
  }

  predicate Blank(s: string) {
    forall c | c in s :: IsSpace(c)
  }

  function Split(s: string, c: char): (parts: seq<string>)
    ensures parts != []
  {
    if s == "" then [""]
    else
      var rest := Split(s[1..], c);
      if s[0] == c then [""] + rest else [[s[0]] + rest[0]] + rest[1..]
  }

  function Join(parts: seq<string>, c: char): string
    requires parts != []
  {
    if |parts| == 1 then parts[0] else parts[0] + [c] + Join(parts[1..], c)
  }

  /** The part in front of the first separator. */
  lemma {:induction false} SplitAtFirst(t: string, s: string, c: char)
    requires c !in t
    ensures Split(t, c) == [t]
    ensures Split(t + [c] + s, c) == [t] + Split(s, c)
  {
    var u := t + [c] + s;
    if t == "" {
      assert u[1..] == s;
    } else {
      SplitAtFirst(t[1..], s, c);
      assert u[1..] == t[1..] + [c] + s;
      assert t == [t[0]] + t[1..];
    }
  }

  lemma Peel<T>(a: seq<T>, b: seq<T>)
    requires a != []
    ensures a + b != [] && (a + b)[0] == a[0] && (a + b)[1..] == a[1..] + b
  {
  }

  lemma Regroup<T>(a: seq<T>, b: seq<T>, c: seq<T>)
    ensures a + (b + c) == a + b + c
  {
  }

  lemma {:induction false} SplitAtAny(a: string, b: string, c: char)
    ensures Split(a + [c] + b, c) == Split(a, c) + Split(b, c)
  {
    var whole := a + [c] + b;
    if a == "" {
      assert whole[1..] == b;
    } else {
      SplitAtAny(a[1..], b, c);
      var first, rest := Split(a[1..], c), Split(b, c);
      assert whole[0] == a[0] && whole[1..] == a[1..] + [c] + b;
      Peel(first, rest);
      Regroup([""], first, rest);
      Regroup([[a[0]] + first[0]], first[1..], rest);
    }
  }

  lemma {:induction false} PartsAreClean(s: string, c: char)
    ensures forall p | p in Split(s, c) :: c !in p && forall x | x in p :: x in s
  {
    if s != "" {
      PartsAreClean(s[1..], c);
      var rest := Split(s[1..], c);
      assert rest[0] in rest && forall x :: x in s <==> x == s[0] || x in s[1..];
      forall p | p in Split(s, c) ensures c !in p && forall x | x in p :: x in s {
        assert p == "" || p == [s[0]] + rest[0] || p in rest;
      }
    }
  }

  lemma {:induction false} JoinOfSplit(s: string, c: char)
    ensures Join(Split(s, c), c) == s
  {
    if s != "" {
      JoinOfSplit(s[1..], c);
      var rest := Split(s[1..], c);
      assert s == [s[0]] + s[1..];
      if s[0] == c {
        assert ([""] + rest)[1..] == rest;
        assert "" + [c] + Join(rest, c) == [c] + Join(rest, c);
      } else {
        JoinFirst([s[0]], rest, c);
      }
    }
  }

  lemma {:induction false} SplitOfJoin(parts: seq<string>, c: char)
    requires parts != [] && forall p | p in parts :: c !in p
    ensures Split(Join(parts, c), c) == parts
  {
    if |parts| == 1 {
      SplitAtFirst(parts[0], "", c);
    } else {
      SplitOfJoin(parts[1..], c);
      SplitAtFirst(parts[0], Join(parts[1..], c), c);
    }
  }

  lemma JoinFirst(x: string, parts: seq<string>, c: char)
    requires parts != []
    ensures Join([x + parts[0]] + parts[1..], c) == x + Join(parts, c)
  {
    var longer := [x + parts[0]] + parts[1..];
    assert longer[1..] == parts[1..];
    if |parts| > 1 {
      assert x + parts[0] + [c] + Join(parts[1..], c) == x + (parts[0] + [c] + Join(parts[1..], c));
    }
  }

  // ---------------------------------------------------------------- substrings

  predicate OccursAt(text: string, block: string, i: nat) {
    i + |block| <= |text| && text[i..i + |block|] == block
  }

  /** `block in text`. */
  predicate Contains(text: string, block: string) {
    exists i | 0 <= i <= |text| :: OccursAt(text, block, i)
  }

  lemma Pointwise(text: string, block: string, i: nat)
    ensures OccursAt(text, block, i) <==> i + |block| <= |text| && forall j | 0 <= j < |block| :: text[i + j] == block[j]
  {
    if i + |block| <= |text| {
      var piece := text[i..i + |block|];
      assert forall j | 0 <= j < |block| :: piece[j] == text[i + j];
    }
  }

  lemma OccursInside(text: string, block: string, part: string, i: nat, j: nat)
    requires OccursAt(text, block, i) && OccursAt(block, part, j)
    ensures OccursAt(text, part, i + j)
  {
    Pointwise(text, block, i);
    Pointwise(block, part, j);
    Pointwise(text, part, i + j);
    forall k | 0 <= k < |part| ensures text[i + j + k] == part[k] {
      assert text[i + (j + k)] == block[j + k];
    }
  }
}
