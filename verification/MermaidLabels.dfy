/** Labels of a Mermaid drawing: how they are escaped, and how the checker looks at them. */
module MermaidLabels {
  import opened Numerals
  import opened Options

  predicate DigitChar(c: char) { '0' <= c <= '9' }

  predicate Control(c: char) { c < ' ' || c == '\U{7f}' }

  function DigitRun(s: string): (n: nat)
    ensures n <= |s|
  {
    if s == "" || !DigitChar(s[0]) then 0 else 1 + DigitRun(s[1..])
  }

  /** The length of the decimal entity that these characters start with. */
  function EntityLength(s: string): (r: Option<nat>)
    ensures r.Some? ==> 3 <= r.value <= |s| && s[0] == '#'
  {
    if s != "" && s[0] == '#' then
      var n := DigitRun(s[1..]);
      if n > 0 && 1 + n < |s| && s[1 + n] == ';' then Some(n + 2) else None
    else None
  }

  datatype Fault = RawBracket | RawControl | RawHash

  /** What is wrong with the first of these characters. */
  function FaultAt(s: string): Option<Fault>
    requires s != ""
  {
    if s[0] == '<' || s[0] == '>' then Some(RawBracket)
    else if Control(s[0]) then Some(RawControl)
    else if s[0] == '#' && EntityLength(s).None? then Some(RawHash)
    else None
  }

  /** No raw angle bracket or control character, and `#` only where a decimal entity begins. */
  predicate LabelIsEscaped(text: string) {
    forall i | 0 <= i < |text| :: FaultAt(text[i..]).None?
  }

  /** The first fault of a label. */
  method LabelProblem(text: string) returns (fault: Option<Fault>)
    ensures fault.None? <==> LabelIsEscaped(text)
    ensures fault.Some? ==> exists i | 0 <= i < |text| :: FaultAt(text[i..]) == fault && LabelIsFineUpTo(text, i)
  {
    hide EntityLength;
    for i := 0 to |text|
      invariant LabelIsFineUpTo(text, i)
    {
      var c := text[i];
      assert text[i..][0] == c;
      if c == '<' || c == '>' {
        return Some(RawBracket);
      }
      if Control(c) {
        return Some(RawControl);
      }
      if c == '#' && EntityLength(text[i..]).None? {
        return Some(RawHash);
      }
    }
    fault := None;
  }

  predicate LabelIsFineUpTo(text: string, i: nat)
    requires i <= |text|
  {
    forall j | 0 <= j < i :: FaultAt(text[j..]).None?
  }

  // ---------------------------------------------------------------- escaping

  predicate NeedsEntity(c: char) {
    c == '#' || c == '"' || c == '<' || c == '>' || Control(c)
  }

  function EscapeChar(c: char): string {
    if NeedsEntity(c) then "#" + Decimal(c as nat) + ";" else [c]
  }

  function EscapeLabel(text: string): string {
    if text == "" then "" else EscapeChar(text[0]) + EscapeLabel(text[1..])
  }

  /** What a renderer shows for an escaped label: each decimal entity is the character it names. */
  function Shown(text: string): string {
    if text == "" then ""
    else match EntityLength(text)
         case None => [text[0]] + Shown(text[1..])
         case Some(n) =>
           var code := DigitsValue(text[1..n - 1]);
           (if code < 0xD800 then [code as char] else text[..n]) + Shown(text[n..])
  }

  lemma {:induction false} DigitRunIs(digits: string, rest: string)
    requires (forall c | c in digits :: DigitChar(c)) && rest != "" && !DigitChar(rest[0])
    ensures DigitRun(digits + rest) == |digits|
  {
    if digits == "" {
      assert digits + rest == rest;
    } else {
      assert (digits + rest)[1..] == digits[1..] + rest;
      assert digits[0] in digits;
      DigitRunIs(digits[1..], rest);
    }
  }

  lemma EntityIsRead(c: char, rest: string)
    requires NeedsEntity(c)
    ensures EntityLength(EscapeChar(c) + rest) == Some(|EscapeChar(c)|)
  {
    var digits := Decimal(c as nat);
    var s := EscapeChar(c) + rest;
    assert s[1..] == digits + (";" + rest);
    DigitRunIs(digits, ";" + rest);
    assert s[1 + |digits|] == (";" + rest)[0];
  }

  lemma EntityHasNoFault(c: char, rest: string, i: nat)
    requires i < |EscapeChar(c)|
    ensures FaultAt((EscapeChar(c) + rest)[i..]).None? && EscapeChar(c)[i] != '"'
  {
    hide EntityLength;
    var s := EscapeChar(c) + rest;
    if NeedsEntity(c) {
      EntityIsRead(c, rest);
      if i == 0 {
        assert s[0..] == s;
      } else if i <= |Decimal(c as nat)| {
        assert s[i] == Decimal(c as nat)[i - 1] && Decimal(c as nat)[i - 1] in Decimal(c as nat);
        assert s[i..][0] == s[i];
      } else {
        assert s[i..][0] == ';';
      }
    } else {
      assert s[0..] == s;
    }
  }

  /** Every escaped label is accepted, and can stand between double quotes. */
  lemma {:induction false} EscapedLabelsAreAccepted(text: string)
    ensures LabelIsEscaped(EscapeLabel(text)) && '"' !in EscapeLabel(text)
  {
    hide FaultAt, EscapeChar;
    if text != "" {
      EscapedLabelsAreAccepted(text[1..]);
      var first, rest := EscapeChar(text[0]), EscapeLabel(text[1..]);
      forall i | 0 <= i < |first + rest| ensures FaultAt((first + rest)[i..]).None? && (first + rest)[i] != '"' {
        if i < |first| {
          EntityHasNoFault(text[0], rest, i);
        } else {
          assert (first + rest)[i..] == rest[i - |first|..];
          assert (first + rest)[i] == rest[i - |first|];
        }
      }
    }
  }

  /** What is shown for an escaped label is the text it was made from, so different texts never share
      a label. */
  lemma {:induction false} EscapedLabelsShowTheText(text: string)
    ensures Shown(EscapeLabel(text)) == text
  {
    hide Shown;
    if text == "" {
      ShownNothing();
    } else {
      var c, rest := text[0], EscapeLabel(text[1..]);
      EscapedLabelsShowTheText(text[1..]);
      ShownChar(c, rest);
      assert text == [c] + text[1..];
    }
  }

  lemma ShownNothing()
    ensures Shown("") == ""
  {
  }

  lemma ShownChar(c: char, rest: string)
    ensures Shown(EscapeChar(c) + rest) == [c] + Shown(rest)
  {
    var s := EscapeChar(c) + rest;
    if NeedsEntity(c) {
      hide EntityLength;
      EntityIsRead(c, rest);
      var n := |EscapeChar(c)|;
      assert s[n..] == rest && s[1..n - 1] == Decimal(c as nat);
      DecimalParses(c as nat);
    } else {
      assert s[1..] == rest;
      assert EntityLength(s).None?;
    }
  }
}
