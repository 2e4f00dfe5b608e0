/** Escaping of the account name and password in the generated answer file: five
    replacements run one after the other, each over the result of the one before. */
module XmlEscape {
  import opened Wrappers

  /** strings.ReplaceAll for a pattern of one character. */
  function ReplaceAll(s: string, c: char, with: string): string {
    if s == "" then "" else (if s[0] == c then with else [s[0]]) + ReplaceAll(s[1..], c, with)
  }

  function Escape(s: string): string {
    var s := ReplaceAll(s, '&', "&amp;");
    var s := ReplaceAll(s, '<', "&lt;");
    var s := ReplaceAll(s, '>', "&gt;");
    var s := ReplaceAll(s, '\"', "&quot;");
    ReplaceAll(s, '\'', "&apos;")
  }

  // ---- the one-pass reference ----

  function Image(c: char): string {
    if c == '&' then "&amp;"
    else if c == '<' then "&lt;"
    else if c == '>' then "&gt;"
    else if c == '\"' then "&quot;"
    else if c == '\'' then "&apos;"
    else [c]
  }

  function EscapeOnce(s: string): string {
    if s == "" then "" else Image(s[0]) + EscapeOnce(s[1..])
  }

  lemma {:induction false} ReplaceConcat(s: string, t: string, c: char, with: string)
    ensures ReplaceAll(s + t, c, with) == ReplaceAll(s, c, with) + ReplaceAll(t, c, with)
  {
    if s == "" {
      assert s + t == t;
    } else {
      ReplaceConcat(s[1..], t, c, with);
      var head := if s[0] == c then with else [s[0]];
      var a, b := ReplaceAll(s[1..], c, with), ReplaceAll(t, c, with);
      assert (s + t)[1..] == s[1..] + t && (s + t)[0] == s[0];
      assert ReplaceAll(s + t, c, with) == head + (a + b);
      assert head + (a + b) == (head + a) + b;
    }
  }

  lemma {:induction false} ReplaceAbsent(s: string, c: char, with: string)
    requires c !in s
    ensures ReplaceAll(s, c, with) == s
  {
    if s != "" {
      ReplaceAbsent(s[1..], c, with);
    }
  }

  lemma EscapeConcat(s: string, t: string)
    ensures Escape(s + t) == Escape(s) + Escape(t)
  {
    var s1, t1 := ReplaceAll(s, '&', "&amp;"), ReplaceAll(t, '&', "&amp;");
    ReplaceConcat(s, t, '&', "&amp;");
    var s2, t2 := ReplaceAll(s1, '<', "&lt;"), ReplaceAll(t1, '<', "&lt;");
    ReplaceConcat(s1, t1, '<', "&lt;");
    var s3, t3 := ReplaceAll(s2, '>', "&gt;"), ReplaceAll(t2, '>', "&gt;");
    ReplaceConcat(s2, t2, '>', "&gt;");
    var s4, t4 := ReplaceAll(s3, '\"', "&quot;"), ReplaceAll(t3, '\"', "&quot;");
    ReplaceConcat(s3, t3, '\"', "&quot;");
    ReplaceConcat(s4, t4, '\'', "&apos;");
  }

  lemma ReplaceOne(c: char, d: char, with: string)
    ensures ReplaceAll([c], d, with) == if c == d then with else [c]
  {
    assert [c][1..] == "" && ReplaceAll("", d, with) == "";
  }

  /** The passes in their order. */
  function Markup(k: nat): char
    requires k < 5
  {
    match k case 0 => '&' case 1 => '<' case 2 => '>' case 3 => '\"' case 4 => '\''
  }

  function Passes(s: string, k: nat): string
    requires k <= 5
    decreases 5 - k
  {
    if k == 5 then s else Passes(ReplaceAll(s, Markup(k), Image(Markup(k))), k + 1)
  }

  lemma EscapeIsPasses(s: string)
    ensures Escape(s) == Passes(s, 0)
  {
    var s1 := ReplaceAll(s, Markup(0), Image(Markup(0)));
    var s2 := ReplaceAll(s1, Markup(1), Image(Markup(1)));
    var s3 := ReplaceAll(s2, Markup(2), Image(Markup(2)));
    var s4 := ReplaceAll(s3, Markup(3), Image(Markup(3)));
    var s5 := ReplaceAll(s4, Markup(4), Image(Markup(4)));
    assert Passes(s, 0) == Passes(s1, 1) == Passes(s2, 2) == Passes(s3, 3) == Passes(s4, 4) == Passes(s5, 5);
  }

  /** No later pass touches what an earlier one put in: this is why "&" goes first. */
  lemma LaterMarkupAbsent(j: nat, k: nat)
    requires j < k < 5
    ensures Markup(k) !in Image(Markup(j))
  {
  }

  lemma {:induction false} Inert(s: string, k: nat)
    requires k <= 5 && forall i :: k <= i < 5 ==> Markup(i) !in s
    ensures Passes(s, k) == s
    decreases 5 - k
  {
    if k < 5 {
      ReplaceAbsent(s, Markup(k), Image(Markup(k)));
      Inert(s, k + 1);
    }
  }

  lemma {:induction false} PassesOne(c: char, k: nat)
    requires k <= 5 && forall i :: 0 <= i < k ==> c != Markup(i)
    ensures Passes([c], k) == Image(c)
    decreases 5 - k
  {
    if k < 5 {
      ReplaceOne(c, Markup(k), Image(Markup(k)));
      if c == Markup(k) {
        forall i | k < i < 5 ensures Markup(i) !in Image(c) {
          LaterMarkupAbsent(k, i);
        }
        Inert(Image(c), k + 1);
      } else {
        PassesOne(c, k + 1);
      }
    } else {
      assert c !in [Markup(0), Markup(1), Markup(2), Markup(3), Markup(4)];
    }
  }

  /** The five chained passes are one simultaneous replacement of characters. */
  lemma {:induction false} ChainIsOnePass(s: string)
    ensures Escape(s) == EscapeOnce(s)
  {
    if s != "" {
      ChainIsOnePass(s[1..]);
      EscapeConcat([s[0]], s[1..]);
      EscapeIsPasses([s[0]]);
      PassesOne(s[0], 0);
      assert s == [s[0]] + s[1..];
    }
  }

  // ---- decoding the predefined entities ----

  /** The predefined entity of section 4.6 of XML 1.0 that t starts with, if any. */
  function EntityAt(t: string): Option<char> {
    if "&amp;" <= t then Some('&')
    else if "&lt;" <= t then Some('<')
    else if "&gt;" <= t then Some('>')
    else if "&quot;" <= t then Some('\"')
    else if "&apos;" <= t then Some('\'')
    else None
  }

  function Decode(t: string): string
    decreases |t|
  {
    if t == "" then ""
    else if EntityAt(t).Some? then
      var c := EntityAt(t).value;
      [c] + Decode(t[|Image(c)|..])
    else [t[0]] + Decode(t[1..])
  }

  lemma ImageFirst(c: char, rest: string)
    ensures var t := Image(c) + rest;
            if c in "&<>\"'" then EntityAt(t) == Some(c) else EntityAt(t) == None && t[0] == c
  {
    var t := Image(c) + rest;
    assert Image(c) <= t;
    if c == '<' {
      assert t[1] == 'l';
    } else if c == '>' {
      assert t[1] == 'g';
    } else if c == '\"' {
      assert t[1] == 'q';
    } else if c == '\'' {
      assert t[1] == 'a' && t[2] == 'p';
    } else if c != '&' {
      assert t[0] == c;
    }
  }

  lemma EntityImage(t: string)
    ensures match EntityAt(t) case Some(c) => c in "&<>\"'" && Image(c) <= t case None => true
  {
  }

  /** Decoding what was escaped gives back the original, for every string. */
  lemma {:induction false} DecodeEscape(s: string)
    ensures Decode(Escape(s)) == s
  {
    ChainIsOnePass(s);
    if s != "" {
      DecodeEscape(s[1..]);
      ChainIsOnePass(s[1..]);
      var rest := EscapeOnce(s[1..]);
      ImageFirst(s[0], rest);
      assert (Image(s[0]) + rest)[|Image(s[0])|..] == rest;
    }
  }

  // ---- what escaped text looks like ----

  /** No markup character at all, and no ampersand but as the start of an entity. */
  predicate WellEscaped(t: string) {
    && '<' !in t && '>' !in t && '\"' !in t && '\'' !in t
    && forall i :: 0 <= i < |t| && t[i] == '&' ==> EntityAt(t[i..]).Some?
  }

  lemma ImageShape(c: char)
    ensures var image := Image(c);
            && image != ""
            && '<' !in image && '>' !in image && '\"' !in image && '\'' !in image
            && forall k :: 0 < k < |image| ==> image[k] != '&'
  {
  }

  lemma PrependImage(c: char, rest: string)
    requires WellEscaped(rest)
    ensures WellEscaped(Image(c) + rest)
  {
    var image := Image(c);
    var t := image + rest;
    ImageShape(c);
    ImageFirst(c, rest);
    forall i | 0 <= i < |t| && t[i] == '&'
      ensures EntityAt(t[i..]).Some?
    {
      if i == 0 {
        assert t[0..] == t;
      } else {
        assert i >= |image| && t[i..] == rest[i - |image|..];
      }
    }
  }

  lemma {:induction false} EscapedIsWellEscaped(s: string)
    ensures WellEscaped(Escape(s))
  {
    ChainIsOnePass(s);
    if s != "" {
      EscapedIsWellEscaped(s[1..]);
      ChainIsOnePass(s[1..]);
      PrependImage(s[0], EscapeOnce(s[1..]));
    }
  }

  lemma WellEscapedRest(t: string, n: nat)
    requires WellEscaped(t) && n <= |t|
    ensures WellEscaped(t[n..])
  {
    var rest := t[n..];
    forall i | 0 <= i < |rest| && rest[i] == '&'
      ensures EntityAt(rest[i..]).Some?
    {
      assert rest[i..] == t[n + i..];
    }
  }

  /** The character that well escaped text starts with, and its image at the front. */
  lemma FirstOf(t: string) returns (c: char)
    requires WellEscaped(t) && t != ""
    ensures c == if EntityAt(t).Some? then EntityAt(t).value else t[0]
    ensures Image(c) <= t && EntityAt(t).Some? == (c in "&<>\"'")
  {
    EntityImage(t);
    assert t[0..] == t;
    c := if EntityAt(t).Some? then EntityAt(t).value else t[0];
  }

  lemma {:induction false} EscapeDecode(t: string)
    requires WellEscaped(t)
    ensures Escape(Decode(t)) == t
    decreases |t|
  {
    ChainIsOnePass(Decode(t));
    if t != "" {
      var c := FirstOf(t);
      ImageShape(c);
      var rest := t[|Image(c)|..];
      WellEscapedRest(t, |Image(c)|);
      EscapeDecode(rest);
      ChainIsOnePass(Decode(rest));
      assert Decode(t) == [c] + Decode(rest);
      assert Decode(t)[1..] == Decode(rest);
      assert t == Image(c) + rest;
    }
  }

  /** The well escaped texts are exactly the results of escaping. */
  lemma EscapeImage(t: string)
    ensures WellEscaped(t) <==> exists s :: Escape(s) == t
  {
    if WellEscaped(t) {
      EscapeDecode(t);
    }
    if s :| Escape(s) == t {
      EscapedIsWellEscaped(s);
    }
  }

  /** The five images, and every other character as it is. */
  lemma FiveImages(c: char)
    ensures Escape([c]) ==
            if c == '&' then "&amp;" else if c == '<' then "&lt;" else if c == '>' then "&gt;"
            else if c == '\"' then "&quot;" else if c == '\'' then "&apos;" else [c]
  {
    ChainIsOnePass([c]);
    assert [c][1..] == "";
    assert EscapeOnce([c]) == Image(c) + EscapeOnce("");
  }
}
