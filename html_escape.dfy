/**
 * The escaper used for imported code: three global replacements, `&` first,
 * then `<`, then `>`. Quotes are left alone.
 */
module HtmlEscape {

  const Amp: string := "&amp;"
  const Lt: string := "&lt;"
  const Gt: string := "&gt;"

  /** `s.replace(/c/g, rep)`: every occurrence of `c`, left to right, becomes `rep`. */
  function ReplaceAll(s: string, c: char, rep: string): (r: string)
    ensures c !in rep ==> c !in r
  {
    if s == [] then [] else (if s[0] == c then rep else [s[0]]) + ReplaceAll(s[1..], c, rep)
  }

  /** `escapeHtml(str)`: the chain of replacements in the order the page applies them. */
  function EscapeHtml(s: string): (r: string)
    ensures '<' !in r && '>' !in r
  {
    ReplaceAllKeepsAbsent(ReplaceAll(ReplaceAll(s, '&', Amp), '<', Lt), '>', Gt, '<');
    ReplaceAll(ReplaceAll(ReplaceAll(s, '&', Amp), '<', Lt), '>', Gt)
  }

  /** One character's encoding: the named reference for `&`, `<`, `>`, the character itself otherwise. */
  function EscapeChar(c: char): (r: string)
    ensures |r| >= 1 && (r[0] == '&' <==> c in "&<>")
  {
    if c == '&' then Amp else if c == '<' then Lt else if c == '>' then Gt else [c]
  }

  /** Reference definition: each character encoded on its own. */
  function EscapeEach(s: string): string
  {
    if s == [] then [] else EscapeChar(s[0]) + EscapeEach(s[1..])
  }

  /** The decoder: the three references back to their characters, everything else unchanged. */
  function Unescape(s: string): string
    decreases |s|
  {
    if |s| >= 5 && s[..5] == Amp then "&" + Unescape(s[5..])
    else if |s| >= 4 && s[..4] == Lt then "<" + Unescape(s[4..])
    else if |s| >= 4 && s[..4] == Gt then ">" + Unescape(s[4..])
    else if s == [] then []
    else [s[0]] + Unescape(s[1..])
  }

  /** `t` begins with one of the three references the escaper emits. */
  predicate StartsReference(t: string) {
    Amp <= t || Lt <= t || Gt <= t
  }

  lemma {:induction false} ReplaceAllAppend(a: string, b: string, c: char, rep: string)
    ensures ReplaceAll(a + b, c, rep) == ReplaceAll(a, c, rep) + ReplaceAll(b, c, rep)
  {
    if a != [] {
      assert (a + b)[1..] == a[1..] + b;
      ReplaceAllAppend(a[1..], b, c, rep);
    } else {
      assert a + b == b;
    }
  }

  /** A character absent from the input and from the replacement is absent from the result. */
  lemma {:induction false} ReplaceAllKeepsAbsent(s: string, c: char, rep: string, x: char)
    requires x !in s && x !in rep
    ensures x !in ReplaceAll(s, c, rep)
  {
    if s != [] {
      ReplaceAllKeepsAbsent(s[1..], c, rep, x);
    }
  }

  lemma {:induction false} ReplaceAllAbsent(s: string, c: char, rep: string)
    requires c !in s
    ensures ReplaceAll(s, c, rep) == s
  {
    if s != [] {
      ReplaceAllAbsent(s[1..], c, rep);
    }
  }

  lemma EscapeHtmlAppend(a: string, b: string)
    ensures EscapeHtml(a + b) == EscapeHtml(a) + EscapeHtml(b)
  {
    ReplaceAllAppend(a, b, '&', Amp);
    var a1, b1 := ReplaceAll(a, '&', Amp), ReplaceAll(b, '&', Amp);
    ReplaceAllAppend(a1, b1, '<', Lt);
    ReplaceAllAppend(ReplaceAll(a1, '<', Lt), ReplaceAll(b1, '<', Lt), '>', Gt);
  }

  lemma ReplaceAllOneChar(x: char, c: char, rep: string)
    ensures ReplaceAll([x], c, rep) == if x == c then rep else [x]
  {
    assert [x][1..] == [];
  }

  lemma EscapeHtmlOneChar(x: char)
    ensures EscapeHtml([x]) == EscapeChar(x)
  {
    ReplaceAllOneChar(x, '&', Amp);
    if x == '&' {
      ReplaceAllAbsent(Amp, '<', Lt);
      ReplaceAllAbsent(Amp, '>', Gt);
    } else if x == '<' {
      ReplaceAllOneChar(x, '<', Lt);
      ReplaceAllAbsent(Lt, '>', Gt);
    } else {
      ReplaceAllOneChar(x, '<', Lt);
      ReplaceAllOneChar(x, '>', Gt);
    }
  }

  /** The three passes, `&` first, encode every character exactly once: nothing is escaped twice. */
  lemma {:induction false} EscapeHtmlIsPerCharacter(s: string)
    ensures EscapeHtml(s) == EscapeEach(s)
  {
    if s == [] {
    } else {
      assert s == [s[0]] + s[1..];
      EscapeHtmlAppend([s[0]], s[1..]);
      EscapeHtmlOneChar(s[0]);
      EscapeHtmlIsPerCharacter(s[1..]);
    }
  }

  lemma UnescapeReference(ref: string, c: char, e: string)
    requires (ref, c) in {(Amp, '&'), (Lt, '<'), (Gt, '>')}
    ensures Unescape(ref + e) == [c] + Unescape(e)
  {
    var s := ref + e;
    assert s[..|ref|] == ref && s[|ref|..] == e;
    if ref != Amp {
      assert |s| >= 5 ==> s[..5][1] == ref[1] != Amp[1];
    }
    if ref == Gt {
      assert s[..4][1] != Lt[1];
    }
  }

  lemma UnescapePlain(x: char, e: string)
    requires x !in "&<>"
    ensures Unescape([x] + e) == [x] + Unescape(e)
  {
    var s := [x] + e;
    assert s[0] == x && s[1..] == e;
    assert |s| >= 4 ==> s[..4][0] == x && s[..4] != Lt && s[..4] != Gt;
    assert |s| >= 5 ==> s[..5][0] == x && s[..5] != Amp;
  }

  /** The decoder reads one encoded character off the front and resumes right after it. */
  lemma UnescapeEscapeChar(x: char, e: string)
    ensures Unescape(EscapeChar(x) + e) == [x] + Unescape(e)
  {
    if x == '&' {
      UnescapeReference(Amp, x, e);
    } else if x == '<' {
      UnescapeReference(Lt, x, e);
    } else if x == '>' {
      UnescapeReference(Gt, x, e);
    } else {
      UnescapePlain(x, e);
    }
  }

  lemma {:induction false} UnescapeEscapeEach(s: string)
    ensures Unescape(EscapeEach(s)) == s
  {
    if s != [] {
      UnescapeEscapeEach(s[1..]);
      UnescapeEscapeChar(s[0], EscapeEach(s[1..]));
      assert s == [s[0]] + s[1..];
    }
  }

  /** Decoding the escaped text gives back the original. */
  lemma UnescapeEscapeHtml(s: string)
    ensures Unescape(EscapeHtml(s)) == s
  {
    EscapeHtmlIsPerCharacter(s);
    UnescapeEscapeEach(s);
  }

  /** Different inputs never escape to the same text. */
  lemma EscapeHtmlInjective(a: string, b: string)
    requires EscapeHtml(a) == EscapeHtml(b)
    ensures a == b
  {
    UnescapeEscapeHtml(a);
    UnescapeEscapeHtml(b);
  }

  lemma {:induction false} EscapeEachIsSafe(s: string)
    ensures var r := EscapeEach(s);
      '<' !in r && '>' !in r
      && forall i :: 0 <= i < |r| && r[i] == '&' ==> StartsReference(r[i..])
  {
    if s != [] {
      var p, e := EscapeChar(s[0]), EscapeEach(s[1..]);
      EscapeEachIsSafe(s[1..]);
      forall i | 0 <= i < |p + e| && (p + e)[i] == '&'
        ensures StartsReference((p + e)[i..])
      {
        if i < |p| {
          assert i == 0 && p in {Amp, Lt, Gt};
          assert p <= (p + e);
        } else {
          assert (p + e)[i..] == e[i - |p|..];
        }
      }
    }
  }

  /**
   * The escaped text holds no `<` or `>`, and every `&` in it opens one of
   * `&amp;`, `&lt;`, `&gt;`: the text cannot open a tag or a foreign reference.
   */
  lemma EscapeHtmlIsSafe(s: string)
    ensures var r := EscapeHtml(s);
      '<' !in r && '>' !in r
      && forall i :: 0 <= i < |r| && r[i] == '&' ==> StartsReference(r[i..])
  {
    EscapeHtmlIsPerCharacter(s);
    EscapeEachIsSafe(s);
  }

  /** Text with none of `&`, `<`, `>` (quotes included) passes through unchanged. */
  lemma EscapeHtmlKeepsPlainText(s: string)
    requires '&' !in s && '<' !in s && '>' !in s
    ensures EscapeHtml(s) == s
  {
    ReplaceAllAbsent(s, '&', Amp);
    ReplaceAllAbsent(s, '<', Lt);
    ReplaceAllAbsent(s, '>', Gt);
  }

  /** Each character grows by at most four: `&` becomes five characters. */
  lemma {:induction false} EscapeHtmlLength(s: string)
    ensures |s| <= |EscapeHtml(s)| <= 5 * |s|
  {
    EscapeHtmlIsPerCharacter(s);
    EscapeEachLength(s);
  }

  lemma {:induction false} EscapeEachLength(s: string)
    ensures |s| <= |EscapeEach(s)| <= 5 * |s|
  {
    if s != [] {
      EscapeEachLength(s[1..]);
    }
  }

  lemma {:induction false} EscapeEachAppend(a: string, b: string)
    ensures EscapeEach(a + b) == EscapeEach(a) + EscapeEach(b)
  {
    if a == [] {
      assert a + b == b;
    } else {
      assert (a + b)[1..] == a[1..] + b;
      EscapeEachAppend(a[1..], b);
    }
  }

  lemma {:induction false} EscapeEachKeepsPlainText(s: string)
    requires '&' !in s && '<' !in s && '>' !in s
    ensures EscapeEach(s) == s
  {
    if s != [] {
      EscapeEachKeepsPlainText(s[1..]);
    }
  }

  /** The start tag `<n>` of an element named `n`. */
  function StartTag(n: string): string { ['<'] + n + ['>'] }

  /** The end tag `</n>` of an element named `n`. */
  function EndTag(n: string): string { ['<'] + (['/'] + n) + ['>'] }

  lemma EscapeEachTag(n: string)
    requires '&' !in n && '<' !in n && '>' !in n
    ensures EscapeEach(StartTag(n)) == Lt + n + Gt
  {
    EscapeEachKeepsPlainText(n);
    EscapeEachAppend(['<'] + n, ['>']);
    EscapeEachAppend(['<'], n);
    assert EscapeEach(['>']) == Gt;
    assert EscapeEach(['<']) == Lt;
  }

  /** An element `<n>t</n>` around plain text: only its two tags are rewritten, to visible text. */
  lemma EscapeHtmlElement(n: string, t: string)
    requires '&' !in n && '<' !in n && '>' !in n
    requires '&' !in t && '<' !in t && '>' !in t
    ensures EscapeHtml(StartTag(n) + t + EndTag(n)) == Lt + n + Gt + t + Lt + (['/'] + n) + Gt
  {
    EscapeHtmlIsPerCharacter(StartTag(n) + t + EndTag(n));
    EscapeEachTag(n);
    EscapeEachTag(['/'] + n);
    assert StartTag(['/'] + n) == EndTag(n);
    EscapeEachKeepsPlainText(t);
    EscapeEachAppend(StartTag(n), t);
    EscapeEachAppend(StartTag(n) + t, EndTag(n));
  }

  lemma BoldMarkup()
    ensures StartTag("b") + "hi" + EndTag("b") == "<b>hi</b>"
  {
  }

  lemma BoldEscaped()
    ensures Lt + "b" + Gt + "hi" + Lt + (['/'] + "b") + Gt == "&lt;b&gt;hi&lt;/b&gt;"
  {
  }

  /** The worked example: a bold tag is rendered as visible text. */
  lemma EscapeHtmlBoldExample(s: string)
    requires s == "<b>hi</b>"
    ensures EscapeHtml(s) == "&lt;b&gt;hi&lt;/b&gt;"
  {
    BoldMarkup();
    BoldEscaped();
    EscapeHtmlElement("b", "hi");
  }
}
