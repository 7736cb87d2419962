/**
 * The contact route's `escapeHtml`: three global `String.replace` calls that turn `&`,
 * `<` and `>` into the entities `&amp;`, `&lt;` and `&gt;`, in that order. Also the
 * message markup, which escapes the message and then writes each newline as `<br/>`.
 */
module HtmlEscape {
  import opened Wrappers

  /**
   * `t.replace(new RegExp(pat, 'g'), rep)` for a literal, non-empty pattern: the text is
   * scanned from the left and every match that starts where the previous one ended is
   * replaced; the replacement text is not scanned again.
   */
  function ReplaceAll(t: string, pat: string, rep: string): (r: string)
    requires |pat| > 0
    ensures forall x :: x in r ==> x in rep || x in t
    decreases |t|
  {
    if |t| == 0 then []
    else if pat <= t then rep + ReplaceAll(t[|pat|..], pat, rep)
    else [t[0]] + ReplaceAll(t[1..], pat, rep)
  }

  /** How often `c` occurs in `s`. */
  function Count(s: string, c: char): (n: nat)
    ensures n == 0 <==> c !in s
    ensures n <= |s|
  {
    if s == [] then 0 else (if s[0] == c then 1 else 0) + Count(s[1..], c)
  }

  /** `escapeHtml`: `&` first, so that the `&` of the other two entities is not escaped again. */
  function EscapeHtml(s: string): (r: string)
    ensures '<' !in r && '>' !in r
  {
    var noLt := ReplaceAll(ReplaceAll(s, "&", "&amp;"), "<", "&lt;");
    ReplaceCharRemoves(ReplaceAll(s, "&", "&amp;"), '<', "&lt;");
    ReplaceCharRemoves(noLt, '>', "&gt;");
    ReplaceAll(noLt, ">", "&gt;")
  }

  /** The default parameter `str = ''`: an absent argument escapes to the empty string. */
  function EscapeHtmlArg(str: Option<string>): (r: string)
    ensures str == None ==> r == ""
    ensures str.Some? ==> r == EscapeHtml(str.value)
  {
    EscapeHtml(str.GetOr(""))
  }

  /** The entity one character escapes to; every other character stands for itself. */
  function Entity(c: char): string {
    if c == '&' then "&amp;" else if c == '<' then "&lt;" else if c == '>' then "&gt;" else [c]
  }

  /** A reference escaper that works one character at a time. */
  function EscapeChars(s: string): string {
    if s == [] then [] else Entity(s[0]) + EscapeChars(s[1..])
  }

  /** The three escapable characters. */
  predicate Special(c: char) {
    c == '&' || c == '<' || c == '>'
  }

  /** The text begins with one of the three entities `escapeHtml` writes. */
  predicate StartsEntity(u: string) {
    "&amp;" <= u || "&lt;" <= u || "&gt;" <= u
  }

  /** The message markup: `escapeHtml(message).replace(/\n/g, '<br/>')`. */
  function MessageHtml(message: string): string {
    ReplaceAll(EscapeHtml(message), "\n", "<br/>")
  }

  // ---------------------------------------------------------------------------
  // Replacing a single character

  /** A one-character pattern matches exactly where that character is. */
  lemma ReplaceCharCons(c: char, rep: string, x: char, t: string)
    ensures ReplaceAll([x] + t, [c], rep) == (if x == c then rep else [x]) + ReplaceAll(t, [c], rep)
  {
    var w := [x] + t;
    assert w[1..] == t && w[..1] == [x];
    if x == c {
      assert [c] <= w;
      assert ReplaceAll(w, [c], rep) == rep + ReplaceAll(w[|[c]|..], [c], rep);
    } else {
      assert w[0] == x;
      assert ReplaceAll(w, [c], rep) == [w[0]] + ReplaceAll(w[1..], [c], rep);
    }
  }

  /** Replacing a single character distributes over concatenation. */
  lemma {:induction false} ReplaceCharAppend(a: string, b: string, c: char, rep: string)
    ensures ReplaceAll(a + b, [c], rep) == ReplaceAll(a, [c], rep) + ReplaceAll(b, [c], rep)
    decreases |a|
  {
    if a == [] {
      assert a + b == b;
    } else {
      assert a + b == [a[0]] + (a[1..] + b);
      assert a == [a[0]] + a[1..];
      ReplaceCharCons(c, rep, a[0], a[1..] + b);
      ReplaceCharCons(c, rep, a[0], a[1..]);
      ReplaceCharAppend(a[1..], b, c, rep);
    }
  }

  /** A text without the character is left as it is. */
  lemma {:induction false} ReplaceCharAbsent(t: string, c: char, rep: string)
    requires c !in t
    ensures ReplaceAll(t, [c], rep) == t
    decreases |t|
  {
    if t != [] {
      assert t == [t[0]] + t[1..];
      ReplaceCharCons(c, rep, t[0], t[1..]);
      ReplaceCharAbsent(t[1..], c, rep);
    }
  }

  /** After replacing `c` by a text without `c`, no `c` is left. */
  lemma {:induction false} ReplaceCharRemoves(t: string, c: char, rep: string)
    requires c !in rep
    ensures c !in ReplaceAll(t, [c], rep)
    decreases |t|
  {
    if t != [] {
      assert t == [t[0]] + t[1..];
      ReplaceCharCons(c, rep, t[0], t[1..]);
      ReplaceCharRemoves(t[1..], c, rep);
    }
  }

  // ---------------------------------------------------------------------------
  // escapeHtml is the per-character escaper

  /** `escapeHtml` distributes over concatenation. */
  lemma EscapeAppend(a: string, b: string)
    ensures EscapeHtml(a + b) == EscapeHtml(a) + EscapeHtml(b)
  {
    var a1, b1 := ReplaceAll(a, "&", "&amp;"), ReplaceAll(b, "&", "&amp;");
    ReplaceCharAppend(a, b, '&', "&amp;");
    var a2, b2 := ReplaceAll(a1, "<", "&lt;"), ReplaceAll(b1, "<", "&lt;");
    ReplaceCharAppend(a1, b1, '<', "&lt;");
    ReplaceCharAppend(a2, b2, '>', "&gt;");
  }

  /** On one character, `escapeHtml` writes that character's entity. */
  lemma EscapeOne(x: char)
    ensures EscapeHtml([x]) == Entity(x)
  {
    assert [x] + [] == [x];
    ReplaceCharCons('&', "&amp;", x, []);
    var t1 := ReplaceAll([x], "&", "&amp;");
    assert ReplaceAll([], "&", "&amp;") == [];
    if x == '&' {
      assert t1 == "&amp;";
      ReplaceCharAbsent(t1, '<', "&lt;");
      ReplaceCharAbsent(t1, '>', "&gt;");
    } else {
      assert t1 == [x];
      ReplaceCharCons('<', "&lt;", x, []);
      assert ReplaceAll([], "<", "&lt;") == [];
      var t2 := ReplaceAll(t1, "<", "&lt;");
      if x == '<' {
        assert t2 == "&lt;";
        ReplaceCharAbsent(t2, '>', "&gt;");
      } else {
        assert t2 == [x];
        ReplaceCharCons('>', "&gt;", x, []);
        assert ReplaceAll([], ">", "&gt;") == [];
      }
    }
  }

  /** `escapeHtml` agrees with the per-character reference escaper on every text. */
  lemma {:induction false} EscapeIsPerCharacter(s: string)
    ensures EscapeHtml(s) == EscapeChars(s)
    decreases |s|
  {
    if s == [] {
      assert ReplaceAll([], "&", "&amp;") == [];
      assert ReplaceAll([], "<", "&lt;") == [];
      assert ReplaceAll([], ">", "&gt;") == [];
    } else {
      assert s == [s[0]] + s[1..];
      EscapeAppend([s[0]], s[1..]);
      EscapeOne(s[0]);
      EscapeIsPerCharacter(s[1..]);
    }
  }

  // ---------------------------------------------------------------------------
  // What the escaped text looks like

  /** Each `&` adds four characters, each `<` and `>` three. */
  lemma {:induction false} EscapeLength(s: string)
    ensures |EscapeHtml(s)| == |s| + 4 * Count(s, '&') + 3 * Count(s, '<') + 3 * Count(s, '>')
  {
    EscapeIsPerCharacter(s);
    EscapeCharsLength(s);
  }

  lemma {:induction false} EscapeCharsLength(s: string)
    ensures |EscapeChars(s)| == |s| + 4 * Count(s, '&') + 3 * Count(s, '<') + 3 * Count(s, '>')
    decreases |s|
  {
    if s != [] {
      EscapeCharsLength(s[1..]);
    }
  }

  /** A text is left unchanged exactly when it contains none of `&`, `<` and `>`. */
  lemma EscapeFixesPlainText(s: string)
    ensures EscapeHtml(s) == s <==> forall i :: 0 <= i < |s| ==> !Special(s[i])
  {
    if forall i :: 0 <= i < |s| ==> !Special(s[i]) {
      assert '&' !in s && '<' !in s && '>' !in s;
      ReplaceCharAbsent(s, '&', "&amp;");
      ReplaceCharAbsent(s, '<', "&lt;");
      ReplaceCharAbsent(s, '>', "&gt;");
    }
    if EscapeHtml(s) == s {
      EscapeLength(s);
      assert Count(s, '&') == 0 && Count(s, '<') == 0 && Count(s, '>') == 0;
    }
  }

  /** Every `&` in the escaped text begins one of the three entities. */
  lemma EveryAmpersandStartsEntity(s: string)
    ensures var t := EscapeHtml(s);
            forall i :: 0 <= i < |t| && t[i] == '&' ==> StartsEntity(t[i..])
  {
    EscapeIsPerCharacter(s);
    AmpersandsInEscapeChars(s);
  }

  /** Only the first character of an entity can be `&`, and then an entity starts there. */
  lemma EntityShape(x: char, rest: string)
    ensures forall j :: 0 < j < |Entity(x)| ==> Entity(x)[j] != '&'
    ensures Entity(x)[0] == '&' ==> StartsEntity(Entity(x) + rest)
  {
    var e := Entity(x);
    assert e <= e + rest;
  }

  lemma {:induction false} AmpersandsInEscapeChars(s: string)
    ensures forall i :: 0 <= i < |EscapeChars(s)| && EscapeChars(s)[i] == '&' ==> StartsEntity(EscapeChars(s)[i..])
    decreases |s|
  {
    if s != [] {
      var e, rest := Entity(s[0]), EscapeChars(s[1..]);
      AmpersandsInEscapeChars(s[1..]);
      var t := e + rest;
      forall i | 0 <= i < |t| && t[i] == '&'
        ensures StartsEntity(t[i..])
      {
        if i < |e| {
          EntityShape(s[0], rest);
          assert t[i] == e[i];
          assert i == 0;
          assert t[i..] == t;
          assert StartsEntity(t[i..]);
        } else {
          assert t[i..] == rest[i - |e|..];
          var j := i - |e|;
          assert 0 <= j < |rest| && rest[j] == '&';
          assert StartsEntity(rest[j..]);
        }
      }
    }
  }

  // ---------------------------------------------------------------------------
  // Un-escaping recovers the input

  /** Replacing `&lt;`, then `&gt;`, then `&amp;` back by the characters they stand for. */
  function UnescapeHtml(t: string): string {
    ReplaceAll(ReplaceAll(ReplaceAll(t, "&lt;", "<"), "&gt;", ">"), "&amp;", "&")
  }

  /** A prefix without the pattern's first character is copied through unchanged. */
  lemma {:induction false} ReplaceSkips(u: string, t: string, pat: string, rep: string)
    requires |pat| > 0 && pat[0] !in u
    ensures ReplaceAll(u + t, pat, rep) == u + ReplaceAll(t, pat, rep)
    decreases |u|
  {
    if u != [] {
      var w := u + t;
      assert w[0] == u[0] != pat[0];
      assert !(pat <= w);
      assert w[1..] == u[1..] + t;
      ReplaceSkips(u[1..], t, pat, rep);
    } else {
      assert u + t == t;
    }
  }

  /** A text that starts with the pattern has that occurrence replaced. */
  lemma ReplaceMatch(t: string, pat: string, rep: string)
    requires |pat| > 0
    ensures ReplaceAll(pat + t, pat, rep) == rep + ReplaceAll(t, pat, rep)
  {
    assert pat <= pat + t;
    assert (pat + t)[|pat|..] == t;
  }

  /** `&amp;` is not a match of a pattern `&` + `c` + … with `c` other than `a`: it is copied. */
  lemma ReplaceAmpMiss(t: string, pat: string, rep: string)
    requires |pat| > 1 && pat[0] == '&' && pat[1] != 'a'
    ensures ReplaceAll("&amp;" + t, pat, rep) == "&amp;" + ReplaceAll(t, pat, rep)
  {
    var w := "&amp;" + t;
    assert w[1] == 'a';
    assert !(pat <= w);
    assert w[1..] == "amp;" + t;
    ReplaceSkips("amp;", t, pat, rep);
  }

  /** The first un-escaping stage's image of one character. */
  function KeepLt(c: char): string {
    if c == '&' then "&amp;" else if c == '>' then "&gt;" else [c]
  }

  function KeepLtChars(s: string): string {
    if s == [] then [] else KeepLt(s[0]) + KeepLtChars(s[1..])
  }

  function KeepAmp(c: char): string {
    if c == '&' then "&amp;" else [c]
  }

  function KeepAmpChars(s: string): string {
    if s == [] then [] else KeepAmp(s[0]) + KeepAmpChars(s[1..])
  }

  /** Replacing `&lt;` in the image of one character and what follows it. */
  lemma UnescapeLtHead(x: char, rest: string)
    ensures ReplaceAll(Entity(x) + rest, "&lt;", "<") == KeepLt(x) + ReplaceAll(rest, "&lt;", "<")
  {
    if x == '&' {
      ReplaceAmpMiss(rest, "&lt;", "<");
    } else if x == '<' {
      ReplaceMatch(rest, "&lt;", "<");
    } else if x == '>' {
      var w := "&gt;" + rest;
      assert w[1] == 'g';
      assert !("&lt;" <= w);
      assert w[1..] == "gt;" + rest;
      ReplaceSkips("gt;", rest, "&lt;", "<");
    } else {
      ReplaceSkips([x], rest, "&lt;", "<");
    }
  }

  /** Stage one: replacing `&lt;` turns every escaped `<` back and touches nothing else. */
  lemma {:induction false} UnescapeLt(s: string)
    ensures ReplaceAll(EscapeChars(s), "&lt;", "<") == KeepLtChars(s)
    decreases |s|
  {
    if s != [] {
      UnescapeLt(s[1..]);
      UnescapeLtHead(s[0], EscapeChars(s[1..]));
    }
  }

  /** Stage two: replacing `&gt;` turns every escaped `>` back. */
  lemma {:induction false} UnescapeGt(s: string)
    ensures ReplaceAll(KeepLtChars(s), "&gt;", ">") == KeepAmpChars(s)
    decreases |s|
  {
    if s != [] {
      var x, rest := s[0], KeepLtChars(s[1..]);
      UnescapeGt(s[1..]);
      if x == '&' {
        ReplaceAmpMiss(rest, "&gt;", ">");
      } else if x == '>' {
        ReplaceMatch(rest, "&gt;", ">");
      } else {
        ReplaceSkips([x], rest, "&gt;", ">");
      }
    }
  }

  /** Stage three: replacing `&amp;` turns every escaped `&` back, which leaves the input. */
  lemma {:induction false} UnescapeAmp(s: string)
    ensures ReplaceAll(KeepAmpChars(s), "&amp;", "&") == s
    decreases |s|
  {
    if s != [] {
      var x, rest := s[0], KeepAmpChars(s[1..]);
      UnescapeAmp(s[1..]);
      if x == '&' {
        ReplaceMatch(rest, "&amp;", "&");
      } else {
        ReplaceSkips([x], rest, "&amp;", "&");
      }
      assert s == [x] + s[1..];
    }
  }

  /** Un-escaping `&lt;`, `&gt;` and then `&amp;` recovers any input of `escapeHtml`. */
  lemma UnescapeEscape(s: string)
    ensures UnescapeHtml(EscapeHtml(s)) == s
  {
    EscapeIsPerCharacter(s);
    UnescapeLt(s);
    UnescapeGt(s);
    UnescapeAmp(s);
  }

  // ---------------------------------------------------------------------------
  // The message markup

  /** A `<` in the image of one character is the start of a `<br/>`. */
  lemma BreakHead(x: char, rest: string, i: int)
    requires x != '<'
    requires var head := if x == '\n' then "<br/>" else [x];
             0 <= i < |head| && (head + rest)[i] == '<'
    ensures "<br/>" <= (if x == '\n' then "<br/>" else [x]) + rest
    ensures i == 0
  {
    var head := if x == '\n' then "<br/>" else [x];
    assert (head + rest)[i] == head[i];
  }

  /** Once the text has no `<`, each `<` after the newline replacement starts a `<br/>`. */
  lemma {:induction false} BreaksOnlyTags(t: string)
    requires '<' !in t
    ensures var r := ReplaceAll(t, "\n", "<br/>");
            forall i :: 0 <= i < |r| && r[i] == '<' ==> "<br/>" <= r[i..]
    decreases |t|
  {
    if t != [] {
      var head := if t[0] == '\n' then "<br/>" else [t[0]];
      var rest := ReplaceAll(t[1..], "\n", "<br/>");
      assert t == [t[0]] + t[1..];
      ReplaceCharCons('\n', "<br/>", t[0], t[1..]);
      BreaksOnlyTags(t[1..]);
      var r := head + rest;
      forall i | 0 <= i < |r| && r[i] == '<'
        ensures "<br/>" <= r[i..]
      {
        if i < |head| {
          BreakHead(t[0], rest, i);
          assert r[i..] == r;
        } else {
          assert r[i..] == rest[i - |head|..];
        }
      }
    }
  }

  /** In the message markup, every `<` begins a `<br/>`: the message cannot open a tag. */
  lemma MessageTagsAreBreaks(message: string)
    ensures var h := MessageHtml(message);
            forall i :: 0 <= i < |h| && h[i] == '<' ==> "<br/>" <= h[i..]
  {
    assert MessageHtml(message) == ReplaceAll(EscapeHtml(message), "\n", "<br/>");
    BreaksOnlyTags(EscapeHtml(message));
  }
}
