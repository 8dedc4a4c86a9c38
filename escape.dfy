/** Attribute-value escaping (`escapeAttr` / `unescapeAttr`): four ordered
    global replacements each way. `>` is deliberately not escaped. */
module Escape {
  import opened Basics

  /** `s.replace(/pat/g, rep)`: a left-to-right scan replacing every
      non-overlapping occurrence of `pat`. */
  function ReplaceAll(s: string, pat: string, rep: string): string
    requires pat != ""
    decreases |s|
  {
    if |pat| <= |s| && s[..|pat|] == pat then rep + ReplaceAll(s[|pat|..], pat, rep)
    else if s == [] then []
    else [s[0]] + ReplaceAll(s[1..], pat, rep)
  }

  function EscapeText(s: string): string
  {
    ReplaceAll(ReplaceAll(ReplaceAll(ReplaceAll(s, "&", "&amp;"), "\"", "&quot;"), "'", "&apos;"), "<", "&lt;")
  }

  function UnescapeText(s: string): string
  {
    ReplaceAll(ReplaceAll(ReplaceAll(ReplaceAll(s, "&lt;", "<"), "&quot;", "\""), "&apos;", "'"), "&amp;", "&")
  }

  /** `escapeAttr(str)`: undefined and "" give undefined. */
  function EscapeAttr(o: Option<string>): (r: Option<string>)
    ensures r.Some? <==> Truthy(o)
  {
    if !Truthy(o) then None else Some(EscapeText(o.value))
  }

  /** `unescapeAttr(str)`: undefined and "" give undefined. */
  function UnescapeAttr(o: Option<string>): (r: Option<string>)
    ensures r.Some? <==> Truthy(o)
  {
    if !Truthy(o) then None else Some(UnescapeText(o.value))
  }

  // ---- escaping is a per-character encoding ----

  /** The concatenation of `f(c)` over the characters `c` of `s`. */
  function Expand(s: string, f: char -> string): string
    decreases |s|
  {
    if s == [] then [] else f(s[0]) + Expand(s[1..], f)
  }

  /** What escaping does to one character. */
  function EscapeChar(c: char): string
  {
    if c == '&' then "&amp;"
    else if c == '"' then "&quot;"
    else if c == '\'' then "&apos;"
    else if c == '<' then "&lt;"
    else [c]
  }

  // The encodings after the first, second and third replacement.
  function AmpOnly(c: char): string
  {
    if c == '&' then "&amp;" else [c]
  }

  function AmpQuot(c: char): string
  {
    if c == '"' then "&quot;" else AmpOnly(c)
  }

  function AmpQuotApos(c: char): string
  {
    if c == '\'' then "&apos;" else AmpQuot(c)
  }

  function Identity(c: char): string
  {
    [c]
  }

  lemma {:induction false} ExpandIdentity(s: string)
    ensures Expand(s, Identity) == s
    decreases |s|
  {
    if s != [] {
      ExpandIdentity(s[1..]);
      assert s == [s[0]] + s[1..];
    }
  }

  lemma {:induction false} ExpandAppend(a: string, b: string, f: char -> string)
    ensures Expand(a + b, f) == Expand(a, f) + Expand(b, f)
    decreases |a|
  {
    if a == [] {
      assert a + b == b;
    } else {
      assert (a + b)[0] == a[0] && (a + b)[1..] == a[1..] + b;
      ExpandAppend(a[1..], b, f);
    }
  }

  lemma {:induction false} ExpandCongruence(s: string, f: char -> string, g: char -> string)
    requires forall c :: f(c) == g(c)
    ensures Expand(s, f) == Expand(s, g)
    decreases |s|
  {
    if s != [] {
      ExpandCongruence(s[1..], f, g);
    }
  }

  /** A one-character pattern is replaced piecewise across a concatenation. */
  lemma {:induction false} ReplaceCharAppend(a: string, b: string, c: char, rep: string)
    ensures ReplaceAll(a + b, [c], rep) == ReplaceAll(a, [c], rep) + ReplaceAll(b, [c], rep)
    decreases |a|
  {
    if a == [] {
      assert a + b == b;
    } else {
      assert (a + b)[..1] == a[..1] && (a + b)[1..] == a[1..] + b;
      ReplaceCharAppend(a[1..], b, c, rep);
    }
  }

  lemma {:induction false} ReplaceCharAbsent(t: string, c: char, rep: string)
    requires c !in t
    ensures ReplaceAll(t, [c], rep) == t
    decreases |t|
  {
    if t != [] {
      assert t[..1] == [t[0]];
      ReplaceCharAbsent(t[1..], c, rep);
      assert t == [t[0]] + t[1..];
    }
  }

  /** Replacing a one-character pattern in an expansion is the expansion by
      the replaced pieces. */
  lemma {:induction false} ReplaceCharExpand(s: string, f: char -> string, g: char -> string, c: char, rep: string)
    requires forall x :: g(x) == ReplaceAll(f(x), [c], rep)
    ensures ReplaceAll(Expand(s, f), [c], rep) == Expand(s, g)
    decreases |s|
  {
    if s != [] {
      ReplaceCharAppend(f(s[0]), Expand(s[1..], f), c, rep);
      ReplaceCharExpand(s[1..], f, g, c, rep);
    }
  }

  lemma {:induction false} ReplaceCharSingle(x: char, c: char, rep: string)
    ensures ReplaceAll([x], [c], rep) == if x == c then rep else [x]
  {
    assert [x][..1] == [x] && [x][1..] == [];
  }

  lemma ReplaceCharInEntity(e: string, c: char, rep: string)
    requires e in {"&amp;", "&quot;", "&apos;"} && c !in e
    ensures ReplaceAll(e, [c], rep) == e
  {
    ReplaceCharAbsent(e, c, rep);
  }

  lemma AmpStage(s: string)
    ensures ReplaceAll(s, "&", "&amp;") == Expand(s, AmpOnly)
  {
    forall x ensures AmpOnly(x) == ReplaceAll([x], "&", "&amp;") {
      ReplaceCharSingle(x, '&', "&amp;");
    }
    ReplaceCharExpand(s, Identity, AmpOnly, '&', "&amp;");
    ExpandIdentity(s);
  }

  lemma QuotStage(s: string)
    ensures ReplaceAll(Expand(s, AmpOnly), "\"", "&quot;") == Expand(s, AmpQuot)
  {
    forall x ensures AmpQuot(x) == ReplaceAll(AmpOnly(x), "\"", "&quot;") {
      if x == '&' {
        ReplaceCharInEntity("&amp;", '"', "&quot;");
      } else {
        ReplaceCharSingle(x, '"', "&quot;");
      }
    }
    ReplaceCharExpand(s, AmpOnly, AmpQuot, '"', "&quot;");
  }

  lemma AposStage(s: string)
    ensures ReplaceAll(Expand(s, AmpQuot), "'", "&apos;") == Expand(s, AmpQuotApos)
  {
    forall x ensures AmpQuotApos(x) == ReplaceAll(AmpQuot(x), "'", "&apos;") {
      if x == '&' {
        ReplaceCharInEntity("&amp;", '\'', "&apos;");
      } else if x == '"' {
        ReplaceCharInEntity("&quot;", '\'', "&apos;");
      } else {
        ReplaceCharSingle(x, '\'', "&apos;");
      }
    }
    ReplaceCharExpand(s, AmpQuot, AmpQuotApos, '\'', "&apos;");
  }

  lemma LtStage(s: string)
    ensures ReplaceAll(Expand(s, AmpQuotApos), "<", "&lt;") == Expand(s, EscapeChar)
  {
    forall x ensures EscapeChar(x) == ReplaceAll(AmpQuotApos(x), "<", "&lt;") {
      if x == '&' {
        ReplaceCharInEntity("&amp;", '<', "&lt;");
      } else if x == '"' {
        ReplaceCharInEntity("&quot;", '<', "&lt;");
      } else if x == '\'' {
        ReplaceCharInEntity("&apos;", '<', "&lt;");
      } else {
        ReplaceCharSingle(x, '<', "&lt;");
      }
    }
    ReplaceCharExpand(s, AmpQuotApos, EscapeChar, '<', "&lt;");
  }

  /** Escaping one character at a time gives the same string as the four
      ordered replacements. */
  lemma EscapeTextPerChar(s: string)
    ensures EscapeText(s) == Expand(s, EscapeChar)
  {
    AmpStage(s);
    QuotStage(s);
    AposStage(s);
    LtStage(s);
  }

  // ---- unescaping undoes the encoding, entity by entity ----

  /** `&name;` with no `&` or `;` inside. */
  predicate IsEntity(e: string)
  {
    |e| >= 2 && e[0] == '&' && e[|e| - 1] == ';'
    && forall i :: 1 <= i < |e| - 1 ==> e[i] != '&' && e[i] != ';'
  }

  /** A piece of an encoded string: an entity or one character other than `&`. */
  predicate IsPiece(t: string)
  {
    IsEntity(t) || (|t| == 1 && t[0] != '&')
  }

  /** Text without `&` is passed over by a replacement of an entity. */
  lemma {:induction false} ReplaceSkipsPlain(u: string, r: string, pat: string, rep: string)
    requires IsEntity(pat) && '&' !in u
    ensures ReplaceAll(u + r, pat, rep) == u + ReplaceAll(r, pat, rep)
    decreases |u|
  {
    if u == [] {
      assert u + r == r;
    } else {
      var w := u + r;
      assert w[0] == u[0] != '&';
      assert |pat| <= |w| ==> w[..|pat|][0] != pat[0];
      assert w[1..] == u[1..] + r;
      ReplaceSkipsPlain(u[1..], r, pat, rep);
      assert u == [u[0]] + u[1..];
    }
  }

  /** Two different entities never start one another. */
  lemma EntityNotPrefix(e: string, r: string, pat: string)
    requires IsEntity(e) && IsEntity(pat) && e != pat
    ensures !(|pat| <= |e + r| && (e + r)[..|pat|] == pat)
  {
    var w := e + r;
    if |pat| <= |w| {
      if |pat| < |e| {
        assert w[..|pat|][|pat| - 1] == e[|pat| - 1] != ';';
      } else if |pat| == |e| {
        assert w[..|pat|] == e;
      } else {
        assert w[..|pat|][|e| - 1] == e[|e| - 1] == ';' != pat[|e| - 1];
      }
    }
  }

  lemma ReplaceSkipsEntity(e: string, r: string, pat: string, rep: string)
    requires IsEntity(e) && IsEntity(pat) && e != pat
    ensures ReplaceAll(e + r, pat, rep) == e + ReplaceAll(r, pat, rep)
  {
    var w, u := e + r, e[1..];
    EntityNotPrefix(e, r, pat);
    assert w[1..] == u + r;
    assert ReplaceAll(w, pat, rep) == [e[0]] + ReplaceAll(u + r, pat, rep);
    assert '&' !in u by {
      assert forall i :: 0 <= i < |u| ==> u[i] == e[i + 1];
    }
    ReplaceSkipsPlain(u, r, pat, rep);
    assert e == [e[0]] + u;
  }

  /** Replacing an entity in an expansion made of pieces is the expansion by
      the pieces with that entity replaced. */
  lemma {:induction false} ReplaceEntityExpand(s: string, f: char -> string, g: char -> string, pat: string, rep: string)
    requires IsEntity(pat)
    requires forall x :: IsPiece(f(x))
    requires forall x :: g(x) == (if f(x) == pat then rep else f(x))
    ensures ReplaceAll(Expand(s, f), pat, rep) == Expand(s, g)
    decreases |s|
  {
    if s != [] {
      var t, r := f(s[0]), Expand(s[1..], f);
      ReplaceEntityExpand(s[1..], f, g, pat, rep);
      if t == pat {
        assert (t + r)[..|pat|] == pat && (t + r)[|pat|..] == r;
      } else if IsEntity(t) {
        ReplaceSkipsEntity(t, r, pat, rep);
      } else {
        ReplaceSkipsPlain(t, r, pat, rep);
      }
    }
  }

  // The encodings after the first, second and third unescaping replacement.
  function LtDone(c: char): string
  {
    if EscapeChar(c) == "&lt;" then "<" else EscapeChar(c)
  }

  function QuotDone(c: char): string
  {
    if LtDone(c) == "&quot;" then "\"" else LtDone(c)
  }

  function AposDone(c: char): string
  {
    if QuotDone(c) == "&apos;" then "'" else QuotDone(c)
  }

  function AmpDone(c: char): string
  {
    if AposDone(c) == "&amp;" then "&" else AposDone(c)
  }

  lemma EntitiesAreEntities()
    ensures IsEntity("&lt;") && IsEntity("&quot;") && IsEntity("&apos;") && IsEntity("&amp;")
  {
  }

  lemma EscapePieces()
    ensures forall x :: IsPiece(EscapeChar(x))
  {
    EntitiesAreEntities();
  }

  lemma LtPieces()
    ensures forall x :: IsPiece(LtDone(x))
  {
    EscapePieces();
  }

  lemma QuotPieces()
    ensures forall x :: IsPiece(QuotDone(x))
  {
    LtPieces();
  }

  lemma AposPieces()
    ensures forall x :: IsPiece(AposDone(x))
  {
    QuotPieces();
  }

  lemma AmpDoneIsIdentity()
    ensures forall x :: AmpDone(x) == Identity(x)
  {
    forall x ensures AmpDone(x) == Identity(x) {
      if x == '&' {
      } else if x == '"' {
      } else if x == '\'' {
      } else if x == '<' {
      } else {
        assert EscapeChar(x) == [x];
      }
    }
  }

  /** Unescaping an escaped string gives the original string back. */
  lemma UnescapeEscapeText(s: string)
    ensures UnescapeText(EscapeText(s)) == s
  {
    EscapeTextPerChar(s);
    EntitiesAreEntities();
    EscapePieces();
    ReplaceEntityExpand(s, EscapeChar, LtDone, "&lt;", "<");
    LtPieces();
    ReplaceEntityExpand(s, LtDone, QuotDone, "&quot;", "\"");
    QuotPieces();
    ReplaceEntityExpand(s, QuotDone, AposDone, "&apos;", "'");
    AposPieces();
    ReplaceEntityExpand(s, AposDone, AmpDone, "&amp;", "&");
    AmpDoneIsIdentity();
    ExpandCongruence(s, AmpDone, Identity);
    ExpandIdentity(s);
  }

  // ---- the properties of escapeAttr / unescapeAttr ----

  /** `unescapeAttr(escapeAttr(s)) == s` for every string `s`, the empty
      string and undefined included (both map to undefined). */
  lemma EscapeRoundTrip(o: Option<string>)
    ensures UnescapeAttr(EscapeAttr(o)) == (if Truthy(o) then o else None)
  {
    if Truthy(o) {
      UnescapeEscapeText(o.value);
      EscapeTextPerChar(o.value);
      ExpandNonEmpty(o.value, EscapeChar);
    }
  }

  lemma ExpandNonEmpty(s: string, f: char -> string)
    requires s != [] && forall x :: f(x) != []
    ensures Expand(s, f) != []
  {
  }

  lemma {:induction false} ExpandAvoids(s: string, f: char -> string, c: char)
    requires forall x :: c !in f(x)
    ensures c !in Expand(s, f)
    decreases |s|
  {
    if s != [] {
      ExpandAvoids(s[1..], f, c);
    }
  }

  lemma {:induction false} CountAbsent(t: string, c: char)
    requires c !in t
    ensures Count(t, c) == 0
    decreases |t|
  {
    if t != [] {
      CountAbsent(t[1..], c);
    }
  }

  lemma EscapeCharCount(x: char, c: char)
    requires c !in "&amp;quot;apos;lt;\"'<"
    ensures Count(EscapeChar(x), c) == (if x == c then 1 else 0)
  {
    if x in "&\"'<" {
      CountAbsent(EscapeChar(x), c);
    } else {
      assert EscapeChar(x) == [x];
    }
  }

  lemma {:induction false} ExpandCount(s: string, c: char)
    requires c !in "&amp;quot;apos;lt;\"'<"
    ensures Count(Expand(s, EscapeChar), c) == Count(s, c)
    decreases |s|
  {
    if s != [] {
      ExpandCount(s[1..], c);
      EscapeCharCount(s[0], c);
      CountAppend(EscapeChar(s[0]), Expand(s[1..], EscapeChar), c);
    }
  }

  lemma EscapeAvoidsSpecials(s: string)
    ensures '<' !in EscapeText(s) && '"' !in EscapeText(s) && '\'' !in EscapeText(s)
  {
    EscapeTextPerChar(s);
    ExpandAvoids(s, EscapeChar, '<');
    ExpandAvoids(s, EscapeChar, '"');
    ExpandAvoids(s, EscapeChar, '\'');
  }

  /** An escaped value contains no `<`, `"` or `'`, keeps every `>` (it has
      exactly as many as the input) and leaves a string without any of
      `&`, `"`, `'`, `<` unchanged. */
  lemma EscapeAttrProperties(s: string)
    requires s != ""
    ensures EscapeAttr(Some(s)).Some?
    ensures '<' !in EscapeAttr(Some(s)).value
    ensures '"' !in EscapeAttr(Some(s)).value
    ensures '\'' !in EscapeAttr(Some(s)).value
    ensures Count(EscapeAttr(Some(s)).value, '>') == Count(s, '>')
    ensures ('&' !in s && '"' !in s && '\'' !in s && '<' !in s) ==> EscapeAttr(Some(s)) == Some(s)
  {
    EscapeAvoidsSpecials(s);
    EscapeTextPerChar(s);
    ExpandCount(s, '>');
    if '&' !in s && '"' !in s && '\'' !in s && '<' !in s {
      PlainExpand(s);
    }
  }

  lemma {:induction false} PlainExpand(s: string)
    requires '&' !in s && '"' !in s && '\'' !in s && '<' !in s
    ensures Expand(s, EscapeChar) == s
    decreases |s|
  {
    if s != [] {
      PlainExpand(s[1..]);
      assert s == [s[0]] + s[1..];
    }
  }
}
