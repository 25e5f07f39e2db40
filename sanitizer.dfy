/**
 * The text sanitisers of src/lib/sanitizer.ts: tag stripping with truncation,
 * HTML escaping for display, email validation and phone filtering.
 */
module Sanitizer {
  import opened Wrappers
  import opened JsString

  /** The default `maxLength` of `sanitizeText`. */
  const DefaultMaxLength: nat := 1000
  /** The length `sanitizeEmail` cuts an address to. */
  const EmailMaxLength: nat := 254
  /** The length `sanitizePhone` cuts a number to. */
  const PhoneMaxLength: nat := 20

  // ---------------------------------------------------------------- sanitizeText

  /** No '<' of `s` has a '>' anywhere after it: nothing in `s` still reads as a tag. */
  predicate NoTagRemnant(s: string) {
    forall i, j :: 0 <= i < j < |s| && s[i] == '<' ==> s[j] != '>'
  }

  /**
   * `text.replace(/<[^>]*>/g, '')`: a '<' and everything up to the first '>'
   * after it are removed; a '<' with no '>' after it is kept.
   */
  function StripTags(s: string): (r: string)
    ensures |r| <= |s|
    ensures forall k :: 0 <= k < |r| ==> r[k] in s
    ensures NoTagRemnant(r)
    ensures '<' !in s ==> r == s
    decreases |s|
  {
    if s == [] then []
    else if s[0] == '<' && '>' in s[1..] then
      var close := 1 + IndexOf(s[1..], '>');
      var rest := StripTags(s[close + 1..]);
      assert forall k :: 0 <= k < |rest| ==> rest[k] in s by {
        forall k | 0 <= k < |rest| ensures rest[k] in s {
          assert rest[k] in s[close + 1..];
        }
      }
      rest
    else
      var rest := StripTags(s[1..]);
      var r := [s[0]] + rest;
      assert forall k :: 0 <= k < |rest| ==> rest[k] in s by {
        forall k | 0 <= k < |rest| ensures rest[k] in s {
          assert rest[k] in s[1..];
        }
      }
      assert s[0] == '<' ==> '>' !in rest;
      ConsKeepsNoTag(s[0], rest);
      r
  }

  /** A character put before a text free of tag remnants keeps it free, unless it opens one. */
  lemma ConsKeepsNoTag(c: char, rest: string)
    requires NoTagRemnant(rest)
    requires c == '<' ==> '>' !in rest
    ensures NoTagRemnant([c] + rest)
  {
    var r := [c] + rest;
    forall i, j | 0 <= i < j < |r| && r[i] == '<' ensures r[j] != '>' {
      assert r[j] == rest[j - 1];
      if i > 0 { assert r[i] == rest[i - 1]; }
    }
  }

  /** Text before the first '<' is kept as it is. */
  lemma {:induction false} StripTagsKeepsText(a: string, b: string)
    requires '<' !in a
    ensures StripTags(a + b) == a + StripTags(b)
    decreases |a|
  {
    if a != [] {
      var s := a + b;
      assert s[0] == a[0] && s[1..] == a[1..] + b;
      StripTagsKeepsText(a[1..], b);
      assert a == [a[0]] + a[1..];
    } else {
      assert a + b == b;
    }
  }

  /** A tag, from '<' to the first '>', is removed. */
  lemma StripTagsDropsTag(t: string, b: string)
    requires '>' !in t
    ensures StripTags("<" + t + ">" + b) == StripTags(b)
  {
    var s := "<" + t + ">" + b;
    var after := s[1..];
    assert after == t + ">" + b;
    assert after[..|t|] == t && after[|t|] == '>';
    IndexOfUnique(after, '>', |t|);
    assert s[|t| + 2..] == b;
  }

  /** A '<' with no '>' anywhere after it is kept. */
  lemma StripTagsKeepsOpenBracket(b: string)
    requires '>' !in b
    ensures StripTags("<" + b) == "<" + StripTags(b)
  {
    var s := "<" + b;
    assert s[1..] == b;
  }

  lemma {:induction false} NoTagRemnantSlice(s: string, a: nat, b: nat)
    requires NoTagRemnant(s) && a <= b <= |s|
    ensures NoTagRemnant(s[a..b])
  {
    var t := s[a..b];
    forall i, j | 0 <= i < j < |t| && t[i] == '<' ensures t[j] != '>' {
      assert t[i] == s[a + i] && t[j] == s[a + j];
    }
  }

  /**
   * `sanitizeText(text, maxLength)`: tags are stripped first, then the result
   * is trimmed, then cut to `maxLength` characters.
   */
  function SanitizeText(text: string, maxLength: nat): (r: string)
    ensures text == "" ==> r == ""
    ensures |r| <= maxLength && |r| <= |Trim(StripTags(text))|
    ensures r == Trim(StripTags(text))[..|r|]
    ensures |r| == maxLength || r == Trim(StripTags(text))
    ensures NoTagRemnant(r)
    ensures r == [] || !IsSpace(r[0])
  {
    if text == "" then ""
    else
      TrimmedPrefixKeepsNoTag(StripTags(text), maxLength);
      Take(Trim(StripTags(text)), maxLength)
  }

  lemma TrimmedPrefixKeepsNoTag(x: string, n: nat)
    requires NoTagRemnant(x)
    ensures NoTagRemnant(Take(Trim(x), n))
  {
    var t := Trim(x);
    TrimKeepsNoTag(x);
    var p := Take(t, n);
    assert p == t[0..|p|];
    NoTagRemnantSlice(t, 0, |p|);
  }

  /** Trimming keeps a text free of tag remnants, each trimmed end being a slice. */
  lemma TrimKeepsNoTag(x: string)
    requires NoTagRemnant(x)
    ensures NoTagRemnant(Trim(x))
  {
    TrimStartKeepsNoTag(x);
    TrimEndKeepsNoTag(TrimStart(x));
  }

  lemma TrimStartKeepsNoTag(x: string)
    requires NoTagRemnant(x)
    ensures NoTagRemnant(TrimStart(x))
  {
    var u := TrimStart(x);
    assert u == x[|x| - |u|..|x|];
    NoTagRemnantSlice(x, |x| - |u|, |x|);
  }

  lemma TrimEndKeepsNoTag(u: string)
    requires NoTagRemnant(u)
    ensures NoTagRemnant(TrimEnd(u))
  {
    var v := TrimEnd(u);
    assert v == u[0..|v|];
    NoTagRemnantSlice(u, 0, |v|);
  }

  /** `sanitizeText(text)` with the default limit. */
  function SanitizeTextDefault(text: string): (r: string)
    ensures |r| <= 1000
    ensures r == SanitizeText(text, DefaultMaxLength)
  {
    SanitizeText(text, DefaultMaxLength)
  }

  // ---------------------------------------------------------------- sanitizeUserInput

  /** The six characters `sanitizeUserInput` escapes other than '&'. */
  predicate IsMarkupChar(c: char) {
    c == '<' || c == '>' || c == '"' || c == '\'' || c == '/'
  }

  function EscapeChar(c: char): string {
    if c == '&' then "&amp;"
    else if c == '<' then "&lt;"
    else if c == '>' then "&gt;"
    else if c == '"' then "&quot;"
    else if c == '\'' then "&#x27;"
    else if c == '/' then "&#x2F;"
    else [c]
  }

  /** Each character replaced by its entity: the meaning of the chain of six replacements. */
  function EscapeEach(s: string): (r: string)
    ensures forall k :: 0 <= k < |r| ==> !IsMarkupChar(r[k])
  {
    if s == [] then [] else EscapeChar(s[0]) + EscapeEach(s[1..])
  }

  /** The chain of six global replacements, '&' first, exactly as written. */
  function ReplaceChain(input: string): string {
    var amp := ReplaceChar(input, '&', "&amp;");
    var lt := ReplaceChar(amp, '<', "&lt;");
    var gt := ReplaceChar(lt, '>', "&gt;");
    var quot := ReplaceChar(gt, '"', "&quot;");
    var apos := ReplaceChar(quot, '\'', "&#x27;");
    ReplaceChar(apos, '/', "&#x2F;")
  }

  /** `sanitizeUserInput(input)`: the empty string stays empty, anything else goes through the chain. */
  function SanitizeUserInput(input: string): (r: string)
    ensures r == EscapeEach(input)
  {
    ChainIsEscapeEach(input);
    if input == "" then "" else ReplaceChain(input)
  }

  lemma ReplaceOne(c: char, x: char, rep: string)
    ensures ReplaceChar([c], x, rep) == if c == x then rep else [c]
  {
    assert [c][1..] == [];
  }

  /** A character that is not one of the six passes through the chain unchanged. */
  lemma ChainOfPlainChar(c: char)
    requires c != '&' && !IsMarkupChar(c)
    ensures ReplaceChain([c]) == [c]
  {
    ReplaceOne(c, '&', "&amp;");
    ReplaceOne(c, '<', "&lt;");
    ReplaceOne(c, '>', "&gt;");
    ReplaceOne(c, '"', "&quot;");
    ReplaceOne(c, '\'', "&#x27;");
    ReplaceOne(c, '/', "&#x2F;");
  }

  lemma ChainOfSpecial0(c: char, e: string)
    requires c == '&' && e == "&amp;"
    ensures ReplaceChain([c]) == e
  {
    ReplaceOne(c, '&', e);
    assert ReplaceChar([c], '&', "&amp;") == e;
    assert '<' !in e && '>' !in e && '"' !in e && '\'' !in e && '/' !in e;
    ReplaceCharAbsent(e, '<', "&lt;");
    ReplaceCharAbsent(e, '>', "&gt;");
    ReplaceCharAbsent(e, '"', "&quot;");
    ReplaceCharAbsent(e, '\'', "&#x27;");
    ReplaceCharAbsent(e, '/', "&#x2F;");
  }

  lemma ChainOfSpecial1(c: char, e: string)
    requires c == '<' && e == "&lt;"
    ensures ReplaceChain([c]) == e
  {
    ReplaceOne(c, '&', "&amp;");
    ReplaceOne(c, '<', e);
    ReplaceCharAbsent(e, '>', "&gt;");
    ReplaceCharAbsent(e, '"', "&quot;");
    ReplaceCharAbsent(e, '\'', "&#x27;");
    ReplaceCharAbsent(e, '/', "&#x2F;");
  }

  lemma ChainOfSpecial2(c: char, e: string)
    requires c == '>' && e == "&gt;"
    ensures ReplaceChain([c]) == e
  {
    ReplaceOne(c, '&', "&amp;");
    ReplaceOne(c, '<', "&lt;");
    ReplaceOne(c, '>', e);
    ReplaceCharAbsent(e, '"', "&quot;");
    ReplaceCharAbsent(e, '\'', "&#x27;");
    ReplaceCharAbsent(e, '/', "&#x2F;");
  }

  lemma ChainOfSpecial3(c: char, e: string)
    requires c == '"' && e == "&quot;"
    ensures ReplaceChain([c]) == e
  {
    ReplaceOne(c, '&', "&amp;");
    ReplaceOne(c, '<', "&lt;");
    ReplaceOne(c, '>', "&gt;");
    ReplaceOne(c, '"', e);
    ReplaceCharAbsent(e, '\'', "&#x27;");
    ReplaceCharAbsent(e, '/', "&#x2F;");
  }

  lemma ChainOfSpecial4(c: char, e: string)
    requires c == '\'' && e == "&#x27;"
    ensures ReplaceChain([c]) == e
  {
    ReplaceOne(c, '&', "&amp;");
    ReplaceOne(c, '<', "&lt;");
    ReplaceOne(c, '>', "&gt;");
    ReplaceOne(c, '"', "&quot;");
    ReplaceOne(c, '\'', e);
    ReplaceCharAbsent(e, '/', "&#x2F;");
  }

  lemma ChainOfSpecial5(c: char, e: string)
    requires c == '/' && e == "&#x2F;"
    ensures ReplaceChain([c]) == e
  {
    ReplaceOne(c, '&', "&amp;");
    ReplaceOne(c, '<', "&lt;");
    ReplaceOne(c, '>', "&gt;");
    ReplaceOne(c, '"', "&quot;");
    ReplaceOne(c, '\'', "&#x27;");
    ReplaceOne(c, '/', e);
  }

  lemma ChainOfChar(c: char)
    ensures ReplaceChain([c]) == EscapeChar(c)
  {
    if c == '&' { ChainOfSpecial0(c, EscapeChar(c)); }
    else if c == '<' { ChainOfSpecial1(c, EscapeChar(c)); }
    else if c == '>' { ChainOfSpecial2(c, EscapeChar(c)); }
    else if c == '"' { ChainOfSpecial3(c, EscapeChar(c)); }
    else if c == '\'' { ChainOfSpecial4(c, EscapeChar(c)); }
    else if c == '/' { ChainOfSpecial5(c, EscapeChar(c)); }
    else { ChainOfPlainChar(c); }
  }

  lemma ChainConcat(a: string, b: string)
    ensures ReplaceChain(a + b) == ReplaceChain(a) + ReplaceChain(b)
  {
    var a1, b1 := ReplaceChar(a, '&', "&amp;"), ReplaceChar(b, '&', "&amp;");
    ReplaceCharConcat(a, b, '&', "&amp;");
    var a2, b2 := ReplaceChar(a1, '<', "&lt;"), ReplaceChar(b1, '<', "&lt;");
    ReplaceCharConcat(a1, b1, '<', "&lt;");
    var a3, b3 := ReplaceChar(a2, '>', "&gt;"), ReplaceChar(b2, '>', "&gt;");
    ReplaceCharConcat(a2, b2, '>', "&gt;");
    var a4, b4 := ReplaceChar(a3, '"', "&quot;"), ReplaceChar(b3, '"', "&quot;");
    ReplaceCharConcat(a3, b3, '"', "&quot;");
    var a5, b5 := ReplaceChar(a4, '\'', "&#x27;"), ReplaceChar(b4, '\'', "&#x27;");
    ReplaceCharConcat(a4, b4, '\'', "&#x27;");
    ReplaceCharConcat(a5, b5, '/', "&#x2F;");
  }

  /** Replacing '&' first and the other five after it escapes each character exactly once. */
  lemma {:induction false} ChainIsEscapeEach(s: string)
    ensures ReplaceChain(s) == EscapeEach(s)
  {
    if s == [] {
      assert ReplaceChain(s) == [];
    } else {
      assert s == [s[0]] + s[1..];
      ChainConcat([s[0]], s[1..]);
      ChainOfChar(s[0]);
      ChainIsEscapeEach(s[1..]);
    }
  }

  /** `t` starts with one of the six entities. */
  predicate StartsWithEntity(t: string) {
    "&amp;" <= t || "&lt;" <= t || "&gt;" <= t || "&quot;" <= t || "&#x27;" <= t || "&#x2F;" <= t
  }

  /** The output contains none of `< > " ' /`, and every '&' in it begins an entity. */
  lemma {:induction false} EscapedAmpersandsBeginEntities(s: string)
    ensures forall k :: 0 <= k < |SanitizeUserInput(s)| ==> !IsMarkupChar(SanitizeUserInput(s)[k])
    ensures forall k :: 0 <= k < |SanitizeUserInput(s)| && SanitizeUserInput(s)[k] == '&' ==>
              StartsWithEntity(SanitizeUserInput(s)[k..])
  {
    EscapeEachAmpersands(s);
  }

  lemma {:induction false} EscapeEachAmpersands(s: string)
    ensures forall k :: 0 <= k < |EscapeEach(s)| && EscapeEach(s)[k] == '&' ==> StartsWithEntity(EscapeEach(s)[k..])
  {
    if s != [] {
      var e, rest := EscapeChar(s[0]), EscapeEach(s[1..]);
      var r := EscapeEach(s);
      assert r == e + rest;
      EscapeEachAmpersands(s[1..]);
      forall k | 0 <= k < |r| && r[k] == '&' ensures StartsWithEntity(r[k..]) {
        if k < |e| {
          assert e[k] == '&';
          assert k == 0 && e <= r;
        } else {
          assert r[k..] == rest[k - |e|..];
        }
      }
    }
  }

  /** A decoder for the six entities, read left to right; anything else is copied. */
  function Unescape(s: string): string
    decreases |s|
  {
    if s == [] then []
    else if "&amp;" <= s then "&" + Unescape(s[5..])
    else if "&lt;" <= s then "<" + Unescape(s[4..])
    else if "&gt;" <= s then ">" + Unescape(s[4..])
    else if "&quot;" <= s then "\"" + Unescape(s[6..])
    else if "&#x27;" <= s then "'" + Unescape(s[6..])
    else if "&#x2F;" <= s then "/" + Unescape(s[6..])
    else [s[0]] + Unescape(s[1..])
  }

  lemma UnescapeAfterEscapeChar(c: char, x: string)
    ensures Unescape(EscapeChar(c) + x) == [c] + Unescape(x)
  {
    if c == '&' { UnescapeAmp(x); }
    else if c == '<' || c == '>' { UnescapeAngle(c, x); }
    else if c == '"' { UnescapeQuot(x); }
    else if c == '\'' || c == '/' { UnescapeNumeric(c, x); }
    else { UnescapePlain(c, x); }
  }

  lemma UnescapeAmp(x: string)
    ensures Unescape("&amp;" + x) == "&" + Unescape(x)
  {
    var t := "&amp;" + x;
    assert t[..5] == "&amp;" && t[5..] == x;
  }

  /** The two four-character entities, `&lt;` and `&gt;`. */
  lemma UnescapeAngle(c: char, x: string)
    requires c == '<' || c == '>'
    ensures Unescape(EscapeChar(c) + x) == [c] + Unescape(x)
  {
    var e := EscapeChar(c);
    var t := e + x;
    assert t[..4] == e && t[4..] == x && t[1] == e[1];
  }

  lemma UnescapeQuot(x: string)
    ensures Unescape("&quot;" + x) == "\"" + Unescape(x)
  {
    var t := "&quot;" + x;
    assert t[..6] == "&quot;" && t[6..] == x && t[1] == 'q';
  }

  /** The two numeric entities, `&#x27;` and `&#x2F;`. */
  lemma UnescapeNumeric(c: char, x: string)
    requires c == '\'' || c == '/'
    ensures Unescape(EscapeChar(c) + x) == [c] + Unescape(x)
  {
    var e := EscapeChar(c);
    var t := e + x;
    assert t[..6] == e && t[6..] == x && t[1] == '#' && t[4] == e[4];
  }

  lemma UnescapePlain(c: char, x: string)
    requires c != '&'
    ensures Unescape([c] + x) == [c] + Unescape(x)
  {
    var t := [c] + x;
    assert t[0] == c && t[1..] == x;
  }

  /** Decoding what `sanitizeUserInput` produced gives back the original input. */
  lemma {:induction false} UnescapeSanitizeUserInput(s: string)
    ensures Unescape(SanitizeUserInput(s)) == s
  {
    UnescapeEscapeEach(s);
  }

  lemma {:induction false} UnescapeEscapeEach(s: string)
    ensures Unescape(EscapeEach(s)) == s
  {
    if s != [] {
      UnescapeAfterEscapeChar(s[0], EscapeEach(s[1..]));
      UnescapeEscapeEach(s[1..]);
      assert s == [s[0]] + s[1..];
    }
  }

  // ---------------------------------------------------------------- sanitizeEmail

  datatype EmailError = InvalidEmailFormat

  predicate NoSpaceNoAt(s: string) {
    forall k :: 0 <= k < |s| ==> !IsSpace(s[k]) && s[k] != '@'
  }

  /**
   * `/^[^\s@]+@[^\s@]+\.[^\s@]+$/.test(t)`: `t` splits at an '@' (position `i`)
   * and a later '.' (position `d`) into three non-empty runs without
   * whitespace or '@'.
   */
  predicate MatchesEmailRegex(t: string) {
    exists i, d :: 0 < i && i + 1 < d && d + 1 < |t| && EmailSplit(t, i, d)
  }

  predicate EmailSplit(t: string, i: int, d: int)
    requires 0 < i && i + 1 < d && d + 1 < |t|
  {
    t[i] == '@' && t[d] == '.' && NoSpaceNoAt(t[..i]) && NoSpaceNoAt(t[i + 1..d]) && NoSpaceNoAt(t[d + 1..])
  }

  predicate NoCapitals(t: string) {
    forall k :: 0 <= k < |t| ==> !('A' <= t[k] <= 'Z')
  }

  predicate NoSpace(t: string) {
    forall k :: 0 <= k < |t| ==> !IsSpace(t[k])
  }

  /** No whitespace, exactly one '@' and not in first place, and a '.' after the character that follows the '@' and before the last. */
  predicate EmailShape(t: string) {
    && NoSpace(t)
    && '@' in t
    && 0 < IndexOf(t, '@')
    && '@' !in t[IndexOf(t, '@') + 1..]
    && exists d :: IndexOf(t, '@') + 1 < d < |t| - 1 && t[d] == '.'
  }

  lemma {:induction false} EmailSplitNoSpace(t: string, i: int, d: int)
    requires 0 < i && i + 1 < d && d + 1 < |t| && EmailSplit(t, i, d)
    ensures NoSpace(t)
  {
    forall k | 0 <= k < |t| ensures !IsSpace(t[k]) {
      if k < i { assert t[k] == t[..i][k]; }
      else if i < k < d { assert t[k] == t[i + 1..d][k - i - 1]; }
      else if d < k { assert t[k] == t[d + 1..][k - d - 1]; }
    }
  }

  lemma {:induction false} EmailRegexHasShape(t: string)
    requires MatchesEmailRegex(t)
    ensures EmailShape(t)
  {
    var i, d :| 0 < i && i + 1 < d && d + 1 < |t| && EmailSplit(t, i, d);
    EmailSplitNoSpace(t, i, d);
    assert '@' !in t[..i] by {
      forall k | 0 <= k < i ensures t[..i][k] != '@' { }
    }
    IndexOfUnique(t, '@', i);
    assert t[i + 1..] == t[i + 1..d] + [t[d]] + t[d + 1..];
    var mid, tail := t[i + 1..d], t[d + 1..];
    assert '@' !in mid by {
      forall k | 0 <= k < |mid| ensures mid[k] != '@' { }
    }
    assert '@' !in tail by {
      forall k | 0 <= k < |tail| ensures tail[k] != '@' { }
    }
  }

  lemma {:induction false} EmailShapeMatchesRegex(t: string)
    requires EmailShape(t)
    ensures MatchesEmailRegex(t)
  {
    var i := IndexOf(t, '@');
    var d :| i + 1 < d < |t| - 1 && t[d] == '.';
    assert t[i + 1..d] == t[i + 1..][..d - i - 1];
    assert t[d + 1..] == t[i + 1..][d - i..];
    assert NoSpaceNoAt(t[..i]);
    var after, mid, tail := t[i + 1..], t[i + 1..d], t[d + 1..];
    assert NoSpaceNoAt(mid) by {
      forall k | 0 <= k < |mid| ensures !IsSpace(mid[k]) && mid[k] != '@' {
        assert mid[k] == t[i + 1 + k] == after[k];
      }
    }
    assert NoSpaceNoAt(tail) by {
      forall k | 0 <= k < |tail| ensures !IsSpace(tail[k]) && tail[k] != '@' {
        assert tail[k] == t[d + 1 + k] == after[d - i + k];
      }
    }
    assert EmailSplit(t, i, d);
  }

  /** What the pattern accepts, stated without it. */
  lemma EmailRegexShape(t: string)
    ensures MatchesEmailRegex(t) <==> EmailShape(t)
  {
    if MatchesEmailRegex(t) { EmailRegexHasShape(t); }
    if EmailShape(t) { EmailShapeMatchesRegex(t); }
  }

  /**
   * `sanitizeEmail(email)`: the empty string passes through; otherwise the
   * trimmed, lower-cased address must match the pattern (else the function
   * throws) and is cut to 254 characters.
   */
  function SanitizeEmail(email: string): (r: Result<string, EmailError>)
    ensures email == "" ==> r == Ok("")
    ensures email != "" ==> (r.Ok? <==> MatchesEmailRegex(ToLower(Trim(email))))
    ensures r.Ok? ==> |r.value| <= EmailMaxLength && |r.value| <= |ToLower(Trim(email))|
    ensures r.Ok? ==> r.value == ToLower(Trim(email))[..|r.value|]
    ensures r.Ok? ==> |r.value| == EmailMaxLength || r.value == ToLower(Trim(email))
    ensures r.Ok? ==> NoSpace(r.value) && NoCapitals(r.value)
  {
    if email == "" then Ok("")
    else
      var trimmed := ToLower(Trim(email));
      if !MatchesEmailRegex(trimmed) then Err(InvalidEmailFormat)
      else
        TakeKeepsClean(trimmed, EmailMaxLength);
        Ok(Take(trimmed, EmailMaxLength))
  }

  /** A prefix of an accepted address without capitals has no whitespace and no capitals. */
  lemma TakeKeepsClean(t: string, n: nat)
    requires MatchesEmailRegex(t) && NoCapitals(t)
    ensures NoSpace(Take(t, n)) && NoCapitals(Take(t, n))
  {
    EmailRegexHasShape(t);
    var r := Take(t, n);
    forall k | 0 <= k < |r| ensures !IsSpace(r[k]) && !('A' <= r[k] <= 'Z') { assert r[k] == t[k]; }
  }

  // ---------------------------------------------------------------- sanitizePhone

  /** A character kept by `/[^\d+\s-()]/g`: a digit, '+', whitespace, '-', '(' or ')'. */
  predicate IsPhoneChar(c: char) {
    ('0' <= c <= '9') || c == '+' || IsSpace(c) || c == '-' || c == '(' || c == ')'
  }

  /** `s.replace(/[^\d+\s-()]/g, '')`: the characters a phone number may hold, in order. */
  function KeepPhoneChars(s: string): (r: string)
    ensures |s| == 1 ==> (r == s <==> IsPhoneChar(s[0])) && (r == [] <==> !IsPhoneChar(s[0]))
    ensures |r| <= |s|
    ensures IsSubsequence(r, s)
    ensures forall k :: 0 <= k < |r| ==> IsPhoneChar(r[k])
    ensures (forall k :: 0 <= k < |s| ==> IsPhoneChar(s[k])) ==> r == s
  {
    if s == [] then []
    else if IsPhoneChar(s[0]) then [s[0]] + KeepPhoneChars(s[1..])
    else KeepPhoneChars(s[1..])
  }

  /** Filtering a concatenation filters each part. */
  lemma {:induction false} KeepPhoneCharsConcat(a: string, b: string)
    ensures KeepPhoneChars(a + b) == KeepPhoneChars(a) + KeepPhoneChars(b)
    decreases |a|
  {
    if a != [] {
      assert (a + b)[0] == a[0] && (a + b)[1..] == a[1..] + b;
      KeepPhoneCharsConcat(a[1..], b);
    } else {
      assert a + b == b;
    }
  }

  /** `sanitizePhone(phone)`: every other character is removed, then the result is cut to 20. */
  function SanitizePhone(phone: string): (r: string)
    ensures |r| <= PhoneMaxLength
    ensures |r| <= |KeepPhoneChars(phone)| && r == KeepPhoneChars(phone)[..|r|]
    ensures |r| == PhoneMaxLength || r == KeepPhoneChars(phone)
    ensures forall k :: 0 <= k < |r| ==> IsPhoneChar(r[k])
    ensures IsSubsequence(r, phone)
  {
    if phone == "" then ""
    else
      var cleaned := KeepPhoneChars(phone);
      PrefixOfSubsequence(cleaned, phone, |Take(cleaned, PhoneMaxLength)|);
      Take(cleaned, PhoneMaxLength)
  }

  /** Sanitising a sanitised number changes nothing. */
  lemma SanitizePhoneIdempotent(phone: string)
    ensures SanitizePhone(SanitizePhone(phone)) == SanitizePhone(phone)
  {
  }
}
