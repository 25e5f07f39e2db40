/** `getPartialName` of src/lib/utils.ts: a full name shortened to "First L.". */
module Names {
  import opened Wrappers
  import opened JsString

  /** What a missing or empty name is shown as. */
  const Anonymous := "Usuario"

  /** A trimmed string never ends with a space, so the piece after its last space is not empty. */
  lemma OuterTokens(t: string)
    requires t == [] || !IsSpace(t[|t| - 1])
    ensures var names := Split(t, ' ');
      (|names| >= 2 <==> ' ' in t) &&
      (' ' in t ==> names[0] == t[..IndexOf(t, ' ')] &&
                    LastIndexOf(t, ' ') + 1 < |t| &&
                    names[|names| - 1] == t[LastIndexOf(t, ' ') + 1..])
  {
    if ' ' in t {
      SplitFirst(t, ' ');
      SplitLast(t, ' ');
      assert IsSpace(t[LastIndexOf(t, ' ')]);
    }
  }

  /**
   * `getPartialName(fullName)`: "Usuario" for a missing or empty name;
   * otherwise the trimmed name is split at single spaces and, when there is
   * more than one piece, the first piece is followed by the initial of the
   * last piece and a full stop.
   */
  function GetPartialName(fullName: Option<string>): (r: string)
    ensures fullName.None? || fullName == Some("") ==> r == Anonymous
    ensures fullName.Some? && fullName.value != "" && ' ' !in Trim(fullName.value) ==> r == Trim(fullName.value)
    ensures fullName.Some? && ' ' in Trim(fullName.value) ==>
      var t := Trim(fullName.value);
      LastIndexOf(t, ' ') + 1 < |t| &&
      r == t[..IndexOf(t, ' ')] + " " + [t[LastIndexOf(t, ' ') + 1]] + "."
  {
    if fullName.None? || fullName.value == "" then Anonymous
    else
      var t := Trim(fullName.value);
      var names := Split(t, ' ');
      OuterTokens(t);
      if |names| == 1 then names[0]
      else
        var last := names[|names| - 1];
        names[0] + " " + [last[0]] + "."
  }

  /** A name of only whitespace is not empty, so it skips the fallback and comes out as "". */
  lemma WhitespaceNameIsEmpty(s: string)
    requires s != "" && AllSpace(s)
    ensures GetPartialName(Some(s)) == ""
  {
  }

  /** Where the first and the last space of `first + " " + middle + " " + last` are. */
  lemma OuterSpaces(s: string, first: string, middle: string, last: string)
    requires s == first + " " + middle + " " + last
    requires ' ' !in first && ' ' !in last && last != []
    ensures IndexOf(s, ' ') == |first| && s[..|first|] == first
    ensures LastIndexOf(s, ' ') == |s| - |last| - 1 && s[|s| - |last|] == last[0]
  {
    assert s[|first|] == ' ' && s[..|first|] == first;
    IndexOfUnique(s, ' ', |first|);
    var j := |s| - |last| - 1;
    assert s[j] == ' ' && s[j + 1..] == last;
    LastIndexOfUnique(s, ' ', j);
  }

  /**
   * Only the first and the last words count: whatever stands between them,
   * extra spaces included, does not change the result.
   */
  lemma {:induction false} MiddleIgnored(first: string, middle: string, last: string)
    requires first != [] && last != []
    requires ' ' !in first && ' ' !in last
    requires !IsSpace(first[0]) && !IsSpace(last[|last| - 1])
    ensures GetPartialName(Some(first + " " + middle + " " + last)) == first + " " + [last[0]] + "."
  {
    var s := first + " " + middle + " " + last;
    assert s[0] == first[0] && s[|s| - 1] == last[|last| - 1];
    TrimOfTrimmed(s);
    assert ' ' in s by { assert s[|first|] == ' '; }
    OuterSpaces(s, first, middle, last);
  }
}
