// Helpers both outcome views share: the compact `yyyymmdd_hhmm` date the
// analysis uses for promised payment dates and its rendering, and the
// clean-up of question codes (underscores to spaces, a leading word
// stripped).

module Outcome {
  import opened Text

  /** `/^\d{8}_\d{4}$/`: eight digits, an underscore, four digits. */
  predicate IsCompactStamp(v: string) {
    |v| == 13 && AllDigits(v[..8]) && v[8] == '_' && AllDigits(v[9..])
  }

  /** `dd/mm/yyyy` + `sep` + `hh:mm`, cut from fixed positions. */
  function RenderStamp(v: string, sep: string): (r: string)
    requires IsCompactStamp(v)
    ensures |r| == 15 + |sep|
    ensures r[2] == '/' && r[5] == '/' && r[12 + |sep|] == ':'
    ensures r[10..10 + |sep|] == sep
  {
    v[6..8] + "/" + v[4..6] + "/" + v[..4] + sep + v[9..11] + ":" + v[11..13]
  }

  /** Reads a rendered date back into the compact form. */
  function UnrenderStamp(r: string, sep: string): string
    requires |r| == 15 + |sep|
  {
    r[6..10] + r[3..5] + r[0..2] + "_" + r[10 + |sep|..12 + |sep|] + r[13 + |sep|..15 + |sep|]
  }

  /** Rendering loses nothing: the compact date is recovered from it. */
  lemma StampRoundTrip(v: string, sep: string)
    requires IsCompactStamp(v)
    ensures UnrenderStamp(RenderStamp(v, sep), sep) == v
  {
    var r := RenderStamp(v, sep);
    assert r[6..10] == v[..4] && r[3..5] == v[4..6] && r[0..2] == v[6..8];
    assert r[10 + |sep|..12 + |sep|] == v[9..11] && r[13 + |sep|..15 + |sep|] == v[11..13];
    assert v == v[..4] + v[4..6] + v[6..8] + "_" + v[9..11] + v[11..13];
  }

  /** A rendered date never reads as a compact one: it has a `/` where
      the compact form has a digit. */
  lemma RenderedIsNotStamp(v: string, sep: string)
    requires IsCompactStamp(v)
    ensures RenderStamp(v, sep) != v
  {
    var r := RenderStamp(v, sep);
    assert v[..8][2] == v[2];
  }

  /** A question code with every underscore turned into a space. */
  function Spaced(code: string): (r: string)
    ensures |r| == |code| && '_' !in r
    ensures forall i :: 0 <= i < |code| ==> r[i] == if code[i] == '_' then ' ' else code[i]
  {
    var r := ReplaceChars(code, {'_'}, ' ');
    assert forall i :: 0 <= i < |r| ==> r[i] != '_';
    r
  }

  /** `/^w\s/.test(s)`: `s` starts with `w` and a whitespace character. */
  predicate LeadsWith(s: string, w: string) {
    StartsWith(s, w) && |s| > |w| && IsWhite(s[|w|])
  }

  /** The text with a leading word `w` and the white space after it cut off. */
  function StripWord(s: string, w: string): string
  {
    if LeadsWith(s, w) then s[|w| + 1..] else s
  }

  /** A leading word followed by a space is cut, leaving exactly what
      follows the space. */
  lemma StripWordCut(w: string, rest: string)
    ensures StripWord(w + " " + rest, w) == rest
  {
    var s := w + " " + rest;
    assert s[..|w|] == w && s[|w|] == ' ' && s[|w| + 1..] == rest;
  }

  /** A text starting with another letter than the word is left alone. */
  lemma StripWordSkip(s: string, w: string)
    requires s != [] && w != [] && s[0] != w[0]
    ensures StripWord(s, w) == s
  {
    if |w| <= |s| {
      assert s[..|w|][0] != w[0];
    }
  }
}
