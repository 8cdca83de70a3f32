/** String helpers with the meaning JavaScript gives them: white space as `\s`
    and `String.prototype.trim` see it, `slice(-n)`, `join`, `split`,
    `replace` with a global character class, and `Number.prototype.toString`
    for integers. Strings are sequences of Unicode scalar values. */
module Text {

  /** The characters JavaScript counts as white space (WhiteSpace and
      LineTerminator of ECMA-262): what `\s` matches and what `trim` removes. */
  predicate IsWhite(c: char) {
    c == '\t' || c == '\n' || c == '\U{000B}' || c == '\U{000C}' || c == '\r' || c == ' '
    || c == '\U{00A0}' || c == '\U{1680}' || ('\U{2000}' <= c <= '\U{200A}')
    || c == '\U{2028}' || c == '\U{2029}' || c == '\U{202F}' || c == '\U{205F}'
    || c == '\U{3000}' || c == '\U{FEFF}'
  }

  /** `\d` in a JavaScript regular expression without the u flag: ASCII digits only. */
  predicate IsDigit(c: char) {
    '0' <= c <= '9'
  }

  predicate IsAsciiLetter(c: char) {
    ('a' <= c <= 'z') || ('A' <= c <= 'Z')
  }

  predicate AllWhite(s: string) {
    forall i :: 0 <= i < |s| ==> IsWhite(s[i])
  }

  predicate AllDigits(s: string) {
    forall i :: 0 <= i < |s| ==> IsDigit(s[i])
  }

  /** How many white-space characters `s` starts with. */
  function LeadingWhite(s: string): (n: nat)
    ensures n <= |s|
  {
    if s != [] && IsWhite(s[0]) then 1 + LeadingWhite(s[1..]) else 0
  }

  /** How many white-space characters `s` ends with. */
  function TrailingWhite(s: string): (n: nat)
    ensures n <= |s|
  {
    if s != [] && IsWhite(s[|s| - 1]) then 1 + TrailingWhite(s[..|s| - 1]) else 0
  }

  /** `s.trim()`: `s` without its leading white space, then without its
      trailing white space. */
  function Trim(s: string): string {
    var a := LeadingWhite(s);
    s[a..|s| - TrailingWhite(s[a..])]
  }

  lemma {:induction false} LeadingWhiteSpec(s: string)
    ensures forall k :: 0 <= k < LeadingWhite(s) ==> IsWhite(s[k])
    ensures LeadingWhite(s) < |s| ==> !IsWhite(s[LeadingWhite(s)])
  {
    if s != [] && IsWhite(s[0]) {
      var t := s[1..];
      LeadingWhiteSpec(t);
      forall k | 1 <= k < LeadingWhite(s) ensures IsWhite(s[k]) {
        assert s[k] == t[k - 1];
      }
      if LeadingWhite(s) < |s| {
        assert s[LeadingWhite(s)] == t[LeadingWhite(t)];
      }
    }
  }

  lemma {:induction false} TrailingWhiteSpec(s: string)
    ensures forall k :: |s| - TrailingWhite(s) <= k < |s| ==> IsWhite(s[k])
    ensures TrailingWhite(s) < |s| ==> !IsWhite(s[|s| - 1 - TrailingWhite(s)])
  {
    if s != [] && IsWhite(s[|s| - 1]) {
      var t := s[..|s| - 1];
      TrailingWhiteSpec(t);
      forall k | |s| - TrailingWhite(s) <= k < |s| - 1 ensures IsWhite(s[k]) {
        assert s[k] == t[k];
      }
      if TrailingWhite(s) < |s| {
        assert s[|s| - 1 - TrailingWhite(s)] == t[|t| - 1 - TrailingWhite(t)];
      }
    }
  }

  /** What `trim` keeps is the slice `s[a..b]`: everything outside it is
      white space, and it neither starts nor ends with white space. */
  lemma TrimBounds(s: string) returns (a: nat, b: nat)
    ensures a <= b <= |s| && Trim(s) == s[a..b]
    ensures forall k :: 0 <= k < |s| && (k < a || b <= k) ==> IsWhite(s[k])
    ensures a < b ==> !IsWhite(s[a]) && !IsWhite(s[b - 1])
  {
    a := LeadingWhite(s);
    var t := s[a..];
    b := |s| - TrailingWhite(t);
    LeadingWhiteSpec(s);
    TrailingWhiteSpec(t);
    forall k | b <= k < |s| ensures IsWhite(s[k]) {
      assert s[k] == t[k - a];
    }
    if a < b {
      assert s[a] == t[0];
      assert s[b - 1] == t[|t| - 1 - TrailingWhite(t)];
    }
  }

  /** `s.trim()` is empty exactly when every character of `s` is white space. */
  lemma TrimEmptyIffAllWhite(s: string)
    ensures Trim(s) == [] <==> AllWhite(s)
  {
    var a, b := TrimBounds(s);
    if a < b {
      assert !IsWhite(s[a]);
    }
  }

  /** `s.slice(-n)` for n > 0: the last n characters, or all of `s` when it
      is shorter. */
  function Last(s: string, n: nat): (r: string)
    ensures |r| == if |s| < n then |s| else n
    ensures r == s[|s| - |r|..]
  {
    if |s| <= n then s else s[|s| - n..]
  }

  /** A character outside the Basic Multilingual Plane: UTF-16 writes it
      as a surrogate pair. */
  predicate IsAstral(c: char) {
    c >= '\U{10000}'
  }

  /** `s.length`: the number of UTF-16 code units, two for a character
      outside the Basic Multilingual Plane and one for any other. */
  function Utf16Length(s: string): nat {
    if s == [] then 0 else (if IsAstral(s[0]) then 2 else 1) + Utf16Length(s[1..])
  }

  /** The UTF-16 length lies between the character count and twice it,
      and equals the count exactly when no character is outside the
      Basic Multilingual Plane. */
  lemma {:induction false} Utf16LengthSpec(s: string)
    ensures |s| <= Utf16Length(s) <= 2 * |s|
    ensures Utf16Length(s) == |s| <==> forall k :: 0 <= k < |s| ==> !IsAstral(s[k])
  {
    if s != [] {
      var t := s[1..];
      Utf16LengthSpec(t);
      if Utf16Length(s) == |s| {
        forall k | 0 <= k < |s| ensures !IsAstral(s[k]) {
          if k > 0 {
            assert s[k] == t[k - 1];
          }
        }
      }
      if forall k :: 0 <= k < |s| ==> !IsAstral(s[k]) {
        forall k | 0 <= k < |t| ensures !IsAstral(t[k]) {
          assert t[k] == s[k + 1];
        }
      }
    }
  }

  /** `s.replace(/[...]/g, by)`: every character in `hit` becomes `sub`. */
  function ReplaceChars(s: string, hit: set<char>, sub: char): (r: string)
    ensures |r| == |s|
    ensures forall i :: 0 <= i < |s| ==> r[i] == (if s[i] in hit then sub else s[i])
  {
    if s == [] then [] else [if s[0] in hit then sub else s[0]] + ReplaceChars(s[1..], hit, sub)
  }

  /** `s.replace(/[...]/g, "")`: every character in `drop` removed. */
  function RemoveWhere(s: string, drop: char -> bool): (r: string)
    ensures |r| <= |s|
    ensures forall i :: 0 <= i < |r| ==> !drop(r[i])
  {
    if s == [] then []
    else if drop(s[0]) then RemoveWhere(s[1..], drop)
    else [s[0]] + RemoveWhere(s[1..], drop)
  }

  /** Removal works character by character and keeps the order: it maps
      the empty string to itself, a single character to nothing or to
      itself, and a concatenation to the concatenation of the parts'
      results. These three facts determine the result on every string. */
  lemma {:induction false} RemoveWhereSpec(a: string, b: string, c: char, drop: char -> bool)
    ensures RemoveWhere([], drop) == []
    ensures RemoveWhere([c], drop) == if drop(c) then [] else [c]
    ensures RemoveWhere(a + b, drop) == RemoveWhere(a, drop) + RemoveWhere(b, drop)
  {
    assert [c][1..] == [];
    if a == [] {
      assert a + b == b;
    } else {
      assert (a + b)[0] == a[0] && (a + b)[1..] == a[1..] + b;
      RemoveWhereSpec(a[1..], b, c, drop);
    }
  }

  lemma RemoveWhereKeepsClean(s: string, drop: char -> bool)
    requires forall i :: 0 <= i < |s| ==> !drop(s[i])
    ensures RemoveWhere(s, drop) == s
  {
    if s != [] {
      RemoveWhereKeepsClean(s[1..], drop);
    }
  }

  function StartsWith(s: string, p: string): bool {
    |p| <= |s| && s[..|p|] == p
  }

  /** The parts joined, with `sep` between each two. */
  function Join(parts: seq<string>, sep: string): string {
    if |parts| == 0 then ""
    else if |parts| == 1 then parts[0]
    else parts[0] + sep + Join(parts[1..], sep)
  }

  /** `s.split(c)` for a one-character separator: never empty; the empty
      string splits into one empty part. */
  function Split(s: string, c: char): (r: seq<string>)
    ensures |r| >= 1
  {
    if s == [] then [""]
    else
      var rest := Split(s[1..], c);
      if s[0] == c then [""] + rest else [[s[0]] + rest[0]] + rest[1..]
  }

  /** Joining the parts of a split with the separator gives back the string. */
  lemma {:induction false} JoinSplit(s: string, c: char)
    ensures Join(Split(s, c), [c]) == s
  {
    if s != [] {
      var rest := Split(s[1..], c);
      JoinSplit(s[1..], c);
      if s[0] == c {
        assert Split(s, c) == [""] + rest;
        assert Join(Split(s, c), [c]) == "" + [c] + Join(rest, [c]);
        assert s == [s[0]] + s[1..];
      } else {
        var parts := Split(s, c);
        assert parts == [[s[0]] + rest[0]] + rest[1..];
        if |rest| == 1 {
          assert Join(parts, [c]) == [s[0]] + rest[0];
          assert s == [s[0]] + s[1..];
        } else {
          assert parts[1..] == rest[1..];
          assert Join(parts, [c]) == [s[0]] + rest[0] + [c] + Join(rest[1..], [c]);
          assert Join(rest, [c]) == rest[0] + [c] + Join(rest[1..], [c]);
          assert s == [s[0]] + s[1..];
        }
      }
    }
  }

  /** Splitting a join gives back the parts when no part holds the separator. */
  lemma {:induction false} SplitJoin(parts: seq<string>, c: char)
    requires |parts| >= 1
    requires forall k :: 0 <= k < |parts| ==> c !in parts[k]
    ensures Split(Join(parts, [c]), c) == parts
  {
    if |parts| == 1 {
      SplitNoSeparator(parts[0], c);
    } else {
      SplitJoin(parts[1..], c);
      SplitPrefix(parts[0], Join(parts[1..], [c]), c);
    }
  }

  lemma {:induction false} SplitNoSeparator(s: string, c: char)
    requires c !in s
    ensures Split(s, c) == [s]
  {
    if s != [] {
      SplitNoSeparator(s[1..], c);
      assert s == [s[0]] + s[1..];
    }
  }

  lemma {:induction false} SplitPrefix(w: string, rest: string, c: char)
    requires c !in w
    ensures Split(w + [c] + rest, c) == [w] + Split(rest, c)
  {
    if w == [] {
      assert w + [c] + rest == [c] + rest;
      assert ([c] + rest)[1..] == rest;
    } else {
      SplitPrefix(w[1..], rest, c);
      var s := w + [c] + rest;
      assert s[0] == w[0];
      assert s[1..] == w[1..] + [c] + rest;
      assert w == [w[0]] + w[1..];
    }
  }

  /** `c.toUpperCase()` for the ASCII letters; every other character is
      kept as it is. */
  function AsciiUpper(c: char): (r: char)
    ensures 'a' <= c <= 'z' ==> 'A' <= r <= 'Z' && r as int == c as int - 32
    ensures !('a' <= c <= 'z') ==> r == c
  {
    if 'a' <= c <= 'z' then (c as int - 32) as char else c
  }

  /** The word with its first character upper-cased. */
  function Capitalize(w: string): string
  {
    if w == [] then w else [AsciiUpper(w[0])] + w[1..]
  }

  /** Capitalising twice is capitalising once, and a word is left as it is
      exactly when it is empty or does not start with a lower-case letter. */
  lemma CapitalizeFixed(w: string)
    ensures Capitalize(Capitalize(w)) == Capitalize(w)
    ensures Capitalize(w) == w <==> w == [] || !('a' <= w[0] <= 'z')
  {
    if w != [] && 'a' <= w[0] <= 'z' {
      assert Capitalize(w)[0] != w[0];
    }
  }

  function CapitalizeAll(ws: seq<string>): (r: seq<string>)
    ensures |r| == |ws|
    ensures forall k :: 0 <= k < |ws| ==> r[k] == Capitalize(ws[k])
  {
    if ws == [] then [] else [Capitalize(ws[0])] + CapitalizeAll(ws[1..])
  }

  /** Every space-separated word of `s` capitalised. */
  function CapitalizeWords(s: string): string {
    Join(CapitalizeAll(Split(s, ' ')), " ")
  }

  /** `c` is `s` with exactly the characters that start a word (the first
      one and every one after a space) upper-cased. */
  predicate WordStartsUpper(s: string, c: string) {
    |c| == |s| &&
    forall i {:trigger c[i]} :: 0 <= i < |s| ==> c[i] == (if i == 0 || s[i - 1] == ' ' then AsciiUpper(s[i]) else s[i])
  }

  /** Capitalising the words of a string upper-cases exactly the characters
      that start a word and keeps the length and every other character. */
  lemma CapitalizeWordsAt(s: string)
    ensures WordStartsUpper(s, CapitalizeWords(s))
  {
    SplitPartsFree(s, ' ');
    CapitalizeJoinAt(Split(s, ' '));
    JoinSplit(s, ' ');
    assert [' '] == " ";
  }

  lemma {:induction false} SplitPartsFree(s: string, c: char)
    ensures forall k :: 0 <= k < |Split(s, c)| ==> c !in Split(s, c)[k]
  {
    if s != [] {
      SplitPartsFree(s[1..], c);
    }
  }

  /** Joining capitalised parts with spaces is joining the parts and
      upper-casing each character that starts a part. */
  lemma {:induction false} CapitalizeJoinAt(parts: seq<string>)
    requires forall k :: 0 <= k < |parts| ==> ' ' !in parts[k]
    ensures WordStartsUpper(Join(parts, " "), Join(CapitalizeAll(parts), " "))
  {
    if |parts| == 1 {
      var w := parts[0];
      assert CapitalizeAll(parts) == [Capitalize(w)];
      CapitalizeWord(w);
    } else if |parts| > 1 {
      var w, ws := parts[0], parts[1..];
      CapitalizeJoinAt(ws);
      var j', c' := Join(ws, " "), Join(CapitalizeAll(ws), " ");
      var caps := CapitalizeAll(parts);
      assert caps == [Capitalize(w)] + CapitalizeAll(ws);
      JoinCons(Capitalize(w), CapitalizeAll(ws), " ");
      var j, c := Join(parts, " "), Join(caps, " ");
      assert j == w + " " + j';
      assert c == Capitalize(w) + " " + c';
      assert |c| == |j|;
      forall i | 0 <= i < |j|
        ensures c[i] == (if i == 0 || j[i - 1] == ' ' then AsciiUpper(j[i]) else j[i])
      {
        if i < |w| {
          assert c[i] == Capitalize(w)[i] && j[i] == w[i];
          if i > 0 {
            assert j[i - 1] == w[i - 1];
            assert w[i - 1] in w;
          }
        } else if i == |w| {
          assert c[i] == ' ' && j[i] == ' ';
        } else {
          var k := i - |w| - 1;
          assert c[i] == c'[k] && j[i] == j'[k];
          if k > 0 {
            assert j[i - 1] == j'[k - 1];
          } else {
            assert j[i - 1] == ' ';
          }
        }
      }
      assert WordStartsUpper(j, c);
    } else {
      assert CapitalizeAll(parts) == [];
    }
  }

  /** A single word without spaces has only its first character upper-cased. */
  lemma CapitalizeWord(w: string)
    requires ' ' !in w
    ensures WordStartsUpper(w, Capitalize(w))
  {
    var c := Capitalize(w);
    forall i | 0 < i < |w|
      ensures c[i] == (if w[i - 1] == ' ' then AsciiUpper(w[i]) else w[i])
    {
      assert c[i] == c[1..][i - 1];
      assert w[i - 1] in w;
    }
  }

  /** `Join` of a first part and the rest. */
  lemma JoinCons(w: string, ws: seq<string>, sep: string)
    ensures Join([w] + ws, sep) == if ws == [] then w else w + sep + Join(ws, sep)
  {
    if ws != [] {
      assert ([w] + ws)[1..] == ws;
    }
  }

  /** The decimal digit of a value below ten. */
  function DigitChar(d: nat): char
    requires d < 10
  {
    ('0' as int + d) as char
  }

  function DigitValue(c: char): nat
    requires IsDigit(c)
  {
    c as int - '0' as int
  }

  /** `n.toString()` for a non-negative integer. */
  function NatToString(n: nat): (r: string)
    ensures |r| >= 1 && AllDigits(r)
    ensures r[0] == '0' ==> n == 0
  {
    if n < 10 then [DigitChar(n)] else NatToString(n / 10) + [DigitChar(n % 10)]
  }

  /** `n.toString()` for any integer. */
  function IntToString(n: int): (r: string)
    ensures |r| >= 1
    ensures n >= 0 ==> AllDigits(r) && DecimalValue(r) == n
    ensures n < 0 ==> r[0] == '-' && AllDigits(r[1..]) && DecimalValue(r[1..]) == -n
  {
    if n < 0 then
      var d := NatToString(-n);
      DecimalRoundTrip(-n);
      assert ("-" + d)[1..] == d;
      "-" + d
    else
      DecimalRoundTrip(n);
      NatToString(n)
  }

  /** The value of a string of decimal digits. */
  function DecimalValue(s: string): nat
    requires AllDigits(s)
  {
    if s == [] then 0 else DecimalValue(s[..|s| - 1]) * 10 + DigitValue(s[|s| - 1])
  }

  /** Reading back the decimal text of a number gives the number. */
  lemma {:induction false} DecimalRoundTrip(n: nat)
    ensures DecimalValue(NatToString(n)) == n
  {
    if n >= 10 {
      DecimalRoundTrip(n / 10);
      var r := NatToString(n);
      assert r[..|r| - 1] == NatToString(n / 10);
    }
  }

  /** Distinct numbers have distinct decimal texts. */
  lemma NatToStringInjective(m: nat, n: nat)
    requires NatToString(m) == NatToString(n)
    ensures m == n
  {
    DecimalRoundTrip(m);
    DecimalRoundTrip(n);
  }
}
