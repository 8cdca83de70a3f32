// `encodeURIComponent`, used to pass a storage URL to the relay endpoint as
// its `url` query parameter: every character outside the unreserved set
// becomes the percent-escaped bytes of its UTF-8 encoding. When the relay
// reads the parameter back it percent-unescapes and UTF-8 decodes it; on
// the output of `EncodeURIComponent`, which holds no `+` and no malformed
// escape, that is what `Unescape` and `Utf8Decode` do. On other text the
// relay also reads `+` as a space and keeps malformed escapes, where
// `Unescape` gives `None`.

module Uri {
  import opened Text
  import opened Json

  type Byte = b: int | 0 <= b < 256

  /** The characters `encodeURIComponent` leaves as they are. */
  predicate Unreserved(c: char) {
    ('A' <= c <= 'Z') || ('a' <= c <= 'z') || ('0' <= c <= '9') ||
    c == '-' || c == '_' || c == '.' || c == '!' || c == '~' ||
    c == '*' || c == '\'' || c == '(' || c == ')'
  }

  /** The UTF-8 encoding of one Unicode scalar value. */
  function Utf8Char(c: char): (r: seq<Byte>)
    ensures 1 <= |r| <= 4
    ensures (|r| == 1) == (c as int < 0x80)
  {
    var cp := c as int;
    if cp < 0x80 then [cp]
    else if cp < 0x800 then [0xC0 + cp / 64, 0x80 + cp % 64]
    else if cp < 0x10000 then [0xE0 + cp / 4096, 0x80 + (cp / 64) % 64, 0x80 + cp % 64]
    else [0xF0 + cp / 262144, 0x80 + (cp / 4096) % 64, 0x80 + (cp / 64) % 64, 0x80 + cp % 64]
  }

  function Utf8(s: string): seq<Byte> {
    if s == [] then [] else Utf8Char(s[0]) + Utf8(s[1..])
  }

  function HexDigit(d: nat): (r: char)
    requires d < 16
    ensures IsHexDigit(r) && HexValue(r) == d
  {
    if d < 10 then ('0' as int + d) as char else ('A' as int + d - 10) as char
  }

  predicate IsHexDigit(c: char) {
    ('0' <= c <= '9') || ('A' <= c <= 'F') || ('a' <= c <= 'f')
  }

  function HexValue(c: char): (r: nat)
    requires IsHexDigit(c)
    ensures r < 16
  {
    if '0' <= c <= '9' then c as int - '0' as int
    else if 'A' <= c <= 'F' then c as int - 'A' as int + 10
    else c as int - 'a' as int + 10
  }

  /** `%XY` with upper-case hexadecimal digits. */
  function Escape(b: Byte): (r: string)
    ensures |r| == 3 && r[0] == '%'
  {
    ['%', HexDigit(b / 16), HexDigit(b % 16)]
  }

  function EscapeAll(bs: seq<Byte>): (r: string)
    ensures |r| == 3 * |bs|
  {
    if bs == [] then [] else Escape(bs[0]) + EscapeAll(bs[1..])
  }

  function EncodeChar(c: char): string {
    if Unreserved(c) then [c] else EscapeAll(Utf8Char(c))
  }

  /** `encodeURIComponent(s)`. Dafny strings hold only Unicode scalar
      values, so the lone-surrogate error case cannot arise. */
  function EncodeURIComponent(s: string): (r: string)
    ensures forall i :: 0 <= i < |r| ==> Unreserved(r[i]) || r[i] == '%' || IsHexDigit(r[i])
  {
    if s == [] then []
    else
      var head := EncodeChar(s[0]);
      assert forall i :: 0 <= i < |head| ==> Unreserved(head[i]) || head[i] == '%' || IsHexDigit(head[i]) by {
        if !Unreserved(s[0]) {
          EscapeAllAlphabet(Utf8Char(s[0]));
        }
      }
      head + EncodeURIComponent(s[1..])
  }

  lemma {:induction false} EscapeAllAlphabet(bs: seq<Byte>)
    ensures forall i :: 0 <= i < |EscapeAll(bs)| ==> EscapeAll(bs)[i] == '%' || IsHexDigit(EscapeAll(bs)[i])
  {
    if bs != [] {
      EscapeAllAlphabet(bs[1..]);
      var e, rest := Escape(bs[0]), EscapeAll(bs[1..]);
      assert EscapeAll(bs) == e + rest;
      forall i | 0 <= i < |EscapeAll(bs)|
        ensures EscapeAll(bs)[i] == '%' || IsHexDigit(EscapeAll(bs)[i])
      {
        if i >= 3 {
          assert EscapeAll(bs)[i] == rest[i - 3];
        }
      }
    }
  }

  /** A string made only of unreserved characters passes through unchanged. */
  lemma {:induction false} EncodeUnreserved(s: string)
    requires forall i :: 0 <= i < |s| ==> Unreserved(s[i])
    ensures EncodeURIComponent(s) == s
  {
    if s != [] {
      EncodeUnreserved(s[1..]);
    }
  }

  /** Percent-unescaping: `%XY` gives the byte XY, any other ASCII
      character its own code; anything else is malformed. */
  function Unescape(t: string): (r: Option<seq<Byte>>)
    decreases |t|
  {
    if t == [] then Some([])
    else if t[0] == '%' then
      if |t| >= 3 && IsHexDigit(t[1]) && IsHexDigit(t[2]) then
        match Unescape(t[3..])
        case None => None
        case Some(rest) => Some([16 * HexValue(t[1]) + HexValue(t[2])] + rest)
      else None
    else if t[0] as int < 0x80 then
      match Unescape(t[1..])
      case None => None
      case Some(rest) => Some([t[0] as int] + rest)
    else None
  }

  lemma {:induction false} UnescapeAppend(bs: seq<Byte>, t: string)
    ensures Unescape(EscapeAll(bs) + t) ==
      match Unescape(t)
      case None => None
      case Some(rest) => Some(bs + rest)
  {
    if bs != [] {
      var e := Escape(bs[0]);
      assert EscapeAll(bs) + t == e + (EscapeAll(bs[1..]) + t);
      UnescapeAppend(bs[1..], t);
      var u := e + (EscapeAll(bs[1..]) + t);
      assert u[3..] == EscapeAll(bs[1..]) + t;
      assert u[0] == '%' && IsHexDigit(u[1]) && IsHexDigit(u[2]);
      assert 16 * HexValue(u[1]) + HexValue(u[2]) == bs[0];
      match Unescape(t)
      case None =>
      case Some(rest) =>
        assert [bs[0]] + (bs[1..] + rest) == bs + rest;
    } else {
      assert EscapeAll(bs) + t == t;
      match Unescape(t)
      case None =>
      case Some(rest) => assert bs + rest == rest;
    }
  }

  /** Unescaping the encoding of a string gives back its UTF-8 bytes. */
  lemma {:induction false} UnescapeEncode(s: string)
    ensures Unescape(EncodeURIComponent(s)) == Some(Utf8(s))
  {
    if s != [] {
      UnescapeEncode(s[1..]);
      var c, rest := s[0], EncodeURIComponent(s[1..]);
      assert EncodeURIComponent(s) == EncodeChar(c) + rest;
      if Unreserved(c) {
        assert (EncodeChar(c) + rest)[1..] == rest;
        assert Utf8Char(c) == [c as int];
      } else {
        UnescapeAppend(Utf8Char(c), rest);
      }
    }
  }

  /** Decoding UTF-8 back to scalar values. */
  function Utf8Decode(bs: seq<Byte>): (r: Option<string>)
    decreases |bs|
  {
    if bs == [] then Some([])
    else
      var n := UnitLength(bs[0]);
      if |bs| < n then None
      else
        match DecodeUnit(bs[..n])
        case None => None
        case Some(c) =>
          match Utf8Decode(bs[n..])
          case None => None
          case Some(rest) => Some([c] + rest)
  }

  /** The scalar value one encoded unit stands for, if it is one. */
  function DecodeUnit(u: seq<Byte>): Option<char>
    requires 1 <= |u| <= 4
  {
    var cp :=
      if |u| == 1 then u[0] as int
      else if |u| == 2 then (u[0] as int - 0xC0) * 64 + (u[1] as int - 0x80)
      else if |u| == 3 then (u[0] as int - 0xE0) * 4096 + (u[1] as int - 0x80) * 64 + (u[2] as int - 0x80)
      else (u[0] as int - 0xF0) * 262144 + (u[1] as int - 0x80) * 4096 + (u[2] as int - 0x80) * 64 + (u[3] as int - 0x80);
    if 0 <= cp < 0xD800 || 0xE000 <= cp < 0x110000 then Some(cp as char) else None
  }

  /** The length the lead byte announces for a unit. */
  function UnitLength(b: Byte): nat {
    if b < 0x80 then 1 else if b < 0xE0 then 2 else if b < 0xF0 then 3 else 4
  }

  lemma Utf8CharDecodes(c: char)
    ensures |Utf8Char(c)| == UnitLength(Utf8Char(c)[0])
    ensures DecodeUnit(Utf8Char(c)) == Some(c)
  {
    var cp := c as int;
    var u := Utf8Char(c);
    if cp < 0x80 {
    } else if cp < 0x800 {
      var q, r := cp / 64, cp % 64;
      assert cp == q * 64 + r;
      assert u == [0xC0 + q, 0x80 + r];
    } else if cp < 0x10000 {
      var q, r := cp / 64, cp % 64;
      var q2, r2 := q / 64, q % 64;
      assert cp == q * 64 + r && q == q2 * 64 + r2;
      assert cp / 4096 == q2;
      assert u == [0xE0 + q2, 0x80 + r2, 0x80 + r];
    } else {
      var q, r := cp / 64, cp % 64;
      var q2, r2 := q / 64, q % 64;
      var q3, r3 := q2 / 64, q2 % 64;
      assert cp == q * 64 + r && q == q2 * 64 + r2 && q2 == q3 * 64 + r3;
      assert cp / 4096 == q2 && cp / 262144 == q3;
      assert u == [0xF0 + q3, 0x80 + r3, 0x80 + r2, 0x80 + r];
    }
  }

  lemma {:induction false} Utf8RoundTrip(s: string)
    ensures Utf8Decode(Utf8(s)) == Some(s)
  {
    if s != [] {
      Utf8RoundTrip(s[1..]);
      var u, rest := Utf8Char(s[0]), Utf8(s[1..]);
      Utf8CharDecodes(s[0]);
      var bs := u + rest;
      assert Utf8(s) == bs;
      assert bs[0] == u[0] && UnitLength(bs[0]) == |u|;
      assert bs[..|u|] == u && bs[|u|..] == rest;
      assert [s[0]] + s[1..] == s;
    }
  }

  /** Unescaping and UTF-8 decoding undo `encodeURIComponent` exactly. */
  lemma DecodeEncode(s: string)
    ensures Unescape(EncodeURIComponent(s)) == Some(Utf8(s))
    ensures Utf8Decode(Utf8(s)) == Some(s)
  {
    UnescapeEncode(s);
    Utf8RoundTrip(s);
  }
}
