/** The authorization header the repository's constructor builds:
    `"Basic " + Buffer.from(username + ':' + password, 'binary').toString('base64')`,
    the Basic scheme of section 2 of RFC 7617 over the base64 alphabet of
    section 4 of RFC 4648. */
module BasicAuth {
  import opened Wrappers
  import opened Text

  type byte = b: int | 0 <= b < 256

  /** `Buffer.from(s, 'binary')`: each UTF-16 code unit of `s` becomes its low
      eight bits; a character outside the Basic Multilingual Plane is two
      code units (a surrogate pair). */
  function BinaryBytes(s: string): (b: seq<byte>)
    ensures |b| >= |s|
  {
    if s == [] then []
    else
      var c := s[0] as int;
      var units: seq<byte> :=
        if c < 0x1_0000 then [c % 256]
        else [((c - 0x1_0000) / 1024) % 256, (c - 0x1_0000) % 256];
      units + BinaryBytes(s[1..])
  }

  /** Characters that survive the 'binary' encoding unchanged. */
  predicate IsLatin1(s: string)
  {
    forall i :: 0 <= i < |s| ==> s[i] as int < 256
  }

  /** The text a byte sequence stands for when every byte is one character. */
  function Latin1Text(b: seq<byte>): (s: string)
    ensures |s| == |b| && IsLatin1(s)
    ensures forall i :: 0 <= i < |b| ==> s[i] as int == b[i]
  {
    seq(|b|, i requires 0 <= i < |b| => b[i] as char)
  }

  /** On Latin-1 text the 'binary' encoding is one byte per character, and
      reading the bytes back gives the text. */
  lemma {:induction false} BinaryBytesLatin1(s: string)
    requires IsLatin1(s)
    ensures |BinaryBytes(s)| == |s|
    ensures Latin1Text(BinaryBytes(s)) == s
  {
    if s != [] {
      BinaryBytesLatin1(s[1..]);
      assert Latin1Text(BinaryBytes(s))[1..] == Latin1Text(BinaryBytes(s[1..]));
    }
  }

  /** Characters above U+00FF lose their high bits: two passwords that differ
      only there give the same header. */
  lemma BinaryTruncates()
    ensures BinaryBytes("€") == BinaryBytes("¬")
  {
  }

  /** The base64 digit for a six-bit value (section 4 of RFC 4648). */
  function CharOf(v: nat): (c: char)
    requires v < 64
  {
    if v < 26 then ('A' as int + v) as char
    else if v < 52 then ('a' as int + v - 26) as char
    else if v < 62 then ('0' as int + v - 52) as char
    else if v == 62 then '+'
    else '/'
  }

  /** The six-bit value of a base64 digit, if it is one. */
  function ValueOf(c: char): (r: Option<nat>)
    ensures r.Some? ==> r.value < 64 && CharOf(r.value) == c
  {
    if 'A' <= c <= 'Z' then Some(c as int - 'A' as int)
    else if 'a' <= c <= 'z' then Some(c as int - 'a' as int + 26)
    else if '0' <= c <= '9' then Some(c as int - '0' as int + 52)
    else if c == '+' then Some(62)
    else if c == '/' then Some(63)
    else None
  }

  lemma ValueOfCharOf(v: nat)
    requires v < 64
    ensures ValueOf(CharOf(v)) == Some(v)
  {
  }

  /** The four six-bit values that three bytes are split into. */
  function Sextets(b0: byte, b1: byte, b2: byte): (v: seq<nat>)
    ensures |v| == 4 && forall i :: 0 <= i < 4 ==> v[i] < 64
  {
    [b0 / 4, b0 % 4 * 16 + b1 / 16, b1 % 16 * 4 + b2 / 64, b2 % 64]
  }

  /** The four digits for up to three bytes: `n` bytes are present, and the
      digits that stand only for absent bytes are `=` padding. */
  function EncodeGroup(b0: byte, b1: byte, b2: byte, n: nat): (g: string)
    requires 1 <= n <= 3
    ensures |g| == 4
  {
    var v := Sextets(b0, b1, b2);
    [CharOf(v[0]), CharOf(v[1]), if n > 1 then CharOf(v[2]) else '=', if n > 2 then CharOf(v[3]) else '=']
  }

  /** Base64 with padding: every three bytes become four digits; a final one
      or two bytes become two or three digits and `=` padding. */
  function Base64Encode(b: seq<byte>): string
    decreases |b|
  {
    if |b| == 0 then ""
    else if |b| == 1 then EncodeGroup(b[0], 0, 0, 1)
    else if |b| == 2 then EncodeGroup(b[0], b[1], 0, 2)
    else EncodeGroup(b[0], b[1], b[2], 3) + Base64Encode(b[3..])
  }

  /** Four digits for every started group of three bytes. */
  lemma {:induction false} EncodedLength(b: seq<byte>)
    decreases |b|
    ensures |Base64Encode(b)| == (|b| + 2) / 3 * 4
  {
    if |b| > 3 {
      EncodedLength(b[3..]);
    }
  }

  /** The three bytes that four six-bit values are joined into. */
  function Octets(v0: nat, v1: nat, v2: nat, v3: nat): (b: seq<byte>)
    requires v0 < 64 && v1 < 64 && v2 < 64 && v3 < 64
    ensures |b| == 3
  {
    [v0 * 4 + v1 / 16, v1 % 16 * 16 + v2 / 4, v2 % 4 * 64 + v3]
  }

  /** Joining undoes splitting, byte by byte. */
  lemma OctetsOfSextets(b0: byte, b1: byte, b2: byte)
    ensures var v := Sextets(b0, b1, b2);
      && v[0] * 4 + v[1] / 16 == b0
      && v[1] % 16 * 16 + v[2] / 4 == b1
      && v[2] % 4 * 64 + v[3] == b2
  {
    var v1 := b0 % 4 * 16 + b1 / 16;
    var v2 := b1 % 16 * 4 + b2 / 64;
    assert v1 / 16 == b0 % 4 && v1 % 16 == b1 / 16;
    assert v2 / 4 == b1 % 16 && v2 % 4 == b2 / 64;
  }

  /** Decodes one group of four digits; only the last group may be padded,
      and padding drops the bytes it stands for. */
  function DecodeGroup(g: string, last: bool): Option<seq<byte>>
    requires |g| == 4
  {
    var v0, v1, v2, v3 := ValueOf(g[0]), ValueOf(g[1]), ValueOf(g[2]), ValueOf(g[3]);
    if v0.None? || v1.None? then None
    else if last && g[2] == '=' && g[3] == '=' then Some(Octets(v0.value, v1.value, 0, 0)[..1])
    else if v2.None? then None
    else if last && g[3] == '=' then Some(Octets(v0.value, v1.value, v2.value, 0)[..2])
    else if v3.None? then None
    else Some(Octets(v0.value, v1.value, v2.value, v3.value))
  }

  /** The inverse of `Base64Encode`: `None` for text that is not base64. */
  function Base64Decode(s: string): Option<seq<byte>>
    decreases |s|
  {
    if |s| == 0 then Some([])
    else if |s| < 4 then None
    else
      match DecodeGroup(s[..4], |s| == 4)
      case None => None
      case Some(g) =>
        match Base64Decode(s[4..])
        case None => None
        case Some(rest) => Some(g + rest)
  }

  /** Decoding an encoded group gives its bytes back. */
  lemma DecodeEncodedGroup(b0: byte, b1: byte, b2: byte, n: nat, last: bool)
    requires 1 <= n <= 3 && (n < 3 ==> last)
    ensures DecodeGroup(EncodeGroup(b0, b1, b2, n), last) == Some([b0, b1, b2][..n])
  {
    var v := Sextets(b0, b1, b2);
    OctetsOfSextets(b0, b1, b2);
    ValueOfCharOf(v[0]);
    ValueOfCharOf(v[1]);
    ValueOfCharOf(v[2]);
    ValueOfCharOf(v[3]);
    assert ValueOf('=') == None;
    var g := EncodeGroup(b0, b1, b2, n);
    if n == 1 {
      assert DecodeGroup(g, last) == Some(Octets(v[0], v[1], 0, 0)[..1]);
      assert Octets(v[0], v[1], 0, 0)[..1] == [b0] == [b0, b1, b2][..1];
    } else if n == 2 {
      assert g[2] != '=';
      assert DecodeGroup(g, last) == Some(Octets(v[0], v[1], v[2], 0)[..2]);
      assert Octets(v[0], v[1], v[2], 0)[..2] == [b0, b1] == [b0, b1, b2][..2];
    } else {
      assert g[2] != '=' && g[3] != '=';
      assert DecodeGroup(g, last) == Some(Octets(v[0], v[1], v[2], v[3]));
      assert Octets(v[0], v[1], v[2], v[3]) == [b0, b1, b2] == [b0, b1, b2][..3];
    }
  }

  /** Decoding text made of a full group and more text. */
  lemma DecodeFirstGroup(g: string, rest: string)
    requires |g| == 4
    ensures Base64Decode(g + rest) ==
      match DecodeGroup(g, rest == [])
      case None => None
      case Some(x) => if Base64Decode(rest).None? then None else Some(x + Base64Decode(rest).value)
  {
    assert (g + rest)[..4] == g && (g + rest)[4..] == rest;
  }

  /** Base64 round trip: decoding an encoding gives the bytes back. */
  lemma {:induction false} Base64RoundTrip(b: seq<byte>)
    decreases |b|
    ensures Base64Decode(Base64Encode(b)) == Some(b)
  {
    if |b| == 1 {
      DecodeEncodedGroup(b[0], 0, 0, 1, true);
      DecodeFirstGroup(EncodeGroup(b[0], 0, 0, 1), []);
      assert EncodeGroup(b[0], 0, 0, 1) + [] == Base64Encode(b);
      assert [b[0], 0, 0][..1] + [] == b;
    } else if |b| == 2 {
      DecodeEncodedGroup(b[0], b[1], 0, 2, true);
      DecodeFirstGroup(EncodeGroup(b[0], b[1], 0, 2), []);
      assert EncodeGroup(b[0], b[1], 0, 2) + [] == Base64Encode(b);
      assert [b[0], b[1], 0][..2] + [] == b;
    } else if |b| >= 3 {
      var rest := Base64Encode(b[3..]);
      DecodeEncodedGroup(b[0], b[1], b[2], 3, rest == []);
      DecodeFirstGroup(EncodeGroup(b[0], b[1], b[2], 3), rest);
      Base64RoundTrip(b[3..]);
      assert [b[0], b[1], b[2]][..3] + b[3..] == b;
    }
  }

  const BasicPrefix: string := "Basic "

  /** The value of the `Authorization` header for the given credentials:
      `Basic ` and then digits that decode to the bytes of `user:password`. */
  function AuthorizationHeader(username: string, password: string): (h: string)
    ensures StartsWith(h, BasicPrefix)
    ensures Base64Decode(h[|BasicPrefix|..]) == Some(BinaryBytes(username + ":" + password))
  {
    var encoded := Base64Encode(BinaryBytes(username + ":" + password));
    Base64RoundTrip(BinaryBytes(username + ":" + password));
    assert (BasicPrefix + encoded)[|BasicPrefix|..] == encoded;
    BasicPrefix + encoded
  }

  /** The first ':' of `user:password` ends a user name without ':'. */
  lemma FirstColon(username: string, password: string)
    requires forall i :: 0 <= i < |username| ==> username[i] != ':'
    ensures FindFirst(username + ":" + password, ":") == Some(|username|)
  {
    var text := username + ":" + password;
    assert OccursAt(text, ":", |username|);
    forall j | 0 <= j < |username|
      ensures !OccursAt(text, ":", j)
    {
      assert text[j..j + 1] == [username[j]];
    }
  }

  /** For Latin-1 credentials and a user name without ':', the header is
      "Basic " followed by base64 text that decodes to `user:password`, and
      the first ':' of that text separates the two again. */
  lemma CredentialsRecoverable(username: string, password: string)
    requires IsLatin1(username) && IsLatin1(password)
    requires forall i :: 0 <= i < |username| ==> username[i] != ':'
    ensures var header := AuthorizationHeader(username, password);
      && StartsWith(header, BasicPrefix)
      && Base64Decode(header[|BasicPrefix|..]).Some?
      && var text := Latin1Text(Base64Decode(header[|BasicPrefix|..]).value);
      && text == username + ":" + password
      && FindFirst(text, ":") == Some(|username|)
  {
    var text := username + ":" + password;
    var encoded := Base64Encode(BinaryBytes(text));
    assert IsLatin1(text) by {
      forall i | 0 <= i < |text| ensures text[i] as int < 256 {
        if i < |username| { assert text[i] == username[i]; }
        else if i > |username| { assert text[i] == password[i - |username| - 1]; }
      }
    }
    BinaryBytesLatin1(text);
    Base64RoundTrip(BinaryBytes(text));
    assert AuthorizationHeader(username, password)[|BasicPrefix|..] == encoded;
    FirstColon(username, password);
  }
}
