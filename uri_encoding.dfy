/** `encodeURIComponent` and the `application/x-www-form-urlencoded` body that
    `WoonVeiligRepository.getFormBody` builds from it. */
module UriEncoding {
  /** The characters `encodeURIComponent` leaves alone:
      `A-Z a-z 0-9 - _ . ! ~ * ' ( )`. */
  predicate IsUnreserved(c: char)
  {
    ('A' <= c <= 'Z') || ('a' <= c <= 'z') || ('0' <= c <= '9') ||
    c in {'-', '_', '.', '!', '~', '*', '\'', '(', ')'}
  }

  /** The UTF-8 bytes of one Unicode scalar value. */
  function Utf8(c: char): (b: seq<nat>)
    ensures 1 <= |b| <= 4
  {
    var n := c as int;
    if n < 0x80 then [n]
    else if n < 0x800 then [0xC0 + n / 64, 0x80 + n % 64]
    else if n < 0x1_0000 then [0xE0 + n / 4096, 0x80 + n / 64 % 64, 0x80 + n % 64]
    else [0xF0 + n / 0x4_0000, 0x80 + n / 4096 % 64, 0x80 + n / 64 % 64, 0x80 + n % 64]
  }

  /** An upper-case hexadecimal digit. */
  function HexDigit(d: nat): (c: char)
    requires d < 16
    ensures IsUnreserved(c)
  {
    if d < 10 then ('0' as int + d) as char else ('A' as int + d - 10) as char
  }

  /** `%XY` for one byte. */
  function Percent(b: nat): string
  {
    ['%', HexDigit(b / 16 % 16), HexDigit(b % 16)]
  }

  /** The escapes of one character. */
  function EncodeChar(c: char): (r: string)
    ensures IsUnreserved(c) ==> r == [c]
    ensures forall i :: 0 <= i < |r| ==> r[i] == '%' || IsUnreserved(r[i])
  {
    if IsUnreserved(c) then [c]
    else
      var b := Utf8(c);
      var r := Percent(b[0]) + (if |b| > 1 then Percent(b[1]) else [])
               + (if |b| > 2 then Percent(b[2]) else []) + (if |b| > 3 then Percent(b[3]) else []);
      r
  }

  /** `encodeURIComponent(s)`. Strings in Dafny hold Unicode scalar values,
      so the lone-surrogate `URIError` case does not arise. */
  function EncodeUriComponent(s: string): (r: string)
    ensures forall i :: 0 <= i < |r| ==> r[i] == '%' || IsUnreserved(r[i])
  {
    if s == [] then [] else EncodeChar(s[0]) + EncodeUriComponent(s[1..])
  }

  /** Text made only of unreserved characters is not changed. */
  lemma {:induction false} EncodeUnreserved(s: string)
    requires forall i :: 0 <= i < |s| ==> IsUnreserved(s[i])
    ensures EncodeUriComponent(s) == s
  {
    if s != [] {
      EncodeUnreserved(s[1..]);
    }
  }

  /** `parts.join(sep)`. */
  function Join(parts: seq<string>, sep: string): string
  {
    if parts == [] then ""
    else if |parts| == 1 then parts[0]
    else parts[0] + sep + Join(parts[1..], sep)
  }

  /** One `key=value` field, both sides encoded. */
  function Field(key: string, value: string): string
  {
    EncodeUriComponent(key) + "=" + EncodeUriComponent(value)
  }

  /** The fields of a form, in the order of its properties. */
  function Fields(details: seq<(string, string)>): (r: seq<string>)
    ensures |r| == |details|
    ensures forall i :: 0 <= i < |details| ==> r[i] == Field(details[i].0, details[i].1)
  {
    seq(|details|, i requires 0 <= i < |details| => Field(details[i].0, details[i].1))
  }

  /** Only percent escapes, unreserved characters and the two separators:
      nothing in a form body needs escaping again. */
  predicate FormSafe(s: string)
  {
    forall i :: 0 <= i < |s| ==> s[i] == '%' || s[i] == '=' || s[i] == '&' || IsUnreserved(s[i])
  }

  /** Joining safe parts with a safe separator gives safe text. */
  lemma {:induction false} JoinFormSafe(parts: seq<string>, sep: string)
    requires forall i :: 0 <= i < |parts| ==> FormSafe(parts[i])
    requires FormSafe(sep)
    ensures FormSafe(Join(parts, sep))
  {
    if |parts| > 1 {
      JoinFormSafe(parts[1..], sep);
      var rest := Join(parts[1..], sep);
      assert Join(parts, sep) == parts[0] + sep + rest;
      forall i | 0 <= i < |parts[0] + sep + rest|
        ensures (parts[0] + sep + rest)[i] in {'%', '=', '&'} || IsUnreserved((parts[0] + sep + rest)[i])
      {
        if i < |parts[0]| {
        } else if i < |parts[0] + sep| {
          assert (parts[0] + sep + rest)[i] == sep[i - |parts[0]|];
        } else {
          assert (parts[0] + sep + rest)[i] == rest[i - |parts[0] + sep|];
        }
      }
    }
  }

  /** The form body: the fields joined by `&`. Every character is an escape,
      an unreserved character, `=` or `&`. */
  function FormBody(details: seq<(string, string)>): (r: string)
    ensures FormSafe(r)
  {
    var fields := Fields(details);
    forall i | 0 <= i < |fields|
      ensures FormSafe(fields[i])
    {
      var key := EncodeUriComponent(details[i].0);
      var value := EncodeUriComponent(details[i].1);
      forall j | 0 <= j < |key + "=" + value|
        ensures (key + "=" + value)[j] in {'%', '=', '&'} || IsUnreserved((key + "=" + value)[j])
      {
        if j > |key| {
          assert (key + "=" + value)[j] == value[j - |key| - 1];
        }
      }
    }
    JoinFormSafe(fields, "&");
    Join(fields, "&")
  }

  /** An encoded field contains exactly one '=' and no '&', at the end of
      the encoded key: the body can be split back into its fields. */
  lemma FieldSeparators(key: string, value: string)
    ensures var f := Field(key, value);
      var k := |EncodeUriComponent(key)|;
      && f[k] == '='
      && forall i :: 0 <= i < |f| && i != k ==> f[i] != '=' && f[i] != '&'
  {
  }

  /** A single field of unreserved text is sent as written: the command
      body `mode=<digit>`. */
  lemma SingleFieldBody(key: string, value: string)
    requires forall i :: 0 <= i < |key| ==> IsUnreserved(key[i])
    requires forall i :: 0 <= i < |value| ==> IsUnreserved(value[i])
    ensures FormBody([(key, value)]) == key + "=" + value
  {
    EncodeUnreserved(key);
    EncodeUnreserved(value);
  }

  /** `getFormBody`: each property encoded and pushed onto a list, which is
      then joined. */
  method GetFormBody(details: seq<(string, string)>) returns (body: string)
    ensures body == FormBody(details)
  {
    var formBody: seq<string> := [];
    for i := 0 to |details|
      invariant formBody == Fields(details[..i])
    {
      var encodedKey := EncodeUriComponent(details[i].0);
      var encodedValue := EncodeUriComponent(details[i].1);
      formBody := formBody + [encodedKey + "=" + encodedValue];
    }
    assert details[..|details|] == details;
    body := Join(formBody, "&");
  }
}
