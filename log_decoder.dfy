// The log-text normaliser of `WoonVeiligRepository.processcrappyjson`: the
// panel's history payload is quasi-JSON wrapped between a `SecurePrefix` and a
// `CommentEnd` marker, with an unquoted `hisrows` key, indentation, and unquoted field
// keys `d`, `t`, `a`, `s`. A fixed sequence of literal rewrites turns it into
// text that `JSON.parse` accepts. The parser itself is a parameter.
module LogDecoder {
  import opened Wrappers
  import opened Text

  /** One entry of the `hisrows` array: date, time, action and source, all
      as the panel delivers them. */
  datatype HisRow = HisRow(d: string, t: string, a: string, s: string)

  /** `JSON.parse(text).hisrows`, or `None` when parsing throws or the rows
      are not well-formed. */
  type JsonParser = string -> Option<seq<HisRow>>

  const SecurePrefix: string := "/*-secure-"
  const CommentEnd: string := "*/"
  const BareHisrows: string := "{\thisrows : ["
  const QuotedHisrows: string := "{\"hisrows\":["
  const FourSpaces: string := "    "
  /** The characters `[\t\n\r]` of the whitespace pass. */
  const LineSpace: set<char> := {'\t', '\n', '\r'}
  /** The field names whose keys are quoted, in the order they are processed. */
  const KeyNames: seq<char> := ['d', 't', 'a', 's']

  /** The unquoted key `k :` as it occurs in the payload. */
  function BareKey(k: char): string { [k, ' ', ':'] }

  /** The quoted key `"k":` it is rewritten to. */
  function QuotedKey(k: char): string { ['"', k, '"', ':'] }

  /** Removes spaces, tabs, line feeds and carriage returns. */
  function Squeeze(s: string): string
  {
    if s == [] then []
    else (if s[0] == ' ' || s[0] in LineSpace then [] else [s[0]]) + Squeeze(s[1..])
  }

  /** `s.replace(/ {4}|[\t\n\r]/gm, '')`: one left-to-right pass that deletes
      every run of four spaces and every tab, line feed and carriage return,
      trying the four-space alternative first at each position. */
  function StripWhitespace(s: string): (r: string)
    decreases |s|
    ensures |r| <= |s|
    ensures NoneOf(r, LineSpace)
  {
    if |s| == 0 then s
    else if StartsWith(s, FourSpaces) then StripWhitespace(s[4..])
    else if s[0] in LineSpace then StripWhitespace(s[1..])
    else [s[0]] + StripWhitespace(s[1..])
  }

  /** The whitespace pass deletes nothing but spaces and line-space
      characters: every other character survives, in order. */
  lemma {:induction false} StripWhitespaceKeepsText(s: string)
    decreases |s|
    ensures Squeeze(StripWhitespace(s)) == Squeeze(s)
  {
    if |s| == 0 {
    } else if StartsWith(s, FourSpaces) {
      StripWhitespaceKeepsText(s[4..]);
      assert s[..4] == FourSpaces;
      assert Squeeze(s) == Squeeze(s[1..]);
      assert Squeeze(s[1..]) == Squeeze(s[2..]) by { assert s[1..][1..] == s[2..]; }
      assert Squeeze(s[2..]) == Squeeze(s[3..]) by { assert s[2..][1..] == s[3..]; }
      assert Squeeze(s[3..]) == Squeeze(s[4..]) by { assert s[3..][1..] == s[4..]; }
    } else {
      StripWhitespaceKeepsText(s[1..]);
    }
  }

  /** A run of four spaces can be left behind: the pass is not idempotent. */
  lemma FourSpacesCanRemain()
    ensures StripWhitespace("  \t  ") == FourSpaces
    ensures StripWhitespace(StripWhitespace("  \t  ")) == ""
  {
    var s := "  \t  ";
    assert s[2] == '\t' && s[..4][2] != FourSpaces[2] && s[1..][..4][1] != FourSpaces[1];
    assert !StartsWith(s, FourSpaces) && !StartsWith(s[1..], FourSpaces);
    assert s[1..][1..] == s[2..] && s[2..][1..] == s[3..] && s[3..][1..] == s[4..] && s[4..][1..] == [];
    assert StripWhitespace(s[3..]) == "  ";
    assert StripWhitespace(s) == [' ', ' '] + StripWhitespace(s[2..]);
    assert StartsWith(FourSpaces, FourSpaces) && FourSpaces[4..] == [];
  }

  /** Text without line-space characters and without a run of four spaces
      passes the whitespace pass unchanged: shorter runs of spaces survive. */
  lemma {:induction false} StripWhitespaceKeepsClean(s: string)
    requires NoneOf(s, LineSpace) && !Contains(s, FourSpaces)
    decreases |s|
    ensures StripWhitespace(s) == s
  {
    if |s| > 0 {
      StripWhitespaceKeepsClean(s[1..]);
    }
  }

  /** Removes spaces and double quotes: what quoting a key may change. */
  function Unquoted(s: string): string
  {
    if s == [] then []
    else (if s[0] == ' ' || s[0] == '"' then [] else [s[0]]) + Unquoted(s[1..])
  }

  lemma {:induction false} UnquotedAppend(a: string, b: string)
    ensures Unquoted(a + b) == Unquoted(a) + Unquoted(b)
  {
    if a != [] {
      assert (a + b)[0] == a[0] && (a + b)[1..] == a[1..] + b;
      UnquotedAppend(a[1..], b);
    } else {
      assert a + b == b;
    }
  }

  /** Replacing `k :` by `"k":` only drops a space and adds quotes: every
      other character is kept, in order. */
  lemma {:induction false} QuoteKeyKeepsUnquoted(s: string, k: char)
    decreases |s|
    ensures k != ' ' && k != '"' ==> Unquoted(ReplaceAll(s, BareKey(k), QuotedKey(k))) == Unquoted(s)
  {
    var p := BareKey(k);
    if |s| < |p| {
    } else if StartsWith(s, p) {
      QuoteKeyKeepsUnquoted(s[3..], k);
      UnquotedAppend(QuotedKey(k), ReplaceAll(s[3..], p, QuotedKey(k)));
      assert s == p + s[3..];
      UnquotedAppend(p, s[3..]);
    } else {
      QuoteKeyKeepsUnquoted(s[1..], k);
    }
  }

  /** Quotes the keys named in `keys`, one global replacement per key, in
      order (the loop over `property_names_to_fix`). */
  function QuoteKeys(s: string, keys: seq<char>): (r: string)
    decreases |keys|
    ensures (forall i :: 0 <= i < |keys| ==> keys[i] != ' ' && keys[i] != '"') ==> Unquoted(r) == Unquoted(s)
  {
    if keys == [] then s
    else
      QuoteKeyKeepsUnquoted(s, keys[0]);
      QuoteKeys(ReplaceAll(s, BareKey(keys[0]), QuotedKey(keys[0])), keys[1..])
  }

  /** Keys that do not occur bare are left alone. */
  lemma {:induction false} QuoteKeysWithoutBareKeys(s: string, keys: seq<char>)
    requires forall i :: 0 <= i < |keys| ==> !Contains(s, BareKey(keys[i]))
    decreases |keys|
    ensures QuoteKeys(s, keys) == s
  {
    if keys != [] {
      QuoteKeysWithoutBareKeys(s, keys[1..]);
    }
  }


  /** The first character of a replacement result: the opening quote of a
      quoted key, or the first input character. */
  lemma {:induction false} ReplaceAllHead(s: string, k: char)
    requires |s| > 0
    ensures var r := ReplaceAll(s, BareKey(k), QuotedKey(k));
      |r| > 0 && r[0] == if StartsWith(s, BareKey(k)) then '"' else s[0]
  {
  }

  /** Nothing longer than a text occurs in it. */
  lemma {:induction false} ContainsLength(s: string, p: string)
    decreases |s|
    ensures Contains(s, p) ==> |p| <= |s|
  {
    if |s| > 0 {
      ContainsLength(s[1..], p);
    }
  }

  /** An occurrence in a suffix is an occurrence. */
  lemma {:induction false} ContainsSuffix(s: string, n: nat, p: string)
    requires n <= |s|
    requires Contains(s[n..], p)
    decreases n
    ensures Contains(s, p)
  {
    if n > 0 {
      assert s[1..][n - 1..] == s[n..];
      ContainsSuffix(s[1..], n - 1, p);
    }
  }

  /** Quoting the key `k` leaves no bare `k :` and creates no bare key of
      another name: any bare key in the result was already in the input. */
  lemma {:induction false} QuoteKeyCreatesNoBareKey(s: string, k: char, k2: char)
    requires 'a' <= k2 <= 'z'
    decreases |s|
    ensures Contains(ReplaceAll(s, BareKey(k), QuotedKey(k)), BareKey(k2)) ==>
      k2 != k && Contains(s, BareKey(k2))
  {
    var p, q := BareKey(k), BareKey(k2);
    var r := ReplaceAll(s, p, QuotedKey(k));
    if |s| < |p| {
      assert r == s;
      ContainsLength(s, q);
    } else if StartsWith(s, p) {
      var rest := ReplaceAll(s[3..], p, QuotedKey(k));
      assert r == QuotedKey(k) + rest;
      if Contains(r, q) {
        assert r[0] == '"' && q[0] == k2;
        assert !StartsWith(r, q);
        assert Contains(r[1..], q);
        assert r[1..] == [k, '"', ':'] + rest;
        assert !StartsWith(r[1..], q);
        assert Contains(r[2..], q) by { assert r[1..][1..] == r[2..]; }
        assert r[2..] == ['"', ':'] + rest;
        assert !StartsWith(r[2..], q);
        assert Contains(r[3..], q) by { assert r[2..][1..] == r[3..]; }
        assert r[3..] == [':'] + rest;
        assert r[3..][0] == ':';
        assert !StartsWith(r[3..], q);
        assert Contains(rest, q) by { assert r[3..][1..] == rest; }
        QuoteKeyCreatesNoBareKey(s[3..], k, k2);
        ContainsSuffix(s, 3, q);
      }
    } else {
      var rest := ReplaceAll(s[1..], p, QuotedKey(k));
      assert r == [s[0]] + rest;
      if Contains(r, q) {
        if StartsWith(r, q) {
          assert |rest| >= 2 && rest[0] == ' ' && rest[1] == ':';
          ReplaceAllHead(s[1..], k);
          assert !StartsWith(s[1..], p) && s[1] == ' ';
          assert rest == [s[1]] + ReplaceAll(s[2..], p, QuotedKey(k)) by {
            assert s[1..][1..] == s[2..];
          }
          ReplaceAllHead(s[2..], k);
          assert !StartsWith(s[2..], p) && s[2] == ':';
          assert s[..3] == q;
          assert s[..3] != p;
        } else {
          assert Contains(r[1..], q);
          assert r[1..] == rest;
          QuoteKeyCreatesNoBareKey(s[1..], k, k2);
          ContainsSuffix(s, 1, q);
        }
      }
    }
  }

  /** After quoting `keys`, no bare key of those names remains, and any other
      bare key in the result was already in the input. */
  lemma {:induction false} QuoteKeysRemovesBareKeys(s: string, keys: seq<char>, k2: char)
    requires 'a' <= k2 <= 'z'
    decreases |keys|
    ensures Contains(QuoteKeys(s, keys), BareKey(k2)) ==> k2 !in keys && Contains(s, BareKey(k2))
  {
    if keys != [] {
      var next := ReplaceAll(s, BareKey(keys[0]), QuotedKey(keys[0]));
      QuoteKeysRemovesBareKeys(next, keys[1..], k2);
      QuoteKeyCreatesNoBareKey(s, keys[0], k2);
    }
  }

  /** Quoting keys introduces no tab, line feed or carriage return. */
  lemma {:induction false} QuoteKeysKeepsNoneOf(s: string, keys: seq<char>, cs: set<char>)
    requires NoneOf(s, cs) && '"' !in cs && ':' !in cs
    requires forall i :: 0 <= i < |keys| ==> keys[i] !in cs
    decreases |keys|
    ensures NoneOf(QuoteKeys(s, keys), cs)
  {
    if keys != [] {
      ReplaceAllKeepsNoneOf(s, BareKey(keys[0]), QuotedKey(keys[0]), cs);
      QuoteKeysKeepsNoneOf(ReplaceAll(s, BareKey(keys[0]), QuotedKey(keys[0])), keys[1..], cs);
    }
  }

  /** The whole normalisation, in the order the repository applies it. What
      it guarantees to the parser: no tab, line feed or carriage return, and
      none of `d :`, `t :`, `a :`, `s :` is left. */
  function Normalised(input: string): (r: string)
    ensures NoneOf(r, LineSpace)
    ensures forall k :: k in KeyNames ==> !Contains(r, BareKey(k))
  {
    var noPrefix := ReplaceFirst(input, SecurePrefix, "");
    var noComment := ReplaceFirst(noPrefix, CommentEnd, "");
    var quotedArray := ReplaceFirst(noComment, BareHisrows, QuotedHisrows);
    var stripped := StripWhitespace(quotedArray);
    QuoteKeysKeepsNoneOf(stripped, KeyNames, LineSpace);
    QuoteKeysRemovesBareKeys(stripped, KeyNames, 'd');
    QuoteKeysRemovesBareKeys(stripped, KeyNames, 't');
    QuoteKeysRemovesBareKeys(stripped, KeyNames, 'a');
    QuoteKeysRemovesBareKeys(stripped, KeyNames, 's');
    QuoteKeys(stripped, KeyNames)
  }

  /** A line-space character rules out the `{\thisrows : [` marker. */
  lemma NoBareHisrows(s: string)
    requires NoneOf(s, LineSpace)
    ensures FindFirst(s, BareHisrows).None?
  {
    forall j | 0 <= j && j + |BareHisrows| <= |s|
      ensures !OccursAt(s, BareHisrows, j)
    {
      assert s[j..j + |BareHisrows|][1] == s[j + 1] != '\t';
    }
  }

  /** Text that is already the JSON the parser expects (no markers, no
      line-space characters, no run of four spaces, no bare key) passes the
      normaliser unchanged. */
  lemma NormalisedKeepsJson(input: string)
    requires !Contains(input, SecurePrefix) && !Contains(input, CommentEnd)
    requires NoneOf(input, LineSpace) && !Contains(input, FourSpaces)
    requires forall k :: k in KeyNames ==> !Contains(input, BareKey(k))
    ensures Normalised(input) == input
  {
    ContainsIff(input, SecurePrefix);
    ContainsIff(input, CommentEnd);
    NoBareHisrows(input);
    StripWhitespaceKeepsClean(input);
    QuoteKeysWithoutBareKeys(input, KeyNames);
  }

  /** `processcrappyjson`: the rewrites applied to a working copy, the key
      names handled by a loop, and the parser applied to the result. */
  method ProcessCrappyJson(input: string, parse: JsonParser) returns (rows: Option<seq<HisRow>>, json: string)
    ensures json == Normalised(input)
    ensures rows == parse(json)
  {
    json := ReplaceFirst(input, SecurePrefix, "");
    json := ReplaceFirst(json, CommentEnd, "");
    json := ReplaceFirst(json, BareHisrows, QuotedHisrows);
    json := StripWhitespace(json);
    ghost var stripped := json;
    for i := 0 to |KeyNames|
      invariant QuoteKeys(stripped, KeyNames) == QuoteKeys(json, KeyNames[i..])
    {
      assert KeyNames[i..][1..] == KeyNames[i + 1..];
      json := ReplaceAll(json, BareKey(KeyNames[i]), QuotedKey(KeyNames[i]));
    }
    assert KeyNames[|KeyNames|..] == [];
    rows := parse(json);
  }
}
