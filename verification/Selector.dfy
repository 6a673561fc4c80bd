/**
 Node selectors (src/surge.rs): the URL-safe, unpadded Base64 coding of section 5
 of RFC 4648, strict in decoding, and the usernames made of it. A name is its
 UTF-8 bytes.
 */
module Selector {
  import opened Prelude

  type Name = seq<byte>

  const NODE_SELECTOR_PREFIX := "name-"

  // ----- The alphabet -----

  function Symbol(v: nat): (c: char)
    requires v < 64
    ensures IsSafe(c)
  {
    if v < 26 then 'A' + v as char
    else if v < 52 then 'a' + (v - 26) as char
    else if v < 62 then '0' + (v - 52) as char
    else if v == 62 then '-'
    else '_'
  }

  function Value(c: char): (v: Option<nat>)
    ensures v.Some? ==> v.value < 64
  {
    if 'A' <= c <= 'Z' then Some((c - 'A') as nat)
    else if 'a' <= c <= 'z' then Some((c - 'a') as nat + 26)
    else if '0' <= c <= '9' then Some((c - '0') as nat + 52)
    else if c == '-' then Some(62)
    else if c == '_' then Some(63)
    else None
  }

  lemma ValueOfSymbol(v: nat)
    requires v < 64
    ensures Value(Symbol(v)) == Some(v)
  {
  }

  lemma SymbolOfValue(c: char)
    requires Value(c).Some?
    ensures Symbol(Value(c).value) == c
  {
  }

  const LETTERS := "ABCDEFGHIJKLMNOPQRSTUVWXYZ"
  const SMALL_LETTERS := "abcdefghijklmnopqrstuvwxyz"
  const OTHERS := "0123456789-_"

  /** The alphabet is the table of section 5 of RFC 4648. */
  lemma SymbolsAreTheTable(v: nat)
    requires v < 64
    ensures Symbol(v) == (LETTERS + SMALL_LETTERS + OTHERS)[v]
  {
    hide Symbol;
    LetterSymbols();
    SmallLetterSymbols();
    OtherSymbols();
    assert |LETTERS| == 26 && |SMALL_LETTERS| == 26 && |OTHERS| == 12;
  }

  lemma LetterSymbols()
    ensures forall v: nat :: v < 26 ==> Symbol(v) == LETTERS[v]
  {
  }

  lemma SmallLetterSymbols()
    ensures forall v: nat :: v < 26 ==> Symbol(v + 26) == SMALL_LETTERS[v]
  {
  }

  lemma OtherSymbols()
    ensures forall v: nat :: v < 12 ==> Symbol(v + 52) == OTHERS[v]
  {
  }

  predicate IsSafe(c: char) {
    'A' <= c <= 'Z' || 'a' <= c <= 'z' || '0' <= c <= '9' || c == '-' || c == '_'
  }

  // ----- The coding -----

  type Sextet = v: int | 0 <= v < 64

  function Sextet0(b0: byte): Sextet { b0 / 4 }
  function Sextet1(b0: byte, b1: byte): Sextet { b0 % 4 * 16 + b1 / 16 }
  function Sextet2(b1: byte, b2: byte): Sextet { b1 % 16 * 4 + b2 / 64 }
  function Sextet3(b2: byte): Sextet { b2 % 64 }

  function Byte0(v0: Sextet, v1: Sextet): byte { v0 * 4 + v1 / 16 }
  function Byte1(v1: Sextet, v2: Sextet): byte { v1 % 16 * 16 + v2 / 4 }
  function Byte2(v2: Sextet, v3: Sextet): byte { v2 % 4 * 64 + v3 }

  function Encode(b: seq<byte>): string {
    if b == [] then ""
    else if |b| == 1 then [Symbol(Sextet0(b[0])), Symbol(Sextet1(b[0], 0))]
    else if |b| == 2 then [Symbol(Sextet0(b[0])), Symbol(Sextet1(b[0], b[1])), Symbol(Sextet2(b[1], 0))]
    else Group(b[0], b[1], b[2]) + Encode(b[3..])
  }

  function Group(b0: byte, b1: byte, b2: byte): string {
    [Symbol(Sextet0(b0)), Symbol(Sextet1(b0, b1)), Symbol(Sextet2(b1, b2)), Symbol(Sextet3(b2))]
  }

  /** No padding, no stray length, no stray low bits. */
  function Decode(s: string): Option<seq<byte>> {
    if s == "" then Some([])
    else if |s| == 1 || Value(s[0]).None? || Value(s[1]).None? then None
    else
      var v0, v1 := Value(s[0]).value, Value(s[1]).value;
      if |s| == 2 then (if v1 % 16 == 0 then Some([Byte0(v0, v1)]) else None)
      else if Value(s[2]).None? then None
      else
        var v2 := Value(s[2]).value;
        if |s| == 3 then (if v2 % 4 == 0 then Some([Byte0(v0, v1), Byte1(v1, v2)]) else None)
        else if Value(s[3]).None? then None
        else
          var rest := Decode(s[4..]);
          if rest.None? then None else Some([Byte0(v0, v1), Byte1(v1, v2), Byte2(v2, Value(s[3]).value)] + rest.value)
  }

  lemma BytesOfSextets(b0: byte, b1: byte, b2: byte)
    ensures Byte0(Sextet0(b0), Sextet1(b0, b1)) == b0
    ensures Byte1(Sextet1(b0, b1), Sextet2(b1, b2)) == b1
    ensures Byte2(Sextet2(b1, b2), Sextet3(b2)) == b2
    ensures Sextet1(b0, 0) % 16 == 0 && Sextet2(b1, 0) % 4 == 0
  {
  }

  lemma SextetsOfBytes(v0: Sextet, v1: Sextet, v2: Sextet, v3: Sextet)
    ensures Sextet0(Byte0(v0, v1)) == v0
    ensures Sextet1(Byte0(v0, v1), Byte1(v1, v2)) == v1 && (v1 % 16 == 0 ==> Sextet1(Byte0(v0, v1), 0) == v1)
    ensures Sextet2(Byte1(v1, v2), Byte2(v2, v3)) == v2 && (v2 % 4 == 0 ==> Sextet2(Byte1(v1, v2), 0) == v2)
    ensures Sextet3(Byte2(v2, v3)) == v3
  {
  }

  lemma {:induction false} DecodeInvertsEncode(b: seq<byte>)
    ensures Decode(Encode(b)) == Some(b)
  {
    hide Symbol, Value, Sextet0, Sextet1, Sextet2, Sextet3, Byte0, Byte1, Byte2;
    if |b| == 1 {
      BytesOfSextets(b[0], 0, 0);
      ValueOfSymbol(Sextet0(b[0]));
      ValueOfSymbol(Sextet1(b[0], 0));
      assert b == [b[0]];
    } else if |b| == 2 {
      BytesOfSextets(b[0], b[1], 0);
      ValueOfSymbol(Sextet0(b[0]));
      ValueOfSymbol(Sextet1(b[0], b[1]));
      ValueOfSymbol(Sextet2(b[1], 0));
      assert b == [b[0], b[1]];
    } else if |b| > 2 {
      BytesOfSextets(b[0], b[1], b[2]);
      ValueOfSymbol(Sextet0(b[0]));
      ValueOfSymbol(Sextet1(b[0], b[1]));
      ValueOfSymbol(Sextet2(b[1], b[2]));
      ValueOfSymbol(Sextet3(b[2]));
      DecodeInvertsEncode(b[3..]);
      assert Encode(b)[4..] == Encode(b[3..]);
      assert [b[0], b[1], b[2]] + b[3..] == b;
    }
  }

  /** Strictness: every text that decodes is the one encoding of what it decodes to. */
  lemma {:induction false} EncodeInvertsDecode(s: string)
    requires Decode(s).Some?
    ensures Encode(Decode(s).value) == s
  {
    hide Symbol, Value, Sextet0, Sextet1, Sextet2, Sextet3, Byte0, Byte1, Byte2;
    if |s| == 2 || |s| == 3 {
      ShortText(s);
    } else if |s| > 3 {
      GroupOfFour(s);
      EncodeInvertsDecode(s[4..]);
      assert [s[0], s[1], s[2], s[3]] + s[4..] == s;
    }
  }

  lemma ShortText(s: string)
    requires |s| == 2 || |s| == 3
    requires Decode(s).Some?
    ensures Encode(Decode(s).value) == s
  {
    hide Symbol, Value, Sextet0, Sextet1, Sextet2, Sextet3, Byte0, Byte1, Byte2;
    var v0, v1 := Value(s[0]).value, Value(s[1]).value;
    SymbolOfValue(s[0]);
    SymbolOfValue(s[1]);
    if |s| == 2 {
      SextetsOfBytes(v0, v1, 0, 0);
    } else {
      SextetsOfBytes(v0, v1, Value(s[2]).value, 0);
      SymbolOfValue(s[2]);
    }
  }

  lemma GroupOfFour(s: string)
    requires |s| > 3 && Decode(s).Some?
    ensures Decode(s[4..]).Some?
    ensures Encode(Decode(s).value) == [s[0], s[1], s[2], s[3]] + Encode(Decode(s[4..]).value)
  {
    hide Symbol, Value, Sextet0, Sextet1, Sextet2, Sextet3, Byte0, Byte1, Byte2;
    SextetsOfBytes(Value(s[0]).value, Value(s[1]).value, Value(s[2]).value, Value(s[3]).value);
    SymbolOfValue(s[0]);
    SymbolOfValue(s[1]);
    SymbolOfValue(s[2]);
    SymbolOfValue(s[3]);
    assert Decode(s).value[3..] == Decode(s[4..]).value;
  }

  lemma {:induction false} EncodedForm(b: seq<byte>)
    ensures |Encode(b)| == (4 * |b| + 2) / 3 && forall i :: 0 <= i < |Encode(b)| ==> IsSafe(Encode(b)[i])
  {
    hide Symbol, IsSafe, Sextet0, Sextet1, Sextet2, Sextet3;
    if |b| > 2 {
      EncodedForm(b[3..]);
    }
  }

  // ----- Selectors -----

  predicate IsSafeCredential(s: string) { s != "" && |s| <= 255 && forall i :: 0 <= i < |s| ==> IsSafe(s[i]) }

  function NodeSelector(name: Name): Option<string> {
    if name == [] then None
    else
      var selector := NODE_SELECTOR_PREFIX + Encode(name);
      if IsSafeCredential(selector) then Some(selector) else None
  }

  /** Whether the bytes are UTF-8 is a parameter. */
  function NodeName(selector: string, utf8: Name -> bool): Option<Name> {
    if !(NODE_SELECTOR_PREFIX <= selector) then None
    else
      var decoded := Decode(selector[|NODE_SELECTOR_PREFIX|..]);
      if decoded.None? || decoded.value == [] || !utf8(decoded.value) then None else decoded
  }

  predicate ValidName(name: Name) { 1 <= |name| <= 187 }

  /** A selector exists exactly for names of 1 to 187 bytes. */
  lemma SelectorExists(name: Name)
    ensures NodeSelector(name).Some? <==> ValidName(name)
    ensures ValidName(name) ==> NodeSelector(name) == Some(NODE_SELECTOR_PREFIX + Encode(name))
  {
    hide Encode;
    EncodedForm(name);
  }

  lemma SelectorRoundTrip(name: Name, utf8: Name -> bool)
    requires ValidName(name) && utf8(name)
    ensures NodeSelector(name).Some? && NodeName(NodeSelector(name).value, utf8) == Some(name)
  {
    hide Encode, Decode;
    SelectorExists(name);
    DecodeInvertsEncode(name);
    assert (NODE_SELECTOR_PREFIX + Encode(name))[|NODE_SELECTOR_PREFIX|..] == Encode(name);
  }

  /** The other way: a selector that names a node is that node's selector. */
  lemma NameRoundTrip(selector: string, utf8: Name -> bool)
    requires NodeName(selector, utf8).Some? && ValidName(NodeName(selector, utf8).value)
    ensures NodeSelector(NodeName(selector, utf8).value) == Some(selector)
  {
    hide Encode, Decode;
    var encoded := selector[|NODE_SELECTOR_PREFIX|..];
    EncodeInvertsDecode(encoded);
    SelectorExists(NodeName(selector, utf8).value);
    assert NODE_SELECTOR_PREFIX + encoded == selector;
  }

  lemma SelectorsDiffer(a: Name, b: Name)
    requires NodeSelector(a).Some? && NodeSelector(a) == NodeSelector(b)
    ensures a == b
  {
    hide Encode, Decode;
    var prefix := NODE_SELECTOR_PREFIX;
    assert (prefix + Encode(a))[|prefix|..] == Encode(a) && (prefix + Encode(b))[|prefix|..] == Encode(b);
    DecodeInvertsEncode(a);
    DecodeInvertsEncode(b);
  }

  predicate DistinctNames(names: seq<Name>) { forall i, j :: 0 <= i < j < |names| ==> names[i] != names[j] }

  /** The selector loop of a provider document: it fails exactly on an empty, invalid or repeating list. */
  method RenderSelectors(names: seq<Name>) returns (r: Option<seq<string>>)
    ensures r.Some? <==> names != [] && DistinctNames(names) && forall i :: 0 <= i < |names| ==> ValidName(names[i])
    ensures r.Some? ==> |r.value| == |names| && forall i :: 0 <= i < |names| ==> NodeSelector(names[i]) == Some(r.value[i])
  {
    hide NodeSelector, ValidName;
    if names == [] {
      return None;
    }
    var seen: set<string> := {};
    var rendered: seq<string> := [];
    for k := 0 to |names|
      invariant |rendered| == k
      invariant forall i :: 0 <= i < k ==> ValidName(names[i]) && NodeSelector(names[i]) == Some(rendered[i])
      invariant seen == set i | 0 <= i < k :: rendered[i]
      invariant forall i, j :: 0 <= i < j < k ==> names[i] != names[j]
    {
      SelectorExists(names[k]);
      var selector := NodeSelector(names[k]);
      if selector.None? {
        return None;
      }
      if selector.value in seen {
        var i :| 0 <= i < k && rendered[i] == selector.value;
        SelectorsDiffer(names[i], names[k]);
        return None;
      }
      forall i | 0 <= i < k ensures names[i] != names[k] {
        assert rendered[i] in seen;
      }
      rendered := rendered + [selector.value];
      seen := seen + {selector.value};
    }
    return Some(rendered);
  }
}
