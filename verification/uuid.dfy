/**
 The create-listing page's `generateUUID`: every `x` of the version-4 template
 becomes a random hexadecimal digit and the `y` becomes one of 8, 9, a, b
 (the variant bits of section 4.4 of RFC 4122). The random draws are a
 parameter: `rs[k]` is the value `Math.random() * 16 | 0` gave for the k-th
 replaced character.
 */
module Uuid {

  /** One draw of `Math.random() * 16 | 0`. */
  type Nibble = x: int | 0 <= x < 16

  const Template: string := "xxxxxxxx-xxxx-4xxx-yxxx-xxxxxxxxxxxx"

  /** Number of characters the template replaces. */
  const SlotCount: nat := 31

  /** Positions of the template's fixed characters. */
  predicate IsDashPosition(j: int)
  {
    j == 8 || j == 13 || j == 18 || j == 23
  }

  const VersionPosition: nat := 14
  const VariantPosition: nat := 19

  /** The template character at position `j`, by position. */
  function TemplateAt(j: nat): char
    requires j < 36
  {
    if IsDashPosition(j) then '-'
    else if j == VersionPosition then '4'
    else if j == VariantPosition then 'y'
    else 'x'
  }

  lemma TemplateByPosition()
    ensures |Template| == 36
    ensures forall j :: 0 <= j < 36 ==> Template[j] == TemplateAt(j)
  {
  }

  /** How many replaced characters precede position `j`: the index of the draw used at `j`. */
  function SlotsBefore(j: nat): (k: nat)
    requires j <= 36
    ensures k <= SlotCount
  {
    if j <= 8 then j
    else if j <= 13 then j - 1
    else if j <= 14 then j - 2
    else if j <= 18 then j - 3
    else if j <= 23 then j - 4
    else j - 5
  }

  /** The position of the k-th replaced character. */
  function SlotPosition(k: nat): (j: nat)
    requires k < SlotCount
    ensures j < 36 && TemplateAt(j) in {'x', 'y'} && SlotsBefore(j) == k
  {
    if k < 8 then k
    else if k < 12 then k + 1
    else if k < 15 then k + 3
    else if k < 19 then k + 4
    else k + 5
  }

  /** `v.toString(16)` for a digit value. */
  function HexDigit(v: Nibble): (c: char)
    ensures IsLowerHex(c)
  {
    if v < 10 then (48 + v) as char else (87 + v) as char
  }

  predicate IsLowerHex(c: char)
  {
    '0' <= c <= '9' || 'a' <= c <= 'f'
  }

  function HexValue(c: char): (v: Nibble)
    requires IsLowerHex(c)
  {
    if '0' <= c <= '9' then c as int - 48 else c as int - 87
  }

  lemma HexRoundTrip(v: Nibble, c: char)
    ensures HexValue(HexDigit(v)) == v
    ensures IsLowerHex(c) ==> HexDigit(HexValue(c)) == c
  {
  }

  /** `(r & 0x3) | 0x8`. */
  function VariantValue(r: Nibble): Nibble
  {
    ((r as bv8 & 3) | 8) as int
  }

  /** The variant digit keeps the low two bits of the draw and sets the top bit. */
  lemma VariantValueRange(r: Nibble)
    ensures VariantValue(r) == 8 + r % 4
  {
    assert r as bv8 & 3 == (r % 4) as bv8;
  }

  /** The shape of a version-4 UUID with lowercase digits. */
  predicate IsV4(s: string)
  {
    && |s| == 36
    && s[8] == '-' && s[13] == '-' && s[18] == '-' && s[23] == '-'
    && s[VersionPosition] == '4'
    && s[VariantPosition] in {'8', '9', 'a', 'b'}
    && forall j :: 0 <= j < 36 && !IsDashPosition(j) ==> IsLowerHex(s[j])
  }

  /** The character the replacement puts at position `j`. */
  function CharAt(rs: seq<Nibble>, j: nat): char
    requires |rs| == SlotCount && j < 36
  {
    var t := TemplateAt(j);
    if t == 'x' then HexDigit(rs[SlotsBefore(j)])
    else if t == 'y' then HexDigit(VariantValue(rs[SlotsBefore(j)]))
    else t
  }

  /** The generated identifier, position by position. */
  function UuidFrom(rs: seq<Nibble>): (s: string)
    requires |rs| == SlotCount
    ensures IsV4(s)
  {
    var s := seq(36, j requires 0 <= j < 36 => CharAt(rs, j));
    assert forall j :: 0 <= j < 36 ==> s[j] == CharAt(rs, j);
    VariantValueRange(rs[SlotsBefore(VariantPosition)]);
    s
  }

  /** Every draw can be read back from the identifier: the x digits exactly, the y digit modulo 4. */
  lemma UuidEncodesDraws(rs: seq<Nibble>, k: nat)
    requires |rs| == SlotCount && k < SlotCount
    ensures var s := UuidFrom(rs); var j := SlotPosition(k);
      if j == VariantPosition then HexValue(s[j]) == 8 + rs[k] % 4 else HexValue(s[j]) == rs[k]
  {
    var j := SlotPosition(k);
    VariantValueRange(rs[k]);
    HexRoundTrip(rs[k], 'a');
    HexRoundTrip(VariantValue(rs[k]), 'a');
  }

  /** Every lowercase version-4 identifier is produced by some sequence of draws. */
  lemma EveryV4IsGenerated(s: string)
    requires IsV4(s)
    ensures exists rs: seq<Nibble> :: |rs| == SlotCount && UuidFrom(rs) == s
  {
    var rs: seq<Nibble> := seq(SlotCount, k requires 0 <= k < SlotCount =>
      var j := SlotPosition(k);
      if j == VariantPosition then HexValue(s[j]) - 8 else HexValue(s[j]));
    var u := UuidFrom(rs);
    forall j | 0 <= j < 36
      ensures u[j] == s[j]
    {
      if TemplateAt(j) in {'x', 'y'} {
        var k := SlotsBefore(j);
        assert SlotPosition(k) == j;
        HexRoundTrip(rs[k], s[j]);
        VariantValueRange(rs[k]);
      }
    }
  }

  /**
   `generateUUID`: walks the template literal and replaces each `x` or `y` with
   the next draw, as the regular-expression replacement does.
   */
  method GenerateUuid(rs: seq<Nibble>) returns (uuid: string)
    requires |rs| == SlotCount
    ensures IsV4(uuid)
    ensures uuid == UuidFrom(rs)
  {
    TemplateByPosition();
    uuid := "";
    var k := 0;
    var i := 0;
    while i < |Template|
      invariant 0 <= i <= 36 && |uuid| == i
      invariant k == SlotsBefore(i)
      invariant forall j :: 0 <= j < i ==> uuid[j] == CharAt(rs, j)
    {
      var c := Template[i];
      if c == 'x' {
        uuid := uuid + [HexDigit(rs[k])];
        k := k + 1;
      } else if c == 'y' {
        uuid := uuid + [HexDigit(VariantValue(rs[k]))];
        k := k + 1;
      } else {
        uuid := uuid + [c];
      }
      i := i + 1;
    }
    assert forall j :: 0 <= j < 36 ==> UuidFrom(rs)[j] == CharAt(rs, j);
  }
}
