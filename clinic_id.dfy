/**
  Stable clinic identity (src/types/clinic.ts): field normalisation, the
  32-bit FNV-1a hash of the joined key, and its fixed-width hexadecimal
  rendering. The hash is FNV-1a as described in section 2 of the IETF draft
  "The FNV Non-Cryptographic Hash Algorithm" (draft-eastlake-fnv): start from
  the offset basis, and for each input unit XOR it in and multiply by the
  32-bit FNV prime, modulo 2^32. The source feeds it UTF-16 code units.
*/
module ClinicId {
  import opened JsString
  import Seqs

  /** 台, the legacy form that the normaliser rewrites. */
  const TAI_LEGACY: CodeUnit := 0x53F0
  /** 臺, the standard form it is rewritten to. */
  const TAI_STANDARD: CodeUnit := 0x81FA
  /** `|`, the separator joining the three key fields. */
  const SEPARATOR: CodeUnit := 0x7C

  const FNV_OFFSET_BASIS: bv32 := 0x811c9dc5
  const FNV_PRIME: bv32 := 0x01000193

  // ---------------------------------------------------------------------
  // norm
  // ---------------------------------------------------------------------

  /** `s.replace(/\s+/g, '')`: every whitespace code unit removed. */
  function StripWhitespace(s: Str): Str
  {
    Seqs.Filter(s, (u: CodeUnit) => !IsWhitespace(u))
  }

  /** `s.replace(/台/g, '臺')`. */
  function ReplaceTai(s: Str): (r: Str)
    ensures |r| == |s|
    ensures forall k :: 0 <= k < |s| ==> r[k] == (if s[k] == TAI_LEGACY then TAI_STANDARD else s[k])
  {
    seq(|s|, k requires 0 <= k < |s| => if s[k] == TAI_LEGACY then TAI_STANDARD else s[k])
  }

  /** `norm`: strip whitespace, then rewrite 台 to 臺. */
  function Norm(s: Str): (r: Str)
    ensures |r| <= |s|
    ensures forall k :: 0 <= k < |r| ==> !IsWhitespace(r[k]) && r[k] != TAI_LEGACY
  {
    ReplaceTai(StripWhitespace(s))
  }

  /** Stripping a string that has no whitespace changes nothing. */
  lemma StripWhitespaceNoop(s: Str)
    requires forall k :: 0 <= k < |s| ==> !IsWhitespace(s[k])
    ensures StripWhitespace(s) == s
  {
    Seqs.FilterAll(s, (u: CodeUnit) => !IsWhitespace(u));
  }

  /** Normalisation is a projection: normalising twice is normalising once. */
  lemma NormIdempotent(s: Str)
    ensures Norm(Norm(s)) == Norm(s)
  {
    StripWhitespaceNoop(Norm(s));
  }

  /** Normalisation works unit by unit, so it distributes over concatenation. */
  lemma NormConcat(a: Str, b: Str)
    ensures Norm(a + b) == Norm(a) + Norm(b)
  {
    Seqs.FilterConcat(a, b, (u: CodeUnit) => !IsWhitespace(u));
  }

  /** A whitespace code unit anywhere in a field does not survive normalisation. */
  lemma NormIgnoresWhitespace(a: Str, w: CodeUnit, b: Str)
    requires IsWhitespace(w)
    ensures Norm(a + [w] + b) == Norm(a + b)
  {
    NormConcat(a + [w], b);
    NormConcat(a, [w]);
    NormConcat(a, b);
    assert StripWhitespace([w]) == [];
  }

  /** 台 and 臺 normalise alike anywhere in a field. */
  lemma NormIdentifiesTai(a: Str, b: Str)
    ensures Norm(a + [TAI_LEGACY] + b) == Norm(a + [TAI_STANDARD] + b)
  {
    NormConcat(a + [TAI_LEGACY], b);
    NormConcat(a, [TAI_LEGACY]);
    NormConcat(a + [TAI_STANDARD], b);
    NormConcat(a, [TAI_STANDARD]);
    assert StripWhitespace([TAI_LEGACY]) == [TAI_LEGACY];
    assert StripWhitespace([TAI_STANDARD]) == [TAI_STANDARD];
  }

  /** `t` is `s` with one whitespace unit deleted or one 台 written as 臺. */
  ghost predicate OneVariant(s: Str, t: Str)
  {
    exists a: Str, b: Str, w: CodeUnit ::
      (IsWhitespace(w) && s == a + [w] + b && t == a + b)
      || (w == TAI_LEGACY && s == a + [w] + b && t == a + [TAI_STANDARD] + b)
  }

  lemma NormOneVariant(s: Str, t: Str)
    requires OneVariant(s, t)
    ensures Norm(s) == Norm(t)
  {
    var a: Str, b: Str, w: CodeUnit :|
      (IsWhitespace(w) && s == a + [w] + b && t == a + b)
      || (w == TAI_LEGACY && s == a + [w] + b && t == a + [TAI_STANDARD] + b);
    if IsWhitespace(w) && s == a + [w] + b && t == a + b {
      NormIgnoresWhitespace(a, w, b);
    } else {
      NormIdentifiesTai(a, b);
    }
  }

  // ---------------------------------------------------------------------
  // fnv1a32
  // ---------------------------------------------------------------------

  /** One round: `h ^= u; h = Math.imul(h, prime) >>> 0`, i.e. XOR then multiply mod 2^32. */
  function FnvStep(h: bv32, u: CodeUnit): bv32
  {
    (h ^ (u as bv32)) * FNV_PRIME
  }

  /** The 32-bit FNV-1a fold over the code units, first to last. */
  function FnvHash(s: Str): bv32
  {
    if s == [] then FNV_OFFSET_BASIS else FnvStep(FnvHash(s[..|s| - 1]), s[|s| - 1])
  }

  /** `('00000000' + h.toString(16)).slice(-8)`. */
  function Render(h: bv32): Str
  {
    var padded := Zeros(8) + ToRadix(h as int, 16);
    padded[|padded| - 8..]
  }

  /** Lower-case hexadecimal digits, as `toString(16)` prints them. */
  predicate IsLowerHex(u: CodeUnit)
  {
    (0x30 <= u <= 0x39) || (0x61 <= u <= 0x66)
  }

  /**
    The rendering is exactly eight lower-case hex digits, the 32-bit value
    zero-padded on the left, and reading it back as hex gives the value.
  */
  lemma {:induction false} RenderIsFixedHex(h: bv32)
    ensures |Render(h)| == 8
    ensures forall k :: 0 <= k < 8 ==> IsLowerHex(Render(h)[k])
    ensures ParseRadix(Render(h), 16) == h as int
  {
    var n: nat := h as int;
    var t := ToRadix(n, 16);
    assert n < Pow(16, 8) by {
      assert Pow(16, 8) == 0x1_0000_0000;
    }
    ToRadixLength(n, 16, 8);
    PadSlice(t);
    assert Render(h) == Zeros(8 - |t|) + t;
    ParseLeadingZeros(8 - |t|, t, 16);
    ParseToRadix(n, 16);
  }

  /** Taking the last eight units of eight zeros followed by at most eight digits. */
  lemma PadSlice(t: Str)
    requires |t| <= 8
    ensures var padded := Zeros(8) + t; padded[|padded| - 8..] == Zeros(8 - |t|) + t
  {
    var padded := Zeros(8) + t;
    assert padded[|padded| - 8..] == Zeros(8 - |t|) + t;
  }

  /** `fnv1a32(str)`: the loop of the source, proved to compute the fold and render it. */
  method Fnv1a32(str: Str) returns (r: Str)
    ensures r == Render(FnvHash(str))
    ensures |r| == 8 && forall k :: 0 <= k < 8 ==> IsLowerHex(r[k])
    ensures ParseRadix(r, 16) == FnvHash(str) as int
  {
    var h: bv32 := FNV_OFFSET_BASIS;
    var i := 0;
    while i < |str|
      invariant 0 <= i <= |str|
      invariant h == FnvHash(str[..i])
    {
      assert str[..i + 1][..i] == str[..i];
      h := FnvStep(h, str[i]);
      i := i + 1;
    }
    assert str[..|str|] == str;
    r := Render(h);
    RenderIsFixedHex(h);
  }

  /** The empty key hashes to the offset basis, rendered "811c9dc5". */
  lemma EmptyKeyRendersBasis()
    ensures FnvHash([]) == FNV_OFFSET_BASIS
    ensures Render(FnvHash([])) == Utf16("811c9dc5")
  {
    var n: nat := 0x811c9dc5;
    assert ToRadix(n, 16) == Utf16("811c9dc5");
  }

  // ---------------------------------------------------------------------
  // makeClinicId
  // ---------------------------------------------------------------------

  /** The hashed key: `${norm(county)}|${norm(org_name)}|${norm(address)}`. */
  function Key(county: Str, orgName: Str, address: Str): Str
  {
    Norm(county) + [SEPARATOR] + Norm(orgName) + [SEPARATOR] + Norm(address)
  }

  /** The id that `makeClinicId` derives from the three fields. */
  function ClinicIdOf(county: Str, orgName: Str, address: Str): Str
  {
    Render(FnvHash(Key(county, orgName, address)))
  }

  /** `makeClinicId`, as the source runs it: build the key, hash it with the loop. */
  method MakeClinicId(county: Str, orgName: Str, address: Str) returns (id: Str)
    ensures id == ClinicIdOf(county, orgName, address)
    ensures |id| == 8 && forall k :: 0 <= k < 8 ==> IsLowerHex(id[k])
  {
    var key := Key(county, orgName, address);
    id := Fnv1a32(key);
  }

  /** The id depends on the fields only through their normalised forms. */
  lemma ClinicIdOfNormalised(county: Str, orgName: Str, address: Str)
    ensures ClinicIdOf(Norm(county), Norm(orgName), Norm(address)) == ClinicIdOf(county, orgName, address)
  {
    NormIdempotent(county);
    NormIdempotent(orgName);
    NormIdempotent(address);
  }

  /**
    Deleting a whitespace unit from, or writing 台 as 臺 in, any one of the
    three fields leaves the id unchanged.
  */
  lemma ClinicIdIgnoresVariant(county: Str, orgName: Str, address: Str,
                               county': Str, orgName': Str, address': Str)
    requires (OneVariant(county, county') && orgName == orgName' && address == address')
          || (county == county' && OneVariant(orgName, orgName') && address == address')
          || (county == county' && orgName == orgName' && OneVariant(address, address'))
    ensures ClinicIdOf(county, orgName, address) == ClinicIdOf(county', orgName', address')
  {
    if OneVariant(county, county') && orgName == orgName' && address == address' {
      NormOneVariant(county, county');
    } else if county == county' && OneVariant(orgName, orgName') && address == address' {
      NormOneVariant(orgName, orgName');
    } else {
      NormOneVariant(address, address');
    }
  }

  /**
    The separator is not removed from the fields, so two different normalised
    triples can share a key and hence an id: ("A|", "B", "C") and ("A", "|B", "C").
  */
  lemma SeparatorCanCollide()
    ensures Norm([0x41, SEPARATOR]) != Norm([0x41])
    ensures Key([0x41, SEPARATOR], [0x42], [0x43]) == Key([0x41], [SEPARATOR, 0x42], [0x43])
    ensures ClinicIdOf([0x41, SEPARATOR], [0x42], [0x43]) == ClinicIdOf([0x41], [SEPARATOR, 0x42], [0x43])
  {
    StripWhitespaceNoop([0x41, SEPARATOR]);
    StripWhitespaceNoop([SEPARATOR, 0x42]);
    StripWhitespaceNoop([0x41]);
    assert Key([0x41, SEPARATOR], [0x42], [0x43]) == [0x41, SEPARATOR, SEPARATOR, 0x42, SEPARATOR, 0x43];
  }
}
