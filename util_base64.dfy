/**
 * The normalisation step of `decodeBase64URL` in lib/util/index.js: pad a
 * base64url text with `=` to a multiple of four characters and map the URL-
 * and filename-safe alphabet onto the standard one (RFC 4648, section 5:
 * `-` becomes `+`, `_` becomes `/`).  The decoding itself is done by the
 * platform and is not part of this model.
 */
module Base64Url {

  /** `'='` repeated `n` times (`new Array(n + 1).join('=')`). */
  function Padding(n: nat): (r: string)
    ensures |r| == n
    ensures forall i :: 0 <= i < n ==> r[i] == '='
  {
    if n == 0 then [] else Padding(n - 1) + "="
  }

  /** The padding step: append `4 - len % 4` `'='` unless the length is already a multiple of four. */
  function Pad(encoded: string): (r: string)
    ensures |r| % 4 == 0 && |encoded| <= |r| < |encoded| + 4
    ensures r[..|encoded|] == encoded
    ensures forall i :: |encoded| <= i < |r| ==> r[i] == '='
  {
    var remainder := |encoded| % 4;
    if remainder > 0 then encoded + Padding(4 - remainder) else encoded
  }

  /** `s.replace(/from/g, to)` for single characters. */
  function ReplaceAll(s: string, from: char, to: char): (r: string)
    ensures |r| == |s|
    ensures forall i :: 0 <= i < |s| ==> r[i] == (if s[i] == from then to else s[i])
  {
    if s == [] then [] else [if s[0] == from then to else s[0]] + ReplaceAll(s[1..], from, to)
  }

  /** The standard-alphabet character for a base64url one. */
  function ToStandard(c: char): char
  {
    if c == '-' then '+' else if c == '_' then '/' else c
  }

  /** What `decodeBase64URL` hands to the base64 decoder. */
  function Normalize(encoded: string): (r: string)
    ensures |r| == |Pad(encoded)|
    ensures forall i :: 0 <= i < |r| ==> r[i] == ToStandard(Pad(encoded)[i])
  {
    ReplaceAll(ReplaceAll(Pad(encoded), '-', '+'), '_', '/')
  }

  /**
   * The normalised text is the input mapped onto the standard alphabet,
   * followed by fewer than four `'='`, up to the next multiple of four; no
   * `'-'` or `'_'` remains.
   */
  lemma NormalizeShape(encoded: string)
    ensures |Normalize(encoded)| % 4 == 0
    ensures |encoded| <= |Normalize(encoded)| < |encoded| + 4
    ensures |encoded| % 4 == 0 ==> |Normalize(encoded)| == |encoded|
    ensures forall i :: 0 <= i < |encoded| ==> Normalize(encoded)[i] == ToStandard(encoded[i])
    ensures forall i :: |encoded| <= i < |Normalize(encoded)| ==> Normalize(encoded)[i] == '='
    ensures '-' !in Normalize(encoded) && '_' !in Normalize(encoded)
  {
    var padded := Pad(encoded);
    var r := Normalize(encoded);
    forall i | 0 <= i < |encoded| ensures r[i] == ToStandard(encoded[i]) {
      assert padded[i] == encoded[i];
    }
    forall i | |encoded| <= i < |r| ensures r[i] == '=' {
      assert padded[i] == '=';
    }
    forall i | 0 <= i < |r| ensures r[i] != '-' && r[i] != '_' { }
  }

  /** Normalising an already normalised text changes nothing. */
  lemma NormalizeIdempotent(encoded: string)
    ensures Normalize(Normalize(encoded)) == Normalize(encoded)
  {
    var once := Normalize(encoded);
    NormalizeShape(encoded);
    NormalizeShape(once);
    assert Normalize(once) == once;
  }
}
