/** The pattern for attribute keys, which the ingress puts on the keys of JSON objects and on the
    headers of CSV columns. */
module AttributeKeys {

  predicate IsLetter(u: int) { 0x41 <= u <= 0x5A || 0x61 <= u <= 0x7A }

  /** A letter, then up to 79 letters, digits, dots, underscores or hyphens. */
  predicate SafeCodes(codes: seq<int>) {
    && 1 <= |codes| <= 80
    && IsLetter(codes[0])
    && forall i :: 1 <= i < |codes| ==> IsLetter(codes[i]) || 0x30 <= codes[i] <= 0x39 || codes[i] in {0x2D, 0x2E, 0x5F}
  }

  function Codes(s: string): (codes: seq<int>)
    ensures |codes| == |s| && forall i :: 0 <= i < |s| ==> codes[i] == s[i] as int
  {
    seq(|s|, i requires 0 <= i < |s| => s[i] as int)
  }
}
