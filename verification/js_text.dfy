/** String helpers of the JavaScript library that several modules rely on. */
module JsText {

  /** The characters that String.prototype.trim removes: white space and line terminators. */
  predicate IsSpace(c: char) {
    || c in {'\t', '\n', '\r', ' '}
    || c as int in {0x0B, 0x0C, 0xA0, 0x1680, 0x2028, 0x2029, 0x202F, 0x205F, 0x3000, 0xFEFF}
    || 0x2000 <= c as int <= 0x200A
  }

  /** They are the 25 code points that ECMA-262 lists in sections 12.2 and 12.3. */
  lemma SpacesSpelledOut(c: char)
    ensures IsSpace(c) <==> c as int in {
              9, 10, 11, 12, 13, 32, 160, 5760, 8192, 8193, 8194, 8195, 8196, 8197, 8198, 8199, 8200, 8201, 8202,
              8232, 8233, 8239, 8287, 12288, 65279}
  {
    assert IsSpace(c) && c as int < 160 ==> c as int in {9, 10, 11, 12, 13, 32};
  }

  predicate AllSpace(s: string) {
    forall i :: 0 <= i < |s| ==> IsSpace(s[i])
  }

  function TrimStart(s: string): string {
    if s != "" && IsSpace(s[0]) then TrimStart(s[1..]) else s
  }

  function TrimEnd(s: string): string {
    if s != "" && IsSpace(s[|s| - 1]) then TrimEnd(s[..|s| - 1]) else s
  }

  function Trim(s: string): string {
    TrimEnd(TrimStart(s))
  }

  /** Text that has no white space at either end. */
  predicate IsTrimmed(s: string) {
    s == "" || (!IsSpace(s[0]) && !IsSpace(s[|s| - 1]))
  }

  lemma {:induction false} TrimStartCut(s: string) returns (a: nat)
    ensures a <= |s| && TrimStart(s) == s[a..] && AllSpace(s[..a])
    ensures a < |s| ==> !IsSpace(s[a])
  {
    if s != "" && IsSpace(s[0]) {
      a := TrimStartCut(s[1..]);
      a := a + 1;
      assert s[..a] == [s[0]] + s[1..][..a - 1];
    } else {
      a := 0;
    }
  }

  lemma {:induction false} TrimEndCut(s: string) returns (b: nat)
    ensures b <= |s| && TrimEnd(s) == s[..b] && AllSpace(s[b..])
    ensures b > 0 ==> !IsSpace(s[b - 1])
  {
    if s != "" && IsSpace(s[|s| - 1]) {
      b := TrimEndCut(s[..|s| - 1]);
      assert s[b..] == s[..|s| - 1][b..] + [s[|s| - 1]];
    } else {
      b := |s|;
    }
  }

  /** Trimming cuts white space off the ends and nothing else. */
  lemma TrimCut(s: string) returns (a: nat, b: nat)
    ensures a <= b <= |s| && Trim(s) == s[a..b]
    ensures AllSpace(s[..a]) && AllSpace(s[b..]) && IsTrimmed(Trim(s))
  {
    a := TrimStartCut(s);
    var n := TrimEndCut(s[a..]);
    b := a + n;
    assert s[a..][..n] == s[a..b];
    assert s[b..] == s[a..][n..];
    if a < b {
      assert s[a..b][0] == s[a];
      assert s[a..][n - 1] == s[b - 1];
    }
  }

  lemma TrimFixedIffTrimmed(s: string)
    ensures Trim(s) == s <==> IsTrimmed(s)
  {
    var a, b := TrimCut(s);
    assert a > 0 ==> IsSpace(s[..a][0]);
    assert b < |s| ==> IsSpace(s[b..][|s| - b - 1]);
  }
}
