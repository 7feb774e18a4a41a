/** The two string operations of JavaScript that the component relies on:
    `String.prototype.trim` (for the submit guard) and
    `String.prototype.substring(0, end)` (for the placeholder text). */
module JsString {

  /** The code points `trim` removes: ECMAScript's WhiteSpace (tab, vertical
      tab, form feed, space, no-break space, byte order mark and the other
      Unicode "Zs" space separators) and its LineTerminator code points. */
  predicate IsWhiteSpace(c: char) {
    var n := c as int;
    n == 0x09 || n == 0x0A || n == 0x0B || n == 0x0C || n == 0x0D ||
    n == 0x20 || n == 0xA0 || n == 0x1680 || (0x2000 <= n <= 0x200A) ||
    n == 0x2028 || n == 0x2029 || n == 0x202F || n == 0x205F ||
    n == 0x3000 || n == 0xFEFF
  }

  /** Every character of `s` is white space (vacuously true of ""). */
  ghost predicate AllWhiteSpace(s: string) {
    forall i :: 0 <= i < |s| ==> IsWhiteSpace(s[i])
  }

  /** `s` with its leading white space removed: a suffix of `s` that is empty
      or starts with a non-white-space character. */
  function TrimStart(s: string): (r: string)
    ensures |r| <= |s| && r == s[|s| - |r|..]
    ensures r == [] || !IsWhiteSpace(r[0])
  {
    if s == [] then s
    else if IsWhiteSpace(s[0]) then TrimStart(s[1..])
    else s
  }

  /** `s` with its trailing white space removed: a prefix of `s` that is empty
      or ends with a non-white-space character. */
  function TrimEnd(s: string): (r: string)
    ensures |r| <= |s| && r == s[..|r|]
    ensures r == [] || !IsWhiteSpace(r[|r| - 1])
  {
    if s == [] then s
    else if IsWhiteSpace(s[|s| - 1]) then TrimEnd(s[..|s| - 1])
    else s
  }

  /** `s.trim()`: white space removed at both ends. */
  function Trim(s: string): (r: string)
    ensures |r| <= |s|
    ensures r == [] || (!IsWhiteSpace(r[0]) && !IsWhiteSpace(r[|r| - 1]))
  {
    TrimEnd(TrimStart(s))
  }

  /** Everything `TrimStart` drops is white space. */
  lemma {:induction false} TrimStartDropsWhiteSpace(s: string)
    ensures AllWhiteSpace(s[..|s| - |TrimStart(s)|])
  {
    if s != [] && IsWhiteSpace(s[0]) {
      TrimStartDropsWhiteSpace(s[1..]);
      var k := |s| - |TrimStart(s)|;
      assert forall i :: 1 <= i < k ==> s[i] == s[1..][i - 1];
    }
  }

  /** Everything `TrimEnd` drops is white space. */
  lemma {:induction false} TrimEndDropsWhiteSpace(s: string)
    ensures AllWhiteSpace(s[|TrimEnd(s)|..])
  {
    if s != [] && IsWhiteSpace(s[|s| - 1]) {
      TrimEndDropsWhiteSpace(s[..|s| - 1]);
      var k := |TrimEnd(s)|;
      assert forall i :: k <= i < |s| - 1 ==> s[i] == s[..|s| - 1][i];
    }
  }

  /** `s.trim()` is the slice `s[a..a + |r|]` of `s` and only white space is
      cut off on either side of it. */
  lemma TrimIsSlice(s: string)
    ensures var r := Trim(s);
      exists a ::
        && 0 <= a <= |s| - |r| && r == s[a..a + |r|]
        && AllWhiteSpace(s[..a]) && AllWhiteSpace(s[a + |r|..])
  {
    var t := TrimStart(s);
    var r := TrimEnd(t);
    var a := |s| - |t|;
    TrimStartDropsWhiteSpace(s);
    TrimEndDropsWhiteSpace(t);
    assert s[a..a + |r|] == r;
    assert s[a + |r|..] == t[|r|..];
  }

  /** `!s.trim()`: the trimmed string is the empty string, which JavaScript
      treats as false. This holds exactly when `s` is all white space. */
  function IsBlank(s: string): (b: bool)
    ensures b <==> AllWhiteSpace(s)
  {
    var r := Trim(s);
    if r == [] then
      var t := TrimStart(s);
      TrimStartDropsWhiteSpace(s);
      TrimEndDropsWhiteSpace(t);
      assert s == s[..|s| - |t|] + t;
      true
    else
      false
  }

  /** `s.substring(0, end)` for an integral `end`: JavaScript clamps `end`
      into `[0, |s|]`, so the result is the prefix of `s` of that length. */
  function SubstringTo(s: string, end: int): (r: string)
    ensures r <= s
    ensures |r| == if end < 0 then 0 else if end > |s| then |s| else end
  {
    if end <= 0 then "" else if end >= |s| then s else s[..end]
  }
}
