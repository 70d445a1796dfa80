/** The string operations the options page applies to the draft note: JavaScript's
    `String.prototype.trim` (ECMAScript 2023, section 22.1.3.32) and the test `!s.trim()`,
    which holds when the trimmed string is the empty string. */
module Text {

  /** The code points `trim` strips: ECMAScript WhiteSpace (section 12.2) and
      LineTerminator (section 12.3). */
  function IsWhitespace(c: char): (ws: bool)
    ensures c == ' ' || c == '\t' || c == '\n' || c == '\r' ==> ws
    ensures '0' <= c <= '9' || 'a' <= c <= 'z' || 'A' <= c <= 'Z' ==> !ws
  {
    var k := c as int;
    k == 0x09 || k == 0x0A || k == 0x0B || k == 0x0C || k == 0x0D || k == 0x20 ||
    k == 0xA0 || k == 0x1680 || (0x2000 <= k <= 0x200A) || k == 0x2028 || k == 0x2029 ||
    k == 0x202F || k == 0x205F || k == 0x3000 || k == 0xFEFF
  }

  predicate AllWhitespace(s: string) {
    forall i :: 0 <= i < |s| ==> IsWhitespace(s[i])
  }

  /** The length of the run of whitespace that starts `s`. */
  function LeadingWhitespace(s: string): (n: nat)
    ensures n <= |s|
    ensures forall i :: 0 <= i < n ==> IsWhitespace(s[i])
    ensures n < |s| ==> !IsWhitespace(s[n])
  {
    if |s| == 0 || !IsWhitespace(s[0]) then 0 else 1 + LeadingWhitespace(s[1..])
  }

  /** The length of the run of whitespace that ends `s`. */
  function TrailingWhitespace(s: string): (n: nat)
    ensures n <= |s|
    ensures forall i :: |s| - n <= i < |s| ==> IsWhitespace(s[i])
    ensures n < |s| ==> !IsWhitespace(s[|s| - 1 - n])
  {
    if |s| == 0 || !IsWhitespace(s[|s| - 1]) then 0
    else 1 + TrailingWhitespace(s[..|s| - 1])
  }

  /** `s.trim()`: `s` with the whitespace at both ends removed and nothing else touched. */
  function Trim(s: string): (t: string)
    ensures |t| <= |s|
    ensures t == [] <==> AllWhitespace(s)
    ensures t != [] ==> !IsWhitespace(t[0]) && !IsWhitespace(t[|t| - 1])
    ensures exists k :: 0 <= k <= |s| - |t| && t == s[k..k + |t|] && AllWhitespace(s[..k]) && AllWhitespace(s[k + |t|..])
  {
    var lead := LeadingWhitespace(s);
    if lead == |s| then
      assert s[..0] == [] && s[0..0] == [] && s[0..] == s;
      []
    else
      var trail := TrailingWhitespace(s);
      TrimmedMiddle(s, lead, trail);
      s[lead..|s| - trail]
  }

  lemma TrimmedMiddle(s: string, lead: nat, trail: nat)
    requires lead == LeadingWhitespace(s) < |s| && trail == TrailingWhitespace(s)
    ensures lead < |s| - trail
    ensures var t := s[lead..|s| - trail];
      && !IsWhitespace(t[0]) && !IsWhitespace(t[|t| - 1])
      && AllWhitespace(s[..lead]) && AllWhitespace(s[|s| - trail..])
  {
    assert !IsWhitespace(s[lead]);
    var t := s[lead..|s| - trail];
    assert t[0] == s[lead];
    assert t[|t| - 1] == s[|s| - 1 - trail];
  }

  /** `!s.trim()`: the draft counts as empty exactly when every character is whitespace. */
  function IsBlank(s: string): (blank: bool)
    ensures blank <==> AllWhitespace(s)
  {
    Trim(s) == []
  }

  /** Trimming twice is trimming once. */
  lemma TrimIdempotent(s: string)
    ensures Trim(Trim(s)) == Trim(s)
  {
    var t := Trim(s);
    if t != [] {
      assert LeadingWhitespace(t) == 0;
      assert TrailingWhitespace(t) == 0;
      assert t[0..|t|] == t;
    }
  }
}
