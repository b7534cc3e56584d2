/** Texts as the system trims, joins, dates and hashes them. */
module Texts {

  /** What String.prototype.trim removes. */
  predicate IsSpace(c: char) {
    var n := c as int;
    9 <= n <= 13 || n == 32 || n == 160 || n == 0x1680 || 0x2000 <= n <= 0x200A || n == 0x2028 || n == 0x2029
    || n == 0x202F || n == 0x205F || n == 0x3000 || n == 0xFEFF
  }

  function TrimStart(s: string): string {
    if s != [] && IsSpace(s[0]) then TrimStart(s[1..]) else s
  }

  function TrimEnd(s: string): string {
    if s != [] && IsSpace(s[|s|-1]) then TrimEnd(s[..|s|-1]) else s
  }

  function Trim(s: string): string { TrimEnd(TrimStart(s)) }

  predicate AllSpace(s: string) { forall c <- s :: IsSpace(c) }

  lemma {:induction false} TrimStartCuts(s: string) returns (n: nat)
    ensures n <= |s| && TrimStart(s) == s[n..] && AllSpace(s[..n])
    ensures n < |s| ==> !IsSpace(s[n])
  {
    n := 0;
    if s != [] && IsSpace(s[0]) {
      n := TrimStartCuts(s[1..]);
      assert s[1..][n..] == s[n+1..] && s[..n+1] == [s[0]] + s[1..][..n];
      n := n + 1;
    }
  }

  lemma {:induction false} TrimEndCuts(s: string) returns (n: nat)
    ensures n <= |s| && TrimEnd(s) == s[..n] && AllSpace(s[n..])
    ensures n > 0 ==> !IsSpace(s[n-1])
  {
    n := |s|;
    if s != [] && IsSpace(s[|s|-1]) {
      var front := s[..|s|-1];
      n := TrimEndCuts(front);
      assert front[..n] == s[..n] && s[n..] == front[n..] + [s[|s|-1]];
    }
  }

  /** Trimming cuts white space at both ends, and all of it. */
  lemma TrimCuts(s: string) returns (a: nat, b: nat)
    ensures a <= b <= |s| && Trim(s) == s[a..b] && AllSpace(s[..a]) && AllSpace(s[b..])
    ensures a < b ==> !IsSpace(s[a]) && !IsSpace(s[b-1])
  {
    hide IsSpace;
    a := TrimStartCuts(s);
    var n := TrimEndCuts(s[a..]);
    b := a + n;
    assert s[a..][..n] == s[a..b] && s[a..][n..] == s[b..];
  }

  /** The form of a date, four digits, two and two; whether there is such a day is not asked. */
  predicate IsDateText(s: string) {
    && |s| == 10 && s[4] == '-' && s[7] == '-'
    && forall i :: 0 <= i < 10 && i != 4 && i != 7 ==> '0' <= s[i] <= '9'
  }

  /** Array.prototype.join with commas. */
  function Joined(texts: seq<string>): string {
    if texts == [] then "" else if |texts| == 1 then texts[0] else texts[0] + "," + Joined(texts[1..])
  }

  /** What the proofs use of SHA-256. */
  ghost predicate Injective(sha: string -> string) { forall a, b :: sha(a) == sha(b) ==> a == b }
}
