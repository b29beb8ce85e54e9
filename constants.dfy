/** Shared constants: the target names and the format of a Trello object id. */
module Constants {

  /** `VALID_TARGETS`. */
  const ValidTargets: seq<string> := ["jira", "trello", "linear"]

  predicate IsHexDigit(c: char) {
    ('0' <= c <= '9') || ('a' <= c <= 'f') || ('A' <= c <= 'F')
  }

  /** The pattern `[a-fA-F0-9]{n}` followed by the end of the input, matched from the
      start of `s`. */
  function HexExactly(s: string, n: nat): bool {
    if n == 0 then s == []
    else s != [] && IsHexDigit(s[0]) && HexExactly(s[1..], n - 1)
  }

  lemma {:induction false} HexExactlySpec(s: string, n: nat)
    ensures HexExactly(s, n) <==> |s| == n && forall i | 0 <= i < |s| :: IsHexDigit(s[i])
  {
    if n > 0 && s != [] {
      HexExactlySpec(s[1..], n - 1);
      assert forall i | 1 <= i < |s| :: s[i] == s[1..][i - 1];
    }
  }

  /** `TRELLO_ID_REGEX.test(s)`, the anchored pattern `^[a-fA-F0-9]{24}$`: exactly 24
      characters, each a hexadecimal digit in either case; any other character, or
      any other length, rejects. */
  function IsTrelloId(s: string): (r: bool)
    ensures r <==> |s| == 24 && forall i | 0 <= i < |s| :: IsHexDigit(s[i])
    ensures r ==> forall i | 0 <= i < |s| :: ('0' <= s[i] <= '9') || ('a' <= s[i] <= 'f') || ('A' <= s[i] <= 'F')
  {
    HexExactlySpec(s, 24);
    HexExactly(s, 24)
  }
}
