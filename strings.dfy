/** The JavaScript string operations the core relies on: `trim`, ASCII case mapping,
    `split` on one character, `join`, `includes`, `startsWith` and number formatting. */
module Strings {

  /** The characters `String.prototype.trim` and the regular-expression class `\s`
      remove: WhiteSpace (TAB, VT, FF, SP, NBSP, ZWNBSP and the Zs category) and
      LineTerminator (LF, CR, LS, PS). */
  predicate IsSpace(c: char) {
    || c == '\t' || c == '\n' || c == '\U{000B}' || c == '\U{000C}' || c == '\r'
    || c == ' ' || c == '\U{00A0}' || c == '\U{1680}'
    || ('\U{2000}' <= c <= '\U{200A}')
    || c == '\U{2028}' || c == '\U{2029}' || c == '\U{202F}' || c == '\U{205F}'
    || c == '\U{3000}' || c == '\U{FEFF}'
  }

  /** No leading and no trailing white space. */
  predicate IsTrimmed(s: string) {
    s == [] || (!IsSpace(s[0]) && !IsSpace(s[|s| - 1]))
  }

  /** Every character is white space (the string is "blank"). */
  predicate AllSpace(s: string) {
    forall i | 0 <= i < |s| :: IsSpace(s[i])
  }

  /** The leading white space removed (what a leading `\s*` matches). */
  function TrimStart(s: string): (r: string)
    ensures |r| <= |s| && r == s[|s| - |r|..]
    ensures r == [] || !IsSpace(r[0])
    ensures AllSpace(s[..|s| - |r|])
  {
    if |s| > 0 && IsSpace(s[0]) then
      var r := TrimStart(s[1..]);
      SpaceThenTrimmed(s, r);
      r
    else s
  }

  /** A leading space cut before a trimmed rest keeps the prefix all white space. */
  lemma SpaceThenTrimmed(s: string, r: string)
    requires |s| > 0 && IsSpace(s[0]) && |r| <= |s| - 1
    requires r == s[1..][|s| - 1 - |r|..] && AllSpace(s[1..][..|s| - 1 - |r|])
    ensures r == s[|s| - |r|..] && AllSpace(s[..|s| - |r|])
  {
    assert s[..|s| - |r|] == [s[0]] + s[1..][..|s| - 1 - |r|];
  }

  /** `s.trim()`: the longest infix of `s` that starts and ends with a non-space
      character, or "" when `s` is blank. */
  function Trim(s: string): (r: string)
    ensures IsTrimmed(r)
    ensures |r| <= |s|
    ensures r == [] <==> AllSpace(s)
  {
    if |s| > 0 && IsSpace(s[0]) then
      var r := Trim(s[1..]);
      assert AllSpace(s[1..]) ==> AllSpace(s) by {
        if AllSpace(s[1..]) {
          forall i | 0 <= i < |s| ensures IsSpace(s[i]) { if i > 0 { assert s[i] == s[1..][i - 1]; } }
        }
      }
      r
    else if |s| > 0 && IsSpace(s[|s| - 1]) then
      // s[0] is not white space, so neither s nor s[..|s| - 1] is blank
      Trim(s[..|s| - 1])
    else s
  }

  /** Trimming a trimmed string changes nothing, so `Trim` is idempotent. */
  lemma TrimOfTrimmed(s: string)
    requires IsTrimmed(s)
    ensures Trim(s) == s
  {
  }

  lemma TrimIdempotent(s: string)
    ensures Trim(Trim(s)) == Trim(s)
  {
    TrimOfTrimmed(Trim(s));
  }

  /** JavaScript's `!s?.trim()`: the string is nothing but white space, which by the
      contract of `Trim` is the same as being empty after trimming. */
  predicate Blank(s: string) {
    AllSpace(s)
  }

  function ToLowerChar(c: char): char {
    if 'A' <= c <= 'Z' then (c as int + 32) as char else c
  }

  function ToUpperChar(c: char): char {
    if 'a' <= c <= 'z' then (c as int - 32) as char else c
  }

  /** `s.toLowerCase()`, for the ASCII letters (see README, Left out). */
  function ToLower(s: string): (r: string)
    ensures |r| == |s| && forall i | 0 <= i < |s| :: r[i] == ToLowerChar(s[i])
  {
    if s == [] then [] else [ToLowerChar(s[0])] + ToLower(s[1..])
  }

  /** A string without upper-case ASCII letters is its own lower-case form. */
  lemma LowerIsFixed(s: string)
    requires forall i | 0 <= i < |s| :: !('A' <= s[i] <= 'Z')
    ensures ToLower(s) == s
  {
    assert forall i | 0 <= i < |s| :: ToLower(s)[i] == s[i];
  }

  /** `s.toUpperCase()`, for the ASCII letters. */
  function ToUpper(s: string): (r: string)
    ensures |r| == |s| && forall i | 0 <= i < |s| :: r[i] == ToUpperChar(s[i])
  {
    if s == [] then [] else [ToUpperChar(s[0])] + ToUpper(s[1..])
  }

  /** `s.includes(t)`: some infix of `s` equals `t`. */
  predicate Contains(s: string, t: string) {
    t <= s || (|s| > 0 && Contains(s[1..], t))
  }

  lemma {:induction false} ContainsAt(s: string, t: string, i: nat)
    requires i + |t| <= |s| && s[i..i + |t|] == t
    ensures Contains(s, t)
  {
    if i > 0 {
      assert s[1..][i - 1..i - 1 + |t|] == s[i..i + |t|];
      ContainsAt(s[1..], t, i - 1);
    } else {
      assert t <= s;
    }
  }

  lemma {:induction false} ContainsPrefix(s: string, t: string, u: string)
    requires Contains(s, t)
    ensures Contains(s + u, t)
  {
    if t <= s {
      assert t <= s + u;
    } else {
      assert (s + u)[1..] == s[1..] + u;
      ContainsPrefix(s[1..], t, u);
    }
  }

  lemma {:induction false} ContainsSuffix(u: string, s: string, t: string)
    requires Contains(s, t)
    ensures Contains(u + s, t)
  {
    if u != [] {
      assert (u + s)[1..] == u[1..] + s;
      ContainsSuffix(u[1..], s, t);
    } else {
      assert u + s == s;
    }
  }

  lemma ContainsMiddle(a: string, t: string, b: string)
    ensures Contains(a + t + b, t)
  {
    assert (a + t + b)[|a|..|a| + |t|] == t;
    ContainsAt(a + t + b, t, |a|);
  }

  /** Where `Contains` finds its infix. */
  lemma {:induction false} ContainsWitness(s: string, t: string) returns (i: nat)
    requires Contains(s, t)
    ensures i + |t| <= |s| && s[i..i + |t|] == t
  {
    if t <= s {
      i := 0;
    } else {
      var j := ContainsWitness(s[1..], t);
      assert s[1..][j..j + |t|] == s[j + 1..j + 1 + |t|];
      i := j + 1;
    }
  }

  lemma ContainsTrans(s: string, t: string, u: string)
    requires Contains(s, t) && Contains(t, u)
    ensures Contains(s, u)
  {
    var i := ContainsWitness(s, t);
    var j := ContainsWitness(t, u);
    forall m | 0 <= m < |u| ensures s[i + j + m] == u[m] {
      assert t[j + m] == u[m];
      assert s[i..i + |t|][j + m] == s[i + j + m];
    }
    assert s[i + j..i + j + |u|] == u;
    ContainsAt(s, u, i + j);
  }

  /** The trimmed string stands inside the original. */
  lemma {:induction false} ContainsTrim(s: string)
    ensures Contains(s, Trim(s))
  {
    if |s| > 0 && IsSpace(s[0]) {
      ContainsTrim(s[1..]);
    } else if |s| > 0 && IsSpace(s[|s| - 1]) {
      ContainsTrim(s[..|s| - 1]);
      ContainsPrefix(s[..|s| - 1], Trim(s), [s[|s| - 1]]);
      assert s[..|s| - 1] + [s[|s| - 1]] == s;
    } else {
      assert Trim(s) <= s;
    }
  }

  /** Every piece stands inside the joined string. */
  lemma {:induction false} ContainsJoined(parts: seq<string>, sep: string, k: nat)
    requires k < |parts|
    ensures Contains(Join(parts, sep), parts[k])
  {
    if |parts| == 1 {
      ContainsAt(parts[0], parts[0], 0);
    } else if k == 0 {
      ContainsAt(parts[0], parts[0], 0);
      ContainsPrefix(parts[0], parts[0], sep + Join(parts[1..], sep));
      assert parts[0] + sep + Join(parts[1..], sep) == parts[0] + (sep + Join(parts[1..], sep));
    } else {
      ContainsJoined(parts[1..], sep, k - 1);
      ContainsSuffix(parts[0] + sep, Join(parts[1..], sep), parts[k]);
    }
  }

  /** `s.split(sep)` for a one-character separator: the pieces between separators,
      empty pieces included, so the result is never empty. */
  function Split(s: string, sep: char): (parts: seq<string>)
    ensures |parts| >= 1
    ensures forall k | 0 <= k < |parts| :: sep !in parts[k]
  {
    if |s| == 0 then [""]
    else
      var rest := Split(s[1..], sep);
      if s[0] == sep then [""] + rest
      else [[s[0]] + rest[0]] + rest[1..]
  }

  /** `parts.join(sep)`. */
  function Join(parts: seq<string>, sep: string): string {
    if |parts| == 0 then ""
    else if |parts| == 1 then parts[0]
    else parts[0] + sep + Join(parts[1..], sep)
  }

  /** Splitting loses nothing: joining the pieces with the separator gives the input back. */
  lemma {:induction false} JoinSplit(s: string, sep: char)
    ensures Join(Split(s, sep), [sep]) == s
  {
    if |s| > 0 {
      var rest := Split(s[1..], sep);
      JoinSplit(s[1..], sep);
      if s[0] == sep {
        assert Split(s, sep) == [""] + rest;
        assert ([""] + rest)[1..] == rest;
        assert s == [sep] + s[1..];
      } else {
        var parts := Split(s, sep);
        assert parts == [[s[0]] + rest[0]] + rest[1..];
        if |rest| == 1 {
          assert s == [s[0]] + s[1..];
        } else {
          assert parts[1..] == rest[1..];
          assert Join(rest, [sep]) == rest[0] + [sep] + Join(rest[1..], [sep]);
          assert s == [s[0]] + s[1..];
        }
      }
    }
  }

  /** The concatenation of all pieces. */
  function Concat(parts: seq<string>): string {
    if parts == [] then "" else parts[0] + Concat(parts[1..])
  }

  /** `s` with every occurrence of `c` removed. */
  function Remove(s: string, c: char): (r: string)
    ensures c !in r
  {
    if s == [] then "" else (if s[0] == c then "" else [s[0]]) + Remove(s[1..], c)
  }

  /** The non-empty strings, in their order: `.filter(Boolean)`. */
  function NonEmpty(parts: seq<string>): (r: seq<string>)
    ensures |r| <= |parts|
    ensures forall k | 0 <= k < |r| :: r[k] != [] && r[k] in parts
  {
    if parts == [] then []
    else (if parts[0] != [] then [parts[0]] else []) + NonEmpty(parts[1..])
  }

  /** Dropping empty strings changes no concatenation. */
  lemma {:induction false} ConcatNonEmpty(parts: seq<string>)
    ensures Concat(NonEmpty(parts)) == Concat(parts)
  {
    if parts != [] {
      ConcatNonEmpty(parts[1..]);
      ConcatAppend(if parts[0] != [] then [parts[0]] else [], NonEmpty(parts[1..]));
    }
  }

  lemma {:induction false} ConcatAppend(xs: seq<string>, ys: seq<string>)
    ensures Concat(xs + ys) == Concat(xs) + Concat(ys)
  {
    if xs != [] {
      assert (xs + ys)[1..] == xs[1..] + ys;
      ConcatAppend(xs[1..], ys);
    } else {
      assert xs + ys == ys;
    }
  }

  /** The pieces of a split, put back together without separators, are the input with
      every separator removed. */
  lemma {:induction false} ConcatSplit(s: string, sep: char)
    ensures Concat(Split(s, sep)) == Remove(s, sep)
  {
    if |s| > 0 {
      var rest := Split(s[1..], sep);
      ConcatSplit(s[1..], sep);
      if s[0] == sep {
        assert ([""] + rest)[1..] == rest;
      } else {
        var parts := Split(s, sep);
        assert parts[1..] == rest[1..];
        assert Concat(rest) == rest[0] + Concat(rest[1..]);
      }
    }
  }

  /** Every character of `s` is `c`. */
  predicate AllOf(s: string, c: char) {
    forall i | 0 <= i < |s| :: s[i] == c
  }

  /** `ps[0] + gaps[0] + ps[1] + … + gaps[|ps| - 2] + ps[|ps| - 1]`. */
  function Interleave(ps: seq<string>, gaps: seq<string>): string
    requires |ps| >= 1 && |gaps| == |ps| - 1
  {
    if |ps| == 1 then ps[0] else ps[0] + gaps[0] + Interleave(ps[1..], gaps[1..])
  }

  /** Pieces joined by `c`, seen through `.filter(Boolean)`: the non-empty pieces stand
      in order, separated by the non-empty runs of `c` in `gaps`, after the run `lead`
      and before the run `trail` (either may be empty); without a non-empty piece the
      join is all `c`. */
  predicate RunsShape(parts: seq<string>, c: char, lead: string, gaps: seq<string>, trail: string)
    requires |parts| >= 1
  {
    var ps := NonEmpty(parts);
    && (ps == [] ==> AllOf(Join(parts, [c]), c))
    && (ps != [] ==>
          && AllOf(lead, c) && AllOf(trail, c)
          && |gaps| == |ps| - 1 && (forall k | 0 <= k < |gaps| :: gaps[k] != "" && AllOf(gaps[k], c))
          && Join(parts, [c]) == lead + Interleave(ps, gaps) + trail)
  }

  /** Every join of pieces has that shape. */
  lemma {:induction false} JoinRuns(parts: seq<string>, c: char) returns (lead: string, gaps: seq<string>, trail: string)
    requires |parts| >= 1
    ensures RunsShape(parts, c, lead, gaps, trail)
    decreases |parts|
  {
    if |parts| == 1 {
      lead, gaps, trail := "", [], "";
      RunsSingle(parts, c);
    } else {
      var l, g, t := JoinRuns(parts[1..], c);
      if parts[0] == "" {
        lead, gaps, trail := [c] + l, g, t;
        RunsEmptyHead(parts, c, l, g, t);
      } else if NonEmpty(parts[1..]) == [] {
        lead, gaps, trail := "", [], [c] + Join(parts[1..], [c]);
        RunsLastPiece(parts, c, l, g, t);
      } else {
        lead, gaps, trail := "", [[c] + l] + g, t;
        RunsNextPiece(parts, c, l, g, t);
      }
    }
  }

  lemma JoinStep(parts: seq<string>, c: char)
    requires |parts| > 1
    ensures Join(parts, [c]) == parts[0] + [c] + Join(parts[1..], [c])
    ensures NonEmpty(parts) == (if parts[0] != [] then [parts[0]] else []) + NonEmpty(parts[1..])
  {
  }

  lemma AllOfCons(c: char, s: string)
    requires AllOf(s, c)
    ensures AllOf([c] + s, c)
  {
    assert forall i | 1 <= i < |[c] + s| :: ([c] + s)[i] == s[i - 1];
  }

  lemma RunsSingle(parts: seq<string>, c: char)
    requires |parts| == 1
    ensures RunsShape(parts, c, "", [], "")
  {
    assert parts[1..] == [];
    assert NonEmpty(parts) == (if parts[0] != [] then [parts[0]] else []);
  }

  lemma RunsEmptyHead(parts: seq<string>, c: char, l: string, g: seq<string>, t: string)
    requires |parts| > 1 && parts[0] == "" && RunsShape(parts[1..], c, l, g, t)
    ensures RunsShape(parts, c, [c] + l, g, t)
  {
    JoinStep(parts, c);
    assert Join(parts, [c]) == [c] + Join(parts[1..], [c]);
    if NonEmpty(parts[1..]) == [] {
      AllOfCons(c, Join(parts[1..], [c]));
    } else {
      AllOfCons(c, l);
      var mid := Interleave(NonEmpty(parts[1..]), g);
      assert NonEmpty(parts) == [] + NonEmpty(parts[1..]) == NonEmpty(parts[1..]);
      assert Join(parts[1..], [c]) == l + mid + t;
      assert [c] + (l + mid + t) == ([c] + l) + mid + t;
    }
  }

  lemma RunsLastPiece(parts: seq<string>, c: char, l: string, g: seq<string>, t: string)
    requires |parts| > 1 && parts[0] != "" && NonEmpty(parts[1..]) == [] && RunsShape(parts[1..], c, l, g, t)
    ensures RunsShape(parts, c, "", [], [c] + Join(parts[1..], [c]))
  {
    JoinStep(parts, c);
    assert NonEmpty(parts) == [parts[0]];
    AllOfCons(c, Join(parts[1..], [c]));
    assert Join(parts, [c]) == "" + Interleave([parts[0]], []) + ([c] + Join(parts[1..], [c]));
  }

  lemma RunsNextPiece(parts: seq<string>, c: char, l: string, g: seq<string>, t: string)
    requires |parts| > 1 && parts[0] != "" && NonEmpty(parts[1..]) != [] && RunsShape(parts[1..], c, l, g, t)
    ensures RunsShape(parts, c, "", [[c] + l] + g, t)
  {
    JoinStep(parts, c);
    var psr := NonEmpty(parts[1..]);
    var ps := [parts[0]] + psr;
    var gaps := [[c] + l] + g;
    assert NonEmpty(parts) == ps;
    GapsCons(c, l, g);
    assert ps[1..] == psr && gaps[1..] == g;
    assert Interleave(ps, gaps) == parts[0] + ([c] + l) + Interleave(psr, g);
    Regroup(parts[0], [c], l, Interleave(psr, g), t);
  }

  lemma GapsCons(c: char, l: string, g: seq<string>)
    requires AllOf(l, c) && forall k | 0 <= k < |g| :: g[k] != "" && AllOf(g[k], c)
    ensures var gaps := [[c] + l] + g;
      forall k | 0 <= k < |gaps| :: gaps[k] != "" && AllOf(gaps[k], c)
  {
    AllOfCons(c, l);
    var gaps := [[c] + l] + g;
    assert forall k | 1 <= k < |gaps| :: gaps[k] == g[k - 1];
  }

  lemma Regroup(p: string, sep: string, l: string, mid: string, t: string)
    ensures p + sep + (l + mid + t) == "" + (p + (sep + l) + mid) + t
  {
  }

  /** A trimmed non-empty string has a non-empty piece when split at white space. */
  lemma TrimmedHasPiece(s: string, sep: char)
    requires s != "" && IsTrimmed(s) && IsSpace(sep)
    ensures NonEmpty(Split(s, sep)) != []
  {
    JoinSplit(s, sep);
    var _, _, _ := JoinRuns(Split(s, sep), sep);
    assert s[0] != sep;
  }

  /** The last piece of a split is a suffix of the input free of the separator. */
  lemma {:induction false} LastPieceIsSuffix(s: string, sep: char)
    ensures var parts := Split(s, sep);
      var last := parts[|parts| - 1];
      |last| <= |s| && s[|s| - |last|..] == last
  {
    if |s| > 0 {
      var rest := Split(s[1..], sep);
      LastPieceIsSuffix(s[1..], sep);
      if s[0] != sep && |rest| == 1 {
        JoinSplit(s[1..], sep);
        assert s == [s[0]] + s[1..];
      }
    }
  }

  /** The last piece of the split of `s` is either all of `s` or follows a separator. */
  predicate SeparatorBefore(s: string, sep: char) {
    var parts := Split(s, sep);
    var last := parts[|parts| - 1];
    |last| < |s| ==> s[|s| - |last| - 1] == sep
  }

  lemma {:induction false} SeparatorBeforeLastPiece(s: string, sep: char)
    ensures SeparatorBefore(s, sep)
  {
    if |s| > 0 {
      SeparatorBeforeLastPiece(s[1..], sep);
      LastPieceIsSuffix(s[1..], sep);
      if s[0] == sep {
        LeadingSeparatorStep(s, sep);
      } else if |Split(s[1..], sep)| > 1 {
        ManyPiecesStep(s, sep);
      } else {
        SinglePieceStep(s, sep);
      }
    }
  }

  lemma LeadingSeparatorStep(s: string, sep: char)
    requires |s| > 0 && s[0] == sep && SeparatorBefore(s[1..], sep)
    ensures SeparatorBefore(s, sep)
  {
    var rest := Split(s[1..], sep);
    var last := rest[|rest| - 1];
    assert Split(s, sep)[|Split(s, sep)| - 1] == last;
    if |last| < |s| - 1 {
      ShiftedIndex(s, |last|);
    }
  }

  lemma ManyPiecesStep(s: string, sep: char)
    requires |s| > 0 && s[0] != sep && |Split(s[1..], sep)| > 1 && SeparatorBefore(s[1..], sep)
    ensures SeparatorBefore(s, sep)
  {
    var rest := Split(s[1..], sep);
    var last := rest[|rest| - 1];
    assert Split(s, sep)[|Split(s, sep)| - 1] == last;
    LastPieceShorter(s[1..], sep);
    ShiftedIndex(s, |last|);
  }

  lemma SinglePieceStep(s: string, sep: char)
    requires |s| > 0 && s[0] != sep && |Split(s[1..], sep)| == 1
    ensures SeparatorBefore(s, sep)
  {
    JoinSplit(s[1..], sep);
    assert Split(s, sep) == [[s[0]] + s[1..]];
  }

  /** Positions counted from the end are the same in `s` and `s[1..]`. */
  lemma ShiftedIndex(s: string, n: nat)
    requires n < |s| - 1
    ensures s[|s| - n - 1] == s[1..][|s| - 1 - n - 1]
  {
  }

  /** When a split has several pieces, the last one is shorter than the input. */
  lemma LastPieceShorter(s: string, sep: char)
    requires |Split(s, sep)| > 1
    ensures |Split(s, sep)[|Split(s, sep)| - 1]| < |s|
  {
    var parts := Split(s, sep);
    var last := parts[|parts| - 1];
    LastPieceIsSuffix(s, sep);
    JoinSplit(s, sep);
    assert s == parts[0] + [sep] + Join(parts[1..], [sep]);
    assert s[|parts[0]|] == sep;
  }

  function DigitChar(d: nat): char
    requires d < 10
  {
    "0123456789"[d]
  }

  /** The decimal rendering of a natural number, as a template literal prints it. */
  function NatToString(n: nat): (r: string)
    ensures |r| >= 1
    ensures forall i | 0 <= i < |r| :: '0' <= r[i] <= '9'
  {
    if n < 10 then [DigitChar(n)] else NatToString(n / 10) + [DigitChar(n % 10)]
  }

  /** The decimal rendering of an integer. */
  function IntToString(n: int): string {
    if n < 0 then "-" + NatToString(-n) else NatToString(n)
  }
}
