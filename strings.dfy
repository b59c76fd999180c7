/**
 * The JavaScript string primitives the application relies on, over `seq<char>`:
 * `\s` / `trim()` whitespace, `toLowerCase()` (ASCII letters), `includes`,
 * `split` on one character, `join`, and code-point order, which is the order of
 * `Array.prototype.sort()` for text below U+10000.
 */
module Strings {

  /** The characters JavaScript's `\s` and `String.prototype.trim` treat as white space. */
  predicate IsSpace(c: char) {
    var n := c as int;
    (9 <= n <= 13) || n == 0x20 || n == 0xA0 || n == 0x1680 || (0x2000 <= n <= 0x200A)
    || n == 0x2028 || n == 0x2029 || n == 0x202F || n == 0x205F || n == 0x3000 || n == 0xFEFF
  }

  predicate NoSpaceAtEnds(s: string) {
    |s| == 0 || (!IsSpace(s[0]) && !IsSpace(s[|s| - 1]))
  }

  predicate AllSpace(s: string) {
    forall k :: 0 <= k < |s| ==> IsSpace(s[k])
  }

  function TrimStart(s: string): string
    decreases |s|
  {
    if |s| > 0 && IsSpace(s[0]) then TrimStart(s[1..]) else s
  }

  function TrimEnd(s: string): string
    decreases |s|
  {
    if |s| > 0 && IsSpace(s[|s| - 1]) then TrimEnd(s[..|s| - 1]) else s
  }

  /** `s.trim()`. Its meaning is stated by `TrimSpec`. */
  function Trim(s: string): string {
    TrimEnd(TrimStart(s))
  }

  lemma {:induction false} TrimStartSpec(s: string)
    ensures |TrimStart(s)| <= |s| && TrimStart(s) == s[|s| - |TrimStart(s)|..]
    ensures AllSpace(s[..|s| - |TrimStart(s)|])
    ensures |TrimStart(s)| == 0 || !IsSpace(TrimStart(s)[0])
    decreases |s|
  {
    if |s| > 0 && IsSpace(s[0]) {
      var rest := s[1..];
      TrimStartSpec(rest);
      var r := TrimStart(rest);
      assert TrimStart(s) == r;
      var n := |rest| - |r|;
      assert r == s[n + 1..] by {
        assert rest[n..] == s[n + 1..];
      }
      var head := s[..n + 1];
      forall k | 0 <= k < n + 1
        ensures IsSpace(head[k])
      {
        if k > 0 {
          assert head[k] == rest[..n][k - 1];
        }
      }
    }
  }

  lemma {:induction false} TrimEndSpec(s: string)
    ensures |TrimEnd(s)| <= |s| && TrimEnd(s) == s[..|TrimEnd(s)|]
    ensures AllSpace(s[|TrimEnd(s)|..])
    ensures |TrimEnd(s)| == 0 || !IsSpace(TrimEnd(s)[|TrimEnd(s)| - 1])
    decreases |s|
  {
    if |s| > 0 && IsSpace(s[|s| - 1]) {
      var init := s[..|s| - 1];
      TrimEndSpec(init);
      var r := TrimEnd(init);
      var tail := s[|r|..];
      forall k | 0 <= k < |tail|
        ensures IsSpace(tail[k])
      {
        if |r| + k < |s| - 1 {
          assert tail[k] == init[|r|..][k];
        }
      }
    }
  }

  /** `Trim(s)` is `s` without its leading and trailing white space, and it has none left at either end. */
  lemma TrimSpec(s: string)
    ensures TrimmedFrom(Trim(s), s)
    ensures NoSpaceAtEnds(Trim(s))
  {
    TrimParts(s);
  }

  /** Where `Trim(s)` starts in `s`. */
  function TrimOffset(s: string): nat {
    if |TrimStart(s)| <= |s| then |s| - |TrimStart(s)| else 0
  }

  /** `Trim(s)` is the slice of `s` from `TrimOffset(s)`, with only white space on either side of it. */
  lemma TrimParts(s: string)
    ensures var lo, r := TrimOffset(s), Trim(s);
            lo + |r| <= |s| && r == s[lo..lo + |r|] && AllSpace(s[..lo]) && AllSpace(s[lo + |r|..])
    ensures NoSpaceAtEnds(Trim(s))
  {
    TrimStartSpec(s);
    var a := TrimStart(s);
    TrimEndSpec(a);
    var r := TrimEnd(a);
    var lo := |s| - |a|;
    assert r == s[lo..lo + |r|];
    assert s[lo + |r|..] == a[|r|..];
  }

  /** `r` is `s` with some white space removed at each end, and nothing else. */
  ghost predicate TrimmedFrom(r: string, s: string) {
    exists lo :: 0 <= lo <= |s| - |r| && r == s[lo..lo + |r|] && AllSpace(s[..lo]) && AllSpace(s[lo + |r|..])
  }

  /**
   * A string trimmed from `s` that has no white space left at its ends is
   * `Trim(s)`: together the two facts pin a trimmed string down.
   */
  lemma TrimmedFromIsTrim(r: string, s: string)
    requires TrimmedFrom(r, s) && NoSpaceAtEnds(r)
    ensures r == Trim(s)
  {
    var lo :| 0 <= lo <= |s| - |r| && r == s[lo..lo + |r|] && AllSpace(s[..lo]) && AllSpace(s[lo + |r|..]);
    SpaceOutside(s, lo, lo + |r|);
    TrimParts(s);
    SpaceOutside(s, TrimOffset(s), TrimOffset(s) + |Trim(s)|);
    if r == "" {
      TrimEmptyIff(s);
    } else {
      TrimmedAtIsTrim(r, s, lo);
    }
  }

  /** The non-empty case of `TrimmedFromIsTrim`, with the cut's start given. */
  lemma TrimmedAtIsTrim(r: string, s: string, lo: nat)
    requires r != "" && NoSpaceAtEnds(r) && lo + |r| <= |s| && r == s[lo..lo + |r|]
    requires forall k | 0 <= k < |s| && (k < lo || lo + |r| <= k) :: IsSpace(s[k])
    requires var lo', t := TrimOffset(s), Trim(s);
             && lo' + |t| <= |s| && t == s[lo'..lo' + |t|] && NoSpaceAtEnds(t)
             && forall k | 0 <= k < |s| && (k < lo' || lo' + |t| <= k) :: IsSpace(s[k])
    ensures r == Trim(s)
  {
    var lo', t := TrimOffset(s), Trim(s);
    assert s[lo] == r[0] && s[lo + |r| - 1] == r[|r| - 1];
    TrimEmptyIff(s);
    assert !AllSpace(s) by {
      assert !IsSpace(s[lo]);
    }
    assert s[lo'] == t[0] && s[lo' + |t| - 1] == t[|t| - 1];
    SameCore(s, lo, lo + |r|, lo', lo' + |t|);
  }

  /** Two non-space-bounded stretches of `s` with only white space around them are the same stretch. */
  lemma SameCore(s: string, lo: nat, hi: nat, lo': nat, hi': nat)
    requires lo < hi <= |s| && lo' < hi' <= |s|
    requires !IsSpace(s[lo]) && !IsSpace(s[hi - 1]) && !IsSpace(s[lo']) && !IsSpace(s[hi' - 1])
    requires forall k | 0 <= k < |s| && (k < lo || hi <= k) :: IsSpace(s[k])
    requires forall k | 0 <= k < |s| && (k < lo' || hi' <= k) :: IsSpace(s[k])
    ensures lo == lo' && hi == hi'
  {
  }

  /** Spelled out position by position: only white space lies before `lo` and from `hi` on. */
  lemma SpaceOutside(s: string, lo: nat, hi: nat)
    requires lo <= hi <= |s| && AllSpace(s[..lo]) && AllSpace(s[hi..])
    ensures forall k | 0 <= k < |s| && (k < lo || hi <= k) :: IsSpace(s[k])
  {
    forall k | 0 <= k < |s| && (k < lo || hi <= k) ensures IsSpace(s[k]) {
      if k < lo { assert s[k] == s[..lo][k]; } else { assert s[k] == s[hi..][k - hi]; }
    }
  }

  /** Trimming a string with no white space at its ends changes nothing. */
  lemma TrimOfTrimmed(s: string)
    requires NoSpaceAtEnds(s)
    ensures Trim(s) == s
  {
  }

  /** `Trim(s)` is empty exactly when `s` is all white space. */
  lemma TrimEmptyIff(s: string)
    ensures Trim(s) == "" <==> AllSpace(s)
  {
    TrimParts(s);
    var r := Trim(s);
    var lo := TrimOffset(s);
    if r != "" {
      assert s[lo] == r[0];
    } else {
      assert s == s[..lo] + s[lo..];
    }
  }

  predicate IsUpper(c: char) { 'A' <= c <= 'Z' }

  function LowerChar(c: char): (r: char)
    ensures !IsUpper(r)
    ensures IsSpace(r) <==> IsSpace(c)
  {
    if IsUpper(c) then (c as int + 32) as char else c
  }

  /** `s.toLowerCase()` restricted to the ASCII letters. */
  function ToLower(s: string): (r: string)
    ensures |r| == |s|
    ensures forall k :: 0 <= k < |s| ==> r[k] == LowerChar(s[k])
  {
    seq(|s|, k requires 0 <= k < |s| => LowerChar(s[k]))
  }

  predicate IsLower(s: string) {
    forall k :: 0 <= k < |s| ==> !IsUpper(s[k])
  }

  lemma ToLowerIsLower(s: string)
    ensures IsLower(ToLower(s))
    ensures ToLower(ToLower(s)) == ToLower(s)
  {
  }

  /** Lower-casing commutes with trimming, since it never touches white space. */
  lemma ToLowerPreservesNoSpaceAtEnds(s: string)
    requires NoSpaceAtEnds(s)
    ensures NoSpaceAtEnds(ToLower(s))
  {
  }

  /** `s.includes(sub)`. */
  predicate Contains(s: string, sub: string) {
    exists i | 0 <= i <= |s| - |sub| :: OccursAt(s, sub, i)
  }

  predicate OccursAt(s: string, sub: string, i: int)
    requires 0 <= i <= |s| - |sub|
  {
    s[i..i + |sub|] == sub
  }

  lemma ContainsEmpty(s: string)
    ensures Contains(s, "")
  {
    assert OccursAt(s, "", 0);
  }

  /**
   * Strict lexicographic order on code points. Below U+10000 it equals the
   * code-unit order of `sort()` without a comparator.
   */
  predicate Less(a: string, b: string)
    decreases |a|
  {
    if |a| == 0 then |b| > 0
    else if |b| == 0 then false
    else if a[0] != b[0] then a[0] < b[0]
    else Less(a[1..], b[1..])
  }

  predicate LessEq(a: string, b: string) {
    a == b || Less(a, b)
  }

  lemma {:induction false} LessIrreflexive(a: string)
    ensures !Less(a, a)
    decreases |a|
  {
    if |a| > 0 {
      LessIrreflexive(a[1..]);
    }
  }

  lemma {:induction false} LessAsymmetric(a: string, b: string)
    requires Less(a, b)
    ensures !Less(b, a)
    decreases |a|
  {
    if |a| > 0 && |b| > 0 && a[0] == b[0] {
      LessAsymmetric(a[1..], b[1..]);
    }
  }

  lemma {:induction false} LessTransitive(a: string, b: string, c: string)
    requires Less(a, b) && Less(b, c)
    ensures Less(a, c)
    decreases |a|
  {
    if |a| > 0 && |b| > 0 && |c| > 0 && a[0] == b[0] && b[0] == c[0] {
      LessTransitive(a[1..], b[1..], c[1..]);
    }
  }

  lemma {:induction false} LessTotal(a: string, b: string)
    requires a != b
    ensures Less(a, b) || Less(b, a)
    decreases |a|
  {
    if |a| > 0 && |b| > 0 && a[0] == b[0] {
      assert a == [a[0]] + a[1..] && b == [b[0]] + b[1..];
      LessTotal(a[1..], b[1..]);
    }
  }

  function IndexOf(s: string, c: char): (i: nat)
    requires c in s
    ensures i < |s| && s[i] == c && c !in s[..i]
  {
    if s[0] == c then 0 else assert s == [s[0]] + s[1..]; 1 + IndexOf(s[1..], c)
  }

  /** `s.split(c)`: the pieces between occurrences of `c`; `""` splits into `[""]`. */
  function Split(s: string, c: char): (r: seq<string>)
    ensures |r| > 0
    ensures forall k :: 0 <= k < |r| ==> c !in r[k]
    decreases |s|
  {
    if c !in s then [s]
    else
      var i := IndexOf(s, c);
      [s[..i]] + Split(s[i + 1..], c)
  }

  lemma SplitHasTwo(s: string, c: char)
    requires c in s
    ensures |Split(s, c)| >= 2
  {
    var i := IndexOf(s, c);
    assert Split(s, c) == [s[..i]] + Split(s[i + 1..], c);
  }

  /** Two pieces joined by a separator neither contains split back into those pieces. */
  lemma SplitJoined(x: string, y: string, c: char)
    requires c !in x && c !in y
    ensures Split(x + [c] + y, c) == [x, y]
  {
    var s := x + [c] + y;
    assert s[..|x|] == x;
    assert s[|x|] == c;
    assert s[|x| + 1..] == y;
    var i := IndexOf(s, c);
    assert forall k | 0 <= k < |x| :: s[k] == x[k];
    assert i == |x|;
  }

  /** `parts.join(sep)`. */
  function Join(parts: seq<string>, sep: string): string {
    if |parts| == 0 then ""
    else if |parts| == 1 then parts[0]
    else parts[0] + sep + Join(parts[1..], sep)
  }

  /** Splitting on a character and joining back with it gives the original string. */
  lemma {:induction false} JoinSplit(s: string, c: char)
    ensures Join(Split(s, c), [c]) == s
    decreases |s|
  {
    if c in s {
      var i := IndexOf(s, c);
      JoinSplit(s[i + 1..], c);
      assert s == s[..i] + [c] + s[i + 1..];
    }
  }
}
