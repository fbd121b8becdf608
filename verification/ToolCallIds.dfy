/** Provider-safe tool call ids: the choice of one new id, and the renaming of a transcript. */
module ToolCallIds {
  datatype Mode = Strict | Strict9

  predicate IsDigit(c: char) {
    '0' <= c <= '9'
  }

  predicate IsAlnum(c: char) {
    IsDigit(c) || 'a' <= c <= 'z' || 'A' <= c <= 'Z'
  }

  predicate AllAlnum(s: string) {
    forall i :: 0 <= i < |s| ==> IsAlnum(s[i])
  }

  predicate AllDigits(s: string) {
    forall i :: 0 <= i < |s| ==> IsDigit(s[i])
  }

  // A hexadecimal digest, and a clock reading in decimal.
  type Digest = s: string | |s| == 40 && AllAlnum(s) witness "0000000000000000000000000000000000000000"
  type Stamp = s: string | 0 < |s| <= 20 && AllDigits(s) witness "0"

  // The digest function and the clock, which is read at most once for each new id.
  datatype Env = Env(digest: string -> Digest, clock: string -> Stamp)

  const STRICT_MAX := 40
  const STRICT9_LENGTH := 9

  function KeepAlnum(s: string): string {
    if s == "" then "" else if IsAlnum(s[0]) then [s[0]] + KeepAlnum(s[1..]) else KeepAlnum(s[1..])
  }

  function Clip(s: string, n: nat): string {
    if |s| <= n then s else s[..n]
  }

  function Decimal(n: nat): string {
    if n < 10 then [('0' as int + n) as char] else Decimal(n / 10) + [('0' as int + n % 10) as char]
  }

  function ShortHash(env: Env, text: string, length: nat): string
    requires length <= 40
  {
    env.digest(text)[..length]
  }

  function SanitizeToolCallId(env: Env, id: string, mode: Mode): string {
    var kept := KeepAlnum(id);
    match mode
    case Strict =>
      if id == "" then "defaulttoolid" else if kept != "" then kept else "sanitizedtoolid"
    case Strict9 =>
      if id == "" then "defaultid"
      else if |kept| >= STRICT9_LENGTH then kept[..STRICT9_LENGTH]
      else if kept != "" then ShortHash(env, kept, STRICT9_LENGTH)
      else ShortHash(env, "sanitized", STRICT9_LENGTH)
  }

  predicate IsValidToolId(id: string, mode: Mode) {
    id != "" && AllAlnum(id) && (mode == Strict9 ==> |id| == STRICT9_LENGTH)
  }

  function Base(env: Env, id: string): string {
    Clip(SanitizeToolCallId(env, id, Strict), STRICT_MAX)
  }

  function Hashed(env: Env, id: string): string {
    Clip(Base(env, id), STRICT_MAX - 8) + ShortHash(env, id, 8)
  }

  function Suffixed(candidate: string, i: nat): string
    requires i < 1000
  {
    var suffix := "x" + Decimal(i);
    assert |suffix| <= 4 by { DecimalShort(i); }
    Clip(candidate, STRICT_MAX - |suffix|) + suffix
  }

  function Rehashed(env: Env, id: string, i: nat): string {
    ShortHash(env, id + ":" + Decimal(i), STRICT9_LENGTH)
  }

  // The ids that are tried, in order, before the clock is consulted.
  function Candidates(env: Env, id: string, mode: Mode): seq<string> {
    match mode
    case Strict =>
      [Base(env, id), Hashed(env, id)] + seq(998, k requires 0 <= k < 998 => Suffixed(Hashed(env, id), k + 2))
    case Strict9 =>
      [SanitizeToolCallId(env, id, Strict9)] + seq(1000, k requires 0 <= k < 1000 => Rehashed(env, id, k))
  }

  function LastResort(env: Env, id: string, mode: Mode): string {
    match mode
    case Strict => Clip(Hashed(env, id), STRICT_MAX - 1 - |env.clock(id)|) + "t" + env.clock(id)
    case Strict9 => ShortHash(env, id + ":" + env.clock(id), STRICT9_LENGTH)
  }

  function FirstFree(candidates: seq<string>, used: set<string>, last: string): string {
    if candidates == [] then last
    else if candidates[0] !in used then candidates[0]
    else FirstFree(candidates[1..], used, last)
  }

  function UniqueToolId(env: Env, id: string, used: set<string>, mode: Mode): string {
    FirstFree(Candidates(env, id, mode), used, LastResort(env, id, mode))
  }

  lemma {:induction false} DecimalShort(n: nat)
    ensures AllDigits(Decimal(n)) && Decimal(n) != ""
    ensures n < 1000 ==> |Decimal(n)| <= 3
  {
    if n >= 10 {
      DecimalShort(n / 10);
      assert n < 1000 ==> |Decimal(n / 10)| <= 2 by {
        if 10 <= n < 1000 && n / 10 >= 10 {
          assert n / 10 / 10 < 10;
        }
      }
    }
  }

  method MakeUniqueToolId(env: Env, id: string, used: set<string>, mode: Mode) returns (r: string)
    ensures r == UniqueToolId(env, id, used, mode)
  {
    ghost var all, last := Candidates(env, id, mode), LastResort(env, id, mode);
    if mode == Strict9 {
      var base := SanitizeToolCallId(env, id, mode);
      if base !in used {
        return base;
      }
      for i := 0 to 1000
        invariant FirstFree(all, used, last) == FirstFree(all[1 + i..], used, last)
      {
        var hashed := Rehashed(env, id, i);
        assert all[1 + i..][0] == hashed && all[1 + i..][1..] == all[2 + i..];
        if hashed !in used {
          return hashed;
        }
      }
      return ShortHash(env, id + ":" + env.clock(id), STRICT9_LENGTH);
    }
    var base := Base(env, id);
    if base !in used {
      return base;
    }
    var candidate := Hashed(env, id);
    assert FirstFree(all, used, last) == FirstFree(all[1..], used, last);
    assert all[1..][0] == candidate && all[1..][1..] == all[2..];
    if candidate !in used {
      return candidate;
    }
    for i := 2 to 1000
      invariant FirstFree(all, used, last) == FirstFree(all[i..], used, last)
    {
      var next := Suffixed(candidate, i);
      assert all[i..][0] == next && all[i..][1..] == all[i + 1..];
      if next !in used {
        return next;
      }
    }
    return Clip(candidate, STRICT_MAX - 1 - |env.clock(id)|) + "t" + env.clock(id);
  }

  // ---- what a chosen id looks like ----

  lemma {:induction false} KeepAlnumKeeps(s: string)
    ensures AllAlnum(KeepAlnum(s))
    ensures AllAlnum(s) ==> KeepAlnum(s) == s
  {
    if s != "" {
      KeepAlnumKeeps(s[1..]);
    }
  }

  lemma SanitizedIsValid(env: Env, id: string, mode: Mode)
    ensures IsValidToolId(SanitizeToolCallId(env, id, mode), mode)
    ensures IsValidToolId(id, mode) ==> SanitizeToolCallId(env, id, mode) == id
  {
    KeepAlnumKeeps(id);
  }

  lemma SuffixedIsValid(candidate: string, i: nat)
    requires AllAlnum(candidate) && i < 1000
    ensures IsValidToolId(Suffixed(candidate, i), Strict) && |Suffixed(candidate, i)| <= STRICT_MAX
  {
    DecimalShort(i);
  }

  predicate Acceptable(id: string, mode: Mode) {
    IsValidToolId(id, mode) && (mode == Strict ==> |id| <= STRICT_MAX)
  }

  lemma JoinedAlnum(a: string, b: string)
    requires AllAlnum(a) && AllAlnum(b)
    ensures AllAlnum(a + b)
  {
    forall i | 0 <= i < |a + b| ensures IsAlnum((a + b)[i]) {
      assert (a + b)[i] == if i < |a| then a[i] else b[i - |a|];
    }
  }

  lemma HashedIsValid(env: Env, id: string)
    ensures Acceptable(Base(env, id), Strict) && Acceptable(Hashed(env, id), Strict)
  {
    SanitizedIsValid(env, id, Strict);
    JoinedAlnum(Clip(Base(env, id), STRICT_MAX - 8), ShortHash(env, id, 8));
  }

  lemma StrictCandidateAcceptable(env: Env, id: string, k: nat)
    requires k < 1000
    ensures Acceptable(Candidates(env, id, Strict)[k], Strict)
  {
    HashedIsValid(env, id);
    var all := Candidates(env, id, Strict);
    if k < 2 {
      assert all[k] == [Base(env, id), Hashed(env, id)][k];
    } else {
      assert all[k] == Suffixed(Hashed(env, id), k);
      SuffixedIsValid(Hashed(env, id), k);
    }
  }

  lemma Strict9CandidateAcceptable(env: Env, id: string, k: nat)
    requires k < 1001
    ensures Acceptable(Candidates(env, id, Strict9)[k], Strict9)
  {
    var all := Candidates(env, id, Strict9);
    if k == 0 {
      SanitizedIsValid(env, id, Strict9);
    } else {
      assert all[k] == Rehashed(env, id, k - 1);
    }
  }

  lemma LastResortAcceptable(env: Env, id: string, mode: Mode)
    ensures Acceptable(LastResort(env, id, mode), mode)
  {
    if mode == Strict {
      HashedIsValid(env, id);
      var kept := Clip(Hashed(env, id), STRICT_MAX - 1 - |env.clock(id)|);
      JoinedAlnum(kept, "t");
      JoinedAlnum(kept + "t", env.clock(id));
    }
  }

  lemma CandidatesAcceptable(env: Env, id: string, mode: Mode)
    ensures forall c <- Candidates(env, id, mode) :: Acceptable(c, mode)
    ensures Acceptable(LastResort(env, id, mode), mode)
  {
    LastResortAcceptable(env, id, mode);
    var all := Candidates(env, id, mode);
    forall k | 0 <= k < |all| ensures Acceptable(all[k], mode) {
      match mode
      case Strict => StrictCandidateAcceptable(env, id, k);
      case Strict9 => Strict9CandidateAcceptable(env, id, k);
    }
  }

  lemma {:induction false} FirstFreeIsOne(candidates: seq<string>, used: set<string>, last: string)
    ensures FirstFree(candidates, used, last) in candidates || FirstFree(candidates, used, last) == last
    ensures FirstFree(candidates, used, last) !in used <==> last !in used || exists c <- candidates :: c !in used
  {
    if candidates != [] {
      FirstFreeIsOne(candidates[1..], used, last);
    }
  }

  // Whatever the digest and the clock say, the id is one the provider takes.
  lemma UniqueToolIdIsAcceptable(env: Env, id: string, used: set<string>, mode: Mode)
    ensures Acceptable(UniqueToolId(env, id, used, mode), mode)
  {
    CandidatesAcceptable(env, id, mode);
    FirstFreeIsOne(Candidates(env, id, mode), used, LastResort(env, id, mode));
  }

  // The id is new exactly when one of the tried ids, or the clock's, is.
  lemma UniqueToolIdIsNewIff(env: Env, id: string, used: set<string>, mode: Mode)
    ensures UniqueToolId(env, id, used, mode) !in used
       <==> LastResort(env, id, mode) !in used || exists c <- Candidates(env, id, mode) :: c !in used
  {
    FirstFreeIsOne(Candidates(env, id, mode), used, LastResort(env, id, mode));
  }

  // ---- counting the suffixes ----

  lemma {:induction false} DecimalInjective(m: nat, n: nat)
    requires Decimal(m) == Decimal(n)
    ensures m == n
  {
    DecimalShort(m / 10);
    DecimalShort(n / 10);
    var a, b := Decimal(m), Decimal(n);
    assert a[|a| - 1] == b[|b| - 1];
    assert m % 10 == n % 10;
    if m >= 10 && n >= 10 {
      assert Decimal(m / 10) == a[..|a| - 1] == b[..|b| - 1] == Decimal(n / 10);
      DecimalInjective(m / 10, n / 10);
    }
  }

  lemma DigitsAfterX(s: string, m: nat, n: nat)
    requires m < |s| && n < |s| && s[|s| - m - 1] == 'x' && AllDigits(s[|s| - n..])
    ensures n <= m
  {
    forall k | |s| - n <= k < |s| ensures IsDigit(s[k]) {
      assert s[|s| - n..][k - (|s| - n)] == s[k];
    }
  }

  lemma SuffixedEndsWith(candidate: string, i: nat)
    requires i < 1000
    ensures var a, s := Decimal(i), Suffixed(candidate, i);
            && |a| < |s| && AllDigits(a) && s[|s| - |a| - 1] == 'x' && s[|s| - |a|..] == a
  {
    DecimalShort(i);
    EndOfConcat(Clip(candidate, STRICT_MAX - |"x" + Decimal(i)|), Decimal(i));
  }

  lemma EndOfConcat(front: string, a: string)
    ensures var s := front + ("x" + a);
            |a| < |s| && s[|s| - |a| - 1] == 'x' && s[|s| - |a|..] == a
  {
    var tail := "x" + a;
    var s := front + tail;
    assert s[|front|..] == tail;
    assert tail[1..] == a;
    assert s[|front|..][1..] == s[|front| + 1..];
  }

  // The suffix of an id is read off from its last x, so equal ids have equal suffixes.
  lemma SuffixedInjective(candidate: string, i: nat, j: nat)
    requires i < 1000 && j < 1000 && Suffixed(candidate, i) == Suffixed(candidate, j)
    ensures i == j
  {
    hide Suffixed, Decimal, AllDigits;
    var a, b, s := Decimal(i), Decimal(j), Suffixed(candidate, i);
    SuffixedEndsWith(candidate, i);
    SuffixedEndsWith(candidate, j);
    DigitsAfterX(s, |a|, |b|);
    DigitsAfterX(s, |b|, |a|);
    DecimalInjective(i, j);
  }

  lemma {:induction false} SuffixesUsedUp(candidate: string, used: set<string>, n: nat)
    requires 2 <= n <= 1000 && forall i :: 2 <= i < n ==> Suffixed(candidate, i) in used
    ensures |used| >= n - 2
  {
    if n > 2 {
      var last := Suffixed(candidate, n - 1);
      forall i | 2 <= i < n - 1 ensures Suffixed(candidate, i) in used - {last} {
        if Suffixed(candidate, i) == last {
          SuffixedInjective(candidate, i, n - 1);
        }
      }
      SuffixesUsedUp(candidate, used - {last}, n - 1);
    }
  }

  // With fewer than 998 ids in use, strict mode finds a new one for any digest.
  lemma StrictFindsNewId(env: Env, id: string, used: set<string>)
    requires |used| < 998
    ensures UniqueToolId(env, id, used, Strict) !in used
  {
    var all := Candidates(env, id, Strict);
    if forall c <- all :: c in used {
      forall i | 2 <= i < 1000 ensures Suffixed(Hashed(env, id), i) in used {
        assert all[i] in all;
      }
      SuffixesUsedUp(Hashed(env, id), used, 1000);
    }
    UniqueToolIdIsNewIff(env, id, used, Strict);
  }
}
