/** White space as the source's trim and \s see it, and the characters that are not white space. */
module Text {
  import opened Wrappers

  predicate IsSpace(c: char) {
    || '\t' <= c <= '\r'
    || c == ' ' || c == '\U{A0}' || c == '\U{1680}'
    || '\U{2000}' <= c <= '\U{200A}'
    || c == '\U{2028}' || c == '\U{2029}' || c == '\U{202F}' || c == '\U{205F}' || c == '\U{3000}' || c == '\U{FEFF}'
  }

  predicate IsBlank(s: string) {
    forall i :: 0 <= i < |s| ==> IsSpace(s[i])
  }

  function TrimStart(s: string): string {
    if s != "" && IsSpace(s[0]) then TrimStart(s[1..]) else s
  }

  function TrimEnd(s: string): string {
    if s != "" && IsSpace(s[|s| - 1]) then TrimEnd(s[..|s| - 1]) else s
  }

  function Trim(s: string): string {
    TrimStart(TrimEnd(s))
  }

  predicate StartsWith(s: string, prefix: string) {
    prefix <= s
  }

  predicate EndsWith(s: string, suffix: string) {
    |suffix| <= |s| && s[|s| - |suffix|..] == suffix
  }

  // The characters that are not white space, in order.
  function Ink(s: string): string {
    if s == "" then "" else if IsSpace(s[0]) then Ink(s[1..]) else [s[0]] + Ink(s[1..])
  }

  lemma {:induction false} InkConcat(a: string, b: string)
    ensures Ink(a + b) == Ink(a) + Ink(b)
  {
    if a == "" {
      assert a + b == b;
    } else {
      assert (a + b)[1..] == a[1..] + b;
      InkConcat(a[1..], b);
    }
  }

  lemma {:induction false} BlankHasNoInk(s: string)
    requires IsBlank(s)
    ensures Ink(s) == ""
  {
    if s != "" {
      BlankHasNoInk(s[1..]);
    }
  }

  lemma {:induction false} TrimStartKeepsInk(s: string)
    ensures Ink(TrimStart(s)) == Ink(s) && |TrimStart(s)| <= |s|
  {
    if s != "" && IsSpace(s[0]) {
      TrimStartKeepsInk(s[1..]);
    }
  }

  // ---- what the functions above are, told from the characters ----

  // The characters that count as white space, by their codes.
  lemma SpaceCodes(c: char)
    ensures IsSpace(c) <==>
      c as int in {9, 10, 11, 12, 13, 32, 160, 5760, 8192, 8193, 8194, 8195, 8196, 8197, 8198, 8199, 8200, 8201, 8202, 8232, 8233, 8239, 8287, 12288, 65279}
  {
  }

  // t is s without the white space at its end.
  predicate TrimmedEnd(s: string, t: string) {
    t <= s && IsBlank(s[|t|..]) && (t != "" ==> !IsSpace(t[|t| - 1]))
  }

  // t is s without the white space at its start.
  predicate TrimmedStart(s: string, t: string) {
    |t| <= |s| && s[|s| - |t|..] == t && IsBlank(s[..|s| - |t|]) && (t != "" ==> !IsSpace(t[0]))
  }

  lemma {:induction false} TrimEndIs(s: string)
    ensures TrimmedEnd(s, TrimEnd(s))
  {
    if s != "" && IsSpace(s[|s| - 1]) {
      var front := s[..|s| - 1];
      TrimEndIs(front);
      var t := TrimEnd(front);
      assert s[|t|..] == front[|t|..] + [s[|s| - 1]];
    }
  }

  lemma {:induction false} TrimStartIs(s: string)
    ensures TrimmedStart(s, TrimStart(s))
  {
    if s != "" && IsSpace(s[0]) {
      hide IsSpace;
      var tail := s[1..];
      TrimStartIs(tail);
      var t := TrimStart(tail);
      assert s[..|s| - |t|] == [s[0]] + tail[..|tail| - |t|];
      assert s[|s| - |t|..] == tail[|tail| - |t|..];
    }
  }

  // t is the part of s between the white space at both ends.
  ghost predicate Trimmed(s: string, t: string) {
    exists middle :: TrimmedEnd(s, middle) && TrimmedStart(middle, t)
  }

  lemma TrimIs(s: string)
    ensures Trimmed(s, Trim(s))
  {
    TrimEndIs(s);
    TrimStartIs(TrimEnd(s));
  }

  lemma BlankParts(a: string, b: string)
    requires IsBlank(a + b)
    ensures IsBlank(a) && IsBlank(b)
  {
    assert forall k :: 0 <= k < |a| ==> a[k] == (a + b)[k];
    assert forall k :: 0 <= k < |b| ==> b[k] == (a + b)[|a| + k];
  }

  lemma {:induction false} EndTrimmedOnce(s: string, t: string)
    requires TrimmedEnd(s, t)
    ensures t == TrimEnd(s)
  {
    if s != "" && IsSpace(s[|s| - 1]) {
      var front := s[..|s| - 1];
      assert s[|t|..] == front[|t|..] + [s[|s| - 1]];
      BlankParts(front[|t|..], [s[|s| - 1]]);
      EndTrimmedOnce(front, t);
    } else {
      EndIsCut(s, t);
    }
  }

  lemma EndIsCut(s: string, t: string)
    requires TrimmedEnd(s, t)
    ensures |t| < |s| ==> IsSpace(s[|s| - 1])
    ensures |t| == |s| ==> t == s
  {
    if |t| < |s| {
      assert s[|t|..][|s| - |t| - 1] == s[|s| - 1];
    }
  }

  lemma {:induction false} StartTrimmedOnce(s: string, t: string)
    requires TrimmedStart(s, t)
    ensures t == TrimStart(s)
  {
    if s != "" && IsSpace(s[0]) {
      var tail := s[1..];
      assert tail[|tail| - |t|..] == s[|s| - |t|..];
      assert s[..|s| - |t|] == [s[0]] + tail[..|tail| - |t|];
      BlankParts([s[0]], tail[..|tail| - |t|]);
      StartTrimmedOnce(tail, t);
    } else {
      StartIsCut(s, t);
    }
  }

  lemma StartIsCut(s: string, t: string)
    requires TrimmedStart(s, t)
    ensures |t| < |s| ==> IsSpace(s[0])
    ensures |t| == |s| ==> t == s
  {
    if |t| < |s| {
      assert s[..|s| - |t|][0] == s[0];
    }
  }

  lemma TrimmedOnce(s: string, t: string)
    requires Trimmed(s, t)
    ensures t == Trim(s)
  {
    var middle :| TrimmedEnd(s, middle) && TrimmedStart(middle, t);
    EndTrimmedOnce(s, middle);
    StartTrimmedOnce(middle, t);
  }

  // The ink is what is left when the white space is taken out.
  lemma {:induction false} InkIsSelected(s: string) returns (at: seq<int>)
    ensures Selects(s, (c: char) => !IsSpace(c), Ink(s), at)
  {
    if s == "" {
      at := [];
    } else {
      var front, last := s[..|s| - 1], s[|s| - 1];
      assert s == front + [last];
      InkConcat(front, [last]);
      assert Ink([last]) == if IsSpace(last) then [] else [last];
      at := InkIsSelected(front);
      SelectsSnoc(front, (c: char) => !IsSpace(c), Ink(front), at, last);
      at := if IsSpace(last) then at else at + [|front|];
    }
  }
}
