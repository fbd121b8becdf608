/** What a new tool call id is made of, and what a sanitized transcript holds, on the texts and fields themselves. */
module IdLaws {
  import opened Wrappers
  import opened Transcript
  import opened ToolCallIds
  import opened ToolCallIdSanitizer

  // ---- the characters that are kept ----

  // 0 to 9, A to Z, a to z, by their codes.
  predicate Alnum(c: char) {
    48 <= c as int <= 57 || 65 <= c as int <= 90 || 97 <= c as int <= 122
  }

  lemma {:induction false} KeepAlnumSnoc(s: string, c: char)
    ensures KeepAlnum(s + [c]) == if Alnum(c) then KeepAlnum(s) + [c] else KeepAlnum(s)
  {
    if s == "" {
      assert (s + [c])[1..] == "";
    } else {
      assert (s + [c])[1..] == s[1..] + [c];
      KeepAlnumSnoc(s[1..], c);
    }
  }

  // What is kept of an id is all its letters and digits, in order, and nothing else.
  lemma {:induction false} KeptAre(id: string) returns (at: seq<int>)
    ensures Selects(id, Alnum, KeepAlnum(id), at)
  {
    if id == "" {
      at := [];
    } else {
      hide KeepAlnum, Selects;
      var front, last := id[..|id| - 1], id[|id| - 1];
      assert id == front + [last];
      at := KeptAre(front);
      KeepAlnumSnoc(front, last);
      SelectsSnoc(front, Alnum, KeepAlnum(front), at, last);
      if Alnum(last) {
        at := at + [|front|];
      }
    }
  }

  // The cleaned id: what was kept, or a fixed text; in strict9 mode its first nine characters, or as
  // many of its digest when it is shorter.
  lemma CleanedIs(env: Env, id: string, mode: Mode) returns (kept: string, at: seq<int>)
    ensures Selects(id, Alnum, kept, at)
    ensures id == "" ==> SanitizeToolCallId(env, id, mode) == if mode == Strict then "defaulttoolid" else "defaultid"
    ensures id != "" && mode == Strict ==> SanitizeToolCallId(env, id, mode) == if kept == "" then "sanitizedtoolid" else kept
    ensures mode == Strict9 && |kept| >= 9 ==> SanitizeToolCallId(env, id, mode) == kept[..9]
    ensures mode == Strict9 && 0 < |kept| < 9 ==> SanitizeToolCallId(env, id, mode) == env.digest(kept)[..9]
    ensures mode == Strict9 && id != "" && kept == "" ==> SanitizeToolCallId(env, id, mode) == env.digest("sanitized")[..9]
  {
    kept := KeepAlnum(id);
    at := KeptAre(id);
  }

  // ---- decimals ----

  // The number a text of digits stands for.
  function Number(s: string): int {
    if s == "" then 0 else 10 * Number(s[..|s| - 1]) + (s[|s| - 1] as int - 48)
  }

  // A counter is printed in digits that stand for it, without a leading zero.
  lemma {:induction false} DecimalIs(n: nat)
    ensures Number(Decimal(n)) == n && Decimal(n) != ""
    ensures forall c <- Decimal(n) :: 48 <= c as int <= 57
    ensures |Decimal(n)| > 1 ==> Decimal(n)[0] as int != 48
  {
    var s := Decimal(n);
    if n < 10 {
      assert Number(s[..0]) == 0;
    } else {
      DecimalIs(n / 10);
      assert s[..|s| - 1] == Decimal(n / 10);
      assert n / 10 < 10 ==> Decimal(n / 10)[0] as int == 48 + n / 10;
    }
  }

  // ---- the choice of a new id ----

  function Front(s: string, n: int): string
    requires n >= 0
  {
    s[..Min(|s|, n)]
  }

  // How many ids are tried before the clock is read.
  function Tries(mode: Mode): nat {
    if mode == Strict then 1000 else 1001
  }

  // The id tried at position k, the clock's last. In strict mode: forty characters of the cleaned
  // id; thirty-two of them and eight of the digest; that, cut for "x2" to "x999" to fit; that, cut for
  // "t" and the time. In strict9 mode: the cleaned id; nine characters of the digest of the id, a
  // colon and 0 to 999; the same with the time.
  ghost predicate IsTry(env: Env, id: string, mode: Mode, k: nat, t: string) {
    var cleaned, time := SanitizeToolCallId(env, id, mode), env.clock(id);
    var hashed := Front(cleaned, 32) + env.digest(id)[..8];
    match mode
    case Strict =>
      && (k == 0 ==> t == Front(cleaned, 40))
      && (k == 1 ==> t == hashed)
      && (2 <= k < 1000 ==> |Decimal(k)| <= 3 && t == Front(hashed, 39 - |Decimal(k)|) + "x" + Decimal(k))
      && (k == 1000 ==> t == Front(hashed, 39 - |time|) + "t" + time)
    case Strict9 =>
      && (k == 0 ==> t == cleaned)
      && (1 <= k < 1001 ==> t == env.digest(id + ":" + Decimal(k - 1))[..9])
      && (k == 1001 ==> t == env.digest(id + ":" + time)[..9])
  }

  lemma {:induction false} FirstFreeIs(candidates: seq<string>, used: set<string>, last: string) returns (k: nat)
    ensures k <= |candidates| && forall j :: 0 <= j < k ==> candidates[j] in used
    ensures FirstFree(candidates, used, last) == if k < |candidates| then candidates[k] else last
    ensures k < |candidates| ==> candidates[k] !in used
  {
    k := 0;
    if candidates != [] && candidates[0] in used {
      var rest := FirstFreeIs(candidates[1..], used, last);
      k := rest + 1;
      forall j | 0 <= j < k ensures candidates[j] in used {
        assert j > 0 ==> candidates[j] == candidates[1..][j - 1];
      }
    }
  }

  lemma HashedIs(env: Env, id: string)
    ensures Base(env, id) == Front(SanitizeToolCallId(env, id, Strict), 40)
    ensures Hashed(env, id) == Front(SanitizeToolCallId(env, id, Strict), 32) + env.digest(id)[..8]
  {
    var cleaned := SanitizeToolCallId(env, id, Strict);
    assert Front(Front(cleaned, 40), 32) == Front(cleaned, 32);
  }

  lemma StrictTry(env: Env, id: string, k: nat)
    requires k < 1000
    ensures IsTry(env, id, Strict, k, Candidates(env, id, Strict)[k])
  {
    hide SanitizeToolCallId, Base, Hashed, Decimal;
    HashedIs(env, id);
    var all := Candidates(env, id, Strict);
    if k < 2 {
      assert all[k] == [Base(env, id), Hashed(env, id)][k];
    } else {
      DecimalShort(k);
      assert all[k] == Suffixed(Hashed(env, id), k);
      Regroup(Clip(Hashed(env, id), 39 - |Decimal(k)|), "x", Decimal(k));
    }
  }

  lemma Strict9Try(env: Env, id: string, k: nat)
    requires k < 1001
    ensures IsTry(env, id, Strict9, k, Candidates(env, id, Strict9)[k])
  {
    hide SanitizeToolCallId, Decimal;
    var all := Candidates(env, id, Strict9);
    if k > 0 {
      assert all[k] == Rehashed(env, id, k - 1);
    }
  }

  lemma CandidatesAreTries(env: Env, id: string, mode: Mode)
    ensures |Candidates(env, id, mode)| == Tries(mode)
    ensures forall k :: 0 <= k < Tries(mode) ==> IsTry(env, id, mode, k, Candidates(env, id, mode)[k])
    ensures IsTry(env, id, mode, Tries(mode), LastResort(env, id, mode))
  {
    hide IsTry;
    forall k | 0 <= k < |Candidates(env, id, mode)| ensures IsTry(env, id, mode, k, Candidates(env, id, mode)[k]) {
      match mode
      case Strict => StrictTry(env, id, k);
      case Strict9 => Strict9Try(env, id, k);
    }
    LastIsTry(env, id, mode);
  }

  lemma LastIsTry(env: Env, id: string, mode: Mode)
    ensures IsTry(env, id, mode, Tries(mode), LastResort(env, id, mode))
  {
    hide SanitizeToolCallId, Base, Hashed, Decimal;
    HashedIs(env, id);
  }

  // The chosen id is the first of them that no earlier id has, or else the clock's.
  lemma UniqueToolIdIs(env: Env, id: string, used: set<string>, mode: Mode) returns (tries: seq<string>)
    ensures 0 < |tries| <= Tries(mode) + 1 && UniqueToolId(env, id, used, mode) == tries[|tries| - 1]
    ensures forall k :: 0 <= k < |tries| ==> IsTry(env, id, mode, k, tries[k])
    ensures forall k :: 0 <= k < |tries| - 1 ==> tries[k] in used
    ensures |tries| <= Tries(mode) ==> tries[|tries| - 1] !in used
  {
    hide Candidates, LastResort, IsTry;
    var all, last := Candidates(env, id, mode), LastResort(env, id, mode);
    CandidatesAreTries(env, id, mode);
    var k := FirstFreeIs(all, used, last);
    tries := all[..k] + [if k < |all| then all[k] else last];
  }

  // ---- the names of a transcript ----

  // Each id gets its name when it is first met, and the names in use are those of the ids before it.
  lemma NamesInOrder(env: Env, mode: Mode, ids: seq<string>, k: nat)
    requires k < |ids|
    ensures var names := LearnAll(env, mode, map[], ids);
            && (forall id :: id in names <==> id in ids)
            && (ids[k] !in ids[..k] ==> names[ids[k]] == UniqueToolId(env, ids[k], set id | id in ids[..k] :: names[id], mode))
  {
    hide Learn, UniqueToolId;
    var early, names := LearnAll(env, mode, map[], ids[..k]), LearnAll(env, mode, map[], ids);
    assert ids[..k] + ids[k..] == ids;
    LearnStep(env, mode, map[], ids[..k], ids[k..]);
    LearnAllExtends(env, mode, map[], ids[..k]);
    LearnAllExtends(env, mode, map[], ids);
    if ids[k] !in ids[..k] {
      LearnedName(env, mode, early, ids[k], ids[k + 1..]);
      assert [ids[k]] + ids[k + 1..] == ids[k..];
      var used := set id | id in ids[..k] :: names[id];
      forall v ensures v in early.Values <==> v in used {
        if v in early.Values {
          var id :| id in early && early[id] == v;
          assert id in ids[..k] && names[id] == v;
        }
        if v in used {
          var id :| id in ids[..k] && names[id] == v;
          assert id in early && early[id] == v;
        }
      }
      assert early.Values == used;
    }
  }

  lemma LearnedName(env: Env, mode: Mode, names: map<string, string>, id: string, rest: seq<string>)
    requires id !in names
    ensures var later := LearnAll(env, mode, names, [id] + rest);
            id in later && later[id] == UniqueToolId(env, id, names.Values, mode)
  {
    hide UniqueToolId;
    var next := Learn(env, mode, names, id);
    assert ([id] + rest)[1..] == rest;
    LearnAllExtends(env, mode, next, rest);
    assert id in next;
  }

  // The ids of a transcript are those of its messages in order.
  lemma {:induction false} IdsInOrder(a: seq<Message>, b: seq<Message>)
    ensures TranscriptIds(a + b) == TranscriptIds(a) + TranscriptIds(b)
  {
    hide MessageIds;
    if a == [] {
      assert a + b == b;
    } else {
      assert (a + b)[1..] == a[1..] + b;
      IdsInOrder(a[1..], b);
      Regroup(MessageIds(a[0]), TranscriptIds(a[1..]), TranscriptIds(b));
    }
  }

  // A field that holds no id: it is absent, not a string, or empty.
  predicate Blank(f: Field) {
    f == None || f == Some("")
  }

  // A result has its toolCallId, then its toolUseId, each when there is one; a turn has the ids of
  // its call blocks, and no other message has any.
  lemma IdsOfMessage(m: Message)
    ensures m.ToolResult? ==>
      TranscriptIds([m]) == (if Blank(m.toolCallId) then [] else [m.toolCallId.value])
                          + (if Blank(m.toolUseId) then [] else [m.toolUseId.value])
    ensures m.Assistant? && m.content.Blocks? ==> TranscriptIds([m]) == BlocksIds(m.content.blocks)
    ensures m.NonObject? || m.Other? || (m.Assistant? && m.content.NotArray?) ==> TranscriptIds([m]) == []
  {
    assert [m][1..] == [] && TranscriptIds([m]) == MessageIds(m) + [] == MessageIds(m);
    if m.Assistant? && m.content.Blocks? {
      IdsOfBlocks(m.content.blocks);
    }
  }

  // The ids of blocks are those of the call blocks that have one, in order.
  lemma {:induction false} IdsOfCalls(blocks: seq<Block>, more: seq<Block>)
    ensures BlocksIds(blocks + more) == BlocksIds(blocks) + BlocksIds(more)
  {
    hide BlockIds;
    if blocks == [] {
      assert blocks + more == more;
    } else {
      assert (blocks + more)[1..] == blocks[1..] + more;
      IdsOfCalls(blocks[1..], more);
      Regroup(BlockIds(blocks[0]), BlocksIds(blocks[1..]), BlocksIds(more));
    }
  }

  lemma IdsOfBlock(b: Block)
    ensures BlocksIds([b]) == if b.CallBlock? && !Blank(b.id) then [b.id.value] else []
  {
    assert [b][1..] == [] && BlocksIds([b]) == BlockIds(b) + [] == BlockIds(b);
  }

  // ---- the sanitized transcript ----

  // A field that holds an id holds its name; any other field stays.
  ghost predicate FieldNamed(names: map<string, string>, f: Field, g: Field) {
    if Blank(f) then g == f else f.value in names && g == Some(names[f.value])
  }

  ghost predicate BlockNamed(names: map<string, string>, b: Block, c: Block) {
    match b
    case PlainBlock(_) => c == b
    case CallBlock(mark, id, name, rest) => c.CallBlock? && c == CallBlock(mark, c.id, name, rest) && FieldNamed(names, id, c.id)
  }

  ghost predicate MessageNamed(names: map<string, string>, m: Message, n: Message) {
    match m
    case ToolResult(callId, useId, name, payload) =>
      && n.ToolResult? && n == ToolResult(n.toolCallId, n.toolUseId, name, payload)
      && FieldNamed(names, callId, n.toolCallId) && FieldNamed(names, useId, n.toolUseId)
    case Assistant(Blocks(blocks), rest) =>
      && n.Assistant? && n.content.Blocks? && n == Assistant(n.content, rest) && |n.content.blocks| == |blocks|
      && forall k :: 0 <= k < |blocks| ==> BlockNamed(names, blocks[k], n.content.blocks[k])
    case _ => n == m
  }

  lemma {:induction false} BlocksAreNamed(names: map<string, string>, blocks: seq<Block>)
    requires forall id <- BlocksIds(blocks) :: id in names
    ensures var next := RenameBlocks(names, blocks);
            |next| == |blocks| && forall k :: 0 <= k < |blocks| ==> BlockNamed(names, blocks[k], next[k])
  {
    if blocks != [] {
      var next := RenameBlocks(names, blocks);
      assert forall id <- BlockIds(blocks[0]) :: id in BlocksIds(blocks);
      assert forall id <- BlocksIds(blocks[1..]) :: id in BlocksIds(blocks);
      BlocksAreNamed(names, blocks[1..]);
      assert blocks[0].CallBlock? && Usable(blocks[0].id) ==> blocks[0].id.value in BlockIds(blocks[0]);
      assert next[1..] == RenameBlocks(names, blocks[1..]);
      forall k | 0 <= k < |blocks| ensures BlockNamed(names, blocks[k], next[k]) {
        if k > 0 {
          assert next[k] == next[1..][k - 1] && blocks[k] == blocks[1..][k - 1];
        }
      }
    }
  }

  lemma MessageIsNamed(names: map<string, string>, m: Message)
    requires forall id <- MessageIds(m) :: id in names
    ensures MessageNamed(names, m, RenameMessage(names, m))
  {
    if m.Assistant? && m.content.Blocks? {
      IdsOfBlocks(m.content.blocks);
      BlocksAreNamed(names, m.content.blocks);
    } else if m.ToolResult? {
      assert Usable(m.toolCallId) ==> m.toolCallId.value in FieldIds(m.toolCallId) + FieldIds(m.toolUseId);
      assert Usable(m.toolUseId) ==> m.toolUseId.value in FieldIds(m.toolCallId) + FieldIds(m.toolUseId);
    }
  }

  lemma {:induction false} MessagesAreNamed(names: map<string, string>, ms: seq<Message>)
    requires forall id <- TranscriptIds(ms) :: id in names
    ensures var out := Rename(names, ms);
            |out| == |ms| && forall i :: 0 <= i < |ms| ==> MessageNamed(names, ms[i], out[i])
  {
    hide MessageNamed, MessageIds, RenameMessage;
    if ms != [] {
      var out := Rename(names, ms);
      assert forall id <- MessageIds(ms[0]) :: id in TranscriptIds(ms);
      assert forall id <- TranscriptIds(ms[1..]) :: id in TranscriptIds(ms);
      MessagesAreNamed(names, ms[1..]);
      MessageIsNamed(names, ms[0]);
      assert out[1..] == Rename(names, ms[1..]);
      forall i | 0 <= i < |ms| ensures MessageNamed(names, ms[i], out[i]) {
        if i > 0 {
          assert out[i] == out[1..][i - 1] && ms[i] == ms[1..][i - 1];
        }
      }
    }
  }

  // Message by message, each id is replaced by its name and nothing else changes.
  lemma SanitizedFields(env: Env, mode: Mode, ms: seq<Message>)
    ensures var names, out := FinalNames(env, mode, ms), Sanitized(env, mode, ms);
            |out| == |ms| && forall i :: 0 <= i < |ms| ==> MessageNamed(names, ms[i], out[i])
  {
    hide MessageNamed, Rename, LearnAll, TranscriptIds;
    LearnAllExtends(env, mode, map[], TranscriptIds(ms));
    MessagesAreNamed(FinalNames(env, mode, ms), ms);
  }
}
