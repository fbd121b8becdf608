/** The transcript-wide map: injective by counting, provider-safe, and the identity the second time. */
module SanitizerProperties {
  import opened Transcript
  import opened ToolCallIds
  import opened ToolCallIdSanitizer

  ghost predicate Injective(names: map<string, string>) {
    forall a, b :: a in names && b in names && names[a] == names[b] ==> a == b
  }

  function Elements(ids: seq<string>): set<string> {
    if ids == [] then {} else {ids[0]} + Elements(ids[1..])
  }

  lemma {:induction false} ValuesAtMostKeys(names: map<string, string>)
    ensures |names.Values| <= |names.Keys|
    decreases |names.Keys|
  {
    if names.Keys != {} {
      var k :| k in names.Keys;
      var rest := names - {k};
      assert names.Keys == rest.Keys + {k};
      ValuesAtMostKeys(rest);
      assert names.Values <= rest.Values + {names[k]} by {
        forall v | v in names.Values ensures v in rest.Values + {names[k]} {
          var j :| j in names && names[j] == v;
          if j != k {
            assert j in rest && rest[j] == v;
          }
        }
      }
      SubsetSize(names.Values, rest.Values + {names[k]});
    }
  }

  lemma {:induction false} SubsetSize(a: set<string>, b: set<string>)
    requires a <= b
    ensures |a| <= |b|
  {
    if a != {} {
      var x :| x in a;
      SubsetSize(a - {x}, b - {x});
    }
  }

  lemma LearnInjective(env: Env, names: map<string, string>, id: string)
    requires Injective(names) && (id !in names ==> |names.Keys| < 998)
    ensures Injective(Learn(env, Strict, names, id))
  {
    if id !in names {
      ValuesAtMostKeys(names);
      StrictFindsNewId(env, id, names.Values);
      var chosen := UniqueToolId(env, id, names.Values, Strict);
      assert forall k <- names :: names[k] in names.Values && names[k] != chosen;
    }
  }

  lemma KeysAfterOne(keys: set<string>, ids: seq<string>)
    requires ids != []
    ensures keys + {ids[0]} + Elements(ids[1..]) == keys + Elements(ids)
    ensures ids[0] !in keys ==> |keys| < |keys + Elements(ids)|
  {
    var all := keys + Elements(ids);
    if ids[0] !in keys {
      SubsetSize(keys, all - {ids[0]});
    }
  }

  lemma LearnKeys(env: Env, mode: Mode, names: map<string, string>, id: string)
    ensures Learn(env, mode, names, id).Keys == names.Keys + {id}
  {
  }

  lemma {:induction false} LearnAllInjective(env: Env, names: map<string, string>, ids: seq<string>)
    requires Injective(names) && |names.Keys + Elements(ids)| <= 998
    ensures Injective(LearnAll(env, Strict, names, ids))
    decreases |ids|
  {
    if ids != [] {
      KeysAfterOne(names.Keys, ids);
      LearnInjective(env, names, ids[0]);
      LearnKeys(env, Strict, names, ids[0]);
      LearnAllInjective(env, Learn(env, Strict, names, ids[0]), ids[1..]);
    }
  }

  // At most 998 distinct ids: no two of them get the same name, for any digest.
  lemma StrictNamesAreInjective(env: Env, ms: seq<Message>)
    requires |Elements(TranscriptIds(ms))| <= 998
    ensures Injective(FinalNames(env, Strict, ms))
  {
    var ids, none: map<string, string> := TranscriptIds(ms), map[];
    assert none.Keys + Elements(ids) == Elements(ids);
    LearnAllInjective(env, none, ids);
  }

  // ---- exactly when the names are distinct, in either mode ----

  // One of the ids that are tried, or the clock's, is not in use yet.
  ghost predicate FindsNew(env: Env, mode: Mode, used: set<string>, id: string) {
    LastResort(env, id, mode) !in used || exists c <- Candidates(env, id, mode) :: c !in used
  }

  // Each id that is met for the first time finds a new name.
  ghost predicate AllFindNew(env: Env, mode: Mode, names: map<string, string>, ids: seq<string>)
    decreases |ids|
  {
    ids != [] ==>
      && (ids[0] !in names ==> FindsNew(env, mode, names.Values, ids[0]))
      && AllFindNew(env, mode, Learn(env, mode, names, ids[0]), ids[1..])
  }

  lemma LearnInjectiveIff(env: Env, mode: Mode, names: map<string, string>, id: string)
    requires Injective(names)
    ensures Injective(Learn(env, mode, names, id)) <==> id in names || FindsNew(env, mode, names.Values, id)
  {
    if id !in names {
      var chosen, next := UniqueToolId(env, id, names.Values, mode), Learn(env, mode, names, id);
      UniqueToolIdIsNewIff(env, id, names.Values, mode);
      if chosen in names.Values {
        var k :| k in names && names[k] == chosen;
        assert k in next && id in next && next[k] == next[id];
      } else {
        assert forall k <- names :: names[k] in names.Values && names[k] != chosen;
      }
    }
  }

  lemma CollisionStays(small: map<string, string>, big: map<string, string>)
    requires Extends(big, small) && Injective(big)
    ensures Injective(small)
  {
    forall a, b | a in small && b in small && small[a] == small[b] ensures a == b {
      assert big[a] == big[b];
    }
  }

  lemma {:induction false} LearnAllInjectiveIff(env: Env, mode: Mode, names: map<string, string>, ids: seq<string>)
    requires Injective(names)
    ensures Injective(LearnAll(env, mode, names, ids)) <==> AllFindNew(env, mode, names, ids)
    decreases |ids|
  {
    if ids != [] {
      hide Learn, FindsNew, Injective;
      var next := Learn(env, mode, names, ids[0]);
      LearnInjectiveIff(env, mode, names, ids[0]);
      if Injective(next) {
        LearnAllInjectiveIff(env, mode, next, ids[1..]);
      } else if Injective(LearnAll(env, mode, names, ids)) {
        LearnAllExtends(env, mode, next, ids[1..]);
        CollisionStays(next, LearnAll(env, mode, next, ids[1..]));
      }
    }
  }

  // The names of a transcript are pairwise different if and only if each id, when it is first met,
  // finds a candidate or a clock's id that no earlier id has.
  lemma NamesAreInjectiveIff(env: Env, mode: Mode, ms: seq<Message>)
    ensures Injective(FinalNames(env, mode, ms)) <==> AllFindNew(env, mode, map[], TranscriptIds(ms))
  {
    LearnAllInjectiveIff(env, mode, map[], TranscriptIds(ms));
  }

  // In strict mode that is so for any 998 ids.
  lemma FewIdsFindNew(env: Env, ms: seq<Message>)
    requires |Elements(TranscriptIds(ms))| <= 998
    ensures AllFindNew(env, Strict, map[], TranscriptIds(ms))
  {
    StrictNamesAreInjective(env, ms);
    NamesAreInjectiveIff(env, Strict, ms);
  }

  // The id that is tried first: the cleaned id, clipped in strict mode and of nine characters in
  // strict9 mode.
  function Form(env: Env, id: string, mode: Mode): string {
    if mode == Strict then Base(env, id) else SanitizeToolCallId(env, id, mode)
  }

  ghost predicate FormsDiffer(env: Env, mode: Mode, ids: set<string>) {
    forall a, b :: a in ids && b in ids && Form(env, a, mode) == Form(env, b, mode) ==> a == b
  }

  ghost predicate NamedByForm(env: Env, mode: Mode, names: map<string, string>) {
    forall id <- names :: names[id] == Form(env, id, mode)
  }

  lemma LearnsForm(env: Env, mode: Mode, names: map<string, string>, id: string)
    requires NamedByForm(env, mode, names) && FormsDiffer(env, mode, names.Keys + {id})
    ensures NamedByForm(env, mode, Learn(env, mode, names, id))
  {
    if id !in names {
      assert Candidates(env, id, mode)[0] == Form(env, id, mode);
      forall k <- names ensures names[k] != Form(env, id, mode) {
        assert k in names.Keys + {id} && id in names.Keys + {id};
      }
      assert Form(env, id, mode) !in names.Values;
    }
  }

  lemma {:induction false} LearnsForms(env: Env, mode: Mode, names: map<string, string>, ids: seq<string>)
    requires NamedByForm(env, mode, names) && FormsDiffer(env, mode, names.Keys + Elements(ids))
    ensures NamedByForm(env, mode, LearnAll(env, mode, names, ids))
    decreases |ids|
  {
    if ids != [] {
      hide NamedByForm, Learn;
      assert ids[0] in Elements(ids);
      assert forall x <- names.Keys + {ids[0]} :: x in names.Keys + Elements(ids);
      LearnsForm(env, mode, names, ids[0]);
      LearnKeys(env, mode, names, ids[0]);
      assert names.Keys + {ids[0]} + Elements(ids[1..]) == names.Keys + Elements(ids);
      LearnsForms(env, mode, Learn(env, mode, names, ids[0]), ids[1..]);
    }
  }

  lemma {:induction false} ElementsAreMembers(ids: seq<string>)
    ensures forall id :: id in Elements(ids) <==> id in ids
  {
    if ids != [] {
      ElementsAreMembers(ids[1..]);
    }
  }

  // In either mode: when the forms of the ids are pairwise different, each id is named by its form
  // and no two names are equal, however many ids there are.
  lemma DifferentFormsNeverCollide(env: Env, mode: Mode, ms: seq<Message>)
    requires FormsDiffer(env, mode, Elements(TranscriptIds(ms)))
    ensures var names := FinalNames(env, mode, ms);
            Injective(names) && forall id <- TranscriptIds(ms) :: id in names && names[id] == Form(env, id, mode)
  {
    var ids, none: map<string, string> := TranscriptIds(ms), map[];
    assert none.Keys + Elements(ids) == Elements(ids);
    LearnsForms(env, mode, none, ids);
    LearnAllExtends(env, mode, none, ids);
    ElementsAreMembers(ids);
  }

  lemma DifferentFormsFindNew(env: Env, mode: Mode, ms: seq<Message>)
    requires FormsDiffer(env, mode, Elements(TranscriptIds(ms)))
    ensures AllFindNew(env, mode, map[], TranscriptIds(ms))
  {
    hide *;
    DifferentFormsNeverCollide(env, mode, ms);
    NamesAreInjectiveIff(env, mode, ms);
  }

  lemma ConstantDigestNames(env: Env, id: string, used: set<string>, digest: Digest)
    requires forall s :: env.digest(s) == digest
    requires id != "" && KeepAlnum(id) == ""
    ensures UniqueToolId(env, id, used, Strict9) == digest[..9]
  {
    var all := Candidates(env, id, Strict9);
    forall k | 0 <= k < |all| ensures all[k] == digest[..9] {
      if k > 0 {
        assert all[k] == Rehashed(env, id, k - 1);
      }
    }
    FirstFreeIsOne(all, used, LastResort(env, id, Strict9));
  }

  // That strict9 names differ rests on the digest: with a constant one, two ids already collide.
  lemma Strict9NeedsTheDigest(env: Env, digest: Digest)
    requires forall s :: env.digest(s) == digest
    ensures !Injective(LearnAll(env, Strict9, map[], ["?", "!"]))
    ensures !AllFindNew(env, Strict9, map[], ["?", "!"])
  {
    var none: map<string, string> := map[];
    ConstantDigestNames(env, "?", none.Values, digest);
    var one := Learn(env, Strict9, none, "?");
    ConstantDigestNames(env, "!", one.Values, digest);
    var two := Learn(env, Strict9, one, "!");
    assert ["?", "!"][1..] == ["!"] && ["!"][1..] == [];
    assert LearnAll(env, Strict9, none, ["?", "!"]) == LearnAll(env, Strict9, one, ["!"]) == LearnAll(env, Strict9, two, []) == two;
    assert "?" in two && "!" in two && two["?"] == two["!"] && "?"[0] != "!"[0];
    LearnAllInjectiveIff(env, Strict9, none, ["?", "!"]);
  }

  // ---- provider-safe ids ----

  ghost predicate AllAcceptable(names: map<string, string>, mode: Mode) {
    forall id <- names :: Acceptable(names[id], mode)
  }

  lemma {:induction false} LearnedAreAcceptable(env: Env, mode: Mode, names: map<string, string>, ids: seq<string>)
    requires AllAcceptable(names, mode)
    ensures AllAcceptable(LearnAll(env, mode, names, ids), mode)
    decreases |ids|
  {
    if ids != [] {
      UniqueToolIdIsAcceptable(env, ids[0], names.Values, mode);
      LearnedAreAcceptable(env, mode, Learn(env, mode, names, ids[0]), ids[1..]);
    }
  }

  lemma RenamedFieldAcceptable(names: map<string, string>, f: Field, mode: Mode)
    requires AllAcceptable(names, mode) && forall id <- FieldIds(f) :: id in names
    ensures forall id <- FieldIds(RenameField(names, f)) :: Acceptable(id, mode)
  {
    if Usable(f) {
      assert f.value in FieldIds(f);
    }
  }

  lemma {:induction false} RenamedBlocksAcceptable(names: map<string, string>, blocks: seq<Block>, mode: Mode)
    requires AllAcceptable(names, mode) && forall id <- BlocksIds(blocks) :: id in names
    ensures forall id <- BlocksIds(RenameBlocks(names, blocks)) :: Acceptable(id, mode)
  {
    if blocks != [] {
      assert forall id <- BlockIds(blocks[0]) :: id in BlocksIds(blocks);
      assert forall id <- BlocksIds(blocks[1..]) :: id in BlocksIds(blocks);
      if blocks[0].CallBlock? {
        RenamedFieldAcceptable(names, blocks[0].id, mode);
      }
      RenamedBlocksAcceptable(names, blocks[1..], mode);
    }
  }

  lemma RenamedMessageAcceptable(names: map<string, string>, m: Message, mode: Mode)
    requires AllAcceptable(names, mode) && forall id <- MessageIds(m) :: id in names
    ensures forall id <- MessageIds(RenameMessage(names, m)) :: Acceptable(id, mode)
  {
    if m.Assistant? && m.content.Blocks? {
      IdsOfBlocks(m.content.blocks);
      IdsOfBlocks(RenameBlocks(names, m.content.blocks));
      RenamedBlocksAcceptable(names, m.content.blocks, mode);
    } else if m.ToolResult? {
      assert forall id <- FieldIds(m.toolCallId) :: id in MessageIds(m);
      assert forall id <- FieldIds(m.toolUseId) :: id in MessageIds(m);
      RenamedFieldAcceptable(names, m.toolCallId, mode);
      RenamedFieldAcceptable(names, m.toolUseId, mode);
    }
  }

  lemma {:induction false} RenamedAcceptable(names: map<string, string>, ms: seq<Message>, mode: Mode)
    requires AllAcceptable(names, mode) && forall id <- TranscriptIds(ms) :: id in names
    ensures forall id <- TranscriptIds(Rename(names, ms)) :: Acceptable(id, mode)
  {
    if ms != [] {
      assert forall id <- MessageIds(ms[0]) :: id in TranscriptIds(ms);
      assert forall id <- TranscriptIds(ms[1..]) :: id in TranscriptIds(ms);
      RenamedMessageAcceptable(names, ms[0], mode);
      RenamedAcceptable(names, ms[1..], mode);
    }
  }

  // Every id of the sanitized transcript is one the provider takes.
  lemma SanitizedIdsAreAcceptable(env: Env, mode: Mode, ms: seq<Message>)
    ensures forall id <- TranscriptIds(Sanitized(env, mode, ms)) :: Acceptable(id, mode)
  {
    LearnedAreAcceptable(env, mode, map[], TranscriptIds(ms));
    LearnAllExtends(env, mode, map[], TranscriptIds(ms));
    RenamedAcceptable(FinalNames(env, mode, ms), ms, mode);
  }

  // ---- sanitizing twice ----

  ghost predicate IsIdentity(names: map<string, string>) {
    forall id <- names :: names[id] == id
  }

  lemma {:induction false} AcceptableIdsKeepNames(env: Env, mode: Mode, names: map<string, string>, ids: seq<string>)
    requires IsIdentity(names) && forall id <- ids :: Acceptable(id, mode)
    ensures IsIdentity(LearnAll(env, mode, names, ids))
    decreases |ids|
  {
    if ids != [] {
      var id := ids[0];
      assert id in ids;
      if id !in names {
        SanitizedIsValid(env, id, mode);
        assert Candidates(env, id, mode)[0] == id;
        assert id !in names.Values;
      }
      assert forall other <- ids[1..] :: other in ids;
      AcceptableIdsKeepNames(env, mode, Learn(env, mode, names, id), ids[1..]);
    }
  }

  lemma {:induction false} IdentityRenamesBlocks(names: map<string, string>, blocks: seq<Block>)
    requires IsIdentity(names)
    ensures RenameBlocks(names, blocks) == blocks
  {
    if blocks != [] {
      IdentityRenamesBlocks(names, blocks[1..]);
    }
  }

  lemma {:induction false} IdentityRenames(names: map<string, string>, ms: seq<Message>)
    requires IsIdentity(names)
    ensures Rename(names, ms) == ms
  {
    if ms != [] {
      if ms[0].Assistant? && ms[0].content.Blocks? {
        IdentityRenamesBlocks(names, ms[0].content.blocks);
      }
      IdentityRenames(names, ms[1..]);
    }
  }

  // A transcript whose ids are all acceptable is left alone, whatever the digest.
  lemma AcceptableTranscriptIsKept(env: Env, mode: Mode, ms: seq<Message>)
    requires forall id <- TranscriptIds(ms) :: Acceptable(id, mode)
    ensures Sanitized(env, mode, ms) == ms
  {
    AcceptableIdsKeepNames(env, mode, map[], TranscriptIds(ms));
    IdentityRenames(FinalNames(env, mode, ms), ms);
  }

  // Sanitizing again changes nothing, even with another digest and another clock.
  lemma SanitizingIsIdempotent(env: Env, again: Env, mode: Mode, ms: seq<Message>)
    ensures Sanitized(again, mode, Sanitized(env, mode, ms)) == Sanitized(env, mode, ms)
  {
    SanitizedIdsAreAcceptable(env, mode, ms);
    AcceptableTranscriptIsKept(again, mode, Sanitized(env, mode, ms));
  }
}
