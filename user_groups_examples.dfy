/**
 Worked inputs for the group-name normaliser: fixed lists whose output the
 rules determine, and three lists that show what the output does NOT
 promise (no repeated names, no `Everyone`, and the same output when the
 normaliser is applied twice).
 */
module UserGroupsExamples {
  import opened Seqs
  import opened JsStrings
  import opened UserGroups

  // ---------------------------------------------------------------------------
  // Short inputs

  /** A one-group input that passes both filters becomes the one renamed name. */
  lemma ProcessSingle(x: string)
    requires NotBaseOrRole(x) && Shown(StripCh(x))
    ensures ProcessUserGroups([x]) == [StripBaseRole(StripCh(x))]
  {
    OptionsKeepAll([x]);
    assert UserGroupsMapped([x]) == [StripCh(x)];
    assert UpdatedUserGroups([x]) == [StripCh(x)];
  }

  /**
   A two-group input that passes both filters becomes two renamed names, or
   one when the `ch`/`CH.` step made the two names equal.
   */
  lemma ProcessPair(x: string, y: string)
    requires NotBaseOrRole(x) && NotBaseOrRole(y) && Shown(StripCh(x)) && Shown(StripCh(y))
    ensures StripCh(x) == StripCh(y) ==> ProcessUserGroups([x, y]) == [StripBaseRole(StripCh(x))]
    ensures StripCh(x) != StripCh(y) ==>
              ProcessUserGroups([x, y]) == [StripBaseRole(StripCh(x)), StripBaseRole(StripCh(y))]
  {
    var a, b := StripCh(x), StripCh(y);
    var mapped := [a, b];
    OptionsKeepAll([x, y]);
    assert UserGroupsMapped([x, y]) == mapped;
    FilterKeepsAll(mapped, Shown);
    assert UpdatedUserGroups([x, y]) == mapped;
    assert mapped[1..] == [b] && [b][1..] == [];
    var none: set<string> := {};
    assert none + {a} == {a};
    assert DedupFrom(mapped, {}) == [a] + DedupFrom([b], {a});
    if a == b {
      assert DedupFrom([b], {a}) == [];
      assert UniqueUserGroups([x, y]) == [a];
    } else {
      assert DedupFrom([b], {a}) == [b];
      assert UniqueUserGroups([x, y]) == mapped;
    }
  }

  // ---------------------------------------------------------------------------
  // `ProcessUserGroups([])`

  /** No groups, nothing listed. */
  lemma EmptyFixture()
    ensures ProcessUserGroups([]) == []
  {
  }

  // ---------------------------------------------------------------------------
  // `["DML.Consumer.Base", "CH.Consumer.RCPS"]`

  lemma DmlConsumerBaseDropped(s: string)
    requires s == DmlConsumerBase
    ensures !NotBaseOrRole(s)
  {
    assert OccursAt(s, ".Base", 12);
  }

  lemma ConsumerRcpsKept(s: string)
    requires s == ConsumerRcps
    ensures NotBaseOrRole(s)
  {
    MissingCharExcludes(s, ".Base", 'B');
    MissingCharExcludes(s, ".Role", 'l');
  }

  lemma DropConsumerGroups(g: seq<string>)
    requires g == [DmlConsumerBase, ConsumerRcps]
    ensures OptionsUserGroups(g) == [ConsumerRcps]
  {
    DmlConsumerBaseDropped(DmlConsumerBase);
    ConsumerRcpsKept(ConsumerRcps);
    assert g[1..] == [ConsumerRcps];
    assert Filter(g[1..][1..], NotBaseOrRole) == [];
    assert Filter(g[1..], NotBaseOrRole) == [ConsumerRcps];
    ConsumerRuleIsInert(g);
  }

  lemma StripChConsumerPrefix(s: string)
    requires s == ConsumerRcps
    ensures RemoveAll(s, ChPattern) == RemoveAll("Consumer.RCPS", ChPattern)
  {
    assert s[0] == 'C' && "CH." <= s && s[3..] == "Consumer.RCPS";
    RemoveAllDeletesMatch(s, ChPattern, 1);
  }

  lemma StripChConsumerRest(t: string)
    requires t == "Consumer.RCPS"
    ensures RemoveAll(t, ChPattern) == t
  {
    MissingCharExcludes(t, "ch", 'h');
    MissingCharExcludes(t, "CH.", 'H');
    RemoveAllWithoutMatch(t, ChPattern);
  }

  lemma ReplaceDotConsumer(t: string)
    requires t == "Consumer.RCPS"
    ensures ReplaceFirst(t, '.', ' ') == "Consumer RCPS"
  {
    assert t == "Consumer" + ['.'] + "RCPS";
    ReplaceFirstAfter("Consumer", "RCPS", '.', ' ');
  }

  lemma StripChConsumer(s: string)
    requires s == ConsumerRcps
    ensures StripCh(s) == "Consumer RCPS"
  {
    StripChConsumerPrefix(s);
    StripChConsumerRest("Consumer.RCPS");
    ReplaceDotConsumer("Consumer.RCPS");
  }

  /** A name that is already plain is shown and left alone by the last step. */
  lemma KeepPlainName(name: string)
    requires name == "Consumer RCPS" || name == "a b c d"
    ensures Shown(name) && StripBaseRole(name) == name
  {
    ShownWithoutET(name);
    StripBaseRoleUntouched(name);
  }

  /**
   `DML.Consumer.Base` is a `.Base` group and goes in the first step;
   `CH.Consumer.RCPS` loses `CH.` and has its `.` turned into a space.
   */
  lemma ConsumerFixture()
    ensures ProcessUserGroups([DmlConsumerBase, ConsumerRcps]) == ["Consumer RCPS"]
  {
    var g := [DmlConsumerBase, ConsumerRcps];
    var name := "Consumer RCPS";
    DropConsumerGroups(g);
    StripChConsumer(ConsumerRcps);
    KeepPlainName(name);
    assert UserGroupsMapped(g) == [name];
    assert UpdatedUserGroups(g) == [name];
    assert UniqueUserGroups(g) == [name];
  }

  // ---------------------------------------------------------------------------
  // `["Everyone", "X.TermsAndConditions"]`

  /** Two groups that pass the first filter but are hidden once renamed leave nothing to list. */
  lemma ProcessPairHidden(x: string, y: string)
    requires NotBaseOrRole(x) && NotBaseOrRole(y) && !Shown(StripCh(x)) && !Shown(StripCh(y))
    ensures ProcessUserGroups([x, y]) == []
  {
    OptionsKeepAll([x, y]);
    assert UserGroupsMapped([x, y]) == [StripCh(x), StripCh(y)];
    AllHiddenListsNothing([x, y]);
  }

  lemma EveryoneHidden(s: string)
    requires s == "Everyone"
    ensures !Shown(s)
  {
    assert OccursAt(s, "Everyone", 0);
  }

  lemma EveryoneMapped(s: string)
    requires s == "Everyone"
    ensures NotBaseOrRole(s) && StripCh(s) == s
  {
    KeptWithoutDot(s);
    StripChUntouched(s);
  }

  lemma TermsMapped(a: string, b: string)
    requires a == "X" && b == "TermsAndConditions"
    ensures NotBaseOrRole(a + ['.'] + b) && StripCh(a + ['.'] + b) == a + [' '] + b
  {
    KeptWithoutBl(a + ['.'] + b);
    StripChDotOnly(a + ['.'] + b);
    ReplaceFirstAfter(a, b, '.', ' ');
  }

  lemma TermsHidden(t: string, b: string)
    requires b == "TermsAndConditions" && t == "X" + [' '] + b
    ensures !Shown(t)
  {
    assert t[2..2 + |b|] == b;
    assert OccursAt(t, "TermsAndConditions", 2);
  }

  /**
   `Everyone` is hidden as it stands; `X.TermsAndConditions` becomes
   `X TermsAndConditions` and is hidden too, so nothing is listed. (The
   second name is written as a concatenation, which keeps the verifier from
   evaluating the whole pipeline on the literal.)
   */
  lemma HiddenFixture()
    ensures ProcessUserGroups(["Everyone", "X" + ['.'] + "TermsAndConditions"]) == []
  {
    HiddenPair("X", "TermsAndConditions");
  }

  lemma HiddenPair(a: string, b: string)
    requires a == "X" && b == "TermsAndConditions"
    ensures ProcessUserGroups(["Everyone", a + ['.'] + b]) == []
  {
    EveryoneMapped("Everyone");
    EveryoneHidden("Everyone");
    TermsMapped(a, b);
    TermsHidden(a + [' '] + b, b);
    ProcessPairHidden("Everyone", a + ['.'] + b);
  }

  // ---------------------------------------------------------------------------
  // `["CH.X", "chX"]`

  lemma UpperChX(s: string)
    requires s == "CH.X"
    ensures NotBaseOrRole(s) && StripCh(s) == "X"
  {
    KeptWithoutBl(s);
    assert s[0] == 'C' && "CH." <= s && s[3..] == "X";
    RemoveAllDeletesMatch(s, ChPattern, 1);
    RemoveAllSkipsPrefix("X", "", ChPattern);
    assert "X" + "" == "X";
    RenameToStripped(s, ChPattern, "X");
  }

  lemma LowerChX(t: string)
    requires t == "chX"
    ensures NotBaseOrRole(t) && StripCh(t) == "X"
  {
    KeptWithoutDot(t);
    assert "ch" <= t && t[2..] == "X";
    RemoveAllDeletesMatch(t, ChPattern, 0);
    RemoveAllSkipsPrefix("X", "", ChPattern);
    assert "X" + "" == "X";
    RenameToStripped(t, ChPattern, "X");
  }

  lemma PlainX(x: string)
    requires x == "X"
    ensures NotBaseOrRole(x) && StripCh(x) == x && Shown(x) && StripBaseRole(x) == x
  {
    KeptWithoutDot(x);
    StripChUntouched(x);
    ShownWithoutET(x);
    StripBaseRoleUntouched(x);
  }

  /** `CH.X` and `chX` both become `X` and are listed once, where `CH.X` stood. */
  lemma MergeFixture()
    ensures ProcessUserGroups(["CH.X", "chX"]) == ["X"]
  {
    UpperChX("CH.X");
    LowerChX("chX");
    PlainX("X");
    ProcessPair("CH.X", "chX");
  }

  // ---------------------------------------------------------------------------
  // `"Research"`: the first pattern is not a prefix rule

  /** The lower-case `ch` inside an ordinary word is deleted too. */
  lemma ResearchFixture()
    ensures StripCh("Research") == "Resear"
  {
    ResearchStripped("Research");
  }

  lemma ResearchRemoved(a: string, b: string)
    requires a == "Resear" && b == "ch"
    ensures RemoveAll(a + b, ChPattern) == a
  {
    RemoveAllSkipsPrefix(a, b, ChPattern);
    RemoveAllDeletesMatch(b, ChPattern, 0);
    assert a + [] == a;
  }

  lemma ResearchStripped(s: string)
    requires s == "Research"
    ensures StripCh(s) == "Resear"
  {
    assert s == "Resear" + "ch";
    ResearchRemoved("Resear", "ch");
    RenameToStripped(s, ChPattern, "Resear");
  }

  // ---------------------------------------------------------------------------
  // `["XBase", "X"]`: the output may repeat a name

  lemma XBaseMapped(s: string)
    requires s == "XBase"
    ensures NotBaseOrRole(s) && StripCh(s) == s && Shown(s)
  {
    KeptWithoutDot(s);
    StripChUntouched(s);
    ShownWithoutET(s);
  }

  lemma XBaseStripped(s: string)
    requires s == "XBase"
    ensures StripBaseRole(s) == "X"
  {
    assert s == "X" + "Base" + "";
    BaseDeletionJoins("X", "");
    assert "X" + "" == "X";
  }

  /**
   `XBase` and `X` are different when de-duplicated, and the later `Base`
   strip turns both into `X`: the panel lists `X` twice.
   */
  lemma RepeatedNameFixture()
    ensures ProcessUserGroups(["XBase", "X"]) == ["X", "X"]
    ensures !Distinct(ProcessUserGroups(["XBase", "X"]))
  {
    RepeatedNames("XBase", "X");
  }

  lemma RepeatedNames(x: string, y: string)
    requires x == "XBase" && y == "X"
    ensures ProcessUserGroups([x, y]) == [y, y]
  {
    XBaseMapped(x);
    XBaseStripped(x);
    PlainX(y);
    ProcessPair(x, y);
  }

  // ---------------------------------------------------------------------------
  // `["EveryBaseone"]`: the output may mention `Everyone`

  lemma EveryBaseoneNotEveryone(s: string)
    requires s == "EveryBaseone"
    ensures !Includes(s, "Everyone")
  {
    forall i
      ensures !OccursAt(s, "Everyone", i)
    {
      if 0 <= i && i + 8 <= |s| {
        assert s[i..i + 8][0] == s[i];
        if i == 0 {
          assert s[i..i + 8][5] == 'B';
        }
      }
    }
  }

  lemma EveryBaseoneMapped(s: string)
    requires s == "EveryBaseone"
    ensures NotBaseOrRole(s) && StripCh(s) == s && Shown(s)
  {
    KeptWithoutDot(s);
    StripChUntouched(s);
    EveryBaseoneNotEveryone(s);
    MissingCharExcludes(s, "TermsAndConditions", 'T');
  }

  lemma EveryBaseoneStripped(s: string)
    requires s == "EveryBaseone"
    ensures StripBaseRole(s) == "Everyone" && !Shown(StripBaseRole(s))
  {
    EveryoneHidden("Everyone");
    assert s == "Every" + "Base" + "one";
    BaseDeletionJoins("Every", "one");
    assert "Every" + "one" == "Everyone";
  }

  /**
   `EveryBaseone` passes the `Everyone` filter, and the later `Base` strip
   turns it into `Everyone`: the panel lists a name the filter was meant to hide.
   */
  lemma EveryoneShownFixture()
    ensures ProcessUserGroups(["EveryBaseone"]) == ["Everyone"]
    ensures !Shown(ProcessUserGroups(["EveryBaseone"])[0])
  {
    EveryBaseoneMapped("EveryBaseone");
    EveryBaseoneStripped("EveryBaseone");
    ProcessSingle("EveryBaseone");
  }

  // ---------------------------------------------------------------------------
  // `["a.b.c.d"]`: normalising twice differs from normalising once

  lemma DottedOnceMapped(s: string)
    requires s == "a.b.c.d"
    ensures NotBaseOrRole(s) && StripCh(s) == "a b.c.d"
  {
    KeptWithoutBl(s);
    StripChDotOnly(s);
    assert s == "a" + ['.'] + "b.c.d";
    ReplaceFirstAfter("a", "b.c.d", '.', ' ');
  }

  lemma DottedOnceFinal(t: string)
    requires t == "a b.c.d"
    ensures Shown(t) && StripBaseRole(t) == "a b c.d"
  {
    ShownWithoutET(t);
    StripBaseRoleDotOnly(t);
    assert t == "a b" + ['.'] + "c.d";
    ReplaceFirstAfter("a b", "c.d", '.', ' ');
  }

  lemma DottedTwiceMapped(s: string)
    requires s == "a b c.d"
    ensures NotBaseOrRole(s) && StripCh(s) == "a b c d"
  {
    KeptWithoutBl(s);
    StripChDotOnly(s);
    assert s == "a b c" + ['.'] + "d";
    ReplaceFirstAfter("a b c", "d", '.', ' ');
  }

  /** Each pass turns one more `.` into a space, so the normaliser is not idempotent. */
  lemma NotIdempotentFixture()
    ensures ProcessUserGroups(["a.b.c.d"]) == ["a b c.d"]
    ensures ProcessUserGroups(ProcessUserGroups(["a.b.c.d"])) == ["a b c d"]
    ensures ProcessUserGroups(ProcessUserGroups(["a.b.c.d"])) != ProcessUserGroups(["a.b.c.d"])
  {
    DottedOnceMapped("a.b.c.d");
    DottedOnceFinal("a b.c.d");
    ProcessSingle("a.b.c.d");
    DottedTwiceMapped("a b c.d");
    KeepPlainName("a b c d");
    ProcessSingle("a b c.d");
  }
}
