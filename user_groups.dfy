/**
 The group-name normaliser `processUserGroups`: it turns the raw user-group
 identifiers of the signed-in user into the list of names the profile panel
 shows. Each stage below is one step of the source's `filter`/`map`/`Set`
 chain, in the same order. The source's first step returns `[]` for an
 argument that is not an array; a `seq<string>` is always one, so that guard
 has no counterpart here.
 */
module UserGroups {
  import opened Seqs
  import opened JsStrings

  /** The regular expression `/ch|CH\./g`: lower-case `ch` or `CH.`, anywhere. */
  const ChPattern: seq<string> := ["ch", "CH."]

  /** The regular expression `/Base|Role/g`. */
  const BaseRolePattern: seq<string> := ["Base", "Role"]

  /** The group whose presence triggers the special removal rule. */
  const ConsumerRcps: string := "CH.Consumer.RCPS"

  /** The group the special removal rule drops. */
  const DmlConsumerBase: string := "DML.Consumer.Base"

  /** The first filter keeps a group that names neither a `.Base` nor a `.Role` group. */
  predicate NotBaseOrRole(group: string)
  {
    !(Includes(group, ".Base") || Includes(group, ".Role"))
  }

  predicate NotDmlConsumerBase(group: string)
  {
    group != DmlConsumerBase
  }

  /** The later filter keeps a name that mentions neither `Everyone` nor `TermsAndConditions`. */
  predicate Shown(name: string)
  {
    !(Includes(name, "Everyone") || Includes(name, "TermsAndConditions"))
  }

  /** Step 1: drop every `.Base` and `.Role` group. */
  function DropBaseAndRoleGroups(userGroups: seq<string>): seq<string>
  {
    Filter(userGroups, NotBaseOrRole)
  }

  /** Step 2: when `CH.Consumer.RCPS` is present, drop `DML.Consumer.Base`. */
  function ApplyConsumerRule(groups: seq<string>): seq<string>
  {
    if ConsumerRcps in groups then Filter(groups, NotDmlConsumerBase) else groups
  }

  /** The list bound to `optionsUserGroups` once the first two steps have run. */
  function OptionsUserGroups(userGroups: seq<string>): seq<string>
  {
    ApplyConsumerRule(DropBaseAndRoleGroups(userGroups))
  }

  /**
   The shape shared by both renaming steps: delete every match of `pattern`;
   if anything is left, turn its first `.` into a space, otherwise keep the
   value as it was (an empty string is falsy in the source's conditional).
   */
  function Rename(value: string, pattern: seq<string>): string
    requires Literals(pattern)
  {
    var stripped := RemoveAll(value, pattern);
    if stripped != "" then ReplaceFirst(stripped, '.', ' ') else value
  }

  /** Step 3, applied to each group: strip `ch` and `CH.`. */
  function StripCh(value: string): string
  {
    Rename(value, ChPattern)
  }

  /** Step 6, applied to each remaining name: strip `Base` and `Role`. */
  function StripBaseRole(value: string): string
  {
    Rename(value, BaseRolePattern)
  }

  /** The list bound to `userGroupsMapped`. */
  function UserGroupsMapped(userGroups: seq<string>): seq<string>
  {
    Map(OptionsUserGroups(userGroups), StripCh)
  }

  /** Step 4: the list bound to `updatedUserGroupsArray`. */
  function UpdatedUserGroups(userGroups: seq<string>): seq<string>
  {
    Filter(UserGroupsMapped(userGroups), Shown)
  }

  /** Step 5: the list bound to `uniqueUserGroups`. */
  function UniqueUserGroups(userGroups: seq<string>): seq<string>
  {
    Dedup(UpdatedUserGroups(userGroups))
  }

  /** `processUserGroups`: the names the panel lists, in order. */
  function ProcessUserGroups(userGroups: seq<string>): seq<string>
  {
    Map(UniqueUserGroups(userGroups), StripBaseRole)
  }

  // ---------------------------------------------------------------------------
  // Properties of the stages

  /**
   After the first filter no group names a `.Base` or `.Role` group, every
   other group of the input is still there as often as in the input, and the
   survivors keep their input order.
   */
  lemma DropBaseAndRoleSpec(userGroups: seq<string>)
    ensures forall i :: 0 <= i < |DropBaseAndRoleGroups(userGroups)| ==>
              !Includes(DropBaseAndRoleGroups(userGroups)[i], ".Base") &&
              !Includes(DropBaseAndRoleGroups(userGroups)[i], ".Role")
    ensures forall x :: multiset(DropBaseAndRoleGroups(userGroups))[x] ==
              if NotBaseOrRole(x) then multiset(userGroups)[x] else 0
    ensures IsSubsequence(DropBaseAndRoleGroups(userGroups), userGroups)
  {
    FilterCounts(userGroups, NotBaseOrRole);
    FilterIsSubsequence(userGroups, NotBaseOrRole);
  }

  /**
   The `CH.Consumer.RCPS` rule never changes anything: `DML.Consumer.Base`
   contains `.Base`, so the first filter has already dropped it.
   */
  lemma ConsumerRuleIsInert(userGroups: seq<string>)
    ensures OptionsUserGroups(userGroups) == DropBaseAndRoleGroups(userGroups)
  {
    var groups := DropBaseAndRoleGroups(userGroups);
    assert OccursAt(DmlConsumerBase, ".Base", 12);
    FilterKeepsAll(groups, NotDmlConsumerBase);
  }

  /**
   What the renaming step does to one value: it never lengthens it; when the
   deletion leaves nothing the value is kept as it was; otherwise the result
   is the stripped text with exactly its first `.` turned into a space.
   */
  lemma RenameSpec(value: string, pattern: seq<string>)
    requires Literals(pattern)
    ensures |Rename(value, pattern)| <= |value|
    ensures RemoveAll(value, pattern) == "" ==> Rename(value, pattern) == value
    ensures RemoveAll(value, pattern) != "" && IndexOf(RemoveAll(value, pattern), '.') < 0 ==>
              Rename(value, pattern) == RemoveAll(value, pattern)
    ensures RemoveAll(value, pattern) != "" && 0 <= IndexOf(RemoveAll(value, pattern), '.') ==>
              var stripped := RemoveAll(value, pattern);
              var dot := IndexOf(stripped, '.');
              Rename(value, pattern) == stripped[..dot] + " " + stripped[dot + 1..]
  {
    ReplaceFirstIsSplice(RemoveAll(value, pattern), '.', ' ');
  }

  /** A value in which no word of the pattern occurs only has its first `.` turned into a space. */
  lemma RenameWithoutMatch(value: string, pattern: seq<string>)
    requires Literals(pattern)
    requires value != ""
    requires forall k :: 0 <= k < |pattern| ==> !Includes(value, pattern[k])
    ensures Rename(value, pattern) == ReplaceFirst(value, '.', ' ')
  {
    RemoveAllWithoutMatch(value, pattern);
  }

  /** The mapping step keeps one entry per group, each renamed in place. */
  lemma MappedSpec(userGroups: seq<string>)
    ensures |UserGroupsMapped(userGroups)| == |OptionsUserGroups(userGroups)|
    ensures forall i :: 0 <= i < |OptionsUserGroups(userGroups)| ==>
              UserGroupsMapped(userGroups)[i] == StripCh(OptionsUserGroups(userGroups)[i])
  {
  }

  /**
   After the `Everyone|TermsAndConditions` filter no name mentions either
   word, every mapped name that mentions neither is still there as often as
   before, and the survivors keep their order.
   */
  lemma UpdatedSpec(userGroups: seq<string>)
    ensures forall i :: 0 <= i < |UpdatedUserGroups(userGroups)| ==>
              !Includes(UpdatedUserGroups(userGroups)[i], "Everyone") &&
              !Includes(UpdatedUserGroups(userGroups)[i], "TermsAndConditions")
    ensures forall x :: multiset(UpdatedUserGroups(userGroups))[x] ==
              if Shown(x) then multiset(UserGroupsMapped(userGroups))[x] else 0
    ensures IsSubsequence(UpdatedUserGroups(userGroups), UserGroupsMapped(userGroups))
  {
    FilterCounts(UserGroupsMapped(userGroups), Shown);
    FilterIsSubsequence(UserGroupsMapped(userGroups), Shown);
  }

  /**
   The de-duplicated list holds each filtered name exactly once, in the order
   of its first occurrence.
   */
  lemma UniqueSpec(userGroups: seq<string>)
    ensures var updated := UpdatedUserGroups(userGroups);
            var unique := UniqueUserGroups(userGroups);
            Distinct(unique) &&
            (forall x :: x in unique <==> x in updated) &&
            (forall i, j :: 0 <= i < j < |unique| ==> FirstIndex(updated, unique[i]) < FirstIndex(updated, unique[j]))
  {
    DedupSpec(UpdatedUserGroups(userGroups));
  }

  /**
   The output has one entry per de-duplicated name, never more entries than
   the input, and entry `i` is the `Base`/`Role` renaming of the `i`-th
   de-duplicated name.
   */
  lemma ProcessShape(userGroups: seq<string>)
    ensures |ProcessUserGroups(userGroups)| == |UniqueUserGroups(userGroups)| <= |userGroups|
    ensures forall i :: 0 <= i < |UniqueUserGroups(userGroups)| ==>
              ProcessUserGroups(userGroups)[i] == StripBaseRole(UniqueUserGroups(userGroups)[i])
  {
  }

  // ---------------------------------------------------------------------------
  // Whole-pipeline shortcuts

  /** When no group is a `.Base` or `.Role` group, the first two steps keep the input as it is. */
  lemma OptionsKeepAll(userGroups: seq<string>)
    requires forall i :: 0 <= i < |userGroups| ==> NotBaseOrRole(userGroups[i])
    ensures OptionsUserGroups(userGroups) == userGroups
  {
    FilterKeepsAll(userGroups, NotBaseOrRole);
    ConsumerRuleIsInert(userGroups);
  }

  /** When every renamed group mentions `Everyone` or `TermsAndConditions`, the panel lists nothing. */
  lemma AllHiddenListsNothing(userGroups: seq<string>)
    requires forall i :: 0 <= i < |UserGroupsMapped(userGroups)| ==> !Shown(UserGroupsMapped(userGroups)[i])
    ensures ProcessUserGroups(userGroups) == []
  {
  }

  /** A non-empty value without a `.` in which no word of the pattern occurs is not renamed. */
  lemma RenameUntouched(value: string, pattern: seq<string>)
    requires Literals(pattern) && value != "" && '.' !in value
    requires forall k :: 0 <= k < |pattern| ==> !Includes(value, pattern[k])
    ensures Rename(value, pattern) == value
  {
    RenameWithoutMatch(value, pattern);
    ReplaceFirstIsSplice(value, '.', ' ');
  }

  /** A value whose stripped text is non-empty and has no `.` is renamed to that text. */
  lemma RenameToStripped(value: string, pattern: seq<string>, stripped: string)
    requires Literals(pattern) && RemoveAll(value, pattern) == stripped
    requires stripped != "" && '.' !in stripped
    ensures Rename(value, pattern) == stripped
  {
    ReplaceFirstIsSplice(stripped, '.', ' ');
  }

  // ---------------------------------------------------------------------------
  // Character-level shortcuts for concrete names

  /** A name without a `.` is never a `.Base` or `.Role` group. */
  lemma KeptWithoutDot(group: string)
    requires '.' !in group
    ensures NotBaseOrRole(group)
  {
    MissingCharExcludes(group, ".Base", '.');
    MissingCharExcludes(group, ".Role", '.');
  }

  /** A name without `B` and `l` is never a `.Base` or `.Role` group. */
  lemma KeptWithoutBl(group: string)
    requires 'B' !in group && 'l' !in group
    ensures NotBaseOrRole(group)
  {
    MissingCharExcludes(group, ".Base", 'B');
    MissingCharExcludes(group, ".Role", 'l');
  }

  /** A name without `E` and `T` mentions neither hidden word. */
  lemma ShownWithoutET(name: string)
    requires 'E' !in name && 'T' !in name
    ensures Shown(name)
  {
    MissingCharExcludes(name, "Everyone", 'E');
    MissingCharExcludes(name, "TermsAndConditions", 'T');
  }

  /** Without `h` and `H` the `ch`/`CH.` step only turns the first `.` into a space. */
  lemma StripChDotOnly(value: string)
    requires value != "" && 'h' !in value && 'H' !in value
    ensures StripCh(value) == ReplaceFirst(value, '.', ' ')
  {
    MissingCharExcludes(value, "ch", 'h');
    MissingCharExcludes(value, "CH.", 'H');
    RenameWithoutMatch(value, ChPattern);
  }

  /** Without `B` and `l` the `Base`/`Role` step only turns the first `.` into a space. */
  lemma StripBaseRoleDotOnly(value: string)
    requires value != "" && 'B' !in value && 'l' !in value
    ensures StripBaseRole(value) == ReplaceFirst(value, '.', ' ')
  {
    MissingCharExcludes(value, "Base", 'B');
    MissingCharExcludes(value, "Role", 'l');
    RenameWithoutMatch(value, BaseRolePattern);
  }

  /** A non-empty name without `.`, `h` and `H` survives the `ch`/`CH.` step unchanged. */
  lemma StripChUntouched(value: string)
    requires value != "" && '.' !in value && 'h' !in value && 'H' !in value
    ensures StripCh(value) == value
  {
    StripChDotOnly(value);
    ReplaceFirstIsSplice(value, '.', ' ');
  }

  /** A non-empty name without `.`, `B` and `l` survives the `Base`/`Role` step unchanged. */
  lemma StripBaseRoleUntouched(value: string)
    requires value != "" && '.' !in value && 'B' !in value && 'l' !in value
    ensures StripBaseRole(value) == value
  {
    StripBaseRoleDotOnly(value);
    ReplaceFirstIsSplice(value, '.', ' ');
  }

  /**
   Deleting a `Base` that sits between two pieces holding neither pattern
   word nor a `.` joins the pieces: the deletion can create text that the
   earlier filters never saw.
   */
  lemma BaseDeletionJoins(a: string, c: string)
    requires 'B' !in a && 'R' !in a && '.' !in a
    requires 'B' !in c && 'R' !in c && '.' !in c
    requires a + c != ""
    ensures StripBaseRole(a + "Base" + c) == a + c
  {
    var bc := "Base" + c;
    assert a + "Base" + c == a + bc;
    RemoveAllSkipsPrefix(a, bc, BaseRolePattern);
    assert BaseRolePattern[0] <= bc && bc[4..] == c;
    RemoveAllDeletesMatch(bc, BaseRolePattern, 0);
    assert c + [] == c;
    RemoveAllSkipsPrefix(c, [], BaseRolePattern);
    RenameToStripped(a + "Base" + c, BaseRolePattern, a + c);
  }
}
