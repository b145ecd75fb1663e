/**
 The state transitions of the popup's rule sidebar
 (packages/popup/src/components/Sidebar.tsx).

 The sidebar works on three shared cells: the ordered rule list, the index
 of the current rule and the global on/off switch. Each click handler is one
 atomic update of those cells, modelled as a method of `RuleStore`. The two
 label expressions the sidebar renders are pure functions.
 */
module Sidebar {
  import opened Schemas

  // ---------------------------------------------------------------------------
  // Labels
  // ---------------------------------------------------------------------------

  /** The rule's name as the sidebar shows it: an absent or empty name
      reads as "Untitled". */
  function DisplayName(r: Rule): (caption: string)
    ensures caption != []
    ensures r.name.Some? && r.name.value != [] ==> caption == r.name.value
    ensures caption != "Untitled" ==> r.name == Some(caption)
  {
    match r.name
    case Some(n) => if n != [] then n else "Untitled"
    case None => "Untitled"
  }

  /** The pattern the match mode selects (the entry's title). */
  function ActivePattern(mc: MatchConfig): (pattern: string)
    ensures pattern == mc.urlFilter || pattern == mc.urlRegexp
    ensures mc.urlFilter != mc.urlRegexp ==> (pattern == mc.urlRegexp <==> mc.matchMode == UrlRegexp)
  {
    match mc.matchMode
    case UrlFilter => mc.urlFilter
    case UrlRegexp => mc.urlRegexp
  }

  /** The match text under the name: the selected pattern, or
      "(Match all)" when that pattern is empty. */
  function MatchLabel(r: Rule): (caption: string)
    ensures caption != []
    ensures ActivePattern(r.matchConfig) != [] ==> caption == ActivePattern(r.matchConfig)
    ensures caption != "(Match all)" ==> caption == ActivePattern(r.matchConfig)
  {
    var pattern := ActivePattern(r.matchConfig);
    if pattern != [] then pattern else "(Match all)"
  }

  // ---------------------------------------------------------------------------
  // Sequence updates the handlers perform
  // ---------------------------------------------------------------------------

  /** The rule at `index`, if there is one: how the current rule is looked up. */
  function RuleAt(list: seq<Rule>, index: nat): (r: Option<Rule>)
    ensures r.Some? <==> index < |list|
    ensures r.Some? ==> r.value == list[index]
  {
    if index < |list| then Some(list[index]) else None
  }

  /** `s.splice(start, 1)` for a non-negative `start`: removes the element at
      `start` if there is one, and otherwise leaves `s` as it is. */
  function Splice1<T>(s: seq<T>, start: nat): (r: seq<T>)
    ensures start < |s| ==> |r| == |s| - 1
    ensures start < |s| ==> forall k :: 0 <= k < start ==> r[k] == s[k]
    ensures start < |s| ==> forall k :: start <= k < |r| ==> r[k] == s[k + 1]
    ensures start < |s| ==> multiset(r) + multiset{s[start]} == multiset(s)
    ensures start >= |s| ==> r == s
  {
    if start < |s| then
      assert s == s[..start] + [s[start]] + s[start + 1..];
      s[..start] + s[start + 1..]
    else
      s
  }

  /** The index after the self-healing effect: when the index resolves to no
      rule and the list is non-empty, it becomes 0. */
  function HealedIndex(list: seq<Rule>, index: nat): (r: nat)
    ensures r == index || r == 0
    ensures list != [] ==> RuleAt(list, r).Some?
    ensures RuleAt(list, index).Some? || list == [] ==> r == index
  {
    if RuleAt(list, index).None? && |list| > 0 then 0 else index
  }

  /** Healing twice is healing once. */
  lemma HealIdempotent(list: seq<Rule>, index: nat)
    ensures HealedIndex(list, HealedIndex(list, index)) == HealedIndex(list, index)
  {
  }

  /** Deleting the current rule and then healing: the index keeps naming
      the same position, which now holds the following rule; deleting the
      last of several rules sends it back to the first. */
  lemma DeleteThenHeal(list: seq<Rule>, index: nat)
    requires index < |list|
    ensures var rest := Splice1(list, index);
            var healed := HealedIndex(rest, index);
            && (index + 1 < |list| ==> healed == index && rest[healed] == list[index + 1])
            && (index + 1 == |list| && |list| > 1 ==> healed == 0 && rest[healed] == list[0])
            && (|list| == 1 ==> rest == [] && healed == index)
  {
  }

  /** The value the add handler hands to the rule schema. Its `regexp` key is
      not a schema field. */
  function AddSeed(): (v: Value)
    ensures v.Obj? && Field(v.fields, "matchConfig").Obj?
    ensures forall key | key in RuleKeys && key != "matchConfig" :: Field(v.fields, key).Undefined?
    ensures forall key | key in MatchConfigKeys :: Field(Field(v.fields, "matchConfig").fields, key).Undefined?
  {
    Obj(map["matchConfig" := Obj(map["regexp" := Str("")])])
  }

  /** The rule the add handler creates: every field at its default. */
  lemma AddSeedParses()
    ensures ParseRule(AddSeed()).Ok?
    ensures var r := ParseRule(AddSeed()).value;
            && r.active
            && r.name == None
            && r.headers == []
            && r.matchConfig == MatchConfig(UrlFilter, "", "", [], AvailableMethods, AvailableResourceTypes)
  {
    var m := AddSeed().fields;
    var mc := map["regexp" := Str("")];
    assert Field(m, "matchConfig") == Obj(mc);
    assert forall key | key in MatchConfigKeys :: Field(mc, key).Undefined?;
    ParseRuleOkIff(AddSeed());
    AbsentFieldsDefault(m);
  }

  // ---------------------------------------------------------------------------
  // The store
  // ---------------------------------------------------------------------------

  /** The rule list, the current index and the global switch. */
  class RuleStore {
    var list: seq<Rule>
    var currentRuleIndex: nat
    var globalActive: bool

    /** The state as loaded from storage. */
    constructor (list: seq<Rule>, currentRuleIndex: nat, globalActive: bool)
      ensures this.list == list
      ensures this.currentRuleIndex == currentRuleIndex
      ensures this.globalActive == globalActive
    {
      this.list := list;
      this.currentRuleIndex := currentRuleIndex;
      this.globalActive := globalActive;
    }

    /** The current rule, or none when the index is out of range. */
    function CurrentRule(): (r: Option<Rule>)
      reads this
      ensures r.Some? <==> currentRuleIndex < |list|
      ensures r.Some? ==> r.value == list[currentRuleIndex]
    {
      RuleAt(list, currentRuleIndex)
    }

    /** Clicking an entry selects it. */
    method Select(ruleIndex: nat)
      modifies this
      ensures currentRuleIndex == ruleIndex
      ensures list == old(list) && globalActive == old(globalActive)
    {
      currentRuleIndex := ruleIndex;
    }

    /** Clicking an entry's dot flips that rule's `active` flag. */
    method ToggleActive(ruleIndex: nat)
      requires ruleIndex < |list|
      modifies this
      ensures |list| == |old(list)|
      ensures list[ruleIndex].active == !old(list)[ruleIndex].active
      ensures list[ruleIndex].name == old(list)[ruleIndex].name
      ensures list[ruleIndex].headers == old(list)[ruleIndex].headers
      ensures list[ruleIndex].matchConfig == old(list)[ruleIndex].matchConfig
      ensures forall k :: 0 <= k < |list| && k != ruleIndex ==> list[k] == old(list)[k]
      ensures currentRuleIndex == old(currentRuleIndex) && globalActive == old(globalActive)
    {
      var rule := list[ruleIndex];
      list := list[ruleIndex := rule.(active := !rule.active)];
    }

    /** The add action: parse the seed, put the new rule first and select it. */
    method Add()
      modifies this
      ensures |list| == |old(list)| + 1
      ensures ParseRule(AddSeed()) == Ok(list[0])
      ensures forall k :: 0 <= k < |old(list)| ==> list[k + 1] == old(list)[k]
      ensures currentRuleIndex == 0
      ensures globalActive == old(globalActive)
    {
      var parsed := ParseRule(AddSeed());
      AddSeedParses();
      list := [parsed.value] + list;
      currentRuleIndex := 0;
    }

    /** The delete action: remove the current rule. The index is left as it
        is, so it may now name the next rule or nothing. */
    method Delete()
      modifies this
      ensures list == Splice1(old(list), old(currentRuleIndex))
      ensures currentRuleIndex == old(currentRuleIndex) && globalActive == old(globalActive)
    {
      list := Splice1(list, currentRuleIndex);
    }

    /** The header's action group: "add", "delete", and any other key does nothing. */
    method OnAction(key: string)
      modifies this
      ensures key == "add" ==> |list| > 0 && ParseRule(AddSeed()) == Ok(list[0]) && list[1..] == old(list) && currentRuleIndex == 0
      ensures key == "delete" ==> list == Splice1(old(list), old(currentRuleIndex)) && currentRuleIndex == old(currentRuleIndex)
      ensures key != "add" && key != "delete" ==> list == old(list) && currentRuleIndex == old(currentRuleIndex)
      ensures globalActive == old(globalActive)
    {
      if key == "add" {
        Add();
      } else if key == "delete" {
        Delete();
      }
    }

    /** The global switch overwrites the flag. */
    method SetGlobalActive(value: bool)
      modifies this
      ensures globalActive == value
      ensures list == old(list) && currentRuleIndex == old(currentRuleIndex)
    {
      globalActive := value;
    }

    /** The self-healing effect: with no current rule and a non-empty list,
        select the first rule. */
    method HealIndex()
      modifies this
      ensures currentRuleIndex == HealedIndex(old(list), old(currentRuleIndex))
      ensures list != [] ==> CurrentRule().Some?
      ensures list == old(list) && globalActive == old(globalActive)
    {
      if CurrentRule().None? && |list| > 0 {
        currentRuleIndex := 0;
      }
    }
  }
}
