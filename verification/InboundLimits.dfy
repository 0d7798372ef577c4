/** Finding the inbound limits that are missing or zero, and filling them in the configuration. */
module InboundLimits {
  import opened LimitText
  import opened Outcomes
  import opened Sequences
  import opened Texts

  type Chain = string

  /** Outbound text is absent, empty or written; the inbound table is absent or has some sources. */
  datatype Limits = Limits(outbound: Option<string>, inbound: Option<map<Chain, string>>)

  /** A chain's configuration, as far as limits go; another field stands for the rest of it. */
  datatype ChainConfig = ChainConfig(limits: Option<Limits>, other: string)

  type Chains = map<Chain, ChainConfig>

  datatype Group = Group(sources: seq<Chain>, defaultLimit: string, decimals: nat)

  // ---------- what is missing ----------

  function Outbound(config: Chains, destination: Chain): Option<string>
  {
    if destination in config && config[destination].limits.Some? then config[destination].limits.value.outbound
    else None
  }

  function Inbound(config: Chains, destination: Chain, source: Chain): Option<string>
  {
    if && destination in config && config[destination].limits.Some? && config[destination].limits.value.inbound.Some?
       && source in config[destination].limits.value.inbound.value
    then Some(config[destination].limits.value.inbound.value[source])
    else None
  }

  /** The destination has an outbound limit whose decimals can be told. */
  predicate HasOutbound(config: Chains, destination: Chain) {
    var outbound := Outbound(config, destination);
    outbound.Some? && outbound.value != "" && GetDecimalsFromLimit(outbound.value).Some?
  }

  predicate InScope(newChain: Option<Chain>, destination: Chain, source: Chain) {
    source != destination && (newChain == None || source == newChain.value || destination == newChain.value)
  }

  predicate MissingOrZero(limit: Option<string>) { limit.Some? ==> IsZeroLimit(limit.value) }

  /** A pair to be asked for. */
  predicate Listed(config: Chains, names: seq<Chain>, newChain: Option<Chain>, destination: Chain, source: Chain) {
    && (newChain.Some? ==> newChain.value in names)
    && destination in names && source in names && InScope(newChain, destination, source)
    && HasOutbound(config, destination) && MissingOrZero(Inbound(config, destination, source))
  }

  /** The listed sources of a destination, in configuration order. */
  function SourcesOf(config: Chains, names: seq<Chain>, newChain: Option<Chain>, destination: Chain,
                     among: seq<Chain>): seq<Chain>
  {
    if among == [] then [] else
      var n := |among| - 1;
      SourcesOf(config, names, newChain, destination, among[..n]) +
      (if Listed(config, names, newChain, destination, among[n]) then [among[n]] else [])
  }

  predicate IsGroup(config: Chains, destination: Chain, sources: seq<Chain>, g: Group) {
    && HasOutbound(config, destination)
    && g == Group(sources, Outbound(config, destination).value,
                  GetDecimalsFromLimit(Outbound(config, destination).value).value)
  }

  /** One group per destination with a listed source, holding exactly its listed sources. */
  ghost predicate ExactGroups(config: Chains, names: seq<Chain>, newChain: Option<Chain>, groups: map<Chain, Group>) {
    forall d ::
      && (d in groups <==> d in names && SourcesOf(config, names, newChain, d, names) != [])
      && (d in groups ==> IsGroup(config, d, SourcesOf(config, names, newChain, d, names), groups[d]))
  }

  lemma {:induction false} SourcesAreListed(config: Chains, names: seq<Chain>, newChain: Option<Chain>,
                                            destination: Chain, among: seq<Chain>)
    ensures forall s :: s in SourcesOf(config, names, newChain, destination, among) <==>
              s in among && Listed(config, names, newChain, destination, s)
  {
    hide Listed;
    if among != [] {
      var n := |among| - 1;
      SourcesAreListed(config, names, newChain, destination, among[..n]);
      assert among == among[..n] + [among[n]];
    }
  }

  /**
   * A pair is listed when both are other chains of the configuration, one of them the new one if there is
   * one, the destination has an outbound limit with one dot, and the inbound one is absent or all zeros.
   */
  lemma ListedIs(config: Chains, names: seq<Chain>, newChain: Option<Chain>, d: Chain, s: Chain)
    ensures Listed(config, names, newChain, d, s) <==>
              && d in names && s in names && d != s
              && (newChain.Some? ==> newChain.value in names && (d == newChain.value || s == newChain.value))
              && Outbound(config, d).Some? && Outbound(config, d).value != ""
              && |Split(Outbound(config, d).value)| == 2
              && (Inbound(config, d, s) == None || ReadsZero(Inbound(config, d, s).value))
  {
    hide Outbound, Inbound, Split, RemoveDots;
    if Inbound(config, d, s).Some? {
      ZerosOnly(RemoveDots(Inbound(config, d, s).value));
    }
  }

  predicate ReadsZero(text: string) {
    RemoveDots(text) != "" && forall c :: c in RemoveDots(text) ==> c == '0'
  }

  lemma ZerosOnly(t: string)
    ensures AllZeros(t) <==> forall c :: c in t ==> c == '0'
  {
    forall i | (forall c :: c in t ==> c == '0') && 0 <= i < |t|
      ensures t[i] == '0'
    {
      assert t[i] in t;
    }
  }

  /** A pair is in a group exactly when it is listed, and the group shows its destination's outbound limit. */
  lemma GroupedExactly(config: Chains, names: seq<Chain>, newChain: Option<Chain>, groups: map<Chain, Group>,
                       d: Chain, s: Chain)
    requires ExactGroups(config, names, newChain, groups)
    ensures (d in groups && s in groups[d].sources) <==> Listed(config, names, newChain, d, s)
    ensures d in groups ==>
              && Outbound(config, d) == Some(groups[d].defaultLimit)
              && groups[d].decimals == |Split(groups[d].defaultLimit)[1]|
  {
    SourcesAreListed(config, names, newChain, d, names);
    hide SourcesOf, Outbound, Inbound, Split, RemoveDots;
  }

  lemma SourcesStart(config: Chains, names: seq<Chain>, newChain: Option<Chain>, destination: Chain)
    ensures SourcesOf(config, names, newChain, destination, names[..0]) == []
  {
  }

  lemma SourcesStep(config: Chains, names: seq<Chain>, newChain: Option<Chain>, destination: Chain, j: nat)
    requires j < |names|
    ensures var before := SourcesOf(config, names, newChain, destination, names[..j]);
            SourcesOf(config, names, newChain, destination, names[..j + 1]) ==
              if Listed(config, names, newChain, destination, names[j]) then before + [names[j]] else before
  {
    hide Listed;
    assert names[..j + 1][..j] == names[..j];
  }

  /** The loop over one destination's sources. */
  method CollectSources(config: Chains, names: seq<Chain>, newChain: Option<Chain>, destination: Chain,
                        outbound: string, decimals: nat, first: map<Chain, Group>) returns (groups: map<Chain, Group>)
    requires newChain.Some? ==> newChain.value in names
    requires destination in names && HasOutbound(config, destination) && destination !in first
    requires Outbound(config, destination) == Some(outbound) && GetDecimalsFromLimit(outbound) == Some(decimals)
    ensures var sources := SourcesOf(config, names, newChain, destination, names);
            groups == if sources == [] then first else first[destination := Group(sources, outbound, decimals)]
  {
    hide HasOutbound, GetDecimalsFromLimit, Inbound, IsZeroLimit, SourcesOf;
    groups := first;
    SourcesStart(config, names, newChain, destination);
    for j := 0 to |names|
      invariant var sources := SourcesOf(config, names, newChain, destination, names[..j]);
                groups == if sources == [] then first else first[destination := Group(sources, outbound, decimals)]
    {
      var source := names[j];
      SourcesStep(config, names, newChain, destination, j);
      if source == destination {
        continue;
      }
      if newChain.Some? && source != newChain.value && destination != newChain.value {
        continue;
      }
      var current := Inbound(config, destination, source);
      if current.Some? && !IsZeroLimit(current.value) {
        continue;
      }
      if destination in groups {
        groups := groups[destination := groups[destination].(sources := groups[destination].sources + [source])];
      } else {
        assert [] + [source] == [source];
        groups := groups[destination := Group([source], outbound, decimals)];
      }
    }
    assert names[..|names|] == names;
  }

  lemma {:induction false} NoSources(config: Chains, names: seq<Chain>, newChain: Option<Chain>, destination: Chain,
                                     among: seq<Chain>)
    requires !HasOutbound(config, destination) || (newChain.Some? && newChain.value !in names)
    ensures SourcesOf(config, names, newChain, destination, among) == []
  {
    if among != [] {
      NoSources(config, names, newChain, destination, among[..|among| - 1]);
    }
  }

  ghost predicate GroupsOf(config: Chains, names: seq<Chain>, newChain: Option<Chain>, done: seq<Chain>,
                           groups: map<Chain, Group>) {
    forall d ::
      && (d in groups <==> d in done && SourcesOf(config, names, newChain, d, names) != [])
      && (d in groups ==> IsGroup(config, d, SourcesOf(config, names, newChain, d, names), groups[d]))
  }

  /** How localeCompare orders the names. */
  type Comparison = (Chain, Chain) -> bool

  ghost predicate Orders(before: Comparison, names: seq<Chain>) {
    && (forall a, b :: a in names && b in names && a != b ==> before(a, b) != before(b, a))
    && (forall a, b, c :: a in names && b in names && c in names && before(a, b) && before(b, c) ==> before(a, c))
  }

  ghost predicate Ordered(before: Comparison, s: seq<Chain>) { forall i, j :: 0 <= i < j < |s| ==> before(s[i], s[j]) }

  method Insert(before: Comparison, names: seq<Chain>, sorted: seq<Chain>, x: Chain) returns (longer: seq<Chain>)
    requires Orders(before, names) && Ordered(before, sorted) && Distinct(sorted)
    requires x in names && x !in sorted && forall y :: y in sorted ==> y in names
    ensures Ordered(before, longer) && Distinct(longer) && forall y :: y in longer <==> y == x || y in sorted
  {
    hide Distinct;
    var k := 0;
    while k < |sorted| && before(sorted[k], x)
      invariant k <= |sorted| && forall i :: 0 <= i < k ==> before(sorted[i], x)
    {
      k := k + 1;
    }
    forall i | k <= i < |sorted|
      ensures before(x, sorted[i])
    {
      assert sorted[k] in sorted && sorted[i] in sorted;
    }
    longer := sorted[..k] + [x] + sorted[k..];
    InsertedOrder(before, sorted, x, k);
    InsertedItems(sorted, x, k);
  }

  lemma InsertedOrder(before: Comparison, sorted: seq<Chain>, x: Chain, k: nat)
    requires k <= |sorted| && Ordered(before, sorted)
    requires forall i :: 0 <= i < k ==> before(sorted[i], x)
    requires forall i :: k <= i < |sorted| ==> before(x, sorted[i])
    ensures Ordered(before, sorted[..k] + [x] + sorted[k..])
  {
  }

  lemma InsertedItems(sorted: seq<Chain>, x: Chain, k: nat)
    requires k <= |sorted| && Distinct(sorted) && x !in sorted
    ensures var longer := sorted[..k] + [x] + sorted[k..];
            Distinct(longer) && forall y :: y in longer <==> y == x || y in sorted
  {
    assert sorted == sorted[..k] + sorted[k..];
  }

  /** The destinations of the groups, in the order in which the groups are returned. */
  method SortGroups(before: Comparison, names: seq<Chain>, groups: map<Chain, Group>) returns (sorted: seq<Chain>)
    requires Orders(before, names) && forall d :: d in groups ==> d in names
    ensures Ordered(before, sorted) && Distinct(sorted) && forall d :: d in sorted <==> d in groups
  {
    sorted := [];
    for i := 0 to |names|
      invariant Ordered(before, sorted) && Distinct(sorted)
      invariant forall d :: d in sorted <==> d in names[..i] && d in groups
    {
      assert names[..i + 1] == names[..i] + [names[i]];
      if names[i] in groups && names[i] !in sorted {
        sorted := Insert(before, names, sorted, names[i]);
      }
    }
    assert names[..|names|] == names;
  }

  /** The pairs to ask for, grouped by destination, and the destinations in order. */
  method CollectMissingInboundGroups(config: Chains, names: seq<Chain>, newChain: Option<Chain>, before: Comparison)
    returns (groups: map<Chain, Group>, sorted: seq<Chain>)
    requires Distinct(names) && Orders(before, names)
    ensures ExactGroups(config, names, newChain, groups)
    ensures Ordered(before, sorted) && Distinct(sorted) && forall d :: d in sorted <==> d in groups
  {
    groups := CollectGroups(config, names, newChain);
    hide SourcesOf;
    sorted := SortGroups(before, names, groups);
  }

  method CollectGroups(config: Chains, names: seq<Chain>, newChain: Option<Chain>) returns (groups: map<Chain, Group>)
    requires Distinct(names)
    ensures ExactGroups(config, names, newChain, groups)
  {
    hide HasOutbound, SourcesOf, Outbound, GetDecimalsFromLimit;
    groups := map[];
    if newChain.Some? && newChain.value !in names {
      forall d
        ensures SourcesOf(config, names, newChain, d, names) == []
      {
        NoSources(config, names, newChain, d, names);
      }
      return;
    }
    for i := 0 to |names|
      invariant GroupsOf(config, names, newChain, names[..i], groups)
    {
      var destination := names[i];
      assert names[..i + 1] == names[..i] + [destination];
      assert destination !in names[..i];
      var outbound := Outbound(config, destination);
      ghost var before := groups;
      OutboundKnown(config, destination);
      if outbound == None || outbound.value == "" {
        NoSources(config, names, newChain, destination, names);
        continue;
      }
      var decimals := GetDecimalsFromLimit(outbound.value);
      if decimals == None {
        NoSources(config, names, newChain, destination, names);
        continue;
      }
      groups := CollectSources(config, names, newChain, destination, outbound.value, decimals.value, groups);
      GroupAdded(config, names, newChain, names[..i], before, destination, groups);
    }
    assert names[..|names|] == names;
  }

  lemma OutboundKnown(config: Chains, destination: Chain)
    ensures var outbound := Outbound(config, destination);
            HasOutbound(config, destination) <==>
              outbound.Some? && outbound.value != "" && GetDecimalsFromLimit(outbound.value).Some?
  {
  }

  lemma GroupAdded(config: Chains, names: seq<Chain>, newChain: Option<Chain>, done: seq<Chain>,
                   before: map<Chain, Group>, d: Chain, groups: map<Chain, Group>)
    requires GroupsOf(config, names, newChain, done, before) && d !in done && HasOutbound(config, d)
    requires var sources := SourcesOf(config, names, newChain, d, names);
             var outbound := Outbound(config, d).value;
             groups == if sources == [] then before
                       else before[d := Group(sources, outbound, GetDecimalsFromLimit(outbound).value)]
    ensures GroupsOf(config, names, newChain, done + [d], groups)
  {
    hide SourcesOf, HasOutbound, Outbound, GetDecimalsFromLimit;
  }

  // ---------- filling them in ----------

  /**
   * What is answered: the default for a whole destination, or texts typed for one source after the
   * other until one is valid. When they run out the prompt has been aborted, and with it the program.
   */
  datatype Answers = Answers(acceptDefault: Chain -> bool, typed: (Chain, Chain) -> seq<string>)

  /** An empty answer takes the default, and "0" a zero with the right decimals. */
  function TypedValue(answer: string, defaultLimit: string, decimals: nat): string
  {
    if answer == "" then defaultLimit
    else if answer == "0" then (if decimals == 0 then "0" else "0." + PadEnd("", decimals))
    else answer
  }

  /** The value of the first valid answer. */
  function FirstValid(typed: seq<string>, defaultLimit: string, decimals: nat): (v: Option<string>)
    ensures v.Some? ==> IsValidLimit(v.value, decimals)
    ensures v.None? <==> forall a :: a in typed ==> !IsValidLimit(TypedValue(a, defaultLimit, decimals), decimals)
  {
    if typed == [] then None
    else if IsValidLimit(TypedValue(typed[0], defaultLimit, decimals), decimals)
    then Some(TypedValue(typed[0], defaultLimit, decimals))
    else FirstValid(typed[1..], defaultLimit, decimals)
  }

  lemma NextAnswer(typed: seq<string>, defaultLimit: string, decimals: nat)
    requires typed != []
    ensures FirstValid(typed, defaultLimit, decimals) ==
              var value := TypedValue(typed[0], defaultLimit, decimals);
              if IsValidLimit(value, decimals) then Some(value) else FirstValid(typed[1..], defaultLimit, decimals)
  {
    hide IsValidLimit, TypedValue;
  }

  /** The limit a pair ends with; none if its prompt is aborted. */
  function Chosen(answers: Answers, destination: Chain, source: Chain, group: Group): Option<string>
  {
    if answers.acceptDefault(destination) then Some(group.defaultLimit)
    else FirstValid(answers.typed(destination, source), group.defaultLimit, group.decimals)
  }

  ghost predicate AllChosen(groups: map<Chain, Group>, answers: Answers) {
    forall d, s :: d in groups && s in groups[d].sources ==> Chosen(answers, d, s, groups[d]).Some?
  }

  /** The loop that asks again after an invalid text. */
  method AskLimit(typed: seq<string>, group: Group) returns (limit: Option<string>)
    ensures limit == FirstValid(typed, group.defaultLimit, group.decimals)
  {
    hide IsValidLimit, PadEnd, FirstValid;
    var i := 0;
    while i < |typed|
      invariant i <= |typed|
      invariant FirstValid(typed, group.defaultLimit, group.decimals)
                == FirstValid(typed[i..], group.defaultLimit, group.decimals)
    {
      NextAnswer(typed[i..], group.defaultLimit, group.decimals);
      assert typed[i..][1..] == typed[i + 1..];
      var answer := typed[i];
      var value := if answer == "" then group.defaultLimit else answer;
      if answer == "0" {
        value := if group.decimals == 0 then "0" else "0." + PadEnd("", group.decimals);
      }
      if IsValidLimit(value, group.decimals) {
        return Some(value);
      }
      i := i + 1;
    }
    return None;
  }

  function WithInbound(c: ChainConfig, source: Chain, limit: string): ChainConfig
  {
    var limits := if c.limits.Some? then c.limits.value else Limits(Some("0.0"), Some(map[]));
    var inbound := if limits.inbound.Some? then limits.inbound.value else map[];
    c.(limits := Some(limits.(inbound := Some(inbound[source := limit]))))
  }

  type Wanted = (Chain, Chain) -> Option<string>

  /** Exactly the asked pairs have their chosen values; everything else is as it was. */
  ghost predicate FilledIn(before: Chains, after: Chains, wanted: Wanted) {
    && after.Keys == before.Keys
    && (forall d :: d in before ==> after[d].other == before[d].other && Outbound(after, d) == Outbound(before, d))
    && (forall d, s :: Inbound(after, d, s) == if wanted(d, s).Some? then wanted(d, s) else Inbound(before, d, s))
  }

  class DeploymentFile {
    var chains: Chains

    constructor (chains: Chains)
      ensures this.chains == chains
    {
      this.chains := chains;
    }

    method SetInboundLimit(destination: Chain, source: Chain, limit: string)
      modifies this
      ensures destination !in old(chains) ==> chains == old(chains)
      ensures destination in old(chains) ==>
                chains == old(chains)[destination := WithInbound(old(chains)[destination], source, limit)]
    {
      if destination !in chains {
        return;
      }
      var c := chains[destination];
      if c.limits == None {
        c := c.(limits := Some(Limits(Some("0.0"), Some(map[]))));
      }
      if c.limits.value.inbound == None {
        c := c.(limits := Some(c.limits.value.(inbound := Some(map[]))));
      }
      c := c.(limits := Some(c.limits.value.(inbound := Some(c.limits.value.inbound.value[source := limit]))));
      chains := chains[destination := c];
    }

    /** Fills in one group; false if a prompt is aborted. */
    method ApplyGroup(destination: Chain, group: Group, answers: Answers) returns (finished: bool)
      requires HasOutbound(chains, destination)
      modifies this
      ensures finished <==> forall s :: s in group.sources ==> Chosen(answers, destination, s, group).Some?
      ensures finished ==> FilledIn(old(chains), chains, GroupWants(destination, group.sources, group, answers))
    {
      hide FilledIn, WithInbound, HasOutbound, FirstValid;
      NothingWanted(chains, destination, group, answers);
      for i := 0 to |group.sources|
        invariant forall s :: s in group.sources[..i] ==> Chosen(answers, destination, s, group).Some?
        invariant FilledIn(old(chains), chains, GroupWants(destination, group.sources[..i], group, answers))
      {
        var source := group.sources[i];
        assert group.sources[..i + 1] == group.sources[..i] + [source];
        var value := Some(group.defaultLimit);
        if !answers.acceptDefault(destination) {
          value := AskLimit(answers.typed(destination, source), group);
        }
        assert source in group.sources && value == Chosen(answers, destination, source, group);
        if value == None {
          return false;
        }
        OneMoreWanted(old(chains), chains, destination, group.sources[..i], source, group, answers);
        SetInboundLimit(destination, source, value.value);
      }
      assert group.sources[..|group.sources|] == group.sources;
      return true;
    }

    method FillGroups(groups: map<Chain, Group>, sorted: seq<Chain>, answers: Answers) returns (finished: bool)
      requires (forall d :: d in groups ==> HasOutbound(chains, d)) && forall d :: d in sorted <==> d in groups
      requires Distinct(sorted)
      modifies this
      ensures finished <==> AllChosen(groups, answers)
      ensures finished ==> FilledIn(old(chains), chains, GroupsWant(groups.Keys, groups, answers))
    {
      hide FilledIn, HasOutbound, GroupsWant, GroupWants, Chosen;
      ghost var first := chains;
      ghost var done: set<Chain> := {};
      NoGroupWanted(chains, groups, answers);
      for i := 0 to |sorted|
        invariant forall d :: d in done <==> d in sorted[..i]
        invariant FilledIn(first, chains, GroupsWant(done, groups, answers))
        invariant forall d :: d in groups.Keys ==> HasOutbound(chains, d)
        invariant forall d, s :: d in done && s in groups[d].sources ==> Chosen(answers, d, s, groups[d]).Some?
      {
        var d := sorted[i];
        assert sorted[..i + 1] == sorted[..i] + [d] && d in sorted && d !in sorted[..i];
        ghost var middle := chains;
        var one := ApplyGroup(d, groups[d], answers);
        if !one {
          ghost var s :| s in groups[d].sources && Chosen(answers, d, s, groups[d]) == None;
          return false;
        }
        StillOutbound(middle, chains, GroupWants(d, groups[d].sources, groups[d], answers), groups.Keys);
        OneMoreGroup(first, middle, chains, done, d, groups, answers);
        done := done + {d};
      }
      assert sorted[..|sorted|] == sorted;
      assert done == groups.Keys;
      return true;
    }

    /**
     * Fills in every group, unless a prompt is aborted; nothing is written when prompts are skipped.
     */
    method ApplyInboundGroups(groups: map<Chain, Group>, sorted: seq<Chain>, skipPrompts: bool, answers: Answers)
      returns (updated: bool, finished: bool)
      requires (forall d :: d in groups ==> HasOutbound(chains, d)) && forall d :: d in sorted <==> d in groups
      requires Distinct(sorted)
      modifies this
      ensures finished <==> groups.Keys == {} || skipPrompts || AllChosen(groups, answers)
      ensures finished ==> (updated <==> groups.Keys != {} && !skipPrompts)
      ensures finished && !updated ==> chains == old(chains)
      ensures finished && updated ==> FilledIn(old(chains), chains, GroupsWant(groups.Keys, groups, answers))
    {
      hide FilledIn, HasOutbound, GroupsWant, AllChosen;
      if groups.Keys == {} || skipPrompts {
        return false, true;
      }
      finished := FillGroups(groups, sorted, answers);
      updated := finished;
    }
  }

  /** The limits wanted for the pairs of one destination. */
  function GroupWants(destination: Chain, sources: seq<Chain>, group: Group, answers: Answers): Wanted
  {
    (d: Chain, s: Chain) => if d == destination && s in sources then Chosen(answers, d, s, group) else None
  }

  function GroupsWant(done: set<Chain>, groups: map<Chain, Group>, answers: Answers): Wanted
  {
    (d: Chain, s: Chain) =>
      if d in done && d in groups && s in groups[d].sources then Chosen(answers, d, s, groups[d]) else None
  }

  lemma NothingWanted(config: Chains, destination: Chain, group: Group, answers: Answers)
    ensures FilledIn(config, config, GroupWants(destination, group.sources[..0], group, answers))
  {
  }

  lemma NoGroupWanted(config: Chains, groups: map<Chain, Group>, answers: Answers)
    ensures FilledIn(config, config, GroupsWant({}, groups, answers))
  {
  }

  /** Setting one limit shows only there. */
  lemma SetShows(config: Chains, destination: Chain, source: Chain, limit: string)
    requires destination in config && config[destination].limits.Some?
    ensures var after := config[destination := WithInbound(config[destination], source, limit)];
            && after.Keys == config.Keys
            && (forall d :: d in config ==>
                  after[d].other == config[d].other && Outbound(after, d) == Outbound(config, d))
            && (forall d, s :: Inbound(after, d, s) ==
                  if d == destination && s == source then Some(limit) else Inbound(config, d, s))
  {
  }

  lemma OneMoreWanted(before: Chains, now: Chains, destination: Chain, done: seq<Chain>, source: Chain,
                      group: Group, answers: Answers)
    requires FilledIn(before, now, GroupWants(destination, done, group, answers)) && HasOutbound(before, destination)
    requires Chosen(answers, destination, source, group).Some?
    ensures destination in now
    ensures var limit := Chosen(answers, destination, source, group).value;
            FilledIn(before, now[destination := WithInbound(now[destination], source, limit)],
                     GroupWants(destination, done + [source], group, answers))
  {
    hide Inbound, WithInbound, GetDecimalsFromLimit, Chosen;
    HasLimits(before, destination);
    HasLimits(now, destination);
    SetShows(now, destination, source, Chosen(answers, destination, source, group).value);
  }

  lemma HasLimits(config: Chains, d: Chain)
    requires Outbound(config, d).Some?
    ensures d in config && config[d].limits.Some?
  {
  }

  lemma StillOutbound(before: Chains, after: Chains, wanted: Wanted, ds: set<Chain>)
    requires FilledIn(before, after, wanted) && forall d :: d in ds ==> HasOutbound(before, d)
    ensures forall d :: d in ds ==> HasOutbound(after, d)
  {
    hide Inbound, GetDecimalsFromLimit;
    forall d | d in ds
      ensures HasOutbound(after, d)
    {
      HasLimits(before, d);
      assert Outbound(after, d) == Outbound(before, d);
    }
  }

  lemma OneMoreGroup(before: Chains, middle: Chains, after: Chains, done: set<Chain>, d: Chain,
                     groups: map<Chain, Group>, answers: Answers)
    requires d in groups && d !in done
    requires FilledIn(before, middle, GroupsWant(done, groups, answers))
    requires FilledIn(middle, after, GroupWants(d, groups[d].sources, groups[d], answers))
    ensures FilledIn(before, after, GroupsWant(done + {d}, groups, answers))
  {
    hide Inbound, Outbound, Chosen;
  }

  // ---------- asking again ----------

  /** After filling in, a pair is listed again exactly when it was listed and a zero was chosen. */
  lemma ListedAgain(before: Chains, after: Chains, names: seq<Chain>, newChain: Option<Chain>,
                    groups: map<Chain, Group>, answers: Answers, d: Chain, s: Chain)
    requires ExactGroups(before, names, newChain, groups) && AllChosen(groups, answers)
    requires FilledIn(before, after, GroupsWant(groups.Keys, groups, answers))
    ensures Listed(after, names, newChain, d, s) <==>
              && Listed(before, names, newChain, d, s) && d in groups
              && Chosen(answers, d, s, groups[d]).Some? && IsZeroLimit(Chosen(answers, d, s, groups[d]).value)
    ensures !Listed(before, names, newChain, d, s) ==> Inbound(after, d, s) == Inbound(before, d, s)
  {
    hide Inbound, GetDecimalsFromLimit, IsZeroLimit, Chosen, ExactGroups;
    GroupedExactly(before, names, newChain, groups, d, s);
    assert d in before ==> Outbound(after, d) == Outbound(before, d);
  }

  /**
   * The limits of the listed pairs afterwards: the outbound limit where the default was accepted, and
   * otherwise a valid text with its decimals, which reads as a number.
   */
  lemma FilledIsValid(before: Chains, after: Chains, names: seq<Chain>, newChain: Option<Chain>,
                      groups: map<Chain, Group>, answers: Answers, d: Chain, s: Chain)
    requires ExactGroups(before, names, newChain, groups) && AllChosen(groups, answers)
    requires FilledIn(before, after, GroupsWant(groups.Keys, groups, answers))
    requires Listed(before, names, newChain, d, s)
    ensures Inbound(after, d, s).Some?
    ensures if answers.acceptDefault(d) then Inbound(after, d, s) == Outbound(before, d)
            else
              && IsValidLimit(Inbound(after, d, s).value, GetDecimalsFromLimit(Outbound(before, d).value).value)
              && BaseUnits(Inbound(after, d, s).value).Some?
  {
    hide Inbound, GetDecimalsFromLimit, IsValidLimit, BaseUnits, IsZeroLimit, SourcesOf;
    GroupedExactly(before, names, newChain, groups, d, s);
    assert IsGroup(before, d, SourcesOf(before, names, newChain, d, names), groups[d]);
    assert Inbound(after, d, s) == Chosen(answers, d, s, groups[d]);
    if !answers.acceptDefault(d) {
      ValidReads(Inbound(after, d, s).value, groups[d].decimals);
    }
  }

  lemma DefaultsChosen(groups: map<Chain, Group>, answers: Answers)
    requires forall d :: d in groups ==> answers.acceptDefault(d)
    ensures AllChosen(groups, answers)
  {
  }

  /** Accepting all defaults leaves nothing to ask for, exactly when no default is zero. */
  lemma DefaultsComplete(before: Chains, after: Chains, names: seq<Chain>, newChain: Option<Chain>,
                         groups: map<Chain, Group>, answers: Answers)
    requires ExactGroups(before, names, newChain, groups)
    requires FilledIn(before, after, GroupsWant(groups.Keys, groups, answers))
    requires forall d :: d in groups ==> answers.acceptDefault(d)
    ensures (forall d, s :: !Listed(after, names, newChain, d, s)) <==>
              forall d :: d in groups ==> !IsZeroLimit(Outbound(before, d).value)
  {
    hide Inbound, GetDecimalsFromLimit, IsZeroLimit, FilledIn, SourcesOf;
    DefaultsChosen(groups, answers);
    forall d, s
      ensures Listed(after, names, newChain, d, s) <==>
                Listed(before, names, newChain, d, s) && d in groups && IsZeroLimit(Outbound(before, d).value)
    {
      ListedAgain(before, after, names, newChain, groups, answers, d, s);
    }
    forall d | d in groups
      ensures exists s :: Listed(before, names, newChain, d, s)
    {
      assert groups[d].sources != [];
      GroupedExactly(before, names, newChain, groups, d, groups[d].sources[0]);
    }
  }

  /** Two chains, where the first has a zero outbound limit: accepting it as the default asks again. */
  lemma ZeroDefaultListedAgain()
    ensures var before := map["A" := ChainConfig(Some(Limits(Some("0.0"), None)), ""), "B" := ChainConfig(None, "")];
            var after := before["A" := WithInbound(before["A"], "B", Outbound(before, "A").value)];
            Listed(before, ["A", "B"], None, "A", "B") && Listed(after, ["A", "B"], None, "A", "B")
  {
    SplitTwo("0", "0");
    RemoveOneDot("0", "0");
    assert "0" + "." + "0" == "0.0" && "0" + "0" == "00";
    assert GetDecimalsFromLimit("0.0") == Some(1) && IsZeroLimit("0.0");
  }

  /** Collecting and filling in, for a pull or for a new chain. */
  method ConfigureInboundLimits(file: DeploymentFile, names: seq<Chain>, newChain: Option<Chain>, before: Comparison,
                                skipPrompts: bool, answers: Answers)
    returns (updated: bool, hadMissing: bool, finished: bool, groups: map<Chain, Group>)
    requires Distinct(names) && Orders(before, names)
    modifies file
    ensures ExactGroups(old(file.chains), names, newChain, groups)
    ensures hadMissing <==> exists d, s :: Listed(old(file.chains), names, newChain, d, s)
    ensures finished <==> !hadMissing || skipPrompts || AllChosen(groups, answers)
    ensures finished ==> (updated <==> hadMissing && !skipPrompts)
    ensures finished && !updated ==> file.chains == old(file.chains)
    ensures finished && updated ==>
              FilledIn(old(file.chains), file.chains, GroupsWant(groups.Keys, groups, answers))
  {
    hide FilledIn, GroupsWant, Listed, SourcesOf, AllChosen;
    var sorted;
    groups, sorted := CollectMissingInboundGroups(file.chains, names, newChain, before);
    hadMissing := groups.Keys != {};
    SomethingListed(file.chains, names, newChain, groups);
    updated, finished := file.ApplyInboundGroups(groups, sorted, skipPrompts, answers);
  }

  lemma SomethingListed(config: Chains, names: seq<Chain>, newChain: Option<Chain>, groups: map<Chain, Group>)
    requires ExactGroups(config, names, newChain, groups)
    ensures groups.Keys != {} <==> exists d, s :: Listed(config, names, newChain, d, s)
    ensures forall d :: d in groups ==> HasOutbound(config, d)
  {
    hide Listed, SourcesOf, HasOutbound;
    if groups.Keys != {} {
      var d :| d in groups.Keys;
      assert groups[d].sources != [];
      GroupedExactly(config, names, newChain, groups, d, groups[d].sources[0]);
    }
    if d, s :| Listed(config, names, newChain, d, s) {
      GroupedExactly(config, names, newChain, groups, d, s);
      assert d in groups.Keys;
    }
  }

  // ---------- what is typed ----------

  /** No answer takes the default, "0" is a zero with the right decimals, any other is taken as it is. */
  lemma TypedAs(answer: string, defaultLimit: string, decimals: nat)
    ensures var value := TypedValue(answer, defaultLimit, decimals);
            && (answer == "" ==> value == defaultLimit)
            && (answer == "0" ==> IsZeroLimit(value) && IsValidLimit(value, decimals))
            && (answer != "" && answer != "0" ==> value == answer)
  {
    if answer == "0" && decimals > 0 {
      var zeros := PadEnd("", decimals);
      assert zeros[0..] == zeros;
      assert "0." + zeros == "0" + "." + zeros;
      SplitTwo("0", zeros);
      RemoveOneDot("0", zeros);
    } else if answer == "0" {
      NoDotRemoved("0");
    }
  }

  /** The limit asked for is that of the first answer that is valid. */
  lemma {:induction false} FirstValidIs(typed: seq<string>, defaultLimit: string, decimals: nat) returns (i: nat)
    requires FirstValid(typed, defaultLimit, decimals).Some?
    ensures i < |typed| &&
              FirstValid(typed, defaultLimit, decimals) == Some(TypedValue(typed[i], defaultLimit, decimals))
    ensures forall j :: 0 <= j < i ==> !IsValidLimit(TypedValue(typed[j], defaultLimit, decimals), decimals)
  {
    hide IsValidLimit, TypedValue;
    if IsValidLimit(TypedValue(typed[0], defaultLimit, decimals), decimals) {
      i := 0;
    } else {
      var k := FirstValidIs(typed[1..], defaultLimit, decimals);
      i := k + 1;
      assert forall j :: 1 <= j < i ==> typed[j] == typed[1..][j - 1];
    }
  }

  /** A chain without limits gets a zero outbound one. */
  lemma TablesCreated(c: ChainConfig, source: Chain, limit: string)
    ensures var after := WithInbound(c, source, limit);
            && after.other == c.other && after.limits.Some? && after.limits.value.inbound.Some?
            && after.limits.value.outbound == (if c.limits == None then Some("0.0") else c.limits.value.outbound)
            && forall s :: var table := after.limits.value.inbound.value;
                 (if s in table then Some(table[s]) else None) ==
                   if s == source then Some(limit)
                   else if c.limits.Some? && c.limits.value.inbound.Some? && s in c.limits.value.inbound.value
                   then Some(c.limits.value.inbound.value[s]) else None
  {
  }
}
